/** The `transcript_chunks` table, keyed by `(session_id, chunk_index)`, with
    `/chunks/store` (INSERT OR REPLACE) and `/chunks/search`. */
module Chunks {
  import opened Wrappers
  import opened Rounding
  import opened Ranking
  import opened Vectors

  /** A row of `transcript_chunks` (`created_at` is left out). */
  datatype Chunk = Chunk(id: nat, sessionId: string, chunkIndex: int, content: string, embedding: Embedding)

  /** The columns of the UNIQUE constraint. */
  datatype ChunkKey = ChunkKey(sessionId: string, chunkIndex: int)

  function KeyOf(c: Chunk): ChunkKey {
    ChunkKey(c.sessionId, c.chunkIndex)
  }

  /** The table in scan order together with its AUTOINCREMENT counter. */
  datatype ChunkTable = ChunkTable(rows: seq<Chunk>, lastId: nat)

  /** UNIQUE(session_id, chunk_index), ids growing along the scan order and
      never past the counter. */
  predicate Valid(t: ChunkTable) {
    ValidRows(t.rows, t.lastId)
  }

  predicate ValidRows(rows: seq<Chunk>, lastId: nat) {
    && (forall i, j :: 0 <= i < j < |rows| ==> KeyOf(rows[i]) != KeyOf(rows[j]) && rows[i].id < rows[j].id)
    && (forall i :: 0 <= i < |rows| ==> rows[i].id <= lastId)
  }

  /** No two rows share a `(session_id, chunk_index)` key. */
  predicate KeysDistinct(rows: seq<Chunk>) {
    forall i, j :: 0 <= i < j < |rows| ==> KeyOf(rows[i]) != KeyOf(rows[j])
  }

  /** A row with a new key and a larger id may be appended to a valid table. */
  lemma ValidSnoc(w: seq<Chunk>, x: Chunk, lastId: nat)
    requires ValidRows(w, lastId) && x.id <= lastId
    requires forall c :: c in w ==> c.id < x.id && KeyOf(c) != KeyOf(x)
    ensures ValidRows(w + [x], lastId)
  {
    var r := w + [x];
    forall i, j | 0 <= i < j < |r| ensures KeyOf(r[i]) != KeyOf(r[j]) && r[i].id < r[j].id {
      if j == |w| {
        assert r[i] in w;
      }
    }
  }

  /** Removing the last row of a valid table leaves it valid, with every
      remaining row older than the removed one and of another key. */
  lemma ValidInit(rows: seq<Chunk>, lastId: nat)
    requires ValidRows(rows, lastId) && |rows| > 0
    ensures ValidRows(rows[..|rows| - 1], lastId)
    ensures forall c :: c in rows[..|rows| - 1] ==>
              c.id < rows[|rows| - 1].id && KeyOf(c) != KeyOf(rows[|rows| - 1])
  {
  }

  /** The rows whose key differs from `k`, in scan order: what the REPLACE
      conflict resolution leaves behind. */
  function WithoutKey(rows: seq<Chunk>, k: ChunkKey): (r: seq<Chunk>)
    ensures |r| <= |rows|
  {
    if |rows| == 0 then []
    else
      var init := WithoutKey(rows[..|rows| - 1], k);
      var last := rows[|rows| - 1];
      if KeyOf(last) == k then init else init + [last]
  }

  /** The surviving rows keep their scan order, and every row of another key
      is one of them. */
  lemma {:induction false} WithoutKeyPicks(rows: seq<Chunk>, k: ChunkKey) returns (m: seq<nat>)
    ensures Picks(WithoutKey(rows, k), rows, m)
    ensures forall i :: 0 <= i < |rows| && KeyOf(rows[i]) != k ==> i in m
  {
    if |rows| == 0 {
      m := [];
    } else {
      var n := |rows| - 1;
      var m' := WithoutKeyPicks(rows[..n], k);
      if KeyOf(rows[n]) == k {
        m := m';
      } else {
        m := m' + [n];
      }
    }
  }

  /** Exactly the rows of other keys survive. */
  lemma {:induction false} WithoutKeyMembers(rows: seq<Chunk>, k: ChunkKey)
    ensures forall c :: c in WithoutKey(rows, k) <==> c in rows && KeyOf(c) != k
  {
    if |rows| > 0 {
      var init := rows[..|rows| - 1];
      WithoutKeyMembers(init, k);
      assert rows == init + [rows[|rows| - 1]];
    }
  }

  /** The table read as a map from key to content; a later row shadows an
      earlier one with the same key. */
  function Contents(rows: seq<Chunk>): map<ChunkKey, string> {
    if |rows| == 0 then map[]
    else
      var last := rows[|rows| - 1];
      Contents(rows[..|rows| - 1])[KeyOf(last) := last.content]
  }

  /** Appending a row updates the map view at its key. */
  lemma ContentsSnoc(w: seq<Chunk>, x: Chunk)
    ensures Contents(w + [x]) == Contents(w)[KeyOf(x) := x.content]
  {
    assert (w + [x])[..|w|] == w;
  }

  lemma UpdateThenRemove<K, V>(m: map<K, V>, k: K, v: V)
    ensures m[k := v] - {k} == m - {k}
  {
  }

  lemma RemoveThenSet<K, V>(m: map<K, V>, k: K, v: V)
    ensures (m - {k})[k := v] == m[k := v]
  {
  }

  lemma RemoveThenUpdate<K, V>(m: map<K, V>, k: K, j: K, v: V)
    requires j != k
    ensures (m - {k})[j := v] == m[j := v] - {k}
  {
  }

  /** Dropping the rows of key `k` removes exactly `k` from the map view. */
  lemma {:induction false} ContentsWithoutKey(rows: seq<Chunk>, k: ChunkKey)
    ensures Contents(WithoutKey(rows, k)) == Contents(rows) - {k}
  {
    if |rows| > 0 {
      var init := rows[..|rows| - 1];
      var last := rows[|rows| - 1];
      ContentsWithoutKey(init, k);
      var w := WithoutKey(init, k);
      var m := Contents(init);
      assert Contents(rows) == m[KeyOf(last) := last.content];
      if KeyOf(last) == k {
        UpdateThenRemove(m, k, last.content);
      } else {
        ContentsSnoc(w, last);
        RemoveThenUpdate(m, k, KeyOf(last), last.content);
      }
    }
  }

  /** `INSERT OR REPLACE INTO transcript_chunks`: every row with key `k` is
      deleted and a new row with a fresh id is appended at the end of the scan
      order. */
  function Upsert(t: ChunkTable, k: ChunkKey, content: string, e: Embedding): (r: ChunkTable)
    ensures r.lastId == t.lastId + 1
    ensures |r.rows| > 0 && r.rows[|r.rows| - 1] == Chunk(r.lastId, k.sessionId, k.chunkIndex, content, e)
    ensures forall i :: 0 <= i < |r.rows| - 1 ==> KeyOf(r.rows[i]) != k
    ensures forall c :: c in r.rows && KeyOf(c) != k <==> c in t.rows && KeyOf(c) != k
    ensures r.rows[..|r.rows| - 1] == WithoutKey(t.rows, k)
    ensures Contents(r.rows) == Contents(t.rows)[k := content]
    ensures Valid(t) ==> Valid(r)
  {
    var kept := WithoutKey(t.rows, k);
    var row := Chunk(t.lastId + 1, k.sessionId, k.chunkIndex, content, e);
    var rows := kept + [row];
    assert Contents(rows) == Contents(t.rows)[k := content] by {
      ContentsSnoc(kept, row);
      ContentsWithoutKey(t.rows, k);
      RemoveThenSet(Contents(t.rows), k, content);
    }
    assert forall c :: c in rows && KeyOf(c) != k <==> c in t.rows && KeyOf(c) != k by {
      WithoutKeyMembers(t.rows, k);
    }
    assert forall i :: 0 <= i < |rows| - 1 ==> KeyOf(rows[i]) != k by {
      WithoutKeyMembers(t.rows, k);
      assert forall i :: 0 <= i < |rows| - 1 ==> rows[i] in kept;
    }
    assert Valid(t) ==> Valid(ChunkTable(rows, t.lastId + 1)) by {
      if Valid(t) {
        SubsequenceIds(t.rows, t.lastId, k);
        ValidRaise(kept, t.lastId, t.lastId + 1);
        WithoutKeyMembers(t.rows, k);
        ValidSnoc(kept, row, t.lastId + 1);
      }
    }
    ChunkTable(rows, t.lastId + 1)
  }

  /** Raising the counter keeps a table valid. */
  lemma ValidRaise(rows: seq<Chunk>, lastId: nat, newLastId: nat)
    requires ValidRows(rows, lastId) && lastId <= newLastId
    ensures ValidRows(rows, newLastId)
  {
  }

  /** The rows that survive a REPLACE keep their order, their distinct keys
      and their ids. */
  lemma {:induction false} SubsequenceIds(rows: seq<Chunk>, lastId: nat, k: ChunkKey)
    requires ValidRows(rows, lastId)
    ensures ValidRows(WithoutKey(rows, k), lastId)
    decreases |rows|
  {
    if |rows| > 0 {
      var init := rows[..|rows| - 1];
      var last := rows[|rows| - 1];
      ValidInit(rows, lastId);
      SubsequenceIds(init, lastId, k);
      WithoutKeyMembers(init, k);
      if KeyOf(last) != k {
        ValidSnoc(WithoutKey(init, k), last, lastId);
      }
    }
  }

  /** Storing the same key twice leaves as many rows and the same keys as
      storing it once, and the second content wins. */
  lemma UpsertTwice(t: ChunkTable, k: ChunkKey, c1: string, e1: Embedding, c2: string, e2: Embedding)
    ensures var once := Upsert(t, k, c2, e2);
      var twice := Upsert(Upsert(t, k, c1, e1), k, c2, e2);
      && |twice.rows| == |once.rows|
      && Contents(twice.rows) == Contents(once.rows)
  {
    var first := Upsert(t, k, c1, e1);
    var w := WithoutKey(t.rows, k);
    assert first.rows == w + [Chunk(t.lastId + 1, k.sessionId, k.chunkIndex, c1, e1)];
    assert first.rows[..|first.rows| - 1] == w;
    WithoutKeyIdempotent(t.rows, k);
  }

  lemma {:induction false} WithoutKeyIdempotent(rows: seq<Chunk>, k: ChunkKey)
    ensures WithoutKey(WithoutKey(rows, k), k) == WithoutKey(rows, k)
  {
    if |rows| > 0 {
      var init := rows[..|rows| - 1];
      var last := rows[|rows| - 1];
      WithoutKeyIdempotent(init, k);
      var w := WithoutKey(init, k);
      if KeyOf(last) != k {
        assert (w + [last])[..|w|] == w;
      }
    }
  }

  /** The JSON body of `/chunks/store`. */
  datatype ChunkRequest = ChunkRequest(sessionId: Option<string>, chunkIndex: Option<int>, content: Option<string>)

  datatype ChunkStoreResult = ChunkStoreResult(table: ChunkTable, response: Response<ChunkKey>)

  /** `/chunks/store`. A request missing any of `session_id`, `chunk_index`,
      `content` is refused with 400 and a failed embedding with 500, both
      leaving the table alone; otherwise the content is stored under its key,
      replacing whatever was there, and the key is echoed back. */
  function StoreChunk(t: ChunkTable, req: ChunkRequest, embedding: Option<Embedding>): (r: ChunkStoreResult)
    ensures req.sessionId.None? || req.chunkIndex.None? || req.content.None? ==> r == ChunkStoreResult(t, BadRequest)
    ensures req.sessionId.Some? && req.chunkIndex.Some? && req.content.Some? && embedding.None? ==>
              r == ChunkStoreResult(t, ServerError)
    ensures r.response.Ok? <==> req.sessionId.Some? && req.chunkIndex.Some? && req.content.Some? && embedding.Some?
    ensures r.response.Ok? ==>
              && req.sessionId.Some? && req.chunkIndex.Some? && req.content.Some?
              && r.response.value == ChunkKey(req.sessionId.value, req.chunkIndex.value)
              && Contents(r.table.rows) == Contents(t.rows)[r.response.value := req.content.value]
              && |set c | c in r.table.rows && KeyOf(c) == r.response.value| == 1
              && r.table.lastId == t.lastId + 1
              && |r.table.rows| > 0
              && r.table.rows[|r.table.rows| - 1]
                   == Chunk(r.table.lastId, req.sessionId.value, req.chunkIndex.value, req.content.value, embedding.value)
              && r.table.rows[..|r.table.rows| - 1] == WithoutKey(t.rows, r.response.value)
              && (forall c :: c in r.table.rows && KeyOf(c) != r.response.value <==> c in t.rows && KeyOf(c) != r.response.value)
    ensures Valid(t) ==> Valid(r.table)
  {
    if req.sessionId.None? || req.chunkIndex.None? || req.content.None? then ChunkStoreResult(t, BadRequest)
    else if embedding.None? then ChunkStoreResult(t, ServerError)
    else
      var k := ChunkKey(req.sessionId.value, req.chunkIndex.value);
      var u := Upsert(t, k, req.content.value, embedding.value);
      var last := u.rows[|u.rows| - 1];
      assert (set c | c in u.rows && KeyOf(c) == k) == {last} by {
        forall c | c in u.rows && KeyOf(c) == k ensures c == last {
          var i :| 0 <= i < |u.rows| && u.rows[i] == c;
        }
      }
      ChunkStoreResult(u, Ok(k))
  }

  /** Defaults of `/chunks/search`, lower than those of `/recall`. */
  const SearchMinSimilarity: real := 0.35
  const SearchMaxResults: nat := 10

  /** Snippets are cut at this many characters. */
  const SnippetLength: nat := 500

  /** `content[:500] + "..." if len(content) > 500 else content`. */
  function Snippet(content: string): (r: string)
    ensures |r| <= SnippetLength + 3
    ensures |content| <= SnippetLength ==> r == content
    ensures |content| > SnippetLength ==>
              |r| == SnippetLength + 3 && r[..SnippetLength] == content[..SnippetLength] && r[SnippetLength..] == "..."
    ensures r == content <==> |content| <= SnippetLength || (|content| == SnippetLength + 3 && content[SnippetLength..] == "...")
  {
    if |content| > SnippetLength then content[..SnippetLength] + "..." else content
  }

  /** Cutting a snippet again changes nothing. */
  lemma SnippetIdempotent(content: string)
    ensures Snippet(Snippet(content)) == Snippet(content)
  {
    if |content| > SnippetLength {
      var s := Snippet(content);
      assert s[..SnippetLength] == content[..SnippetLength];
      assert s[SnippetLength..] == "...";
    }
  }

  /** The JSON body of `/chunks/search`. */
  datatype SearchRequest = SearchRequest(query: Option<string>, minSimilarity: Option<real>, maxResults: Option<nat>)

  /** The fields of one entry of the `chunks` array; its `similarity` is the
      score it is ranked with. */
  datatype ChunkHit = ChunkHit(sessionId: string, chunkIndex: int, snippet: string)

  function HitView(c: Chunk): ChunkHit {
    ChunkHit(c.sessionId, c.chunkIndex, Snippet(c.content))
  }

  /** The entry `/chunks/search` reports for row `c`. */
  function HitOf(c: Chunk, q: Embedding, sim: Similarity): Scored<ChunkHit> {
    Scored(HitView(c), Round4(sim(q, c.embedding)))
  }

  /** The ranked snippets of the chunks whose similarity reached `min`. */
  function RankHits(rows: seq<Chunk>, q: Embedding, sim: Similarity, min: real, k: nat): (r: seq<Scored<ChunkHit>>)
    ensures TiesInScanOrder(r, rows, HitView, ChunkScore(q, sim), min)
    ensures CutKeepsEarliest(r, rows, HitView, ChunkScore(q, sim), min)
    ensures |r| <= k
    ensures NonIncreasing(r)
    ensures forall h :: h in r ==> exists c :: c in rows && sim(q, c.embedding) >= min && h == HitOf(c, q, sim)
    ensures forall c :: c in rows && sim(q, c.embedding) >= min && HitOf(c, q, sim) !in r ==>
              |r| == k && forall i :: 0 <= i < |r| ==> r[i].score >= Round4(sim(q, c.embedding))
    ensures OnGrid(min) ==> forall i :: 0 <= i < |r| ==> r[i].score >= min
    ensures forall h :: h in r ==> |h.item.snippet| <= SnippetLength + 3
    ensures var n := CountAtLeast(rows, ChunkScore(q, sim), min); |r| == if k <= n then k else n
    ensures KeysDistinct(rows) ==> forall i, j :: 0 <= i < j < |r| ==> HitKey(r[i].item) != HitKey(r[j].item)
  {
    HitsSound(rows, q, sim, min, k);
    HitsComplete(rows, q, sim, min, k);
    RowsTieOrder(rows, HitView, ChunkScore(q, sim), min, k);
    RowsKeepEarliest(rows, HitView, ChunkScore(q, sim), min, k);
    HitsDistinct(rows, q, sim, min, k);
    KeepAtLeastCount(rows, HitView, ChunkScore(q, sim), min);
    TopK(ScoreAll(rows, HitView, ChunkScore(q, sim)), min, k)
  }

  /** The similarity of a chunk to the query. */
  function ChunkScore(q: Embedding, sim: Similarity): Chunk -> real {
    (c: Chunk) => sim(q, c.embedding)
  }

  /** Every entry the ranking pipeline reports is the report of a row
      whose similarity reached `min`. */
  lemma HitsSound(rows: seq<Chunk>, q: Embedding, sim: Similarity, min: real, k: nat)
    ensures var r := TopK(ScoreAll(rows, HitView, ChunkScore(q, sim)), min, k);
      && (forall h :: h in r ==> exists c :: c in rows && sim(q, c.embedding) >= min && h == HitOf(c, q, sim))
      && (OnGrid(min) ==> forall i :: 0 <= i < |r| ==> r[i].score >= min)
      && (forall h :: h in r ==> |h.item.snippet| <= SnippetLength + 3)
  {
    var score := ChunkScore(q, sim);
    var r := TopK(ScoreAll(rows, HitView, score), min, k);
    TopKRows(rows, HitView, score, min, k);
    forall h | h in r
      ensures exists c :: c in rows && sim(q, c.embedding) >= min && h == HitOf(c, q, sim)
      ensures |h.item.snippet| <= SnippetLength + 3
    {
      var c :| c in rows && score(c) >= min && h == Reported(c, HitView, score);
      assert h == HitOf(c, q, sim);
    }
  }

  /** A row whose similarity reached `min` is missing from the ranking only
      when the cap was reached by entries at least as good. */
  lemma HitsComplete(rows: seq<Chunk>, q: Embedding, sim: Similarity, min: real, k: nat)
    ensures var r := TopK(ScoreAll(rows, HitView, ChunkScore(q, sim)), min, k);
      forall c :: c in rows && sim(q, c.embedding) >= min && HitOf(c, q, sim) !in r ==>
        |r| == k && forall i :: 0 <= i < |r| ==> r[i].score >= Round4(sim(q, c.embedding))
  {
    var score := ChunkScore(q, sim);
    var r := TopK(ScoreAll(rows, HitView, score), min, k);
    forall c | c in rows && sim(q, c.embedding) >= min && HitOf(c, q, sim) !in r
      ensures |r| == k && forall i :: 0 <= i < |r| ==> r[i].score >= Round4(sim(q, c.embedding))
    {
      assert Reported(c, HitView, score) == HitOf(c, q, sim);
      TopKComplete(ScoreAll(rows, HitView, score), min, k, Scored(HitView(c), score(c)));
    }
  }

  /** The `(session_id, chunk_index)` a hit reports. */
  function HitKey(h: ChunkHit): ChunkKey {
    ChunkKey(h.sessionId, h.chunkIndex)
  }

  /** Rows with pairwise different keys yield hits with pairwise different keys. */
  lemma HitsDistinct(rows: seq<Chunk>, q: Embedding, sim: Similarity, min: real, k: nat)
    ensures var r := TopK(ScoreAll(rows, HitView, ChunkScore(q, sim)), min, k);
      KeysDistinct(rows) ==> forall i, j :: 0 <= i < j < |r| ==> HitKey(r[i].item) != HitKey(r[j].item)
  {
    if KeysDistinct(rows) {
      assert forall p, q' :: 0 <= p < q' < |rows| ==> HitKey(HitView(rows[p])) != HitKey(HitView(rows[q']));
      RowsKeysDistinct(rows, HitView, ChunkScore(q, sim), min, k, HitKey);
    }
  }

  /** `/chunks/search`. A request without `query` is refused with 400 and a
      failed embedding with 500. Otherwise at most `maxResults` (default 10)
      entries, best first, each the snippet of a chunk whose similarity reached
      `minSimilarity` (default 0.35); a qualifying chunk is left out only when
      the cap was reached by entries at least as good. */
  function SearchChunks(t: ChunkTable, req: SearchRequest, queryEmbedding: Option<Embedding>, sim: Similarity): (r: Response<seq<Scored<ChunkHit>>>)
    ensures req.query.None? <==> r == BadRequest
    ensures req.query.Some? && queryEmbedding.None? <==> r == ServerError
    ensures r.Ok? ==>
              TiesInScanOrder(r.value, t.rows, HitView, ChunkScore(queryEmbedding.value, sim), req.minSimilarity.GetOr(SearchMinSimilarity))
    ensures r.Ok? ==>
              CutKeepsEarliest(r.value, t.rows, HitView, ChunkScore(queryEmbedding.value, sim), req.minSimilarity.GetOr(SearchMinSimilarity))
    ensures r.Ok? ==>
              var hits := r.value;
              var q := queryEmbedding.value;
              var min := req.minSimilarity.GetOr(SearchMinSimilarity);
              var k := req.maxResults.GetOr(SearchMaxResults);
              && |hits| <= k
              && (var n := CountAtLeast(t.rows, ChunkScore(q, sim), min); |hits| == if k <= n then k else n)
              && NonIncreasing(hits)
              && (forall h :: h in hits ==> exists c :: c in t.rows && sim(q, c.embedding) >= min && h == HitOf(c, q, sim))
              && (forall c :: c in t.rows && sim(q, c.embedding) >= min && HitOf(c, q, sim) !in hits ==>
                    |hits| == k && forall i :: 0 <= i < |hits| ==> hits[i].score >= Round4(sim(q, c.embedding)))
              && (OnGrid(min) ==> forall i :: 0 <= i < |hits| ==> hits[i].score >= min)
              && (forall h :: h in hits ==> |h.item.snippet| <= SnippetLength + 3)
              && (Valid(t) ==> forall i, j :: 0 <= i < j < |hits| ==> HitKey(hits[i].item) != HitKey(hits[j].item))
  {
    if req.query.None? then BadRequest
    else if queryEmbedding.None? then ServerError
    else
      var q := queryEmbedding.value;
      var min := req.minSimilarity.GetOr(SearchMinSimilarity);
      var k := req.maxResults.GetOr(SearchMaxResults);
      ValidKeysDistinct(t);
      Ok(RankHits(t.rows, q, sim, min, k))
  }

  lemma ValidKeysDistinct(t: ChunkTable)
    ensures Valid(t) ==> KeysDistinct(t.rows)
  {
  }
}
