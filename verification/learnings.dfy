/** The `learnings` table and the two routes over it: `/store`, which embeds a
    candidate and rejects it when it is a near-duplicate of a stored learning,
    and `/recall`, which ranks stored learnings by similarity to a query. */
module Learnings {
  import opened Wrappers
  import opened Rounding
  import opened Ranking
  import opened Vectors

  /** A row of `learnings` (`created_at` is left out). */
  datatype Learning = Learning(
    id: nat,
    kind: string,
    content: string,
    context: Option<string>,
    embedding: Embedding,
    confidence: real,
    sessionSource: Option<string>)

  /** The table in scan order together with its AUTOINCREMENT counter, the
      largest id ever issued. */
  datatype Corpus = Corpus(rows: seq<Learning>, lastId: nat)


  /** Ids grow along the scan order and never pass the counter. */
  predicate Valid(c: Corpus) {
    && IdsIncrease(c.rows)
    && (forall i :: 0 <= i < |c.rows| ==> c.rows[i].id <= c.lastId)
  }

  /** Rows in scan order carry increasing ids, as `AUTOINCREMENT` hands them out. */
  predicate IdsIncrease(rows: seq<Learning>) {
    forall i, j :: 0 <= i < j < |rows| ==> rows[i].id < rows[j].id
  }

  /** The service configuration read at startup. */
  datatype Config = Config(minSimilarity: real, maxResults: nat, duplicateThreshold: real)

  const DefaultConfig: Config := Config(0.45, 3, 0.92)

  /** The column default of `confidence`. */
  const DefaultConfidence: real := 0.9

  /** The JSON body of `/store`; `kind` is the `type` field. */
  datatype StoreRequest = StoreRequest(
    kind: Option<string>,
    content: Option<string>,
    context: Option<string>,
    confidence: Option<real>,
    sessionSource: Option<string>)

  datatype StoreStatus = Stored(id: nat) | Duplicate(existingId: nat, similarity: real)

  /** The table after the call and the answer to the caller. */
  datatype StoreResult = StoreResult(corpus: Corpus, response: Response<StoreStatus>)

  /** Row `i` is the first in scan order that the candidate duplicates. */
  predicate FirstMatchAt(rows: seq<Learning>, e: Embedding, sim: Similarity, threshold: real, i: nat) {
    && i < |rows|
    && sim(e, rows[i].embedding) >= threshold
    && forall j :: 0 <= j < i ==> sim(e, rows[j].embedding) < threshold
  }

  /** The duplicate scan of `/store`: the index of the first row whose
      similarity to the candidate reaches the threshold, if any. */
  function FirstMatch(rows: seq<Learning>, e: Embedding, sim: Similarity, threshold: real): (r: Option<nat>)
    ensures r.Some? ==> FirstMatchAt(rows, e, sim, threshold, r.value)
    ensures r.None? ==> forall j :: 0 <= j < |rows| ==> sim(e, rows[j].embedding) < threshold
  {
    if |rows| == 0 then None
    else if sim(e, rows[0].embedding) >= threshold then Some(0)
    else match FirstMatch(rows[1..], e, sim, threshold)
      case None => None
      case Some(i) => Some(i + 1)
  }

  /** `/store`. A request without `type` or `content` is refused with 400 and
      a failed embedding with 500, both leaving the table alone. Otherwise the
      first near-duplicate in scan order is reported and nothing is written,
      or exactly one row is appended under a fresh id. */
  function Store(c: Corpus, req: StoreRequest, embedding: Option<Embedding>, sim: Similarity, cfg: Config): (r: StoreResult)
    ensures req.kind.None? || req.content.None? ==> r == StoreResult(c, BadRequest)
    ensures req.kind.Some? && req.content.Some? && embedding.None? ==> r == StoreResult(c, ServerError)
    ensures r.response.Ok? <==> req.kind.Some? && req.content.Some? && embedding.Some?
    ensures r.response.Ok? && r.response.value.Duplicate? ==>
              && r.corpus == c
              && embedding.Some?
              && exists i: nat :: FirstMatchAt(c.rows, embedding.value, sim, cfg.duplicateThreshold, i)
                             && c.rows[i].id == r.response.value.existingId
                             && sim(embedding.value, c.rows[i].embedding) == r.response.value.similarity
    ensures req.kind.Some? && req.content.Some? && embedding.Some? ==>
              (r.response.Ok? && r.response.value.Duplicate? <==>
               exists i :: 0 <= i < |c.rows| && sim(embedding.value, c.rows[i].embedding) >= cfg.duplicateThreshold)
    ensures r.response.Ok? && r.response.value.Stored? ==>
              && req.kind.Some? && req.content.Some? && embedding.Some?
              && r.response.value.id == r.corpus.lastId > c.lastId
              && |r.corpus.rows| == |c.rows| + 1
              && r.corpus.rows[..|c.rows|] == c.rows
              && r.corpus.rows[|c.rows|] == Learning(
                   r.response.value.id, req.kind.value, req.content.value, req.context,
                   embedding.value, req.confidence.GetOr(DefaultConfidence), req.sessionSource)
    ensures r.corpus.lastId >= c.lastId
    ensures Valid(c) ==> Valid(r.corpus)
    ensures Valid(c) && r.response.Ok? && r.response.value.Stored? ==>
              forall l :: l in c.rows ==> l.id < r.response.value.id
  {
    if req.kind.None? || req.content.None? then StoreResult(c, BadRequest)
    else if embedding.None? then StoreResult(c, ServerError)
    else
      var e := embedding.value;
      match FirstMatch(c.rows, e, sim, cfg.duplicateThreshold)
      case Some(i) =>
        StoreResult(c, Ok(Duplicate(c.rows[i].id, sim(e, c.rows[i].embedding))))
      case None =>
        var id := c.lastId + 1;
        var row := Learning(id, req.kind.value, req.content.value, req.context,
                            e, req.confidence.GetOr(DefaultConfidence), req.sessionSource);
        var rows := c.rows + [row];
        assert rows[..|c.rows|] == c.rows;
        StoreResult(Corpus(rows, id), Ok(Stored(id)))
  }

  /** One call of `/store`: the request and what the embedding service answered. */
  datatype StoreCall = StoreCall(req: StoreRequest, embedding: Option<Embedding>)

  /** A run of `/store` calls, one after the other. */
  function StoreAll(c: Corpus, calls: seq<StoreCall>, sim: Similarity, cfg: Config): (Corpus, seq<Response<StoreStatus>>)
    decreases |calls|
  {
    if |calls| == 0 then (c, [])
    else
      var first := Store(c, calls[0].req, calls[0].embedding, sim, cfg);
      var rest := StoreAll(first.corpus, calls[1..], sim, cfg);
      (rest.0, [first.response] + rest.1)
  }

  predicate IsStored(r: Response<StoreStatus>) {
    r.Ok? && r.value.Stored?
  }

  /** Ids are never reused: across any run of `/store` calls, every id handed
      out exceeds the starting counter, later calls get strictly larger ids,
      and the final counter covers them all. */
  lemma {:induction false} StoreAllFreshIds(c: Corpus, calls: seq<StoreCall>, sim: Similarity, cfg: Config)
    ensures var (final, out) := StoreAll(c, calls, sim, cfg);
      && |out| == |calls|
      && final.lastId >= c.lastId
      && (forall i :: 0 <= i < |out| && IsStored(out[i]) ==> c.lastId < out[i].value.id <= final.lastId)
      && (forall i, j :: 0 <= i < j < |out| && IsStored(out[i]) && IsStored(out[j]) ==>
            out[i].value.id < out[j].value.id)
    decreases |calls|
  {
    if |calls| > 0 {
      var first := Store(c, calls[0].req, calls[0].embedding, sim, cfg);
      StoreAllFreshIds(first.corpus, calls[1..], sim, cfg);
      var rest := StoreAll(first.corpus, calls[1..], sim, cfg);
      var out := [first.response] + rest.1;
      assert forall i :: 1 <= i < |out| ==> out[i] == rest.1[i - 1];
    }
  }

  /** The JSON body of `/recall`; absent limits fall back to the configuration. */
  datatype RecallRequest = RecallRequest(query: Option<string>, minSimilarity: Option<real>, maxResults: Option<nat>)

  /** The fields of one entry of the `memories` array: a row without its
      embedding. The entry's `similarity` is the score it is ranked with. */
  datatype Memory = Memory(id: nat, kind: string, content: string, context: Option<string>, confidence: real)

  function MemoryView(l: Learning): Memory {
    Memory(l.id, l.kind, l.content, l.context, l.confidence)
  }

  /** The entry `/recall` reports for row `l`: its fields and its similarity
      to the query, rounded to four decimals. */
  function MemoryOf(l: Learning, q: Embedding, sim: Similarity): Scored<Memory> {
    Scored(MemoryView(l), Round4(sim(q, l.embedding)))
  }

  /** The ranking step of `/recall` over the rows of a corpus: at most `k`
      memories, best first, each from a row that cleared the threshold, and
      no qualifying row dropped unless the cap was reached by entries at least
      as good. With a four-decimal threshold the rounded similarities reported
      also clear it. */
  function RankMemories(rows: seq<Learning>, q: Embedding, sim: Similarity, min: real, k: nat): (r: seq<Scored<Memory>>)
    ensures TiesInScanOrder(r, rows, MemoryView, MemoryScore(q, sim), min)
    ensures CutKeepsEarliest(r, rows, MemoryView, MemoryScore(q, sim), min)
    ensures |r| <= k
    ensures NonIncreasing(r)
    ensures forall m :: m in r ==> exists l :: l in rows && sim(q, l.embedding) >= min && m == MemoryOf(l, q, sim)
    ensures forall l :: l in rows && sim(q, l.embedding) >= min && MemoryOf(l, q, sim) !in r ==>
              |r| == k && forall i :: 0 <= i < |r| ==> r[i].score >= Round4(sim(q, l.embedding))
    ensures OnGrid(min) ==> forall i :: 0 <= i < |r| ==> r[i].score >= min
    ensures |rows| == 0 ==> r == []
    ensures var n := CountAtLeast(rows, MemoryScore(q, sim), min); |r| == if k <= n then k else n
    ensures IdsIncrease(rows) ==> forall i, j :: 0 <= i < j < |r| ==> r[i].item.id != r[j].item.id
    ensures IdsIncrease(rows) ==> forall i, j :: 0 <= i < j < |r| && r[i].score == r[j].score ==> r[i].item.id < r[j].item.id
  {
    MemoriesSound(rows, q, sim, min, k);
    MemoriesComplete(rows, q, sim, min, k);
    MemoriesTieOrder(rows, q, sim, min, k);
    MemoriesDistinct(rows, q, sim, min, k);
    RowsTieOrder(rows, MemoryView, MemoryScore(q, sim), min, k);
    RowsKeepEarliest(rows, MemoryView, MemoryScore(q, sim), min, k);
    KeepAtLeastCount(rows, MemoryView, MemoryScore(q, sim), min);
    TopK(ScoreAll(rows, MemoryView, MemoryScore(q, sim)), min, k)
  }

  /** The similarity of a learning to the query. */
  function MemoryScore(q: Embedding, sim: Similarity): Learning -> real {
    (l: Learning) => sim(q, l.embedding)
  }

  /** Every entry the ranking pipeline reports is the report of a row
      whose similarity reached `min`. */
  lemma MemoriesSound(rows: seq<Learning>, q: Embedding, sim: Similarity, min: real, k: nat)
    ensures var r := TopK(ScoreAll(rows, MemoryView, MemoryScore(q, sim)), min, k);
      && (forall m :: m in r ==> exists l :: l in rows && sim(q, l.embedding) >= min && m == MemoryOf(l, q, sim))
      && (OnGrid(min) ==> forall i :: 0 <= i < |r| ==> r[i].score >= min)
  {
    var score := MemoryScore(q, sim);
    var r := TopK(ScoreAll(rows, MemoryView, score), min, k);
    TopKRows(rows, MemoryView, score, min, k);
    forall m | m in r
      ensures exists l :: l in rows && sim(q, l.embedding) >= min && m == MemoryOf(l, q, sim)
    {
      var l :| l in rows && score(l) >= min && m == Reported(l, MemoryView, score);
      assert m == MemoryOf(l, q, sim);
    }
  }

  /** A row whose similarity reached `min` is missing from the ranking only
      when the cap was reached by entries at least as good. */
  lemma MemoriesComplete(rows: seq<Learning>, q: Embedding, sim: Similarity, min: real, k: nat)
    ensures var r := TopK(ScoreAll(rows, MemoryView, MemoryScore(q, sim)), min, k);
      forall l :: l in rows && sim(q, l.embedding) >= min && MemoryOf(l, q, sim) !in r ==>
        |r| == k && forall i :: 0 <= i < |r| ==> r[i].score >= Round4(sim(q, l.embedding))
  {
    var score := MemoryScore(q, sim);
    var r := TopK(ScoreAll(rows, MemoryView, score), min, k);
    forall l | l in rows && sim(q, l.embedding) >= min && MemoryOf(l, q, sim) !in r
      ensures |r| == k && forall i :: 0 <= i < |r| ==> r[i].score >= Round4(sim(q, l.embedding))
    {
      assert Reported(l, MemoryView, score) == MemoryOf(l, q, sim);
      TopKComplete(ScoreAll(rows, MemoryView, score), min, k, Scored(MemoryView(l), score(l)));
    }
  }

  /** Memories of equal similarity keep scan order. */
  lemma MemoriesTieOrder(rows: seq<Learning>, q: Embedding, sim: Similarity, min: real, k: nat)
    ensures var r := TopK(ScoreAll(rows, MemoryView, MemoryScore(q, sim)), min, k);
      && (forall i, j :: 0 <= i < j < |r| && r[i].score == r[j].score ==>
            exists p, q' :: 0 <= p < q' < |rows| && r[i] == MemoryOf(rows[p], q, sim) && r[j] == MemoryOf(rows[q'], q, sim))
      && (IdsIncrease(rows) ==> forall i, j :: 0 <= i < j < |r| && r[i].score == r[j].score ==> r[i].item.id < r[j].item.id)
  {
    var score := MemoryScore(q, sim);
    var xs := ScoreAll(rows, MemoryView, score);
    var r := TopK(xs, min, k);
    forall i, j | 0 <= i < j < |r| && r[i].score == r[j].score
      ensures exists p, q' :: 0 <= p < q' < |rows| && r[i] == MemoryOf(rows[p], q, sim) && r[j] == MemoryOf(rows[q'], q, sim)
      ensures IdsIncrease(rows) ==> r[i].item.id < r[j].item.id
    {
      var p, q' := TopKTiePositions(xs, min, k, i, j);
      assert xs[p] == Scored(MemoryView(rows[p]), score(rows[p]));
      assert xs[q'] == Scored(MemoryView(rows[q']), score(rows[q']));
    }
  }

  function MemoryId(m: Memory): nat {
    m.id
  }

  /** Rows with increasing ids yield memories with pairwise different ids. */
  lemma MemoriesDistinct(rows: seq<Learning>, q: Embedding, sim: Similarity, min: real, k: nat)
    ensures var r := TopK(ScoreAll(rows, MemoryView, MemoryScore(q, sim)), min, k);
      IdsIncrease(rows) ==> forall i, j :: 0 <= i < j < |r| ==> r[i].item.id != r[j].item.id
  {
    if IdsIncrease(rows) {
      assert forall p, q' :: 0 <= p < q' < |rows| ==> MemoryId(MemoryView(rows[p])) != MemoryId(MemoryView(rows[q']));
      RowsKeysDistinct(rows, MemoryView, MemoryScore(q, sim), min, k, MemoryId);
    }
  }

  /** `/recall`. A request without `query` is refused with 400 and a failed
      embedding with 500. Otherwise at most `maxResults` memories (default
      from the configuration), best first, each a row whose similarity reached
      `minSimilarity`; a matching row is left out only when the cap was
      reached by memories at least as good. The corpus is only read. */
  function Recall(c: Corpus, req: RecallRequest, queryEmbedding: Option<Embedding>, sim: Similarity, cfg: Config): (r: Response<seq<Scored<Memory>>>)
    ensures req.query.None? <==> r == BadRequest
    ensures req.query.Some? && queryEmbedding.None? <==> r == ServerError
    ensures r.Ok? && |c.rows| == 0 ==> r.value == []
    ensures r.Ok? ==>
              var score := MemoryScore(queryEmbedding.value, sim);
              var min := req.minSimilarity.GetOr(cfg.minSimilarity);
              && TiesInScanOrder(r.value, c.rows, MemoryView, score, min)
              && CutKeepsEarliest(r.value, c.rows, MemoryView, score, min)
    ensures r.Ok? ==>
              var ms := r.value;
              var q := queryEmbedding.value;
              var min := req.minSimilarity.GetOr(cfg.minSimilarity);
              var k := req.maxResults.GetOr(cfg.maxResults);
              && |ms| <= k
              && (var n := CountAtLeast(c.rows, MemoryScore(q, sim), min); |ms| == if k <= n then k else n)
              && NonIncreasing(ms)
              && (forall m :: m in ms ==> exists l :: l in c.rows && sim(q, l.embedding) >= min && m == MemoryOf(l, q, sim))
              && (forall l :: l in c.rows && sim(q, l.embedding) >= min && MemoryOf(l, q, sim) !in ms ==>
                    |ms| == k && forall i :: 0 <= i < |ms| ==> ms[i].score >= Round4(sim(q, l.embedding)))
              && (OnGrid(min) ==> forall i :: 0 <= i < |ms| ==> ms[i].score >= min)
              && (Valid(c) ==> forall i, j :: 0 <= i < j < |ms| ==> ms[i].item.id != ms[j].item.id)
              && (Valid(c) ==> forall i, j :: 0 <= i < j < |ms| && ms[i].score == ms[j].score ==> ms[i].item.id < ms[j].item.id)
  {
    if req.query.None? then BadRequest
    else if queryEmbedding.None? then ServerError
    else
      var q := queryEmbedding.value;
      var min := req.minSimilarity.GetOr(cfg.minSimilarity);
      var k := req.maxResults.GetOr(cfg.maxResults);
      Ok(RankMemories(c.rows, q, sim, min, k))
  }

  /** With the configured defaults and no limits in the request, `/recall`
      answers with the three best of the rows whose similarity reaches 0.45,
      or all of them when fewer reach it. */
  lemma RecallDefaults(c: Corpus, query: string, e: Embedding, sim: Similarity)
    ensures var r := Recall(c, RecallRequest(Some(query), None, None), Some(e), sim, DefaultConfig);
      var n := CountAtLeast(c.rows, MemoryScore(e, sim), 0.45);
      && r.Ok?
      && |r.value| == (if n >= 3 then 3 else n)
      && (n == 0 ==> r.value == [])
  {
  }

  /** Storing a learning and then a near-duplicate of it: the first call
      appends a row, the second reports that row and writes nothing. */
  lemma StoreThenDuplicate(c: Corpus, a: StoreRequest, ea: Embedding, b: StoreRequest, eb: Embedding, sim: Similarity)
    requires a.kind.Some? && a.content.Some? && b.kind.Some? && b.content.Some?
    requires forall l :: l in c.rows ==> sim(ea, l.embedding) < DefaultConfig.duplicateThreshold
    requires forall l :: l in c.rows ==> sim(eb, l.embedding) < DefaultConfig.duplicateThreshold
    requires sim(eb, ea) >= DefaultConfig.duplicateThreshold
    ensures var first := Store(c, a, Some(ea), sim, DefaultConfig);
      var second := Store(first.corpus, b, Some(eb), sim, DefaultConfig);
      && first.response.Ok? && first.response.value.Stored?
      && second.response == Ok(Duplicate(first.response.value.id, sim(eb, ea)))
      && second.corpus == first.corpus
      && |second.corpus.rows| == |c.rows| + 1
  {
    var first := Store(c, a, Some(ea), sim, DefaultConfig);
    var rows := first.corpus.rows;
    assert rows[|c.rows|].embedding == ea;
    assert forall j :: 0 <= j < |c.rows| ==> rows[j] == c.rows[j];
    var second := Store(first.corpus, b, Some(eb), sim, DefaultConfig);
    var i: nat :| FirstMatchAt(rows, eb, sim, DefaultConfig.duplicateThreshold, i)
                 && rows[i].id == second.response.value.existingId
                 && sim(eb, rows[i].embedding) == second.response.value.similarity;
    assert i == |c.rows|;
  }
}
