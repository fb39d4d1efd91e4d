/** `/chunks/sessions`: the chunks that clear the threshold are grouped by
    session; each session is scored 60% by its best chunk and 40% by the mean
    of its matching chunks, and the best sessions are returned. */
module Sessions {
  import opened Wrappers
  import opened Rounding
  import opened Ranking
  import opened Vectors
  import opened Chunks

  /** Defaults of `/chunks/sessions`. */
  const SessionsMinSimilarity: real := 0.35
  const SessionsMaxSessions: nat := 5

  /** Weights of the best chunk and of the mean in the composite score. */
  const BestWeight: real := 0.6
  const MeanWeight: real := 0.4

  function Sum(xs: seq<real>): real {
    if |xs| == 0 then 0.0 else Sum(xs[..|xs| - 1]) + xs[|xs| - 1]
  }

  /** The largest score; on a tie Python's `max(best, sim)` keeps `best`. */
  function MaxOf(xs: seq<real>): (r: real)
    requires |xs| > 0
    ensures r in xs
    ensures forall i :: 0 <= i < |xs| ==> xs[i] <= r
  {
    if |xs| == 1 then xs[0]
    else
      var m := MaxOf(xs[..|xs| - 1]);
      var x := xs[|xs| - 1];
      assert xs == xs[..|xs| - 1] + [x];
      if m >= x then m else x
  }

  function Mean(xs: seq<real>): real {
    if |xs| == 0 then 0.0 else Sum(xs) / |xs| as real
  }

  function Composite(best: real, mean: real): real {
    best * BestWeight + mean * MeanWeight
  }

  /** The composite score of a session whose matching chunks scored `xs`. */
  function CompositeOf(xs: seq<real>): real {
    if |xs| == 0 then 0.0 else Composite(MaxOf(xs), Mean(xs))
  }

  /** A sum lies between the count times the smallest and times the largest term. */
  lemma {:induction false} SumBounds(xs: seq<real>, lo: real, hi: real)
    requires forall i :: 0 <= i < |xs| ==> lo <= xs[i] <= hi
    ensures |xs| as real * lo <= Sum(xs) <= |xs| as real * hi
  {
    if |xs| > 0 {
      SumBounds(xs[..|xs| - 1], lo, hi);
    }
  }

  /** The mean of a session never exceeds its best chunk, the composite lies
      between the two, and all three clear any threshold every chunk cleared. */
  lemma ScoreRelations(xs: seq<real>, min: real)
    requires |xs| > 0
    requires forall i :: 0 <= i < |xs| ==> xs[i] >= min
    ensures min <= Mean(xs) <= MaxOf(xs)
    ensures Mean(xs) <= CompositeOf(xs) <= MaxOf(xs)
    ensures min <= CompositeOf(xs)
  {
    var m := MaxOf(xs);
    MeanBetween(xs, min, m);
    WeightedBetween(Mean(xs), m);
  }

  /** A mean lies between any bounds of its terms. */
  lemma MeanBetween(xs: seq<real>, lo: real, hi: real)
    requires |xs| > 0
    requires forall i :: 0 <= i < |xs| ==> lo <= xs[i] <= hi
    ensures lo <= Mean(xs) <= hi
  {
    var n := |xs| as real;
    var total := Sum(xs);
    SumBounds(xs, lo, hi);
    assert n * lo <= total <= n * hi;
    AverageBetween(total, n, lo, hi);
  }

  /** A total between `n` times two bounds averages to a value between them. */
  lemma AverageBetween(total: real, n: real, lo: real, hi: real)
    requires n > 0.0 && n * lo <= total <= n * hi
    ensures lo <= total / n <= hi
  {
    DivideBounds(n * lo, total, n * hi, n);
    Cancel(n, lo);
    Cancel(n, hi);
  }

  /** Division by a positive count keeps bounds. */
  lemma DivideBounds(lo: real, x: real, hi: real, n: real)
    requires n > 0.0 && lo <= x <= hi
    ensures lo / n <= x / n <= hi / n
  {
  }

  lemma Cancel(n: real, x: real)
    requires n > 0.0
    ensures (n * x) / n == x
  {
  }

  /** The 60/40 mix of two ordered values lies between them. */
  lemma WeightedBetween(a: real, b: real)
    requires a <= b
    ensures a <= Composite(b, a) <= b
  {
  }

  /** The similarities of the chunks of session `sid` that clear the
      threshold, in scan order. */
  function MatchingSims(rows: seq<Chunk>, q: Embedding, sim: Similarity, min: real, sid: string): seq<real> {
    if |rows| == 0 then []
    else
      var c := rows[|rows| - 1];
      var rest := MatchingSims(rows[..|rows| - 1], q, sim, min, sid);
      if c.sessionId == sid && sim(q, c.embedding) >= min then rest + [sim(q, c.embedding)] else rest
  }

  /** Their chunk indices, in the same order. */
  function MatchingIndices(rows: seq<Chunk>, q: Embedding, sim: Similarity, min: real, sid: string): seq<int> {
    if |rows| == 0 then []
    else
      var c := rows[|rows| - 1];
      var rest := MatchingIndices(rows[..|rows| - 1], q, sim, min, sid);
      if c.sessionId == sid && sim(q, c.embedding) >= min then rest + [c.chunkIndex] else rest
  }

  /** A session with a matching similarity has a matching chunk. */
  lemma {:induction false} MatchingWitness(rows: seq<Chunk>, q: Embedding, sim: Similarity, min: real, sid: string)
    requires |MatchingSims(rows, q, sim, min, sid)| > 0
    ensures exists c :: c in rows && c.sessionId == sid && sim(q, c.embedding) >= min
  {
    var init := rows[..|rows| - 1];
    var c := rows[|rows| - 1];
    if !(c.sessionId == sid && sim(q, c.embedding) >= min) {
      MatchingWitness(init, q, sim, min, sid);
      var d :| d in init && d.sessionId == sid && sim(q, d.embedding) >= min;
      assert d in rows;
    }
  }

  /** The running aggregate `session_scores[session_id]`. */
  datatype Tally = Tally(sessionId: string, best: real, total: real, count: nat, chunkIndices: seq<int>)

  /** No session is tallied twice. */
  predicate DistinctIds(ts: seq<Tally>) {
    forall i, j :: 0 <= i < j < |ts| ==> ts[i].sessionId != ts[j].sessionId
  }

  /** The tally of a session's first matching chunk. */
  function Open(sid: string, idx: int, s: real): Tally {
    Tally(sid, s, s, 1, [idx])
  }

  /** One more matching chunk for a session already tallied. */
  function Bump(t: Tally, idx: int, s: real): Tally {
    Tally(t.sessionId, if t.best >= s then t.best else s, t.total + s, t.count + 1, t.chunkIndices + [idx])
  }

  /** Some tally belongs to session `sid`. */
  predicate Tallied(ts: seq<Tally>, sid: string) {
    exists i :: 0 <= i < |ts| && ts[i].sessionId == sid
  }

  /** A matching chunk updates its session's tally in place, or opens one at
      the end (Python dicts keep insertion order). */
  function AddMatch(ts: seq<Tally>, sid: string, idx: int, s: real): (r: seq<Tally>)
    ensures !Tallied(ts, sid) ==> r == ts + [Open(sid, idx, s)]
    ensures DistinctIds(ts) && Tallied(ts, sid) ==>
              |r| == |ts| && forall i :: 0 <= i < |ts| ==> r[i] == if ts[i].sessionId == sid then Bump(ts[i], idx, s) else ts[i]
  {
    if |ts| == 0 then [Open(sid, idx, s)]
    else if ts[0].sessionId == sid then [Bump(ts[0], idx, s)] + ts[1..]
    else
      var rest := AddMatch(ts[1..], sid, idx, s);
      assert DistinctIds(ts) ==> DistinctIds(ts[1..]);
      assert Tallied(ts, sid) <==> Tallied(ts[1..], sid) by {
        if Tallied(ts, sid) {
          var i :| 0 <= i < |ts| && ts[i].sessionId == sid;
          assert ts[1..][i - 1] == ts[i];
        }
        if Tallied(ts[1..], sid) {
          var i :| 0 <= i < |ts[1..]| && ts[1..][i].sessionId == sid;
          assert ts[i + 1] == ts[1..][i];
        }
      }
      [ts[0]] + rest
  }

  /** The aggregation loop of `/chunks/sessions` over the table in scan order. */
  function Tallies(rows: seq<Chunk>, q: Embedding, sim: Similarity, min: real): (r: seq<Tally>)
    ensures DistinctIds(r)
    ensures forall i :: 0 <= i < |r| ==> r[i].count > 0
  {
    if |rows| == 0 then []
    else
      var c := rows[|rows| - 1];
      var ts := Tallies(rows[..|rows| - 1], q, sim, min);
      var s := sim(q, c.embedding);
      if s >= min then
        var r := AddMatch(ts, c.sessionId, c.chunkIndex, s);
        assert DistinctIds(r) && forall i :: 0 <= i < |r| ==> r[i].count > 0 by {
          if !Tallied(ts, c.sessionId) {
            assert forall i :: 0 <= i < |ts| ==> ts[i].sessionId != c.sessionId;
          } else {
            assert forall i :: 0 <= i < |r| ==> r[i].sessionId == ts[i].sessionId;
          }
        }
        r
      else ts
  }

  /** Tally `t` holds exactly the matching chunks of its session. */
  predicate TallyOf(t: Tally, rows: seq<Chunk>, q: Embedding, sim: Similarity, min: real) {
    var xs := MatchingSims(rows, q, sim, min, t.sessionId);
    && |xs| > 0
    && t.count == |xs|
    && t.best == MaxOf(xs)
    && t.total == Sum(xs)
    && t.chunkIndices == MatchingIndices(rows, q, sim, min, t.sessionId)
  }

  /** Every tally holds exactly the matching chunks of its session. */
  predicate Exact(ts: seq<Tally>, rows: seq<Chunk>, q: Embedding, sim: Similarity, min: real) {
    forall i :: 0 <= i < |ts| ==> TallyOf(ts[i], rows, q, sim, min)
  }

  /** Every matching chunk has its session tallied. */
  predicate Covers(ts: seq<Tally>, rows: seq<Chunk>, q: Embedding, sim: Similarity, min: real) {
    forall c :: c in rows && sim(q, c.embedding) >= min ==> Tallied(ts, c.sessionId)
  }

  /** The tallies are one per session with a matching chunk, each exact. */
  predicate Agrees(ts: seq<Tally>, rows: seq<Chunk>, q: Embedding, sim: Similarity, min: real) {
    DistinctIds(ts) && Exact(ts, rows, q, sim, min) && Covers(ts, rows, q, sim, min)
  }

  /** A non-matching chunk changes no tally. */
  lemma TalliesSkip(rows: seq<Chunk>, q: Embedding, sim: Similarity, min: real, ts: seq<Tally>)
    requires |rows| > 0 && sim(q, rows[|rows| - 1].embedding) < min
    requires Agrees(ts, rows[..|rows| - 1], q, sim, min)
    ensures Agrees(ts, rows, q, sim, min)
  {
    var init := rows[..|rows| - 1];
    forall i | 0 <= i < |ts| ensures TallyOf(ts[i], rows, q, sim, min) {
      assert TallyOf(ts[i], init, q, sim, min);
    }
    forall c | c in rows && sim(q, c.embedding) >= min
      ensures Tallied(ts, c.sessionId)
    {
      assert rows == init + [rows[|rows| - 1]];
      assert c in init;
    }
  }

  /** Folding a score into a session's sequence extends its max and its sum. */
  lemma Extend(xs: seq<real>, s: real)
    requires |xs| > 0
    ensures MaxOf(xs + [s]) == if MaxOf(xs) >= s then MaxOf(xs) else s
    ensures Sum(xs + [s]) == Sum(xs) + s
  {
    assert (xs + [s])[..|xs|] == xs;
  }

  /** A matching chunk is folded into exactly its session's tally. */
  lemma TalliesMatch(rows: seq<Chunk>, q: Embedding, sim: Similarity, min: real, ts: seq<Tally>)
    requires |rows| > 0 && sim(q, rows[|rows| - 1].embedding) >= min
    requires Agrees(ts, rows[..|rows| - 1], q, sim, min)
    ensures var c := rows[|rows| - 1];
      Agrees(AddMatch(ts, c.sessionId, c.chunkIndex, sim(q, c.embedding)), rows, q, sim, min)
  {
    var init := rows[..|rows| - 1];
    var c := rows[|rows| - 1];
    assert rows == init + [c];
    var r := AddMatch(ts, c.sessionId, c.chunkIndex, sim(q, c.embedding));
    MatchCovers(init, c, q, sim, min, ts);
    if Tallied(ts, c.sessionId) {
      BumpedTallies(init, c, q, sim, min, ts);
      assert DistinctIds(r) by {
        forall i, j | 0 <= i < j < |r| ensures r[i].sessionId != r[j].sessionId {
          assert r[i].sessionId == ts[i].sessionId && r[j].sessionId == ts[j].sessionId;
        }
      }
    } else {
      OpenedTallies(init, c, q, sim, min, ts);
    }
  }

  /** After a bump every tally is exact for the longer table. */
  lemma BumpedTallies(init: seq<Chunk>, c: Chunk, q: Embedding, sim: Similarity, min: real, ts: seq<Tally>)
    requires sim(q, c.embedding) >= min
    requires DistinctIds(ts) && Exact(ts, init, q, sim, min) && Tallied(ts, c.sessionId)
    ensures Exact(AddMatch(ts, c.sessionId, c.chunkIndex, sim(q, c.embedding)), init + [c], q, sim, min)
  {
    var rows := init + [c];
    assert rows[..|rows| - 1] == init;
    var s := sim(q, c.embedding);
    var r := AddMatch(ts, c.sessionId, c.chunkIndex, s);
    forall i | 0 <= i < |r| ensures TallyOf(r[i], rows, q, sim, min) {
      BumpOne(init, c, q, sim, min, ts[i]);
    }
  }

  /** One tally after a matching chunk: its own session's is bumped, any
      other is still exact. */
  lemma BumpOne(init: seq<Chunk>, c: Chunk, q: Embedding, sim: Similarity, min: real, t: Tally)
    requires sim(q, c.embedding) >= min && TallyOf(t, init, q, sim, min)
    ensures var s := sim(q, c.embedding);
      TallyOf(if t.sessionId == c.sessionId then Bump(t, c.chunkIndex, s) else t, init + [c], q, sim, min)
  {
    var rows := init + [c];
    assert rows[..|rows| - 1] == init;
    if t.sessionId == c.sessionId {
      Extend(MatchingSims(init, q, sim, min, c.sessionId), sim(q, c.embedding));
    }
  }

  /** After opening a tally every tally is exact for the longer table. */
  lemma OpenedTallies(init: seq<Chunk>, c: Chunk, q: Embedding, sim: Similarity, min: real, ts: seq<Tally>)
    requires sim(q, c.embedding) >= min
    requires Agrees(ts, init, q, sim, min) && !Tallied(ts, c.sessionId)
    ensures var r := AddMatch(ts, c.sessionId, c.chunkIndex, sim(q, c.embedding));
      DistinctIds(r) && Exact(r, init + [c], q, sim, min)
  {
    var rows := init + [c];
    assert rows[..|rows| - 1] == init;
    var s := sim(q, c.embedding);
    var r := AddMatch(ts, c.sessionId, c.chunkIndex, s);
    assert r == ts + [Open(c.sessionId, c.chunkIndex, s)];
    assert MatchingSims(init, q, sim, min, c.sessionId) == [] by {
      if |MatchingSims(init, q, sim, min, c.sessionId)| > 0 {
        MatchingWitness(init, q, sim, min, c.sessionId);
      }
    }
    assert MatchingIndices(init, q, sim, min, c.sessionId) == [] by {
      MatchingIndicesLength(init, q, sim, min, c.sessionId);
    }
    forall i | 0 <= i < |r| ensures TallyOf(r[i], rows, q, sim, min) {
      if i < |ts| {
        assert r[i] == ts[i];
        assert TallyOf(ts[i], init, q, sim, min);
      }
    }
    assert DistinctIds(r) by {
      forall i, j | 0 <= i < j < |r| ensures r[i].sessionId != r[j].sessionId {
        if j == |ts| {
          assert r[i] == ts[i];
          assert !(ts[i].sessionId == c.sessionId);
        }
      }
    }
  }

  /** After a matching chunk every matching chunk has its session tallied. */
  lemma MatchCovers(init: seq<Chunk>, c: Chunk, q: Embedding, sim: Similarity, min: real, ts: seq<Tally>)
    requires sim(q, c.embedding) >= min
    requires DistinctIds(ts) && Covers(ts, init, q, sim, min)
    ensures Covers(AddMatch(ts, c.sessionId, c.chunkIndex, sim(q, c.embedding)), init + [c], q, sim, min)
  {
    var r := AddMatch(ts, c.sessionId, c.chunkIndex, sim(q, c.embedding));
    forall t | Tallied(ts, t) ensures Tallied(r, t) {
      var i :| 0 <= i < |ts| && ts[i].sessionId == t;
      assert r[i].sessionId == t;
    }
    assert Tallied(r, c.sessionId) by {
      if Tallied(ts, c.sessionId) {
        var i :| 0 <= i < |ts| && ts[i].sessionId == c.sessionId;
        assert r[i].sessionId == c.sessionId;
      } else {
        assert r[|ts|].sessionId == c.sessionId;
      }
    }
    forall d | d in init + [c] && sim(q, d.embedding) >= min
      ensures Tallied(r, d.sessionId)
    {
      if d in init {
        assert Tallied(ts, d.sessionId);
      }
    }
  }

  /** Indices and similarities are collected together. */
  lemma {:induction false} MatchingIndicesLength(rows: seq<Chunk>, q: Embedding, sim: Similarity, min: real, sid: string)
    ensures |MatchingIndices(rows, q, sim, min, sid)| == |MatchingSims(rows, q, sim, min, sid)|
  {
    if |rows| > 0 {
      MatchingIndicesLength(rows[..|rows| - 1], q, sim, min, sid);
    }
  }

  /** The aggregation loop computes, for every session with a matching chunk
      and for no other, the count, maximum, sum and chunk indices of its
      matching chunks. */
  lemma {:induction false} TalliesAgree(rows: seq<Chunk>, q: Embedding, sim: Similarity, min: real)
    ensures Agrees(Tallies(rows, q, sim, min), rows, q, sim, min)
  {
    if |rows| > 0 {
      var init := rows[..|rows| - 1];
      TalliesAgree(init, q, sim, min);
      var ts := Tallies(init, q, sim, min);
      if sim(q, rows[|rows| - 1].embedding) >= min {
        TalliesMatch(rows, q, sim, min, ts);
      } else {
        TalliesSkip(rows, q, sim, min, ts);
      }
    }
  }

  /** The scan position of the first chunk of session `sid` that clears the
      threshold, or `|rows|` when there is none: where the loop inserts the
      session into the dict. */
  function FirstMatching(rows: seq<Chunk>, q: Embedding, sim: Similarity, min: real, sid: string): (n: nat)
    ensures n <= |rows|
    ensures n < |rows| ==> rows[n].sessionId == sid && sim(q, rows[n].embedding) >= min
    ensures forall p :: 0 <= p < n ==> !(rows[p].sessionId == sid && sim(q, rows[p].embedding) >= min)
  {
    if |rows| == 0 then 0
    else if rows[0].sessionId == sid && sim(q, rows[0].embedding) >= min then 0
    else 1 + FirstMatching(rows[1..], q, sim, min, sid)
  }

  /** A further chunk leaves a first match already made where it is, and a
      session without one so far can only first match at the new chunk. */
  lemma FirstMatchingSnoc(rows: seq<Chunk>, q: Embedding, sim: Similarity, min: real, sid: string)
    requires |rows| > 0
    ensures var init := rows[..|rows| - 1];
      var f := FirstMatching(init, q, sim, min, sid);
      && (f < |init| ==> FirstMatching(rows, q, sim, min, sid) == f)
      && (f == |init| ==> FirstMatching(rows, q, sim, min, sid) >= |init|)
  {
    var init := rows[..|rows| - 1];
    assert forall p :: 0 <= p < |init| ==> init[p] == rows[p];
  }

  /** Tallies ordered by first match, each session having matched. */
  predicate FirstMatchOrdered(ts: seq<Tally>, rows: seq<Chunk>, q: Embedding, sim: Similarity, min: real) {
    && (forall i :: 0 <= i < |ts| ==> FirstMatching(rows, q, sim, min, ts[i].sessionId) < |rows|)
    && (forall i, j :: 0 <= i < j < |ts| ==>
          FirstMatching(rows, q, sim, min, ts[i].sessionId) < FirstMatching(rows, q, sim, min, ts[j].sessionId))
  }

  /** A further chunk moves no first match of a tallied session. */
  lemma FirstMatchKept(rows: seq<Chunk>, q: Embedding, sim: Similarity, min: real, ts: seq<Tally>)
    requires |rows| > 0 && FirstMatchOrdered(ts, rows[..|rows| - 1], q, sim, min)
    ensures FirstMatchOrdered(ts, rows, q, sim, min)
    ensures forall i :: 0 <= i < |ts| ==>
              FirstMatching(rows, q, sim, min, ts[i].sessionId) == FirstMatching(rows[..|rows| - 1], q, sim, min, ts[i].sessionId)
  {
    var init := rows[..|rows| - 1];
    forall i | 0 <= i < |ts|
      ensures FirstMatching(rows, q, sim, min, ts[i].sessionId) == FirstMatching(init, q, sim, min, ts[i].sessionId)
    {
      FirstMatchingSnoc(rows, q, sim, min, ts[i].sessionId);
    }
  }

  /** A session that first matches at the last chunk is tallied last. */
  lemma FirstMatchOpened(rows: seq<Chunk>, q: Embedding, sim: Similarity, min: real, ts: seq<Tally>, t: Tally)
    requires |rows| > 0 && FirstMatchOrdered(ts, rows, q, sim, min)
    requires forall i :: 0 <= i < |ts| ==> FirstMatching(rows, q, sim, min, ts[i].sessionId) < |rows| - 1
    requires FirstMatching(rows, q, sim, min, t.sessionId) == |rows| - 1
    ensures FirstMatchOrdered(ts + [t], rows, q, sim, min)
  {
    var r := ts + [t];
    forall i | 0 <= i < |r|
      ensures FirstMatching(rows, q, sim, min, r[i].sessionId) < |rows|
    {
      if i < |ts| {
        assert r[i] == ts[i];
      }
    }
    forall i, j | 0 <= i < j < |r|
      ensures FirstMatching(rows, q, sim, min, r[i].sessionId) < FirstMatching(rows, q, sim, min, r[j].sessionId)
    {
      assert r[i] == ts[i];
      if j < |ts| {
        assert r[j] == ts[j];
      }
    }
  }

  /** Bumping tallies in place keeps their sessions, and so their order. */
  lemma FirstMatchSameIds(rows: seq<Chunk>, q: Embedding, sim: Similarity, min: real, ts: seq<Tally>, r: seq<Tally>)
    requires FirstMatchOrdered(ts, rows, q, sim, min)
    requires |r| == |ts| && forall i :: 0 <= i < |r| ==> r[i].sessionId == ts[i].sessionId
    ensures FirstMatchOrdered(r, rows, q, sim, min)
  {
  }

  /** One more chunk keeps the tallies in first-match order. */
  lemma FirstMatchStep(rows: seq<Chunk>, q: Embedding, sim: Similarity, min: real, ts: seq<Tally>)
    requires |rows| > 0
    requires DistinctIds(ts) && Covers(ts, rows[..|rows| - 1], q, sim, min)
    requires FirstMatchOrdered(ts, rows[..|rows| - 1], q, sim, min)
    ensures var c := rows[|rows| - 1];
      var s := sim(q, c.embedding);
      FirstMatchOrdered(if s >= min then AddMatch(ts, c.sessionId, c.chunkIndex, s) else ts, rows, q, sim, min)
  {
    var init := rows[..|rows| - 1];
    var c := rows[|rows| - 1];
    var s := sim(q, c.embedding);
    FirstMatchKept(rows, q, sim, min, ts);
    if s >= min {
      var r := AddMatch(ts, c.sessionId, c.chunkIndex, s);
      if Tallied(ts, c.sessionId) {
        FirstMatchSameIds(rows, q, sim, min, ts, r);
      } else {
        assert forall p :: 0 <= p < |init| ==> !(init[p].sessionId == c.sessionId && sim(q, init[p].embedding) >= min) by {
          forall p | 0 <= p < |init| ensures !(init[p].sessionId == c.sessionId && sim(q, init[p].embedding) >= min) {
            assert init[p] in init;
          }
        }
        assert FirstMatching(init, q, sim, min, c.sessionId) == |init|;
        FirstMatchingSnoc(rows, q, sim, min, c.sessionId);
        FirstMatchOpened(rows, q, sim, min, ts, Open(c.sessionId, c.chunkIndex, s));
      }
    }
  }

  /** The tallies come in the order in which their sessions first matched in
      scan order: the dict's insertion order. */
  lemma {:induction false} TalliesFirstMatchOrder(rows: seq<Chunk>, q: Embedding, sim: Similarity, min: real)
    ensures FirstMatchOrdered(Tallies(rows, q, sim, min), rows, q, sim, min)
  {
    if |rows| > 0 {
      var init := rows[..|rows| - 1];
      TalliesFirstMatchOrder(init, q, sim, min);
      TalliesAgree(init, q, sim, min);
      FirstMatchStep(rows, q, sim, min, Tallies(init, q, sim, min));
    }
  }

  /** One entry of the `sessions` array; its `composite_score` is the score
      it is ranked with. */
  datatype Session = Session(sessionId: string, bestSimilarity: real, avgSimilarity: real, matchingChunks: nat)

  /** The entry reported for a finished tally. */
  function Report(t: Tally): Scored<Session>
    requires t.count > 0
  {
    var avg := t.total / t.count as real;
    Scored(Session(t.sessionId, Round4(t.best), Round4(avg), t.count), Round4(Composite(t.best, avg)))
  }

  /** The entries of all tallies, in the dict's insertion order. */
  function Reports(ts: seq<Tally>): (r: seq<Scored<Session>>)
    requires forall i :: 0 <= i < |ts| ==> ts[i].count > 0
    ensures |r| == |ts| && forall i :: 0 <= i < |ts| ==> r[i] == Report(ts[i])
  {
    if |ts| == 0 then [] else [Report(ts[0])] + Reports(ts[1..])
  }

  /** Reference definition: the entry of session `sid`, computed directly
      from its matching chunks. */
  function SessionOf(rows: seq<Chunk>, q: Embedding, sim: Similarity, min: real, sid: string): Scored<Session> {
    var xs := MatchingSims(rows, q, sim, min, sid);
    var best := if |xs| == 0 then 0.0 else MaxOf(xs);
    Scored(Session(sid, Round4(best), Round4(Mean(xs)), |xs|), Round4(CompositeOf(xs)))
  }

  /** Some chunk of session `sid` clears the threshold. */
  predicate Relevant(rows: seq<Chunk>, q: Embedding, sim: Similarity, min: real, sid: string) {
    |MatchingSims(rows, q, sim, min, sid)| > 0
  }

  datatype SessionRequest = SessionRequest(query: Option<string>, minSimilarity: Option<real>, maxSessions: Option<nat>)

  /** The entry of an exact tally is the reference entry of its session. */
  lemma ReportIsSessionOf(t: Tally, rows: seq<Chunk>, q: Embedding, sim: Similarity, min: real)
    requires TallyOf(t, rows, q, sim, min)
    ensures t.count > 0 && Report(t) == SessionOf(rows, q, sim, min, t.sessionId)
  {
  }

  /** The aggregated entries are the reference entries of the relevant
      sessions, one per session, and every relevant session has one. */
  lemma ReportsAgree(rows: seq<Chunk>, q: Embedding, sim: Similarity, min: real)
    ensures var ts := Tallies(rows, q, sim, min);
      && (forall i :: 0 <= i < |ts| ==> ts[i].count > 0)
      && var reports := Reports(ts);
      && Distinct(reports)
      && (forall x :: x in reports ==> Relevant(rows, q, sim, min, x.item.sessionId) && x == SessionOf(rows, q, sim, min, x.item.sessionId))
      && (forall c :: c in rows && sim(q, c.embedding) >= min ==> SessionOf(rows, q, sim, min, c.sessionId) in reports)
  {
    var ts := Tallies(rows, q, sim, min);
    TalliesAgree(rows, q, sim, min);
    forall i | 0 <= i < |ts| ensures ts[i].count > 0 && Report(ts[i]) == SessionOf(rows, q, sim, min, ts[i].sessionId) {
      ReportIsSessionOf(ts[i], rows, q, sim, min);
    }
    var reports := Reports(ts);
    forall i, j | 0 <= i < j < |reports| ensures reports[i] != reports[j] {
      assert reports[i].item.sessionId == ts[i].sessionId;
      assert reports[j].item.sessionId == ts[j].sessionId;
    }
    forall x | x in reports
      ensures Relevant(rows, q, sim, min, x.item.sessionId) && x == SessionOf(rows, q, sim, min, x.item.sessionId)
    {
      var i :| 0 <= i < |reports| && reports[i] == x;
      assert TallyOf(ts[i], rows, q, sim, min);
    }
    forall c | c in rows && sim(q, c.embedding) >= min
      ensures SessionOf(rows, q, sim, min, c.sessionId) in reports
    {
      assert Tallied(ts, c.sessionId);
      var i :| 0 <= i < |ts| && ts[i].sessionId == c.sessionId;
      assert reports[i] == SessionOf(rows, q, sim, min, c.sessionId);
    }
  }

  /** The score relations of a reported session survive rounding. */
  lemma SessionOfScores(rows: seq<Chunk>, q: Embedding, sim: Similarity, min: real, sid: string)
    requires Relevant(rows, q, sim, min, sid)
    ensures var e := SessionOf(rows, q, sim, min, sid);
      && e.item.avgSimilarity <= e.score <= e.item.bestSimilarity
      && (OnGrid(min) ==> min <= e.item.avgSimilarity && min <= e.score)
  {
    var xs := MatchingSims(rows, q, sim, min, sid);
    MatchingAtLeast(rows, q, sim, min, sid);
    assert forall i :: 0 <= i < |xs| ==> xs[i] in xs;
    ScoreRelations(xs, min);
    Round4Monotone(Mean(xs), CompositeOf(xs));
    Round4Monotone(CompositeOf(xs), MaxOf(xs));
    if OnGrid(min) {
      Round4KeepsGridThreshold(min, Mean(xs));
      Round4KeepsGridThreshold(min, CompositeOf(xs));
    }
  }

  /** Every matching similarity clears the threshold. */
  lemma {:induction false} MatchingAtLeast(rows: seq<Chunk>, q: Embedding, sim: Similarity, min: real, sid: string)
    ensures forall x :: x in MatchingSims(rows, q, sim, min, sid) ==> x >= min
  {
    if |rows| > 0 {
      var init := rows[..|rows| - 1];
      var c := rows[|rows| - 1];
      MatchingAtLeast(init, q, sim, min, sid);
    }
  }

  /** The aggregated sessions, sorted by composite score and cut to `k`: at
      most `k` entries, best composite first, one per session, each the
      reference entry of a relevant session; a relevant session is left out
      only when the cap was reached by sessions scoring at least as well.
      Sessions of equal score come in the order of their first matching
      chunk, and the cap cuts the later of them. */
  function RankSessions(rows: seq<Chunk>, q: Embedding, sim: Similarity, min: real, k: nat): (ss: seq<Scored<Session>>)
    ensures InFirstMatchOrder(ss, rows, q, sim, min)
    ensures |ss| <= k
    ensures NonIncreasing(ss)
    ensures forall i, j :: 0 <= i < j < |ss| ==> ss[i].item.sessionId != ss[j].item.sessionId
    ensures forall i :: 0 <= i < |ss| ==>
              Relevant(rows, q, sim, min, ss[i].item.sessionId) && ss[i] == SessionOf(rows, q, sim, min, ss[i].item.sessionId)
    ensures forall c :: c in rows && sim(q, c.embedding) >= min && SessionOf(rows, q, sim, min, c.sessionId) !in ss ==>
              |ss| == k && forall i :: 0 <= i < |ss| ==> ss[i].score >= SessionOf(rows, q, sim, min, c.sessionId).score
  {
    ReportsAgree(rows, q, sim, min);
    var reports := Reports(Tallies(rows, q, sim, min));
    RankedSessions(rows, q, sim, min, reports, k);
    RankedSessionsOrder(rows, q, sim, min, k);
    Rank(reports, k)
  }

  /** `/chunks/sessions`. A request without `query` is refused with 400 and a
      failed embedding with 500. Otherwise the ranked sessions under
      `minSimilarity` (default 0.35) and `maxSessions` (default 5). */
  function FindRelevantSessions(t: ChunkTable, req: SessionRequest, queryEmbedding: Option<Embedding>, sim: Similarity): (r: Response<seq<Scored<Session>>>)
    ensures req.query.None? <==> r == BadRequest
    ensures req.query.Some? && queryEmbedding.None? <==> r == ServerError
    ensures r.Ok? ==>
              InFirstMatchOrder(r.value, t.rows, queryEmbedding.value, sim, req.minSimilarity.GetOr(SessionsMinSimilarity))
    ensures r.Ok? ==>
              var ss := r.value;
              var q := queryEmbedding.value;
              var min := req.minSimilarity.GetOr(SessionsMinSimilarity);
              var k := req.maxSessions.GetOr(SessionsMaxSessions);
              && |ss| <= k
              && NonIncreasing(ss)
              && (forall i, j :: 0 <= i < j < |ss| ==> ss[i].item.sessionId != ss[j].item.sessionId)
              && (forall i :: 0 <= i < |ss| ==>
                    Relevant(t.rows, q, sim, min, ss[i].item.sessionId) && ss[i] == SessionOf(t.rows, q, sim, min, ss[i].item.sessionId))
              && (forall c :: c in t.rows && sim(q, c.embedding) >= min && SessionOf(t.rows, q, sim, min, c.sessionId) !in ss ==>
                    |ss| == k && forall i :: 0 <= i < |ss| ==> ss[i].score >= SessionOf(t.rows, q, sim, min, c.sessionId).score)
  {
    if req.query.None? then BadRequest
    else if queryEmbedding.None? then ServerError
    else
      var q := queryEmbedding.value;
      var min := req.minSimilarity.GetOr(SessionsMinSimilarity);
      var k := req.maxSessions.GetOr(SessionsMaxSessions);
      Ok(RankSessions(t.rows, q, sim, min, k))
  }

  /** Ranking keeps the aggregated entries' per-session properties. */
  lemma RankedSessions(rows: seq<Chunk>, q: Embedding, sim: Similarity, min: real, reports: seq<Scored<Session>>, k: nat)
    requires Distinct(reports)
    requires forall x :: x in reports ==> Relevant(rows, q, sim, min, x.item.sessionId) && x == SessionOf(rows, q, sim, min, x.item.sessionId)
    requires forall c :: c in rows && sim(q, c.embedding) >= min ==> SessionOf(rows, q, sim, min, c.sessionId) in reports
    ensures var ss := Rank(reports, k);
      && (forall i, j :: 0 <= i < j < |ss| ==> ss[i].item.sessionId != ss[j].item.sessionId)
      && (forall i :: 0 <= i < |ss| ==>
            Relevant(rows, q, sim, min, ss[i].item.sessionId) && ss[i] == SessionOf(rows, q, sim, min, ss[i].item.sessionId))
      && (forall c :: c in rows && sim(q, c.embedding) >= min && SessionOf(rows, q, sim, min, c.sessionId) !in ss ==>
            |ss| == k && forall i :: 0 <= i < |ss| ==> ss[i].score >= SessionOf(rows, q, sim, min, c.sessionId).score)
  {
    var ss := Rank(reports, k);
    SubMultisetDistinct(ss, reports);
    forall i | 0 <= i < |ss|
      ensures Relevant(rows, q, sim, min, ss[i].item.sessionId) && ss[i] == SessionOf(rows, q, sim, min, ss[i].item.sessionId)
    {
      assert ss[i] in multiset(reports);
    }
    forall i, j | 0 <= i < j < |ss| ensures ss[i].item.sessionId != ss[j].item.sessionId {
      assert ss[i] in multiset(reports) && ss[j] in multiset(reports);
    }
    forall c | c in rows && sim(q, c.embedding) >= min && SessionOf(rows, q, sim, min, c.sessionId) !in ss
      ensures |ss| == k && forall i :: 0 <= i < |ss| ==> ss[i].score >= SessionOf(rows, q, sim, min, c.sessionId).score
    {
      var e := SessionOf(rows, q, sim, min, c.sessionId);
      assert e in multiset(reports) - multiset(ss);
    }
  }

  /** Two reported sessions of equal score come in first-match order. */
  lemma TiedSessionsPair(rows: seq<Chunk>, q: Embedding, sim: Similarity, min: real, ts: seq<Tally>, k: nat, i: nat, j: nat)
    requires forall x :: 0 <= x < |ts| ==> ts[x].count > 0
    requires FirstMatchOrdered(ts, rows, q, sim, min)
    requires i < j < |Rank(Reports(ts), k)| && Rank(Reports(ts), k)[i].score == Rank(Reports(ts), k)[j].score
    ensures FirstMatching(rows, q, sim, min, Rank(Reports(ts), k)[i].item.sessionId)
            < FirstMatching(rows, q, sim, min, Rank(Reports(ts), k)[j].item.sessionId)
  {
    var reports := Reports(ts);
    var a, b := RankTiePositions(reports, k, i, j);
    assert reports[a].item.sessionId == ts[a].sessionId && reports[b].item.sessionId == ts[b].sessionId;
  }

  /** A session cut by the cap although reported entry `i` ties it first
      matched after the session of entry `i`. */
  lemma CutSessionPair(rows: seq<Chunk>, q: Embedding, sim: Similarity, min: real, ts: seq<Tally>, k: nat, a: nat, i: nat)
    requires forall x :: 0 <= x < |ts| ==> ts[x].count > 0
    requires FirstMatchOrdered(ts, rows, q, sim, min)
    requires a < |ts| && Reports(ts)[a] !in Rank(Reports(ts), k)
    requires i < |Rank(Reports(ts), k)| && Rank(Reports(ts), k)[i].score == Reports(ts)[a].score
    ensures FirstMatching(rows, q, sim, min, Rank(Reports(ts), k)[i].item.sessionId)
            < FirstMatching(rows, q, sim, min, ts[a].sessionId)
  {
    var reports := Reports(ts);
    var a' := RankCutEarliest(reports, k, a, i);
    assert reports[a].item.sessionId == ts[a].sessionId && reports[a'].item.sessionId == ts[a'].sessionId;
  }

  /** `CutSessionPair` for the entry of session `sid`. */
  lemma CutSession(rows: seq<Chunk>, q: Embedding, sim: Similarity, min: real, ts: seq<Tally>, k: nat, sid: string, i: nat)
    requires forall x :: 0 <= x < |ts| ==> ts[x].count > 0
    requires FirstMatchOrdered(ts, rows, q, sim, min)
    requires SessionOf(rows, q, sim, min, sid) in Reports(ts) && SessionOf(rows, q, sim, min, sid) !in Rank(Reports(ts), k)
    requires i < |Rank(Reports(ts), k)| && Rank(Reports(ts), k)[i].score == SessionOf(rows, q, sim, min, sid).score
    ensures FirstMatching(rows, q, sim, min, Rank(Reports(ts), k)[i].item.sessionId) < FirstMatching(rows, q, sim, min, sid)
  {
    var reports := Reports(ts);
    var a :| 0 <= a < |reports| && reports[a] == SessionOf(rows, q, sim, min, sid);
    assert ts[a].sessionId == reports[a].item.sessionId == sid;
    CutSessionPair(rows, q, sim, min, ts, k, a, i);
  }

  /** Ranked entries of tallies in first-match order: ties keep that order. */
  lemma TiedSessionsOrder(rows: seq<Chunk>, q: Embedding, sim: Similarity, min: real, ts: seq<Tally>, k: nat)
    requires forall x :: 0 <= x < |ts| ==> ts[x].count > 0
    requires FirstMatchOrdered(ts, rows, q, sim, min)
    ensures var ss := Rank(Reports(ts), k);
      forall i, j :: 0 <= i < j < |ss| && ss[i].score == ss[j].score ==>
        FirstMatching(rows, q, sim, min, ss[i].item.sessionId) < FirstMatching(rows, q, sim, min, ss[j].item.sessionId)
  {
    var ss := Rank(Reports(ts), k);
    forall i, j | 0 <= i < j < |ss| && ss[i].score == ss[j].score
      ensures FirstMatching(rows, q, sim, min, ss[i].item.sessionId) < FirstMatching(rows, q, sim, min, ss[j].item.sessionId)
    {
      TiedSessionsPair(rows, q, sim, min, ts, k, i, j);
    }
  }

  /** Ranked entries of tallies in first-match order: the cap cuts the later
      of tied sessions. */
  lemma CutSessionsOrder(rows: seq<Chunk>, q: Embedding, sim: Similarity, min: real, ts: seq<Tally>, k: nat)
    requires forall x :: 0 <= x < |ts| ==> ts[x].count > 0
    requires FirstMatchOrdered(ts, rows, q, sim, min)
    requires forall c :: c in rows && sim(q, c.embedding) >= min ==> SessionOf(rows, q, sim, min, c.sessionId) in Reports(ts)
    ensures var ss := Rank(Reports(ts), k);
      forall sid, i :: Relevant(rows, q, sim, min, sid) && SessionOf(rows, q, sim, min, sid) !in ss
                         && 0 <= i < |ss| && ss[i].score == SessionOf(rows, q, sim, min, sid).score ==>
        FirstMatching(rows, q, sim, min, ss[i].item.sessionId) < FirstMatching(rows, q, sim, min, sid)
  {
    var reports := Reports(ts);
    var ss := Rank(reports, k);
    forall sid, i | Relevant(rows, q, sim, min, sid) && SessionOf(rows, q, sim, min, sid) !in ss
                      && 0 <= i < |ss| && ss[i].score == SessionOf(rows, q, sim, min, sid).score
      ensures FirstMatching(rows, q, sim, min, ss[i].item.sessionId) < FirstMatching(rows, q, sim, min, sid)
    {
      MatchingWitness(rows, q, sim, min, sid);
      var c :| c in rows && c.sessionId == sid && sim(q, c.embedding) >= min;
      CutSession(rows, q, sim, min, ts, k, sid, i);
    }
  }

  /** Entries of equal score come in the order their sessions first matched,
      and a relevant session missing although entry `i` ties it first matched
      after the session of entry `i`. */
  ghost predicate InFirstMatchOrder(ss: seq<Scored<Session>>, rows: seq<Chunk>, q: Embedding, sim: Similarity, min: real) {
    && (forall i, j :: 0 <= i < j < |ss| && ss[i].score == ss[j].score ==>
         FirstMatching(rows, q, sim, min, ss[i].item.sessionId) < FirstMatching(rows, q, sim, min, ss[j].item.sessionId))
    && (forall sid, i :: Relevant(rows, q, sim, min, sid) && SessionOf(rows, q, sim, min, sid) !in ss
                           && 0 <= i < |ss| && ss[i].score == SessionOf(rows, q, sim, min, sid).score ==>
         FirstMatching(rows, q, sim, min, ss[i].item.sessionId) < FirstMatching(rows, q, sim, min, sid))
  }

  /** The stable sort over the dict's insertion order: sessions of equal
      composite score are reported in the order they first matched, and a
      relevant session cut by the cap although a reported session ties it
      first matched after that session. */
  lemma RankedSessionsOrder(rows: seq<Chunk>, q: Embedding, sim: Similarity, min: real, k: nat)
    ensures InFirstMatchOrder(Rank(Reports(Tallies(rows, q, sim, min)), k), rows, q, sim, min)
  {
    var ts := Tallies(rows, q, sim, min);
    TalliesFirstMatchOrder(rows, q, sim, min);
    ReportsAgree(rows, q, sim, min);
    TiedSessionsOrder(rows, q, sim, min, ts, k);
    CutSessionsOrder(rows, q, sim, min, ts, k);
  }

  /** Every reported session scores between its mean and its best chunk, and
      with a threshold on the 4-decimal grid its mean and composite clear it. */
  lemma SessionScores(t: ChunkTable, req: SessionRequest, queryEmbedding: Option<Embedding>, sim: Similarity)
    requires req.query.Some? && queryEmbedding.Some?
    ensures var ss := FindRelevantSessions(t, req, queryEmbedding, sim).value;
      var min := req.minSimilarity.GetOr(SessionsMinSimilarity);
      forall i :: 0 <= i < |ss| ==>
        && ss[i].item.avgSimilarity <= ss[i].score <= ss[i].item.bestSimilarity
        && (OnGrid(min) ==> min <= ss[i].item.avgSimilarity && min <= ss[i].score)
  {
    var ss := FindRelevantSessions(t, req, queryEmbedding, sim).value;
    var q := queryEmbedding.value;
    var min := req.minSimilarity.GetOr(SessionsMinSimilarity);
    forall i | 0 <= i < |ss|
      ensures && ss[i].item.avgSimilarity <= ss[i].score <= ss[i].item.bestSimilarity
              && (OnGrid(min) ==> min <= ss[i].item.avgSimilarity && min <= ss[i].score)
    {
      SessionOfScores(t.rows, q, sim, min, ss[i].item.sessionId);
    }
  }
}
