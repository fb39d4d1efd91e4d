/** The filter / sort / truncate pipeline shared by `/recall`, `/chunks/search`
    and `/chunks/sessions`: keep the rows whose raw score clears a threshold,
    round the scores, sort descending with Python's stable `list.sort`, and
    keep a prefix of the requested length. */
module Ranking {
  import opened Rounding

  /** A row together with its similarity to the query. */
  datatype Scored<T> = Scored(item: T, score: real)

  /** Scores never increase along `s`. */
  predicate NonIncreasing<T(!new)>(s: seq<Scored<T>>) {
    forall i, j :: 0 <= i < j < |s| ==> s[i].score >= s[j].score
  }

  /** The rows of `s` whose score is exactly `v`, in their order in `s`.
      A sort is stable exactly when it preserves this subsequence for every `v`. */
  function WithScore<T(!new)>(s: seq<Scored<T>>, v: real): (r: seq<Scored<T>>)
    ensures forall x :: x in r <==> x in s && x.score == v
  {
    if |s| == 0 then []
    else if s[0].score == v then [s[0]] + WithScore(s[1..], v)
    else WithScore(s[1..], v)
  }

  /** The rows that clear the threshold (`sim >= min_similarity`), in scan order. */
  function KeepAtLeast<T(!new)>(xs: seq<Scored<T>>, min: real): (r: seq<Scored<T>>)
    ensures |r| <= |xs|
    ensures forall x :: x in r <==> x in xs && x.score >= min
  {
    if |xs| == 0 then []
    else if xs[0].score >= min then [xs[0]] + KeepAtLeast(xs[1..], min)
    else KeepAtLeast(xs[1..], min)
  }

  /** Every score replaced by `round(score, 4)`. */
  function Rounded<T(!new)>(xs: seq<Scored<T>>): (r: seq<Scored<T>>)
    ensures |r| == |xs|
    ensures forall i :: 0 <= i < |xs| ==> r[i] == Scored(xs[i].item, Round4(xs[i].score))
  {
    if |xs| == 0 then [] else [Scored(xs[0].item, Round4(xs[0].score))] + Rounded(xs[1..])
  }

  /** Prepending a row no worse than the head keeps a sequence descending. */
  lemma ConsNonIncreasing<T(!new)>(h: Scored<T>, s: seq<Scored<T>>)
    requires NonIncreasing(s)
    requires |s| > 0 ==> s[0].score <= h.score
    ensures NonIncreasing([h] + s)
  {
    var r := [h] + s;
    forall i, j | 0 <= i < j < |r| ensures r[i].score >= r[j].score {
      if i == 0 && j > 1 {
        assert r[j] == s[j - 1];
        assert s[0].score >= s[j - 1].score;
      }
    }
  }

  /** Inserts `x`, which came before every row of `s` in the input, in front
      of the first row that does not beat it: ties keep input order. */
  function InsertDesc<T(!new)>(x: Scored<T>, s: seq<Scored<T>>): (r: seq<Scored<T>>)
    ensures multiset(r) == multiset(s) + multiset{x}
    ensures r[0] == x || r[0] == s[0]
    ensures NonIncreasing(s) ==> NonIncreasing(r)
  {
    if |s| == 0 then [x]
    else if s[0].score <= x.score then
      (if NonIncreasing(s) then ConsNonIncreasing(x, s); [x] + s else [x] + s)
    else
      var rest := InsertDesc(x, s[1..]);
      assert s == [s[0]] + s[1..];
      assert NonIncreasing(s) ==> NonIncreasing(s[1..]) && (|s| > 1 ==> s[1].score <= s[0].score);
      (if NonIncreasing(s) then ConsNonIncreasing(s[0], rest); [s[0]] + rest else [s[0]] + rest)
  }

  /** `sorted(xs, key=score, reverse=True)`: a stable descending sort. */
  function SortDesc<T(!new)>(xs: seq<Scored<T>>): (r: seq<Scored<T>>)
    ensures multiset(r) == multiset(xs)
    ensures NonIncreasing(r)
  {
    if |xs| == 0 then []
    else
      assert xs == [xs[0]] + xs[1..];
      InsertDesc(xs[0], SortDesc(xs[1..]))
  }

  /** Inserting `x` adds it to the front of its own score class only. */
  lemma {:induction false} InsertDescWithScore<T(!new)>(x: Scored<T>, s: seq<Scored<T>>, v: real)
    ensures WithScore(InsertDesc(x, s), v)
         == if x.score == v then [x] + WithScore(s, v) else WithScore(s, v)
  {
    if |s| == 0 {
    } else if s[0].score <= x.score {
      assert InsertDesc(x, s)[1..] == s;
    } else {
      var r := InsertDesc(x, s);
      assert r[0] == s[0] && r[1..] == InsertDesc(x, s[1..]);
      InsertDescWithScore(x, s[1..], v);
    }
  }

  /** Stability: rows with equal scores leave the sort in scan order. */
  lemma {:induction false} SortDescStable<T(!new)>(xs: seq<Scored<T>>, v: real)
    ensures WithScore(SortDesc(xs), v) == WithScore(xs, v)
  {
    if |xs| > 0 {
      InsertDescWithScore(xs[0], SortDesc(xs[1..]), v);
      SortDescStable(xs[1..], v);
    }
  }

  /** Two sequences agree on every score class. */
  ghost predicate SameClasses<T(!new)>(a: seq<Scored<T>>, b: seq<Scored<T>>) {
    forall v :: WithScore(a, v) == WithScore(b, v)
  }

  /** In a descending sequence no row beats the head. */
  lemma HeadIsBest<T(!new)>(a: seq<Scored<T>>, x: Scored<T>)
    requires NonIncreasing(a) && x in a
    ensures x.score <= a[0].score
  {
    var i :| 0 <= i < |a| && a[i] == x;
  }

  /** Sequences with the same score classes have the same best score. */
  lemma SameClassesSameHeadScore<T(!new)>(a: seq<Scored<T>>, b: seq<Scored<T>>)
    requires NonIncreasing(a) && NonIncreasing(b) && |a| > 0
    requires SameClasses(a, b)
    ensures |b| > 0 && a[0].score == b[0].score
  {
    var va := a[0].score;
    assert WithScore(a, va) == WithScore(b, va);
    assert a[0] in WithScore(a, va);
    assert a[0] in b;
    HeadIsBest(b, a[0]);
    var vb := b[0].score;
    assert WithScore(a, vb) == WithScore(b, vb);
    assert b[0] in WithScore(b, vb);
    assert b[0] in a;
    HeadIsBest(a, b[0]);
  }

  /** The head of a sequence opens its own score class. */
  lemma ClassHead<T(!new)>(a: seq<Scored<T>>)
    requires |a| > 0
    ensures WithScore(a, a[0].score)[0] == a[0]
    ensures WithScore(a, a[0].score)[1..] == WithScore(a[1..], a[0].score)
  {
  }

  /** Removing equal heads keeps the score classes equal. */
  lemma SameClassesTails<T(!new)>(a: seq<Scored<T>>, b: seq<Scored<T>>)
    requires |a| > 0 && |b| > 0 && a[0].score == b[0].score
    requires SameClasses(a, b)
    ensures a[0] == b[0]
    ensures SameClasses(a[1..], b[1..])
  {
    var va := a[0].score;
    ClassHead(a);
    ClassHead(b);
    assert WithScore(a, va) == WithScore(b, va);
    forall v
      ensures WithScore(a[1..], v) == WithScore(b[1..], v)
    {
      assert WithScore(a, v) == WithScore(b, v);
      if v != va {
        assert WithScore(a, v) == WithScore(a[1..], v);
        assert WithScore(b, v) == WithScore(b[1..], v);
      }
    }
  }

  /** Two descending sequences with the same rows in every score class are equal. */
  lemma {:induction false} SortedClassesDetermine<T(!new)>(a: seq<Scored<T>>, b: seq<Scored<T>>)
    requires NonIncreasing(a) && NonIncreasing(b)
    requires SameClasses(a, b)
    ensures a == b
    decreases |a|
  {
    if |a| == 0 {
      if |b| > 0 {
        SameClassesSameHeadScore(b, a);
      }
    } else {
      SameClassesSameHeadScore(a, b);
      SameClassesTails(a, b);
      SortedClassesDetermine(a[1..], b[1..]);
      assert a == [a[0]] + a[1..] && b == [b[0]] + b[1..];
    }
  }

  /** `SortDesc` is THE stable descending sort: any descending arrangement of
      `xs` that keeps each score class in scan order is equal to it. */
  lemma SortDescUnique<T(!new)>(xs: seq<Scored<T>>, ys: seq<Scored<T>>)
    requires NonIncreasing(ys)
    requires forall v :: WithScore(ys, v) == WithScore(xs, v)
    ensures ys == SortDesc(xs)
  {
    forall v ensures WithScore(SortDesc(xs), v) == WithScore(ys, v) {
      SortDescStable(xs, v);
    }
    assert SameClasses(SortDesc(xs), ys);
    SortedClassesDetermine(SortDesc(xs), ys);
  }

  /** `results[:k]`. */
  function Take<T(!new)>(xs: seq<T>, k: nat): (r: seq<T>)
    ensures |r| == if k <= |xs| then k else |xs|
    ensures r == xs[..|r|]
  {
    if k <= |xs| then xs[..k] else xs
  }

  /** What a prefix of a descending sequence leaves behind scores no better
      than anything in the prefix. */
  lemma PrefixLeftovers<T(!new)>(s: seq<Scored<T>>, n: nat, y: Scored<T>)
    requires n <= |s| && NonIncreasing(s)
    requires y in multiset(s) - multiset(s[..n])
    ensures n < |s| && forall i :: 0 <= i < n ==> s[i].score >= y.score
  {
    assert s == s[..n] + s[n..];
    assert multiset(s) == multiset(s[..n]) + multiset(s[n..]);
    assert y in multiset(s[n..]);
    var j :| 0 <= j < |s[n..]| && s[n..][j] == y;
    assert s[n + j] == y;
  }

  /** A prefix of a descending sequence is descending and a sub-multiset. */
  lemma PrefixOfSorted<T(!new)>(s: seq<Scored<T>>, n: nat)
    requires n <= |s| && NonIncreasing(s)
    ensures NonIncreasing(s[..n])
    ensures multiset(s[..n]) <= multiset(s)
  {
    assert s == s[..n] + s[n..];
    assert multiset(s) == multiset(s[..n]) + multiset(s[n..]);
  }

  /** `results.sort(key=score, reverse=True); results[:k]`. The result is the
      best `k` rows: descending, capped at `k`, drawn from `xs`, and any row
      left out is beaten or tied by every row returned. */
  function Rank<T(!new)>(xs: seq<Scored<T>>, k: nat): (r: seq<Scored<T>>)
    ensures |r| == if k <= |xs| then k else |xs|
    ensures NonIncreasing(r)
    ensures multiset(r) <= multiset(xs)
    ensures forall y :: y in multiset(xs) - multiset(r) ==>
              |r| == k && forall i :: 0 <= i < |r| ==> r[i].score >= y.score
  {
    var s := SortDesc(xs);
    TakeSorted(s, k);
    Take(s, k)
  }

  /** The first `k` rows of a descending sequence are descending, drawn from
      it, and beat or tie every row they leave behind. */
  lemma TakeSorted<T(!new)>(s: seq<Scored<T>>, k: nat)
    requires NonIncreasing(s)
    ensures var r := Take(s, k);
      && NonIncreasing(r)
      && multiset(r) <= multiset(s)
      && forall y :: y in multiset(s) - multiset(r) ==>
           |r| == k && forall i :: 0 <= i < |r| ==> r[i].score >= y.score
  {
    var r := Take(s, k);
    PrefixOfSorted(s, |r|);
    forall y | y in multiset(s) - multiset(r)
      ensures |r| == k && forall i :: 0 <= i < |r| ==> r[i].score >= y.score
    {
      PrefixLeftovers(s, |r|, y);
    }
  }

  /** The pipeline of the three search routes: threshold on the raw score,
      then rank by the rounded score. */
  function TopK<T(!new)>(xs: seq<Scored<T>>, min: real, k: nat): (r: seq<Scored<T>>)
    ensures |r| <= k && |r| <= |xs|
    ensures |r| == if k <= |KeepAtLeast(xs, min)| then k else |KeepAtLeast(xs, min)|
    ensures NonIncreasing(r)
  {
    Rank(Rounded(KeepAtLeast(xs, min)), k)
  }

  /** Every row `TopK` returns is an input row that cleared the threshold,
      reported with its rounded score. */
  lemma TopKSound<T(!new)>(xs: seq<Scored<T>>, min: real, k: nat, y: Scored<T>)
    requires y in TopK(xs, min, k)
    ensures exists x :: x in xs && x.score >= min && y == Scored(x.item, Round4(x.score))
  {
    var kept := KeepAtLeast(xs, min);
    var cands := Rounded(kept);
    assert y in multiset(TopK(xs, min, k));
    assert y in multiset(cands);
    var i :| 0 <= i < |cands| && cands[i] == y;
    assert kept[i] in kept;
  }

  /** Every input row that clears the threshold but is missing from `TopK` was
      cut by the cap, and scores no better than anything returned. */
  lemma TopKComplete<T(!new)>(xs: seq<Scored<T>>, min: real, k: nat, x: Scored<T>)
    requires x in xs && x.score >= min
    requires Scored(x.item, Round4(x.score)) !in TopK(xs, min, k)
    ensures var r := TopK(xs, min, k);
      |r| == k && forall i :: 0 <= i < |r| ==> r[i].score >= Round4(x.score)
  {
    var kept := KeepAtLeast(xs, min);
    var cands := Rounded(kept);
    var y := Scored(x.item, Round4(x.score));
    var i :| 0 <= i < |kept| && kept[i] == x;
    assert cands[i] == y;
    assert y in multiset(cands);
    assert y !in multiset(TopK(xs, min, k));
  }

  /** Each row of a table paired with its score, projected to the fields a
      route reports; the order is the table's scan order. */
  function ScoreAll<R, V>(rows: seq<R>, view: R -> V, score: R -> real): (r: seq<Scored<V>>)
    ensures |r| == |rows|
    ensures forall i :: 0 <= i < |rows| ==> r[i] == Scored(view(rows[i]), score(rows[i]))
  {
    seq(|rows|, i requires 0 <= i < |rows| => Scored(view(rows[i]), score(rows[i])))
  }

  /** How many rows of a table score at least `min`. */
  function CountAtLeast<R>(rows: seq<R>, score: R -> real, min: real): (n: nat)
    ensures n <= |rows|
  {
    if |rows| == 0 then 0
    else (if score(rows[0]) >= min then 1 else 0) + CountAtLeast(rows[1..], score, min)
  }

  /** The threshold filter over a table keeps exactly the rows `CountAtLeast`
      counts. */
  lemma {:induction false} KeepAtLeastCount<R, V(!new)>(rows: seq<R>, view: R -> V, score: R -> real, min: real)
    ensures |KeepAtLeast(ScoreAll(rows, view, score), min)| == CountAtLeast(rows, score, min)
  {
    if |rows| > 0 {
      var xs := ScoreAll(rows, view, score);
      assert xs[1..] == ScoreAll(rows[1..], view, score);
      KeepAtLeastCount(rows[1..], view, score, min);
    }
  }

  /** What a search route returns for row `x`: its view with the rounded score. */
  function Reported<R, V>(x: R, view: R -> V, score: R -> real): Scored<V> {
    Scored(view(x), Round4(score(x)))
  }

  /** `TopK` over a table: every reported entry is the report of a row that
      cleared the threshold; a row that cleared it but is missing lost to the
      cap and to entries at least as good; with a four-decimal threshold the
      rounded scores reported still clear it. */
  lemma TopKRows<R(!new), V(!new)>(rows: seq<R>, view: R -> V, score: R -> real, min: real, k: nat)
    ensures var r := TopK(ScoreAll(rows, view, score), min, k);
      && (forall y :: y in r ==> exists x :: x in rows && score(x) >= min && y == Reported(x, view, score))
      && (forall x :: x in rows && score(x) >= min && Reported(x, view, score) !in r ==>
            |r| == k && forall i :: 0 <= i < |r| ==> r[i].score >= Round4(score(x)))
      && (OnGrid(min) ==> forall i :: 0 <= i < |r| ==> r[i].score >= min)
  {
    var xs := ScoreAll(rows, view, score);
    var r := TopK(xs, min, k);
    forall y | y in r
      ensures exists x :: x in rows && score(x) >= min && y == Reported(x, view, score)
    {
      TopKSound(xs, min, k, y);
      var z :| z in xs && z.score >= min && y == Scored(z.item, Round4(z.score));
      var j :| 0 <= j < |xs| && xs[j] == z;
      assert rows[j] in rows && y == Reported(rows[j], view, score);
    }
    forall x | x in rows && score(x) >= min && Reported(x, view, score) !in r
      ensures |r| == k && forall i :: 0 <= i < |r| ==> r[i].score >= Round4(score(x))
    {
      var j :| 0 <= j < |rows| && rows[j] == x;
      assert xs[j] in xs;
      TopKComplete(xs, min, k, xs[j]);
    }
    forall i | OnGrid(min) && 0 <= i < |r|
      ensures r[i].score >= min
    {
      TopKSound(xs, min, k, r[i]);
      var z :| z in xs && z.score >= min && r[i] == Scored(z.item, Round4(z.score));
      Round4KeepsGridThreshold(min, z.score);
    }
  }

  /** No element occurs twice. */
  predicate Distinct<T(==)>(s: seq<T>) {
    forall i, j :: 0 <= i < j < |s| ==> s[i] != s[j]
  }

  /** A sequence without repeats holds each element at most once. */
  lemma {:induction false} DistinctCounts<T>(s: seq<T>)
    requires Distinct(s)
    ensures forall x :: multiset(s)[x] <= 1
  {
    if |s| > 0 {
      var init := s[..|s| - 1];
      var last := s[|s| - 1];
      assert s == init + [last];
      assert Distinct(init);
      DistinctCounts(init);
      assert last !in init;
    }
  }

  /** A sequence drawing no element more often than a repeat-free one has no repeats. */
  lemma SubMultisetDistinct<T>(r: seq<T>, xs: seq<T>)
    requires Distinct(xs) && multiset(r) <= multiset(xs)
    ensures Distinct(r)
  {
    DistinctCounts(xs);
    forall i, j | 0 <= i < j < |r| ensures r[i] != r[j] {
      assert r == r[..j] + [r[j]] + r[j + 1..];
      assert r[i] in r[..j];
      assert multiset(r)[r[j]] == multiset(r[..j])[r[j]] + 1 + multiset(r[j + 1..])[r[j]];
    }
  }

  /** `m` lists, in increasing order, the positions of `s` that the elements
      of `f` were taken from: `f` is an order-preserving subsequence of `s`. */
  ghost predicate Picks<T>(f: seq<T>, s: seq<T>, m: seq<nat>) {
    && |m| == |f|
    && (forall k :: 0 <= k < |m| ==> m[k] < |s| && f[k] == s[m[k]])
    && (forall k, l :: 0 <= k < l < |m| ==> m[k] < m[l])
  }

  /** Positions shifted past a new head. */
  function Shift(m: seq<nat>): (r: seq<nat>)
    ensures |r| == |m| && forall k :: 0 <= k < |m| ==> r[k] == m[k] + 1
  {
    seq(|m|, k requires 0 <= k < |m| => m[k] + 1)
  }

  lemma ShiftIn(m: seq<nat>, i: nat)
    requires i in m
    ensures i + 1 in Shift(m)
  {
    var k :| 0 <= k < |m| && m[k] == i;
    assert Shift(m)[k] == i + 1;
  }

  /** A kept head extends the picked positions by `0`. */
  lemma PicksKeep<T>(f: seq<T>, s: seq<T>, m: seq<nat>)
    requires |s| > 0 && Picks(f, s[1..], m)
    ensures Picks([s[0]] + f, s, [0] + Shift(m))
  {
  }

  /** A dropped head shifts the picked positions by one. */
  lemma PicksSkip<T>(f: seq<T>, s: seq<T>, m: seq<nat>)
    requires |s| > 0 && Picks(f, s[1..], m)
    ensures Picks(f, s, Shift(m))
  {
  }

  /** Coverage of the tail's qualifying rows carries over past a new head. */
  lemma ShiftCoversAtLeast<T>(xs: seq<Scored<T>>, min: real, m: seq<nat>)
    requires |xs| > 0
    requires forall i :: 0 <= i < |xs[1..]| && xs[1..][i].score >= min ==> i in m
    ensures forall i :: 1 <= i < |xs| && xs[i].score >= min ==> i in Shift(m)
  {
    forall i | 1 <= i < |xs| && xs[i].score >= min ensures i in Shift(m) {
      assert xs[1..][i - 1] == xs[i];
      ShiftIn(m, i - 1);
    }
  }

  /** Coverage of the tail's score class carries over past a new head. */
  lemma ShiftCoversScore<T>(xs: seq<Scored<T>>, v: real, m: seq<nat>)
    requires |xs| > 0
    requires forall i :: 0 <= i < |xs[1..]| && xs[1..][i].score == v ==> i in m
    ensures forall i :: 1 <= i < |xs| && xs[i].score == v ==> i in Shift(m)
  {
    forall i | 1 <= i < |xs| && xs[i].score == v ensures i in Shift(m) {
      assert xs[1..][i - 1] == xs[i];
      ShiftIn(m, i - 1);
    }
  }

  /** The threshold filter keeps the surviving rows in scan order, and every
      row that clears the threshold is one of them. */
  lemma {:induction false} KeepAtLeastPicks<T(!new)>(xs: seq<Scored<T>>, min: real) returns (m: seq<nat>)
    ensures Picks(KeepAtLeast(xs, min), xs, m)
    ensures forall i :: 0 <= i < |xs| && xs[i].score >= min ==> i in m
  {
    if |xs| == 0 {
      m := [];
    } else {
      var m' := KeepAtLeastPicks(xs[1..], min);
      ShiftCoversAtLeast(xs, min, m');
      if xs[0].score >= min {
        PicksKeep(KeepAtLeast(xs[1..], min), xs, m');
        m := [0] + Shift(m');
      } else {
        PicksSkip(KeepAtLeast(xs[1..], min), xs, m');
        m := Shift(m');
      }
    }
  }

  /** A score class keeps its rows in order, and holds every row of that score. */
  lemma {:induction false} WithScorePicks<T(!new)>(xs: seq<Scored<T>>, v: real) returns (m: seq<nat>)
    ensures Picks(WithScore(xs, v), xs, m)
    ensures forall i :: 0 <= i < |xs| && xs[i].score == v ==> i in m
  {
    if |xs| == 0 {
      m := [];
    } else {
      var m' := WithScorePicks(xs[1..], v);
      ShiftCoversScore(xs, v, m');
      if xs[0].score == v {
        PicksKeep(WithScore(xs[1..], v), xs, m');
        m := [0] + Shift(m');
      } else {
        PicksSkip(WithScore(xs[1..], v), xs, m');
        m := Shift(m');
      }
    }
  }

  /** Filtering a table scanned in two parts filters each part in turn, so the
      threshold filter keeps scan order and multiplicity. */
  lemma {:induction false} KeepAtLeastAppend<T(!new)>(a: seq<Scored<T>>, b: seq<Scored<T>>, min: real)
    ensures KeepAtLeast(a + b, min) == KeepAtLeast(a, min) + KeepAtLeast(b, min)
  {
    if |a| > 0 {
      assert (a + b)[1..] == a[1..] + b;
      KeepAtLeastAppend(a[1..], b, min);
    } else {
      assert a + b == b;
    }
  }

  /** The position of a picked index among the picks. */
  lemma PickedAt(m: seq<nat>, i: nat) returns (k: nat)
    requires i in m
    ensures k < |m| && m[k] == i
  {
    k :| 0 <= k < |m| && m[k] == i;
  }

  /** Picked positions increase with the picks. */
  lemma PicksOrder<T>(f: seq<T>, s: seq<T>, m: seq<nat>, k: nat, l: nat)
    requires Picks(f, s, m) && k < l < |m|
    ensures m[k] < m[l] < |s| && f[k] == s[m[k]] && f[l] == s[m[l]]
  {
  }

  /** Picks come in the order of their positions. */
  lemma PicksReflect<T>(f: seq<T>, s: seq<T>, m: seq<nat>, k: nat, l: nat)
    requires Picks(f, s, m) && k < |m| && l < |m| && m[k] < m[l]
    ensures k < l
  {
  }

  /** Two rows of equal score in the sorted sequence come from the input in
      the same order. */
  lemma SortedTiePositions<T(!new)>(xs: seq<Scored<T>>, i: nat, j: nat) returns (a: nat, b: nat)
    requires i < j < |SortDesc(xs)| && SortDesc(xs)[i].score == SortDesc(xs)[j].score
    ensures a < b < |xs| && xs[a] == SortDesc(xs)[i] && xs[b] == SortDesc(xs)[j]
  {
    var s := SortDesc(xs);
    var v := s[i].score;
    var m1 := WithScorePicks(s, v);
    var ki := PickedAt(m1, i);
    var kj := PickedAt(m1, j);
    PicksReflect(WithScore(s, v), s, m1, ki, kj);
    PicksOrder(WithScore(s, v), s, m1, ki, kj);
    SortDescStable(xs, v);
    var m2 := WithScorePicks(xs, v);
    PicksOrder(WithScore(xs, v), xs, m2, ki, kj);
    a, b := m2[ki], m2[kj];
  }

  /** Two rows of equal score among the first `k` sorted rows come from the
      input in the same order. */
  lemma RankTiePositions<T(!new)>(xs: seq<Scored<T>>, k: nat, i: nat, j: nat) returns (a: nat, b: nat)
    requires i < j < |Rank(xs, k)| && Rank(xs, k)[i].score == Rank(xs, k)[j].score
    ensures a < b < |xs| && xs[a] == Rank(xs, k)[i] && xs[b] == Rank(xs, k)[j]
  {
    var s := SortDesc(xs);
    assert Rank(xs, k) == Take(s, k);
    a, b := SortedTiePositions(xs, i, j);
  }

  /** The input positions of two equal-score rows that `TopK` returns. */
  lemma TopKTiePositions<T(!new)>(xs: seq<Scored<T>>, min: real, k: nat, i: nat, j: nat) returns (p: nat, q: nat)
    requires i < j < |TopK(xs, min, k)| && TopK(xs, min, k)[i].score == TopK(xs, min, k)[j].score
    ensures p < q < |xs| && xs[p].score >= min && xs[q].score >= min
    ensures TopK(xs, min, k)[i] == Scored(xs[p].item, Round4(xs[p].score))
    ensures TopK(xs, min, k)[j] == Scored(xs[q].item, Round4(xs[q].score))
  {
    var kept := KeepAtLeast(xs, min);
    var cands := Rounded(kept);
    assert TopK(xs, min, k) == Rank(cands, k);
    var m := KeepAtLeastPicks(xs, min);
    var a, b := RankTiePositions(cands, k, i, j);
    PicksOrder(kept, xs, m, a, b);
    assert xs[m[a]] in kept && xs[m[b]] in kept;
    p, q := m[a], m[b];
  }

  /** Ties keep scan order through the whole pipeline: of two returned rows
      with equal score, the earlier came earlier in the input. */
  lemma TopKTieOrder<T(!new)>(xs: seq<Scored<T>>, min: real, k: nat)
    ensures var r := TopK(xs, min, k);
      forall i, j :: 0 <= i < j < |r| && r[i].score == r[j].score ==>
        exists p, q :: 0 <= p < q < |xs| && xs[p].score >= min && xs[q].score >= min
                    && r[i] == Scored(xs[p].item, Round4(xs[p].score))
                    && r[j] == Scored(xs[q].item, Round4(xs[q].score))
  {
    var r := TopK(xs, min, k);
    forall i, j | 0 <= i < j < |r| && r[i].score == r[j].score
      ensures exists p, q :: 0 <= p < q < |xs| && xs[p].score >= min && xs[q].score >= min
                          && r[i] == Scored(xs[p].item, Round4(xs[p].score))
                          && r[j] == Scored(xs[q].item, Round4(xs[q].score))
    {
      var p, q := TopKTiePositions(xs, min, k, i, j);
    }
  }

  /** The position of a multiset member in its sequence. */
  lemma IndexIn<T>(s: seq<T>, x: T) returns (a: nat)
    requires x in multiset(s)
    ensures a < |s| && s[a] == x
  {
    assert x in s;
    a :| 0 <= a < |s| && s[a] == x;
  }

  /** Rows with pairwise different keys stay that way through the pipeline. */
  lemma TopKKeysDistinct<T(!new), K>(xs: seq<Scored<T>>, min: real, k: nat, key: T -> K)
    requires forall p, q :: 0 <= p < q < |xs| ==> key(xs[p].item) != key(xs[q].item)
    ensures var r := TopK(xs, min, k);
      forall i, j :: 0 <= i < j < |r| ==> key(r[i].item) != key(r[j].item)
  {
    var kept := KeepAtLeast(xs, min);
    var cands := Rounded(kept);
    var r := TopK(xs, min, k);
    assert r == Rank(cands, k);
    var m := KeepAtLeastPicks(xs, min);
    forall a, b | 0 <= a < b < |cands| ensures key(cands[a].item) != key(cands[b].item) {
      assert cands[a].item == xs[m[a]].item && cands[b].item == xs[m[b]].item;
    }
    SubMultisetDistinct(r, cands);
    forall i, j | 0 <= i < j < |r| ensures key(r[i].item) != key(r[j].item) {
      var a := IndexIn(cands, r[i]);
      var b := IndexIn(cands, r[j]);
      assert a != b;
    }
  }

  /** Entries of equal score report rows that qualified, in scan order. */
  ghost predicate TiesInScanOrder<R, V>(r: seq<Scored<V>>, rows: seq<R>, view: R -> V, score: R -> real, min: real) {
    forall i, j :: 0 <= i < j < |r| && r[i].score == r[j].score ==>
      exists p, q :: 0 <= p < q < |rows| && score(rows[p]) >= min && score(rows[q]) >= min
                  && r[i] == Reported(rows[p], view, score) && r[j] == Reported(rows[q], view, score)
  }

  /** Of tied rows, the earliest in scan order were kept: a qualifying row
      whose report is missing although entry `i` ties it is preceded in scan
      order by a qualifying row that entry `i` reports. */
  ghost predicate CutKeepsEarliest<R, V>(r: seq<Scored<V>>, rows: seq<R>, view: R -> V, score: R -> real, min: real) {
    forall p, i :: 0 <= p < |rows| && score(rows[p]) >= min && Reported(rows[p], view, score) !in r
                   && 0 <= i < |r| && r[i].score == Round4(score(rows[p])) ==>
      exists p' :: 0 <= p' < p && score(rows[p']) >= min && r[i] == Reported(rows[p'], view, score)
  }

  /** `TopKTieOrder` over a table: of two returned entries with equal score,
      the earlier reports the row that comes earlier in scan order. */
  lemma RowsTieOrder<R(!new), V(!new)>(rows: seq<R>, view: R -> V, score: R -> real, min: real, k: nat)
    ensures TiesInScanOrder(TopK(ScoreAll(rows, view, score), min, k), rows, view, score, min)
  {
    var xs := ScoreAll(rows, view, score);
    var r := TopK(xs, min, k);
    forall i, j | 0 <= i < j < |r| && r[i].score == r[j].score
      ensures exists p, q :: 0 <= p < q < |rows| && score(rows[p]) >= min && score(rows[q]) >= min
                          && r[i] == Reported(rows[p], view, score) && r[j] == Reported(rows[q], view, score)
    {
      var p, q := TopKTiePositions(xs, min, k, i, j);
      assert xs[p] == Scored(view(rows[p]), score(rows[p]));
      assert xs[q] == Scored(view(rows[q]), score(rows[q]));
    }
  }

  /** `TopKKeysDistinct` over a table whose rows have pairwise different keys. */
  lemma RowsKeysDistinct<R(!new), V(!new), K>(rows: seq<R>, view: R -> V, score: R -> real, min: real, k: nat, key: V -> K)
    requires forall p, q :: 0 <= p < q < |rows| ==> key(view(rows[p])) != key(view(rows[q]))
    ensures var r := TopK(ScoreAll(rows, view, score), min, k);
      forall i, j :: 0 <= i < j < |r| ==> key(r[i].item) != key(r[j].item)
  {
    var xs := ScoreAll(rows, view, score);
    TopKKeysDistinct(xs, min, k, key);
  }

  /** `Rank` is the first `k` rows of any descending arrangement that keeps
      every score class in input order: of Python's stable descending sort. */
  lemma RankIsPrefix<T(!new)>(xs: seq<Scored<T>>, ys: seq<Scored<T>>, k: nat)
    requires NonIncreasing(ys) && SameClasses(ys, xs)
    ensures Rank(xs, k) == Take(ys, k)
  {
    SortDescUnique(xs, ys);
  }

  /** A pick is the element at its position. */
  lemma PicksAt<T>(f: seq<T>, s: seq<T>, m: seq<nat>, k: nat)
    requires Picks(f, s, m) && k < |m|
    ensures m[k] < |s| && f[k] == s[m[k]]
  {
  }

  /** Cutting the sorted sequence after `n` rows keeps the earliest tied
      rows: an input row left beyond the cut is preceded in the input by each
      kept row that ties it. */
  lemma SortedCutEarliest<T(!new)>(xs: seq<Scored<T>>, n: nat, a: nat, i: nat) returns (a': nat)
    requires n <= |SortDesc(xs)| && a < |xs| && xs[a] !in SortDesc(xs)[..n]
    requires i < n && SortDesc(xs)[i].score == xs[a].score
    ensures a' < a && xs[a'] == SortDesc(xs)[i]
  {
    var s := SortDesc(xs);
    var v := xs[a].score;
    SortDescStable(xs, v);
    var w := WithScore(xs, v);
    var m1 := WithScorePicks(s, v);
    var m2 := WithScorePicks(xs, v);
    var ki := PickedAt(m1, i);
    var ka := PickedAt(m2, a);
    PicksAt(w, xs, m2, ka);
    PicksAt(w, s, m1, ka);
    assert m1[ka] >= n;
    PicksReflect(w, s, m1, ki, ka);
    PicksOrder(w, xs, m2, ki, ka);
    PicksAt(w, s, m1, ki);
    a' := m2[ki];
  }

  /** The cut keeps the earliest tied rows: when row `a` of the input is cut
      although a kept row `i` ties it, that kept row sits earlier in the input. */
  lemma RankCutEarliest<T(!new)>(xs: seq<Scored<T>>, k: nat, a: nat, i: nat) returns (a': nat)
    requires a < |xs| && xs[a] !in Rank(xs, k)
    requires i < |Rank(xs, k)| && Rank(xs, k)[i].score == xs[a].score
    ensures a' < a && xs[a'] == Rank(xs, k)[i]
  {
    var s := SortDesc(xs);
    var r := Rank(xs, k);
    assert r == Take(s, k) == s[..|r|];
    a' := SortedCutEarliest(xs, |r|, a, i);
  }

  /** `RankCutEarliest` through the whole pipeline, for one cut row `p` and
      one returned row `i` that ties it. */
  lemma TopKCutEarliest<T(!new)>(xs: seq<Scored<T>>, min: real, k: nat, p: nat, i: nat) returns (p': nat)
    requires p < |xs| && xs[p].score >= min
    requires Scored(xs[p].item, Round4(xs[p].score)) !in TopK(xs, min, k)
    requires i < |TopK(xs, min, k)| && TopK(xs, min, k)[i].score == Round4(xs[p].score)
    ensures p' < p && xs[p'].score >= min
    ensures TopK(xs, min, k)[i] == Scored(xs[p'].item, Round4(xs[p'].score))
  {
    var kept := KeepAtLeast(xs, min);
    var cands := Rounded(kept);
    assert TopK(xs, min, k) == Rank(cands, k);
    var m := KeepAtLeastPicks(xs, min);
    var a := PickedAt(m, p);
    PicksAt(kept, xs, m, a);
    var a' := RankCutEarliest(cands, k, a, i);
    PicksOrder(kept, xs, m, a', a);
    assert xs[m[a']] in kept;
    p' := m[a'];
  }

  /** Of tied rows, the cut keeps those that come first in the input: a
      qualifying row that is missing although a returned row ties it was
      beaten to the place by an earlier input row. */
  lemma TopKKeepsEarliest<T(!new)>(xs: seq<Scored<T>>, min: real, k: nat)
    ensures var r := TopK(xs, min, k);
      forall p, i :: 0 <= p < |xs| && xs[p].score >= min && Scored(xs[p].item, Round4(xs[p].score)) !in r
                     && 0 <= i < |r| && r[i].score == Round4(xs[p].score) ==>
        exists p' :: 0 <= p' < p && xs[p'].score >= min && r[i] == Scored(xs[p'].item, Round4(xs[p'].score))
  {
    var r := TopK(xs, min, k);
    forall p, i | 0 <= p < |xs| && xs[p].score >= min && Scored(xs[p].item, Round4(xs[p].score)) !in r
                  && 0 <= i < |r| && r[i].score == Round4(xs[p].score)
      ensures exists p' :: 0 <= p' < p && xs[p'].score >= min && r[i] == Scored(xs[p'].item, Round4(xs[p'].score))
    {
      var p' := TopKCutEarliest(xs, min, k, p, i);
    }
  }

  /** `TopKKeepsEarliest` over a table. */
  lemma RowsKeepEarliest<R(!new), V(!new)>(rows: seq<R>, view: R -> V, score: R -> real, min: real, k: nat)
    ensures CutKeepsEarliest(TopK(ScoreAll(rows, view, score), min, k), rows, view, score, min)
  {
    var xs := ScoreAll(rows, view, score);
    var r := TopK(xs, min, k);
    forall p, i | 0 <= p < |rows| && score(rows[p]) >= min && Reported(rows[p], view, score) !in r
                  && 0 <= i < |r| && r[i].score == Round4(score(rows[p]))
      ensures exists p' :: 0 <= p' < p && score(rows[p']) >= min && r[i] == Reported(rows[p'], view, score)
    {
      assert xs[p] == Scored(view(rows[p]), score(rows[p]));
      var p' := TopKCutEarliest(xs, min, k, p, i);
      assert xs[p'] == Scored(view(rows[p']), score(rows[p']));
    }
  }
}
