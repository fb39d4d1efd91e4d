/** Python's `round(x, 4)` over exact reals: the nearest multiple of 1/10000,
    with exact ties rounded up. */
module Rounding {

  const Scale: real := 10000.0

  function Round4(x: real): (r: real)
    ensures OnGrid(r)
  {
    ((x * Scale + 0.5).Floor as real) / Scale
  }

  /** A value on the four-decimal grid, such as the thresholds 0.45 and 0.35. */
  predicate OnGrid(x: real) {
    (x * Scale).Floor as real == x * Scale
  }

  /** Rounding never moves a value by more than half a unit in the last place. */
  lemma Round4Close(x: real)
    ensures x - 0.00005 < Round4(x) <= x + 0.00005
  {
    var n := (x * Scale + 0.5).Floor;
    assert n as real <= x * Scale + 0.5 < n as real + 1.0;
  }

  /** Rounding preserves the order of scores (it may merge neighbours). */
  lemma Round4Monotone(x: real, y: real)
    requires x <= y
    ensures Round4(x) <= Round4(y)
  {
    var a := (x * Scale + 0.5).Floor;
    var b := (y * Scale + 0.5).Floor;
    assert x * Scale + 0.5 <= y * Scale + 0.5;
    assert a <= b;
  }

  /** Grid values are fixed points of rounding. */
  lemma Round4OnGrid(x: real)
    requires OnGrid(x)
    ensures Round4(x) == x
  {
    var m := (x * Scale).Floor;
    assert (x * Scale + 0.5).Floor == m;
  }

  /** A score at or above a grid threshold is still at or above it once rounded. */
  lemma Round4KeepsGridThreshold(min: real, x: real)
    requires OnGrid(min) && min <= x
    ensures min <= Round4(x)
  {
    Round4OnGrid(min);
    Round4Monotone(min, x);
  }

  /** Off the grid, rounding can report a score below the threshold it cleared. */
  lemma Round4CanFallBelowThreshold()
    ensures !OnGrid(0.45001) && Round4(0.45001) < 0.45001
  {
    assert 0.45001 * Scale + 0.5 == 4500.6;
    assert (4500.6).Floor == 4500;
    assert 0.45001 * Scale == 4500.1;
  }
}
