/** Real-number helpers: the +infinity sentinel of Python floats, and the
    sums, means and extrema that pandas and numpy compute over a column. */
module Numbers {

  /** A Python float that is either finite or `float('inf')`. */
  datatype ExtReal = Finite(r: real) | PosInf

  /** `x <= e` where `e` may be +infinity. */
  predicate AtMost(x: real, e: ExtReal)
  {
    match e
    case Finite(r) => x <= r
    case PosInf => true
  }

  /** Sum of a column, accumulated from the left as `np.sum` does. */
  function Sum(s: seq<real>): real
  {
    if s == [] then 0.0 else Sum(s[..|s| - 1]) + s[|s| - 1]
  }

  /** Arithmetic mean of a non-empty column (`Series.mean`, `np.mean`). */
  function Mean(s: seq<real>): real
    requires s != []
  {
    Sum(s) / |s| as real
  }

  /** Smallest element of a non-empty column (`min`, `Series.min`). */
  function MinOf(s: seq<real>): (m: real)
    requires s != []
    ensures m in s
    ensures forall i :: 0 <= i < |s| ==> m <= s[i]
  {
    if |s| == 1 then s[0]
    else
      var m := MinOf(s[..|s| - 1]);
      if s[|s| - 1] < m then s[|s| - 1] else m
  }

  /** Largest element of a non-empty column (`max`, `Series.max`). */
  function MaxOf(s: seq<real>): (m: real)
    requires s != []
    ensures m in s
    ensures forall i :: 0 <= i < |s| ==> s[i] <= m
  {
    if |s| == 1 then s[0]
    else
      var m := MaxOf(s[..|s| - 1]);
      if s[|s| - 1] > m then s[|s| - 1] else m
  }

  /** The mean times the number of elements gives back the sum. */
  lemma MeanTimesLength(s: seq<real>)
    requires s != []
    ensures Mean(s) * |s| as real == Sum(s)
  {
    var n := |s| as real;
    assert Sum(s) / n * n == Sum(s);
  }

  /** `m` is an average of the non-empty column `xs`: times the column's
      length it gives the column's sum, and it lies between the column's
      extremes. */
  ghost predicate AverageOf(m: real, xs: seq<real>)
  {
    xs != [] && m * |xs| as real == Sum(xs) && MinOf(xs) <= m && m <= MaxOf(xs)
  }

  /** The mean of a non-empty column is an average of it. */
  lemma ColumnAverage(xs: seq<real>, m: real)
    requires xs != [] && m == Mean(xs)
    ensures AverageOf(m, xs)
  {
    assert m * |xs| as real == Sum(xs) by { MeanTimesLength(xs); }
    assert MinOf(xs) <= m <= MaxOf(xs) by { MeanBetween(xs); }
  }

  /** A non-empty column of positive values has a positive sum. */
  lemma {:induction false} SumPositive(s: seq<real>)
    requires s != []
    requires forall i :: 0 <= i < |s| ==> s[i] > 0.0
    ensures Sum(s) > 0.0
  {
    if |s| > 1 {
      SumPositive(s[..|s| - 1]);
    }
  }

  /** A non-empty column of positive values has a positive mean. */
  lemma MeanPositive(s: seq<real>)
    requires s != []
    requires forall i :: 0 <= i < |s| ==> s[i] > 0.0
    ensures Mean(s) > 0.0
  {
    SumPositive(s);
  }

  /** Every element at least `lo` makes the sum at least `|s| * lo`; at most `hi`, at most `|s| * hi`. */
  lemma {:induction false} SumBounds(s: seq<real>, lo: real, hi: real)
    requires forall i :: 0 <= i < |s| ==> lo <= s[i] <= hi
    ensures |s| as real * lo <= Sum(s) <= |s| as real * hi
  {
    if s != [] {
      SumBounds(s[..|s| - 1], lo, hi);
    }
  }

  /** The mean of a column lies between its minimum and its maximum. */
  lemma {:induction false} MeanBetween(s: seq<real>)
    requires s != []
    ensures MinOf(s) <= Mean(s) <= MaxOf(s)
  {
    MeanBounds(s, MinOf(s), MaxOf(s));
  }

  /** Bounds on every element bound the mean. */
  lemma {:induction false} MeanBounds(s: seq<real>, lo: real, hi: real)
    requires s != []
    requires forall i :: 0 <= i < |s| ==> lo <= s[i] <= hi
    ensures lo <= Mean(s) <= hi
  {
    SumBounds(s, lo, hi);
    DivideBounds(Sum(s), |s| as real, lo, hi);
  }

  /** Dividing `n * lo <= t <= n * hi` by a positive `n`. */
  lemma DivideBounds(t: real, n: real, lo: real, hi: real)
    requires n > 0.0
    requires n * lo <= t <= n * hi
    ensures lo <= t / n <= hi
  {
    assert t / n - lo == (t - n * lo) / n;
    assert hi - t / n == (n * hi - t) / n;
  }

  /** The sum of a column of equal values is that value times the length. */
  lemma {:induction false} SumConstant(s: seq<real>, c: real)
    requires forall i :: 0 <= i < |s| ==> s[i] == c
    ensures Sum(s) == |s| as real * c
  {
    if s != [] {
      SumConstant(s[..|s| - 1], c);
    }
  }

  /** Python's float floor division `x // y` for `y > 0`. */
  function FloorDiv(x: real, y: real): int
    requires y > 0.0
  {
    (x / y).Floor
  }

  /** Python's float modulo `x % y` for `y > 0`: the remainder takes the sign of `y`. */
  function PyMod(x: real, y: real): (r: real)
    requires y > 0.0
    ensures 0.0 <= r < y
    ensures x == FloorDiv(x, y) as real * y + r
  {
    var f := FloorDiv(x, y) as real;
    FloorTimes(x, y, f);
    x - f * y
  }

  /** Multiplying `x / y - 1 < f <= x / y` by a positive `y`. */
  lemma FloorTimes(x: real, y: real, f: real)
    requires y > 0.0
    requires x / y - 1.0 < f <= x / y
    ensures x - y < f * y <= x
  {
    FloorTimesBelow(x, y, f);
    FloorTimesAbove(x, y, f);
  }

  lemma FloorTimesBelow(x: real, y: real, f: real)
    requires y > 0.0
    requires f <= x / y
    ensures f * y <= x
  {
    var q := x / y;
    assert q * y == x;
    var e := q - f;
    assert e * y >= 0.0;
    assert e * y == q * y - f * y;
  }

  lemma FloorTimesAbove(x: real, y: real, f: real)
    requires y > 0.0
    requires x / y - 1.0 < f
    ensures x - y < f * y
  {
    var q := x / y;
    assert q * y == x;
    var d := f - q + 1.0;
    assert d * y > 0.0;
    assert d * y == f * y - q * y + y;
  }
}
