/** Sorting and the cross-sectional statistics pandas computes: the arithmetic
    mean, the median, and quantiles with linear interpolation between the two
    nearest order statistics (the default `linear` method of numpy and pandas). */
module Stats {
  import opened Scans
  import opened RealMath

  ghost predicate Sorted(s: seq<real>) {
    forall i, j :: 0 <= i <= j < |s| ==> s[i] <= s[j]
  }

  /** Inserts `x` into a sorted sequence, before the first element not below it. */
  function Insert(x: real, s: seq<real>): (r: seq<real>)
    requires Sorted(s)
    ensures |r| == |s| + 1
    ensures r[0] == (if |s| == 0 || x <= s[0] then x else s[0])
    ensures Sorted(r)
    ensures multiset(r) == multiset(s) + multiset{x}
  {
    if |s| == 0 || x <= s[0] then [x] + s
    else
      assert s == [s[0]] + s[1..];
      [s[0]] + Insert(x, s[1..])
  }

  /** The order statistics of a sample: its elements in ascending order. */
  function Sort(s: seq<real>): (r: seq<real>)
    ensures |r| == |s|
    ensures Sorted(r)
    ensures multiset(r) == multiset(s)
  {
    if |s| == 0 then []
    else
      assert s == [s[0]] + s[1..];
      Insert(s[0], Sort(s[1..]))
  }

  /** Linear interpolation from `a` (at `t = 0`) to `b` (at `t = 1`). */
  function Lerp(a: real, b: real, t: real): (r: real) {
    a + t * (b - a)
  }

  lemma LerpBetween(a: real, b: real, t: real)
    requires a <= b && 0.0 <= t <= 1.0
    ensures a <= Lerp(a, b, t) <= b
  {
    var d := b - a;
    ScaleAtMostOne(t, d);
    var e := t * d;
    assert 0.0 <= e <= d;
    assert Lerp(a, b, t) == a + e;
  }

  lemma LerpMonotone(a: real, b: real, t1: real, t2: real)
    requires a <= b && t1 <= t2
    ensures Lerp(a, b, t1) <= Lerp(a, b, t2)
  {
    var d := b - a;
    ScaleMonotone(t1, t2, d);
    var e1, e2 := t1 * d, t2 * d;
    assert e1 <= e2;
    assert Lerp(a, b, t1) == a + e1 && Lerp(a, b, t2) == a + e2;
  }

  /** Fractional position `(n-1)*q` of the `q`-th quantile among `n` order statistics. */
  function Rank(n: nat, q: real): (r: real) {
    (n - 1) as real * q
  }

  lemma RankBounds(n: nat, q: real)
    requires 0 < n && 0.0 <= q <= 1.0
    ensures 0.0 <= Rank(n, q) <= (n - 1) as real
  {
    var k := (n - 1) as real;
    assert 0.0 <= k * q <= k * 1.0;
  }

  lemma RankMonotone(n: nat, q1: real, q2: real)
    requires 0 < n && q1 <= q2
    ensures Rank(n, q1) <= Rank(n, q2)
  {
    var k := (n - 1) as real;
    assert k * q1 <= k * q2;
  }

  /** The `q`-th quantile of order statistics `x`: interpolates linearly between
      the order statistics just below and just above position `(n-1)*q`. */
  function SortedQuantile(x: seq<real>, q: real): (r: real)
    requires 0 < |x| && 0.0 <= q <= 1.0 && Sorted(x)
    ensures x[0] <= r <= x[|x| - 1]
  {
    RankBounds(|x|, q);
    var h := Rank(|x|, q);
    var lo := h.Floor;
    if lo + 1 < |x| then
      LerpBetween(x[lo], x[lo + 1], h - lo as real);
      Lerp(x[lo], x[lo + 1], h - lo as real)
    else x[lo]
  }

  /** The `q`-th quantile of a sample (`Series.quantile(q)`, `numpy.percentile(100*q)`). */
  function Quantile(s: seq<real>, q: real): (r: real)
    requires 0 < |s| && 0.0 <= q <= 1.0
  {
    SortedQuantile(Sort(s), q)
  }

  /** The median as the middle order statistic, or the average of the two middle
      ones for an even sample size. */
  function Median(s: seq<real>): (r: real)
    requires 0 < |s|
  {
    var x := Sort(s);
    var n := |x|;
    if n % 2 == 1 then x[n / 2] else (x[n / 2 - 1] + x[n / 2]) / 2.0
  }

  /** Arithmetic mean. */
  function Mean(s: seq<real>): (r: real)
    requires 0 < |s|
  {
    Sum(s) / |s| as real
  }

  /** The first and the last order statistics are the minimum and the maximum. */
  lemma SortExtremes(s: seq<real>)
    requires 0 < |s|
    ensures Sort(s)[0] == MinOf(s)
    ensures Sort(s)[|s| - 1] == MaxOf(s)
  {
    SortedMin(s);
    SortedMax(s);
  }

  lemma SortedMin(s: seq<real>)
    requires 0 < |s|
    ensures Sort(s)[0] == MinOf(s)
  {
    var x := Sort(s);
    assert x[0] in multiset(s);
    assert MinOf(s) <= x[0];
    var i :| 0 <= i < |s| && s[i] == MinOf(s);
    assert s[i] in multiset(x);
    var l :| 0 <= l < |x| && x[l] == s[i];
    assert x[0] <= x[l];
  }

  lemma SortedMax(s: seq<real>)
    requires 0 < |s|
    ensures Sort(s)[|s| - 1] == MaxOf(s)
  {
    var x := Sort(s);
    assert x[|s| - 1] in multiset(s);
    assert x[|s| - 1] <= MaxOf(s);
    var i :| 0 <= i < |s| && s[i] == MaxOf(s);
    assert s[i] in multiset(x);
    var l :| 0 <= l < |x| && x[l] == s[i];
    assert x[l] <= x[|s| - 1];
  }

  /** A quantile lies between the sample's minimum and maximum. */
  lemma QuantileWithinRange(s: seq<real>, q: real)
    requires 0 < |s| && 0.0 <= q <= 1.0
    ensures MinOf(s) <= Quantile(s, q) <= MaxOf(s)
  {
    SortExtremes(s);
  }

  /** Quantiles are non-decreasing in the probability level. */
  lemma QuantileMonotone(s: seq<real>, q1: real, q2: real)
    requires 0 < |s| && 0.0 <= q1 <= q2 <= 1.0
    ensures Quantile(s, q1) <= Quantile(s, q2)
  {
    var x := Sort(s);
    var n := |x|;
    RankBounds(n, q1);
    RankBounds(n, q2);
    RankMonotone(n, q1, q2);
    var h1, h2 := Rank(n, q1), Rank(n, q2);
    var lo1, lo2 := h1.Floor, h2.Floor;
    assert lo1 <= lo2;
    if lo1 == lo2 {
      if lo1 + 1 < n {
        LerpMonotone(x[lo1], x[lo1 + 1], h1 - lo1 as real, h2 - lo2 as real);
      }
    } else {
      LerpBetween(x[lo1], x[lo1 + 1], h1 - lo1 as real);
      assert Quantile(s, q1) <= x[lo1 + 1] <= x[lo2];
      if lo2 + 1 < n {
        LerpBetween(x[lo2], x[lo2 + 1], h2 - lo2 as real);
      }
    }
  }

  /** The classical median is the linearly interpolated 0.5 quantile. */
  lemma MedianIsHalfQuantile(s: seq<real>)
    requires 0 < |s|
    ensures Median(s) == Quantile(s, 0.5)
  {
    var x := Sort(s);
    var n := |x|;
    var h := Rank(n, 0.5);
    if n % 2 == 1 {
      assert h == (n / 2) as real;
      assert h.Floor == n / 2;
    } else {
      assert h == (n / 2 - 1) as real + 0.5;
      assert h.Floor == n / 2 - 1;
      assert Lerp(x[n / 2 - 1], x[n / 2], 0.5) == (x[n / 2 - 1] + x[n / 2]) / 2.0;
    }
  }

  /** Bounds on every element bound the mean. */
  lemma MeanBetween(s: seq<real>, lo: real, hi: real)
    requires 0 < |s|
    requires forall i :: 0 <= i < |s| ==> lo <= s[i] <= hi
    ensures lo <= Mean(s) <= hi
  {
    var n := |s| as real;
    SumBounds(s, lo, hi);
    DivideBounds(Sum(s), n, lo, hi);
  }

  /** The mean lies between the sample's minimum and maximum. */
  lemma MeanWithinRange(s: seq<real>)
    requires 0 < |s|
    ensures MinOf(s) <= Mean(s) <= MaxOf(s)
  {
    MeanBetween(s, MinOf(s), MaxOf(s));
  }

  /** The order statistics of a constant sample are that constant. */
  lemma SortConstant(s: seq<real>, c: real)
    requires forall i :: 0 <= i < |s| ==> s[i] == c
    ensures forall i :: 0 <= i < |s| ==> Sort(s)[i] == c
  {
    var x := Sort(s);
    forall i | 0 <= i < |x|
      ensures x[i] == c
    {
      assert x[i] in multiset(s);
    }
  }

  /** A constant sample has every statistic equal to the constant. */
  lemma ConstantSample(s: seq<real>, c: real)
    requires 0 < |s|
    requires forall i :: 0 <= i < |s| ==> s[i] == c
    ensures Mean(s) == c
    ensures Median(s) == c
    ensures forall q :: 0.0 <= q <= 1.0 ==> Quantile(s, q) == c
  {
    MeanBetween(s, c, c);
    SortConstant(s, c);
    MedianIsHalfQuantile(s);
  }
}
