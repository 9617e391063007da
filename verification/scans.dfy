/** Folds and left-to-right scans over sequences of reals: the reductions
    `sum`, `prod`, `min`, `max` and the cumulative operations `cumsum`,
    `cumprod` and `cummax` that numpy and pandas provide. */
module Scans {

  /** Sum of a sequence, folded from the left. */
  function Sum(s: seq<real>): (r: real)
  {
    if |s| == 0 then 0.0 else Sum(s[..|s| - 1]) + s[|s| - 1]
  }

  /** Product of a sequence, folded from the left. */
  function Product(s: seq<real>): (r: real)
  {
    if |s| == 0 then 1.0 else Product(s[..|s| - 1]) * s[|s| - 1]
  }

  /** Smallest element. */
  function MinOf(s: seq<real>): (r: real)
    requires |s| > 0
    ensures forall i :: 0 <= i < |s| ==> r <= s[i]
    ensures exists i :: 0 <= i < |s| && s[i] == r
  {
    if |s| == 1 then s[0]
    else
      var m := MinOf(s[..|s| - 1]);
      if s[|s| - 1] < m then s[|s| - 1] else m
  }

  /** Largest element. */
  function MaxOf(s: seq<real>): (r: real)
    requires |s| > 0
    ensures forall i :: 0 <= i < |s| ==> s[i] <= r
    ensures exists i :: 0 <= i < |s| && s[i] == r
  {
    if |s| == 1 then s[0]
    else
      var m := MaxOf(s[..|s| - 1]);
      if m < s[|s| - 1] then s[|s| - 1] else m
  }

  /** `numpy.cumsum`: each entry adds the next element to the previous running total. */
  function CumSum(s: seq<real>): (r: seq<real>)
    ensures |r| == |s|
    ensures forall j :: 0 <= j < |s| ==> r[j] == Sum(s[..j + 1])
  {
    if |s| == 0 then []
    else
      var init := CumSum(s[..|s| - 1]);
      var total := if |init| == 0 then 0.0 else init[|init| - 1];
      var r := init + [total + s[|s| - 1]];
      assert forall j | 0 <= j < |s| :: r[j] == Sum(s[..j + 1]) by {
        forall j | 0 <= j < |s| ensures r[j] == Sum(s[..j + 1]) {
          if j < |s| - 1 {
            assert s[..|s| - 1][..j + 1] == s[..j + 1];
          } else {
            assert s[..j + 1] == s;
            if 0 < |init| {
              assert s[..|s| - 1][..|init|] == s[..|s| - 1];
            }
          }
        }
      }
      r
  }

  /** `Series.cumprod`: each entry multiplies the previous running product by the next element. */
  function CumProd(s: seq<real>): (r: seq<real>)
    ensures |r| == |s|
    ensures forall j :: 0 <= j < |s| ==> r[j] == Product(s[..j + 1])
  {
    if |s| == 0 then []
    else
      var init := CumProd(s[..|s| - 1]);
      var total := if |init| == 0 then 1.0 else init[|init| - 1];
      var r := init + [total * s[|s| - 1]];
      assert forall j | 0 <= j < |s| :: r[j] == Product(s[..j + 1]) by {
        forall j | 0 <= j < |s| ensures r[j] == Product(s[..j + 1]) {
          if j < |s| - 1 {
            assert s[..|s| - 1][..j + 1] == s[..j + 1];
          } else {
            assert s[..j + 1] == s;
            if 0 < |init| {
              assert s[..|s| - 1][..|init|] == s[..|s| - 1];
            }
          }
        }
      }
      r
  }

  /** `Series.cummax`: the running maximum of every prefix. */
  function CumMax(s: seq<real>): (r: seq<real>)
    ensures |r| == |s|
    ensures forall j, k :: 0 <= k <= j < |s| ==> s[k] <= r[j]
    ensures forall j :: 0 <= j < |s| ==> exists k :: 0 <= k <= j && r[j] == s[k]
  {
    if |s| == 0 then []
    else
      var init := CumMax(s[..|s| - 1]);
      var top := if |init| == 0 then s[|s| - 1]
                 else if init[|init| - 1] < s[|s| - 1] then s[|s| - 1] else init[|init| - 1];
      var r := init + [top];
      assert forall k :: 0 <= k < |s| - 1 ==> s[..|s| - 1][k] == s[k];
      assert forall j, k :: 0 <= k <= j < |s| ==> s[k] <= r[j] by {
        forall j, k | 0 <= k <= j < |s|
          ensures s[k] <= r[j]
        {
          if j < |s| - 1 {
            assert r[j] == init[j];
          } else if k < |s| - 1 {
            assert s[k] <= init[|s| - 2];
          }
        }
      }
      assert forall j :: 0 <= j < |s| ==> exists k :: 0 <= k <= j && r[j] == s[k] by {
        forall j | 0 <= j < |s|
          ensures exists k :: 0 <= k <= j && r[j] == s[k]
        {
          if j < |s| - 1 {
            var k :| 0 <= k <= j && init[j] == s[..|s| - 1][k];
            assert r[j] == s[k];
          } else if top == s[|s| - 1] {
            assert r[j] == s[j];
          } else {
            var k :| 0 <= k <= |s| - 2 && init[|s| - 2] == s[..|s| - 1][k];
            assert r[j] == s[k];
          }
        }
      }
      r
  }

  /** Every element within `[lo, hi]` puts the sum within `[n*lo, n*hi]`. */
  lemma {:induction false} SumBounds(s: seq<real>, lo: real, hi: real)
    requires forall i :: 0 <= i < |s| ==> lo <= s[i] <= hi
    ensures |s| as real * lo <= Sum(s) <= |s| as real * hi
  {
    if |s| > 0 {
      SumBounds(s[..|s| - 1], lo, hi);
    }
  }

  /** One step of the running product: the product of the first `j + 1`
      elements is that of the first `j` times element `j`. */
  lemma ProductStep(s: seq<real>, j: nat)
    requires j < |s|
    ensures Product(s[..j + 1]) == Product(s[..j]) * s[j]
  {
    assert s[..j + 1][..j] == s[..j];
  }
}
