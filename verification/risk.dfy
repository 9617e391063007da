/** `AnaliseRisco`: historical Value at Risk, Conditional Value at Risk
    (expected shortfall) and the maximum drawdown of a price series. */
module Risk {
  import opened Common
  import opened Scans
  import opened Stats
  import opened RealMath

  // ---------------------------------------------------------------------------
  // Value at Risk

  /** `AnaliseRisco.calcular_var`: the `(1 - confianca)` quantile of the
      returns. numpy rejects a percentile outside `[0, 100]` before it looks
      at the data, and fails on an empty sample. */
  function ValueAtRisk(rets: seq<real>, confidence: real := 0.95): (r: Result<real>)
    ensures r == Err(InvalidPercentile) <==> !(0.0 <= confidence <= 1.0)
    ensures r == Err(IndexOutOfBounds) <==> 0.0 <= confidence <= 1.0 && |rets| == 0
    ensures r.Ok? <==> 0.0 <= confidence <= 1.0 && 0 < |rets|
    ensures r.Ok? ==> MinOf(rets) <= r.value <= MaxOf(rets)
  {
    if !(0.0 <= confidence <= 1.0) then Err(InvalidPercentile)
    else if |rets| == 0 then Err(IndexOutOfBounds)
    else
      QuantileWithinRange(rets, 1.0 - confidence);
      Ok(Quantile(rets, 1.0 - confidence))
  }

  /** A higher confidence level never gives a higher VaR. */
  lemma ValueAtRiskMonotone(rets: seq<real>, c1: real, c2: real)
    requires 0 < |rets| && 0.0 <= c1 <= c2 <= 1.0
    ensures ValueAtRisk(rets, c2).value <= ValueAtRisk(rets, c1).value
  {
    QuantileMonotone(rets, 1.0 - c2, 1.0 - c1);
  }

  /** At full confidence the VaR is the worst return; at zero confidence it is
      the best. */
  lemma ValueAtRiskExtremes(rets: seq<real>)
    requires 0 < |rets|
    ensures ValueAtRisk(rets, 1.0) == Ok(MinOf(rets))
    ensures ValueAtRisk(rets, 0.0) == Ok(MaxOf(rets))
  {
    SortExtremes(rets);
    QuantileEnds(Sort(rets));
  }

  /** The 0 and 1 quantiles of order statistics are the first and the last. */
  lemma QuantileEnds(x: seq<real>)
    requires 0 < |x| && Sorted(x)
    ensures SortedQuantile(x, 0.0) == x[0]
    ensures SortedQuantile(x, 1.0) == x[|x| - 1]
  {
    var n := |x|;
    assert Rank(n, 0.0) == 0.0;
    assert Rank(n, 0.0).Floor == 0;
    if 1 < n {
      assert Lerp(x[0], x[1], 0.0) == x[0];
    }
    assert Rank(n, 1.0) == (n - 1) as real;
    assert Rank(n, 1.0).Floor == n - 1;
  }

  // ---------------------------------------------------------------------------
  // Conditional Value at Risk

  /** `retornos[retornos <= v]`: the returns at or below `v`, in their order. */
  function Tail(rets: seq<real>, v: real): (t: seq<real>)
    ensures |t| <= |rets|
    ensures forall i :: 0 <= i < |t| ==> t[i] <= v
    ensures forall i :: 0 <= i < |t| ==> t[i] in rets
    ensures forall i :: 0 <= i < |rets| && rets[i] <= v ==> rets[i] in t
    ensures forall x :: multiset(t)[x] == if x <= v then multiset(rets)[x] else 0
  {
    if |rets| == 0 then []
    else
      var rest := Tail(rets[..|rets| - 1], v);
      var last := rets[|rets| - 1];
      assert forall i :: 0 <= i < |rets| - 1 ==> rets[i] == rets[..|rets| - 1][i];
      assert rets == rets[..|rets| - 1] + [last];
      assert multiset(rets) == multiset(rets[..|rets| - 1]) + multiset{last};
      if last <= v then rest + [last] else rest
  }

  /** `AnaliseRisco.calcular_cvar`: the mean of the returns at or below the
      VaR. The VaR is attained or exceeded by the smallest return, so the
      tail is never empty and the mean is defined whenever the VaR is. */
  function ConditionalValueAtRisk(rets: seq<real>, confidence: real := 0.95): (r: Result<real>)
    ensures r.Ok? <==> ValueAtRisk(rets, confidence).Ok?
    ensures r.Err? ==> r.error == ValueAtRisk(rets, confidence).error
    ensures r.Ok? ==> MinOf(rets) <= r.value <= ValueAtRisk(rets, confidence).value
  {
    match ValueAtRisk(rets, confidence)
    case Err(e) => Err(e)
    case Ok(v) =>
      var tail := Tail(rets, v);
      var k :| 0 <= k < |rets| && rets[k] == MinOf(rets);
      assert rets[k] in tail;
      var lo := MinOf(rets);
      assert forall i :: 0 <= i < |tail| ==> lo <= tail[i] <= v by {
        forall i | 0 <= i < |tail|
          ensures lo <= tail[i]
        {
          var j :| 0 <= j < |rets| && rets[j] == tail[i];
        }
      }
      MeanBetween(tail, lo, v);
      Ok(Mean(tail))
  }

  /** The expected shortfall is the mean of exactly the returns at or below the
      VaR: those, and no others, make up the averaged tail. */
  lemma ConditionalValueAtRiskTail(rets: seq<real>, confidence: real)
    requires 0 < |rets| && 0.0 <= confidence <= 1.0
    ensures ConditionalValueAtRisk(rets, confidence).Ok?
    ensures var v := ValueAtRisk(rets, confidence).value;
      var tail := Tail(rets, v);
      && 0 < |tail|
      && ConditionalValueAtRisk(rets, confidence).value == Mean(tail)
      && (forall x :: x in tail ==> x in rets && x <= v)
      && (forall x :: x in rets && x <= v ==> x in tail)
      && (forall x :: multiset(tail)[x] == if x <= v then multiset(rets)[x] else 0)
  {
    var v := ValueAtRisk(rets, confidence).value;
    var tail := Tail(rets, v);
    var k :| 0 <= k < |rets| && rets[k] == MinOf(rets);
    assert rets[k] in tail;
  }

  /** When every return is `c`, VaR and expected shortfall are both `c`. */
  lemma ConstantReturns(rets: seq<real>, confidence: real, c: real)
    requires 0 < |rets| && 0.0 <= confidence <= 1.0
    requires forall i :: 0 <= i < |rets| ==> rets[i] == c
    ensures ValueAtRisk(rets, confidence) == Ok(c)
    ensures ConditionalValueAtRisk(rets, confidence) == Ok(c)
  {
    ConstantSample(rets, c);
    assert ValueAtRisk(rets, confidence) == Ok(c);
    ConstantTail(rets, c);
  }

  /** The tail at `c` of returns all equal to `c` is every return, and its
      mean is `c`. */
  lemma ConstantTail(rets: seq<real>, c: real)
    requires 0 < |rets|
    requires forall i :: 0 <= i < |rets| ==> rets[i] == c
    ensures 0 < |Tail(rets, c)| && Mean(Tail(rets, c)) == c
  {
    var tail := Tail(rets, c);
    assert rets[0] in tail;
    forall i | 0 <= i < |tail|
      ensures c <= tail[i] <= c
    {
      var j :| 0 <= j < |rets| && rets[j] == tail[i];
    }
    MeanBetween(tail, c, c);
  }

  // ---------------------------------------------------------------------------
  // Maximum drawdown

  /** No running peak of the series is zero: the only divisors of the
      drawdown. A zero price below a non-zero peak is allowed. */
  ghost predicate PeaksNonZero(prices: seq<real>) {
    forall j :: 0 <= j < |prices| ==> CumMax(prices)[j] != 0.0
  }

  /** `(precos - cummax) / cummax`: the relative distance of each price below
      its running peak. */
  function Drawdowns(prices: seq<real>): (d: seq<real>)
    requires PeaksNonZero(prices)
    ensures |d| == |prices|
    ensures forall j :: 0 <= j < |prices| ==> d[j] == Drop(prices[j], CumMax(prices)[j])
  {
    var peak := CumMax(prices);
    seq(|prices|, j requires 0 <= j < |prices| => Drop(prices[j], peak[j]))
  }

  /** `(p - c) / c`: how far `p` lies below the peak `c`, relative to it. */
  function Drop(p: real, c: real): (r: real)
    requires c != 0.0
  {
    (p - c) / c
  }

  /** `AnaliseRisco.calcular_drawdown_maximo`: the smallest drawdown. An empty
      series has none (pandas returns NaN). */
  function MaxDrawdown(prices: seq<real>): (r: Option<real>)
    requires PeaksNonZero(prices)
    ensures r.None? <==> |prices| == 0
    ensures r.Some? ==> forall j :: 0 <= j < |prices| ==> r.value <= Drawdowns(prices)[j]
    ensures r.Some? ==> exists j :: 0 <= j < |prices| && r.value == Drawdowns(prices)[j]
  {
    if |prices| == 0 then None else Some(MinOf(Drawdowns(prices)))
  }

  /** The relative drop `(p - c) / c` of a positive `p` at most a positive
      `c` lies in `(-1, 0]`, and is zero exactly when `p = c`. */
  lemma RelativeDrop(p: real, c: real)
    requires 0.0 < p <= c
    ensures -1.0 < Drop(p, c) <= 0.0
    ensures Drop(p, c) == 0.0 <==> p == c
  {
    DivideBounds(p - c, c, -1.0, 0.0);
    DivideAbove(p - c, c, -1.0);
    assert c * ((p - c) / c) == p - c;
  }

  /** For positive prices each drawdown lies in `(-1, 0]`: a price is at most
      its running peak, and more than nothing. It is zero exactly at a new peak. */
  lemma DrawdownBounds(prices: seq<real>, j: nat)
    requires forall i :: 0 <= i < |prices| ==> 0.0 < prices[i]
    requires j < |prices|
    ensures -1.0 < Drawdowns(prices)[j] <= 0.0
    ensures Drawdowns(prices)[j] == 0.0 <==> prices[j] == CumMax(prices)[j]
  {
    var peak := CumMax(prices)[j];
    var k :| 0 <= k <= j && peak == prices[k];
    RelativeDrop(prices[j], peak);
  }

  /** For positive prices the maximum drawdown lies in `(-1, 0]`. */
  lemma MaxDrawdownBounds(prices: seq<real>)
    requires forall i :: 0 <= i < |prices| ==> 0.0 < prices[i]
    requires 0 < |prices|
    ensures -1.0 < MaxDrawdown(prices).value <= 0.0
  {
    var j :| 0 <= j < |prices| && MaxDrawdown(prices).value == Drawdowns(prices)[j];
    DrawdownBounds(prices, j);
  }

  /** The relative drop of a non-negative `p` at most a positive peak `c`
      lies in `[-1, 0]`, and is `-1` exactly when `p` is zero. */
  lemma TotalDrop(p: real, c: real)
    requires 0.0 <= p <= c && 0.0 < c
    ensures -1.0 <= Drop(p, c) <= 0.0
    ensures Drop(p, c) == -1.0 <==> p == 0.0
  {
    DivideBounds(p - c, c, -1.0, 0.0);
    assert c * ((p - c) / c) == p - c;
  }

  /** A series that starts positive and never goes negative has only positive
      peaks, so every drawdown is defined even where a price is zero; each
      lies in `[-1, 0]` and is `-1` (a total loss) exactly at a zero price. */
  lemma DrawdownBoundsNonNegative(prices: seq<real>, j: nat)
    requires 0 < |prices| && 0.0 < prices[0]
    requires forall i :: 0 <= i < |prices| ==> 0.0 <= prices[i]
    requires j < |prices|
    ensures PeaksNonZero(prices)
    ensures -1.0 <= Drawdowns(prices)[j] <= 0.0
    ensures Drawdowns(prices)[j] == -1.0 <==> prices[j] == 0.0
  {
    var peak := CumMax(prices);
    forall i | 0 <= i < |prices|
      ensures 0.0 < peak[i]
    {
      assert prices[0] <= peak[i];
    }
    TotalDrop(prices[j], peak[j]);
  }

  /** A series that falls to zero has lost everything: `[1, 0]` has a
      maximum drawdown of `-1`. */
  lemma TotalLoss()
    ensures PeaksNonZero([1.0, 0.0])
    ensures MaxDrawdown([1.0, 0.0]) == Some(-1.0)
  {
    DrawdownBoundsNonNegative([1.0, 0.0], 0);
    DrawdownBoundsNonNegative([1.0, 0.0], 1);
  }

  ghost predicate NonDecreasing(s: seq<real>) {
    forall i, j :: 0 <= i <= j < |s| ==> s[i] <= s[j]
  }

  /** For positive prices the maximum drawdown is zero exactly when the series
      never falls. */
  lemma MaxDrawdownZero(prices: seq<real>)
    requires forall i :: 0 <= i < |prices| ==> 0.0 < prices[i]
    requires 0 < |prices|
    ensures MaxDrawdown(prices) == Some(0.0) <==> NonDecreasing(prices)
  {
    var peak := CumMax(prices);
    var d := Drawdowns(prices);
    if NonDecreasing(prices) {
      forall j | 0 <= j < |prices|
        ensures d[j] == 0.0
      {
        var k :| 0 <= k <= j && peak[j] == prices[k];
        DrawdownBounds(prices, j);
      }
      var j :| 0 <= j < |prices| && MaxDrawdown(prices).value == d[j];
    }
    if MaxDrawdown(prices) == Some(0.0) {
      forall i, j | 0 <= i <= j < |prices|
        ensures prices[i] <= prices[j]
      {
        DrawdownBounds(prices, j);
      }
    }
  }
}
