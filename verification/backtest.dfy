/** `Backtest.executar_backtest`: a walk-forward backtest. For each day from
    position `janela` on, a signal (1 long, -1 short, 0 flat) is computed from
    the `janela` prices before that day and multiplies the day's price return;
    the strategy's returns are compounded into an equity curve. */
module Backtest {
  import opened Common
  import opened Scans

  /** `funcao_sinal`: any user function from a window of prices to a position. */
  type Signal = seq<real> -> int

  /** The result table: one row per traded day, indexed by the day's position
      in the price series. */
  datatype Frame = Frame(
    index: seq<nat>,        // positions `janela ..` of the price series
    signals: seq<int>,      // column `Sinal`
    strategy: seq<real>,    // column `Retorno_Estrategia`
    cumulative: seq<real>)  // column `Retorno_Acumulado`

  /** The position `iloc[i - 1]` reads: the previous day, except that Python
      reads position `-1` as the last element of the series. */
  function Previous(n: nat, i: nat): (p: nat)
    requires i < n
    ensures p < n
    ensures 0 < i ==> p == i - 1
    ensures i == 0 ==> p == n - 1
  {
    if i == 0 then n - 1 else i - 1
  }

  /** Every price `executar_backtest` divides by is non-zero: `iloc[i - 1]`
      for each traded day `i` from `janela` on. The first traded day divides
      by its `Previous` price; every later day by the price just before it,
      which covers the positions `janela .. len - 2`. Other prices, such as
      the last one when `janela >= 1`, may be zero. */
  ghost predicate Divisible(prices: seq<real>, window: nat) {
    && (window < |prices| ==> prices[Previous(|prices|, window)] != 0.0)
    && (forall j :: window <= j < |prices| - 1 ==> prices[j] != 0.0)
  }

  /** `iloc[i] / iloc[i - 1] - 1`: the day's simple price return. */
  function DailyReturn(prices: seq<real>, i: nat): (r: real)
    requires i < |prices| && prices[Previous(|prices|, i)] != 0.0
  {
    prices[i] / prices[Previous(|prices|, i)] - 1.0
  }

  /** `sinal * retorno_dia`: what a position earns on a day. */
  function Earned(position: int, ret: real): (r: real) {
    position as real * ret
  }

  /** The loop of `executar_backtest` run over the days `janela .. end - 1`:
      the signal of each day and the strategy return it earns. */
  function Trades(prices: seq<real>, signal: Signal, window: nat, end: nat): (r: (seq<int>, seq<real>))
    requires window <= end <= |prices| && Divisible(prices, window)
    ensures |r.0| == |r.1| == end - window
    ensures forall k :: 0 <= k < end - window ==> r.0[k] == signal(prices[k .. k + window])
    ensures forall k :: 0 <= k < end - window ==>
      r.1[k] == Earned(r.0[k], DailyReturn(prices, window + k))
  {
    if end == window then ([], [])
    else
      var (signals, rets) := Trades(prices, signal, window, end - 1);
      var i := end - 1;
      var s := signal(prices[i - window .. i]);
      (signals + [s], rets + [Earned(s, DailyReturn(prices, i))])
  }

  /** The factors `1 + r` that `(1 + Retorno_Estrategia).cumprod()` multiplies. */
  function Growth(rets: seq<real>): (g: seq<real>)
    ensures |g| == |rets|
    ensures forall k :: 0 <= k < |rets| ==> g[k] == 1.0 + rets[k]
  {
    seq(|rets|, k requires 0 <= k < |rets| => 1.0 + rets[k])
  }

  /** The table `executar_backtest` builds for a non-negative `janela`: one
      row per day from `janela` on, none when the series is no longer than
      the window. */
  function Table(prices: seq<real>, signal: Signal, window: nat): (f: Frame)
    requires Divisible(prices, window)
    ensures |f.index| == |f.signals| == |f.strategy| == |f.cumulative|
    ensures |f.index| == if window < |prices| then |prices| - window else 0
    ensures forall k :: 0 <= k < |f.index| ==> f.index[k] == window + k
    ensures forall k :: 0 <= k < |f.index| ==> f.signals[k] == signal(prices[k .. k + window])
    ensures forall k :: 0 <= k < |f.index| ==>
      f.strategy[k] == Earned(f.signals[k], DailyReturn(prices, window + k))
    ensures forall k :: 0 <= k < |f.index| ==> f.cumulative[k] == Product(Growth(f.strategy)[..k + 1])
  {
    if |prices| <= window then Frame([], [], [], [])
    else
      var (signals, rets) := Trades(prices, signal, window, |prices|);
      var index := seq(|prices| - window, k requires 0 <= k < |prices| - window => window + k);
      Frame(index, signals, rets, CumProd(Growth(rets)))
  }

  /** `Backtest.executar_backtest`. A negative `janela` makes the loop run
      `len + |janela|` times while the index `series_precos.index[janela:]`
      keeps only `|janela|` labels: either the first `iloc[i - 1]` falls off
      the front of the series (IndexError) or the table cannot be built
      (ValueError). */
  function RunBacktest(prices: seq<real>, signal: Signal, window: int := 50): (r: Result<Frame>)
    requires 0 <= window ==> Divisible(prices, window as nat)
    ensures r.Err? <==> window < 0
    ensures r == Err(IndexOutOfBounds) <==> window < 0 && |prices| <= -window
    ensures r == Err(LengthMismatch) <==> window < 0 && -window < |prices|
    ensures r.Ok? ==> r.value == Table(prices, signal, window)
  {
    if window < 0 then
      if |prices| <= -window then Err(IndexOutOfBounds) else Err(LengthMismatch)
    else Ok(Table(prices, signal, window))
  }

  // ---------------------------------------------------------------------------
  // Properties

  /** Row `k` of the table, written out: the signal from the window of prices
      before day `window + k`, times that day's return. */
  lemma TableRow(prices: seq<real>, signal: Signal, window: nat, k: nat)
    requires Divisible(prices, window) && window + k < |prices|
    ensures Table(prices, signal, window).signals[k] == signal(prices[k .. k + window])
    ensures Table(prices, signal, window).strategy[k]
      == Earned(signal(prices[k .. k + window]), DailyReturn(prices, window + k))
  {
  }

  /** The return of day `i >= 1` reads only the prices up to day `i`. */
  lemma DailyReturnPrefix(p1: seq<real>, p2: seq<real>, i: nat)
    requires 1 <= i < |p1| && i < |p2| && p1[i - 1] != 0.0 && p2[i - 1] != 0.0
    requires p1[..i + 1] == p2[..i + 1]
    ensures DailyReturn(p1, i) == DailyReturn(p2, i)
  {
    assert p1[i] == p1[..i + 1][i];
    assert p2[i] == p2[..i + 1][i];
    assert p1[i - 1] == p1[..i + 1][i - 1];
    assert p2[i - 1] == p2[..i + 1][i - 1];
  }

  /** No look-ahead, for the signal: the signal of the row for day `window + k`
      depends only on the prices before that day. */
  lemma SignalNoLookAhead(p1: seq<real>, p2: seq<real>, signal: Signal, window: nat, k: nat)
    requires Divisible(p1, window) && Divisible(p2, window)
    requires window + k < |p1| && window + k < |p2|
    requires p1[..window + k] == p2[..window + k]
    ensures Table(p1, signal, window).signals[k] == Table(p2, signal, window).signals[k]
  {
    TableRow(p1, signal, window, k);
    TableRow(p2, signal, window, k);
    assert p1[k .. k + window] == p1[..window + k][k ..];
    assert p2[k .. k + window] == p2[..window + k][k ..];
  }

  /** No look-ahead, for the return: the strategy return of day `window + k`
      depends only on the prices up to that day. With `window = 0` the first
      return reads the last price of the series, so this needs `window >= 1`. */
  lemma ReturnNoLookAhead(p1: seq<real>, p2: seq<real>, signal: Signal, window: nat, k: nat)
    requires Divisible(p1, window) && Divisible(p2, window)
    requires 1 <= window && window + k < |p1| && window + k < |p2|
    requires p1[..window + k + 1] == p2[..window + k + 1]
    ensures Table(p1, signal, window).strategy[k] == Table(p2, signal, window).strategy[k]
  {
    var n := window + k + 1;
    assert p1[..n][..n - 1] == p1[..n - 1];
    assert p2[..n][..n - 1] == p2[..n - 1];
    SignalNoLookAhead(p1, p2, signal, window, k);
    TableRow(p1, signal, window, k);
    TableRow(p2, signal, window, k);
    DailyReturnPrefix(p1, p2, window + k);
  }

  /** No look-ahead, for the equity curve: its value after day `window + k`
      depends only on the prices up to that day. */
  lemma EquityNoLookAhead(p1: seq<real>, p2: seq<real>, signal: Signal, window: nat, k: nat)
    requires Divisible(p1, window) && Divisible(p2, window)
    requires 1 <= window && window + k < |p1| && window + k < |p2|
    requires p1[..window + k + 1] == p2[..window + k + 1]
    ensures Table(p1, signal, window).cumulative[k] == Table(p2, signal, window).cumulative[k]
  {
    var f1 := Table(p1, signal, window);
    var f2 := Table(p2, signal, window);
    forall j | 0 <= j <= k
      ensures f1.strategy[j] == f2.strategy[j]
    {
      assert p1[..window + j + 1] == p1[..window + k + 1][..window + j + 1];
      assert p2[..window + j + 1] == p2[..window + k + 1][..window + j + 1];
      ReturnNoLookAhead(p1, p2, signal, window, j);
    }
    assert Growth(f1.strategy)[..k + 1] == Growth(f2.strategy)[..k + 1];
  }

  /** The equity curve compounds day by day: each value is the previous one
      (1 before the first day) grown by the day's strategy return. */
  lemma EquityStep(prices: seq<real>, signal: Signal, window: nat, k: nat)
    requires Divisible(prices, window) && window + k < |prices|
    ensures Table(prices, signal, window).cumulative[k]
      == Compound(if k == 0 then 1.0 else Table(prices, signal, window).cumulative[k - 1],
                  Table(prices, signal, window).strategy[k])
  {
    CompoundStep(Table(prices, signal, window).cumulative, Table(prices, signal, window).strategy, k);
  }

  /** A running product of the growth factors `1 + r` compounds one factor
      per step. */
  lemma CompoundStep(c: seq<real>, rets: seq<real>, k: nat)
    requires |c| == |rets| && k < |c|
    requires forall j :: 0 <= j < |c| ==> c[j] == Product(Growth(rets)[..j + 1])
    ensures c[k] == Compound(if k == 0 then 1.0 else c[k - 1], rets[k])
  {
    var g := Growth(rets);
    ProductStep(g, k);
    if k == 0 {
      assert g[..0] == [];
    }
    CompoundOf(Product(g[..k]), g[k], if k == 0 then 1.0 else c[k - 1], rets[k]);
  }

  /** Growing the equity `e` by the return `r`. */
  function Compound(e: real, r: real): (next: real) {
    e * (1.0 + r)
  }

  lemma CompoundOf(a: real, b: real, e: real, r: real)
    requires a == e && b == 1.0 + r
    ensures a * b == Compound(e, r)
  {
  }

  /** A flat position earns nothing and leaves the equity curve where it was. */
  lemma FlatDay(prices: seq<real>, signal: Signal, window: nat, k: nat)
    requires Divisible(prices, window) && window + k < |prices|
    requires signal(prices[k .. k + window]) == 0
    ensures Table(prices, signal, window).strategy[k] == 0.0
    ensures Table(prices, signal, window).cumulative[k]
      == if k == 0 then 1.0 else Table(prices, signal, window).cumulative[k - 1]
  {
    TableRow(prices, signal, window, k);
    EquityStep(prices, signal, window, k);
  }

  /** Staying long every day compounds to the buy-and-hold return: the equity
      after day `window + k` is that day's price over the price just before
      the first traded day. */
  lemma BuyAndHold(prices: seq<real>, signal: Signal, window: nat, k: nat)
    requires Divisible(prices, window) && 1 <= window && window + k < |prices|
    requires forall w :: signal(w) == 1
    ensures Table(prices, signal, window).cumulative[k] == prices[window + k] / prices[window - 1]
  {
    var f := Table(prices, signal, window);
    LongDays(prices, signal, window, k);
    LongCurve(f.cumulative, f.strategy, prices, window, k);
    assert prices[window - 1] != 0.0;
    assert Ratio(prices[window + k], prices[window - 1]) == prices[window + k] / prices[window - 1];
  }

  /** Always long, every day up to `window + k` compounds the equity by the
      day's own price return. */
  lemma LongDays(prices: seq<real>, signal: Signal, window: nat, k: nat)
    requires Divisible(prices, window) && window + k < |prices|
    requires forall w :: signal(w) == 1
    ensures var f := Table(prices, signal, window);
      forall j :: 0 <= j <= k ==>
        && f.cumulative[j] == Compound(Before(f.cumulative, j), f.strategy[j])
        && f.strategy[j] == Earned(1, DailyReturn(prices, window + j))
  {
    var f := Table(prices, signal, window);
    forall j | 0 <= j <= k
      ensures f.cumulative[j] == Compound(Before(f.cumulative, j), f.strategy[j])
      ensures f.strategy[j] == Earned(1, DailyReturn(prices, window + j))
    {
      EquityStep(prices, signal, window, j);
      TableRow(prices, signal, window, j);
    }
  }

  /** A price that falls to zero on the last day is no divisor: always long
      with `janela = 1`, the series `[1, 2, 0]` earns +100% and then -100%,
      and the equity ends at 0. */
  lemma TotalLossDay(signal: Signal)
    requires forall w :: signal(w) == 1
    ensures Divisible([1.0, 2.0, 0.0], 1)
    ensures Table([1.0, 2.0, 0.0], signal, 1).strategy == [1.0, -1.0]
    ensures Table([1.0, 2.0, 0.0], signal, 1).cumulative == [2.0, 0.0]
  {
    var p := [1.0, 2.0, 0.0];
    TableRow(p, signal, 1, 0);
    TableRow(p, signal, 1, 1);
    EquityStep(p, signal, 1, 0);
    EquityStep(p, signal, 1, 1);
  }

  /** The equity before day `j` of the curve `c`: 1 before the first day. */
  function Before(c: seq<real>, j: nat): (r: real)
    requires j < |c|
  {
    if j == 0 then 1.0 else c[j - 1]
  }

  /** `a / b`, named so that the telescoping steps below stay linear. */
  function Ratio(a: real, b: real): (r: real)
    requires b != 0.0
  {
    a / b
  }

  /** An equity curve compounded from long days only telescopes to the ratio
      of the last price to the price before the first day. */
  lemma {:induction false} LongCurve(c: seq<real>, rets: seq<real>, prices: seq<real>, window: nat, k: nat)
    requires Divisible(prices, window) && 1 <= window && window + k < |prices| && k < |c| && k < |rets|
    requires forall j :: 0 <= j <= k ==> c[j] == Compound(Before(c, j), rets[j])
    requires forall j :: 0 <= j <= k ==> rets[j] == Earned(1, DailyReturn(prices, window + j))
    ensures c[k] == Ratio(prices[window + k], prices[window - 1])
  {
    var i := window + k;
    assert DailyReturn(prices, i) == prices[i] / prices[i - 1] - 1.0;
    if k == 0 {
      RatioSelf(prices[window - 1]);
      LongDay(1.0, DailyReturn(prices, i), rets[0], c[0], prices[window - 1], prices[window - 1], prices[i]);
    } else {
      LongCurve(c, rets, prices, window, k - 1);
      LongDay(c[k - 1], DailyReturn(prices, i), rets[k], c[k], prices[i - 1], prices[window - 1], prices[i]);
    }
  }

  lemma RatioSelf(a: real)
    requires a != 0.0
    ensures Ratio(a, a) == 1.0
  {
  }

  /** One long day on the buy-and-hold curve: equity `a / b` grown by the
      return `c / a - 1` becomes `c / b`. */
  lemma LongDay(e: real, ret: real, r: real, next: real, a: real, b: real, c: real)
    requires a != 0.0 && b != 0.0
    requires e == Ratio(a, b) && ret == c / a - 1.0 && r == Earned(1, ret) && next == Compound(e, r)
    ensures next == Ratio(c, b)
  {
    assert r == c / a - 1.0;
    Telescope(a, b, c);
  }

  /** `(a / b) * (c / a) == c / b`. */
  lemma Telescope(a: real, b: real, c: real)
    requires a != 0.0 && b != 0.0
    ensures (a / b) * (c / a) == c / b
  {
    assert (a / b) * (c / a) == (a * c) / (b * a);
  }
}
