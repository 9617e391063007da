/** The stochastic-differential-equation path generators: geometric Brownian
    motion (exact log-normal paths), the Heston stochastic-volatility model
    (Euler–Maruyama with full truncation of the variance) and the
    Ornstein–Uhlenbeck process (Euler–Maruyama). Every generator returns one
    row per path and one column per time point.

    The standard-normal draws are inputs: an `Innovations` value gives the draw
    for a (path, time index) pair, which is what an injected, seeded random
    driver produces. `exp` and `sqrt` are supplied as an `Elementary`. */
module Sde {
  import opened Common
  import opened RealMath
  import opened Scans
  import opened Matrix

  /** Standard-normal draws indexed by (path, time index). */
  type Innovations = (nat, nat) -> real

  datatype GbmParams = GbmParams(s0: real, mu: real, sigma: real)

  datatype HestonParams =
    HestonParams(s0: real, v0: real, mu: real, kappa: real, theta: real, xi: real, rho: real)

  datatype OuParams = OuParams(x0: real, theta: real, mu: real, sigma: real)

  /** Price and variance of one Heston path at one time point. */
  datatype HestonState = HestonState(price: real, variance: real)

  // ---------------------------------------------------------------------------
  // Grid

  /** `N = int(T / dt)`, the number of time points, for `paths` paths. Fails
      where Python or numpy raise: division by zero, or an array with a
      negative dimension. */
  function Steps(T: real, dt: real, paths: int): (r: Result<nat>)
    ensures r == Err(ZeroDivision) <==> dt == 0.0
    ensures r == Err(NegativeDimension) <==> dt != 0.0 && (paths < 0 || T / dt <= -1.0)
    ensures r.Ok? <==> dt != 0.0 && 0 <= paths && -1.0 < T / dt
    ensures r.Ok? && 0.0 <= T / dt ==> r.value as real <= T / dt < r.value as real + 1.0
    ensures r.Ok? && T / dt < 0.0 ==> r.value == 0
  {
    if dt == 0.0 then Err(ZeroDivision)
    else
      var n := Trunc(T / dt);
      if n < 0 || paths < 0 then Err(NegativeDimension) else Ok(n)
  }

  /** `numpy.linspace(0, T, n)`: `n` evenly spaced points from 0 to `T` inclusive. */
  function Linspace(T: real, n: nat): (t: seq<real>)
    ensures |t| == n
    ensures 0 < n ==> t[0] == 0.0
    ensures 1 < n ==> t[n - 1] == T
    ensures forall j :: 0 <= j < n - 1 ==> t[j + 1] - t[j] == T / (n - 1) as real
  {
    if n == 1 then [0.0]
    else
      var step := T / (n - 1) as real;
      var t := seq(n, j requires 0 <= j < n => j as real * step);
      assert 1 < n ==> t[n - 1] == T by {
        if 1 < n {
          assert (n - 1) as real * step == T;
        }
      }
      t
  }

  /** The first `n` draws of one path. */
  function Draws(z: Innovations, path: nat, n: nat): (r: seq<real>)
    ensures |r| == n
    ensures forall k :: 0 <= k < n ==> r[k] == z(path, k)
  {
    seq(n, k requires 0 <= k < n => z(path, k))
  }

  /** Two draw streams agree on the first `n` draws of a path. */
  ghost predicate SameDraws(z: Innovations, i: nat, z': Innovations, i': nat, n: nat) {
    forall k :: 0 <= k < n ==> z(i, k) == z'(i', k)
  }

  // ---------------------------------------------------------------------------
  // Geometric Brownian motion

  /** The log-price path of one GBM path over time grid `t` from its draws `z`:
      the Brownian motion `W` is the running sum of the draws scaled by
      `sqrt(dt)`, and `X = (mu - sigma^2/2) * t + sigma * W`. */
  function GbmLogPath(m: Elementary, p: GbmParams, dt: real, t: seq<real>, z: seq<real>): (x: seq<real>)
    requires |t| == |z|
    ensures |x| == |z|
  {
    var w := CumSum(z);
    seq(|z|, j requires 0 <= j < |z| =>
      (p.mu - 0.5 * (p.sigma * p.sigma)) * t[j] + p.sigma * (w[j] * m.sqrt(dt)))
  }

  lemma GbmLogPathEntry(m: Elementary, p: GbmParams, dt: real, t: seq<real>, z: seq<real>, j: nat)
    requires |t| == |z| && j < |z|
    ensures GbmLogPath(m, p, dt, t, z)[j]
         == (p.mu - 0.5 * (p.sigma * p.sigma)) * t[j] + p.sigma * (Sum(z[..j + 1]) * m.sqrt(dt))
  {
    var w := CumSum(z);
    var sq := m.sqrt(dt);
    assert w[j] == Sum(z[..j + 1]);
    assert w[j] * sq == Sum(z[..j + 1]) * sq;
    assert p.sigma * (w[j] * sq) == p.sigma * (Sum(z[..j + 1]) * sq);
  }

  /** The log-price matrix `X` of `ProcessosEstocasticos.gbm`, one row per path
      and `int(T/dt)` columns. */
  function GbmLog(m: Elementary, p: GbmParams, T: real, dt: real, paths: int, z: Innovations)
    : (r: Result<seq<seq<real>>>)
    ensures r.Ok? <==> Steps(T, dt, paths).Ok?
    ensures r.Err? ==> r.error == Steps(T, dt, paths).error
    ensures r.Ok? ==> IsMatrix(r.value, paths, Steps(T, dt, paths).value)
  {
    match Steps(T, dt, paths)
    case Err(e) => Err(e)
    case Ok(n) =>
      var t := Linspace(T, n);
      Ok(seq(paths, i requires 0 <= i < paths => GbmLogPath(m, p, dt, t, Draws(z, i, n))))
  }

  lemma GbmLogRow(m: Elementary, p: GbmParams, T: real, dt: real, paths: int, z: Innovations, i: nat)
    requires GbmLog(m, p, T, dt, paths, z).Ok? && i < paths
    ensures var n := Steps(T, dt, paths).value;
      GbmLog(m, p, T, dt, paths, z).value[i] == GbmLogPath(m, p, dt, Linspace(T, n), Draws(z, i, n))
  {
  }

  /** The price `S0 * exp(x)` at log-price `x`. */
  function Price(m: Elementary, s0: real, x: real): (r: real)
    ensures Lawful(m) && 0.0 < s0 ==> 0.0 < r
  {
    s0 * m.exp(x)
  }

  /** `ProcessosEstocasticos.gbm`: `paths` GBM price paths over `int(T/dt)` time
      points, `S = S0 * exp(X)` entrywise. */
  function Gbm(m: Elementary, p: GbmParams, T: real, dt: real, paths: int, z: Innovations)
    : (r: Result<seq<seq<real>>>)
    ensures r.Ok? <==> GbmLog(m, p, T, dt, paths, z).Ok?
    ensures r.Err? ==> r.error == Steps(T, dt, paths).error
    ensures r.Ok? ==> IsMatrix(r.value, paths, Steps(T, dt, paths).value)
    ensures r.Ok? ==> forall i, j :: 0 <= i < paths && 0 <= j < Steps(T, dt, paths).value ==>
      r.value[i][j] == Price(m, p.s0, GbmLog(m, p, T, dt, paths, z).value[i][j])
  {
    match GbmLog(m, p, T, dt, paths, z)
    case Err(e) => Err(e)
    case Ok(x) =>
      var n := Steps(T, dt, paths).value;
      var s := seq(paths, i requires 0 <= i < paths =>
        seq(n, j requires 0 <= j < n => Price(m, p.s0, x[i][j])));
      assert IsMatrix(s, paths, n);
      Ok(s)
  }

  /** Every GBM log-price is the closed-form solution at its time point: the
      drift `(mu - sigma^2/2) * t_j` plus `sigma * sqrt(dt)` times the sum of the
      path's draws up to and including index `j`. */
  lemma GbmClosedForm(m: Elementary, p: GbmParams, T: real, dt: real, paths: int, z: Innovations,
                      i: nat, j: nat)
    requires GbmLog(m, p, T, dt, paths, z).Ok?
    requires i < paths && j < Steps(T, dt, paths).value
    ensures GbmLog(m, p, T, dt, paths, z).value[i][j]
         == (p.mu - 0.5 * (p.sigma * p.sigma)) * Linspace(T, Steps(T, dt, paths).value)[j]
            + p.sigma * (Sum(Draws(z, i, Steps(T, dt, paths).value)[..j + 1]) * m.sqrt(dt))
  {
    var n := Steps(T, dt, paths).value;
    GbmLogRow(m, p, T, dt, paths, z, i);
    GbmLogPathEntry(m, p, dt, Linspace(T, n), Draws(z, i, n), j);
  }

  /** The first GBM column already carries one innovation: it is
      `S0 * exp(sigma * sqrt(dt) * Z[i][0])`, not `S0`. */
  lemma GbmFirstColumn(m: Elementary, p: GbmParams, T: real, dt: real, paths: int, z: Innovations, i: nat)
    requires Gbm(m, p, T, dt, paths, z).Ok? && i < paths && 0 < Steps(T, dt, paths).value
    ensures Gbm(m, p, T, dt, paths, z).value[i][0] == Price(m, p.s0, p.sigma * (z(i, 0) * m.sqrt(dt)))
  {
    var n := Steps(T, dt, paths).value;
    var t := Linspace(T, n);
    var x := GbmLog(m, p, T, dt, paths, z).value;
    GbmClosedForm(m, p, T, dt, paths, z, i, 0);
    var d := Draws(z, i, n);
    assert d[..1] == [z(i, 0)];
    assert d[..1][..0] == [];
    assert Sum(d[..1]) == z(i, 0);
    assert t[0] == 0.0;
    assert x[i][0] == p.sigma * (z(i, 0) * m.sqrt(dt));
  }

  /** The noise-free GBM curve `S0 * exp(mu * t)`. */
  function GbmCurve(m: Elementary, s0: real, mu: real, t: real): (r: real) {
    s0 * m.exp(mu * t)
  }

  /** The curve starts at `S0`. */
  lemma GbmCurveStart(m: Elementary, s0: real, mu: real)
    requires Lawful(m)
    ensures GbmCurve(m, s0, mu, 0.0) == s0
  {
    Congruent(m, mu * 0.0, 0.0);
  }

  /** A price whose log-price `x` is `mu * t` lies on the curve. */
  lemma OnGbmCurve(m: Elementary, s0: real, mu: real, x: real, t: real)
    requires x == mu * t
    ensures Price(m, s0, x) == GbmCurve(m, s0, mu, t)
  {
    Congruent(m, x, mu * t);
  }

  /** With `sigma = 0` every path is the same deterministic curve
      `S0 * exp(mu * t_j)`, whatever the draws, and it starts at `S0`. */
  lemma GbmDeterministic(m: Elementary, p: GbmParams, T: real, dt: real, paths: int, z: Innovations,
                         i: nat, j: nat)
    requires Lawful(m)
    requires Gbm(m, p, T, dt, paths, z).Ok? && p.sigma == 0.0
    requires i < paths && j < Steps(T, dt, paths).value
    ensures Gbm(m, p, T, dt, paths, z).value[i][j] == GbmCurve(m, p.s0, p.mu, Linspace(T, Steps(T, dt, paths).value)[j])
    ensures j == 0 ==> Gbm(m, p, T, dt, paths, z).value[i][j] == p.s0
  {
    GbmClosedForm(m, p, T, dt, paths, z, i, j);
    assert p.sigma * (Sum(Draws(z, i, Steps(T, dt, paths).value)[..j + 1]) * m.sqrt(dt)) == 0.0;
    assert p.mu - 0.5 * (p.sigma * p.sigma) == p.mu;
    OnGbmCurve(m, p.s0, p.mu, GbmLog(m, p, T, dt, paths, z).value[i][j], Linspace(T, Steps(T, dt, paths).value)[j]);
    if j == 0 {
      GbmCurveStart(m, p.s0, p.mu);
    }
  }

  /** Column `j` of a GBM simulation without volatility is constant. */
  lemma GbmDeterministicColumn(m: Elementary, p: GbmParams, T: real, dt: real, paths: int, z: Innovations,
                               j: nat)
    requires Lawful(m)
    requires Gbm(m, p, T, dt, paths, z).Ok? && p.sigma == 0.0
    requires j < Steps(T, dt, paths).value
    ensures forall i :: 0 <= i < paths ==>
      Gbm(m, p, T, dt, paths, z).value[i][j] == GbmCurve(m, p.s0, p.mu, Linspace(T, Steps(T, dt, paths).value)[j])
  {
    forall i | 0 <= i < paths
      ensures Gbm(m, p, T, dt, paths, z).value[i][j] == GbmCurve(m, p.s0, p.mu, Linspace(T, Steps(T, dt, paths).value)[j])
    {
      GbmDeterministic(m, p, T, dt, paths, z, i, j);
    }
  }

  /** A positive initial price gives positive prices everywhere. */
  lemma GbmPositive(m: Elementary, p: GbmParams, T: real, dt: real, paths: int, z: Innovations)
    requires Lawful(m)
    requires dt != 0.0 && 0 <= paths && -1.0 < T / dt && 0.0 < p.s0
    ensures Gbm(m, p, T, dt, paths, z).Ok?
    ensures var s := Gbm(m, p, T, dt, paths, z).value;
      forall i, j :: 0 <= i < |s| && 0 <= j < |s[i]| ==> 0.0 < s[i][j]
  {
  }

  /** A GBM path depends on its own draws only: two draw streams that agree on
      path `i` give the same row `i`. */
  lemma GbmPathIndependence(m: Elementary, p: GbmParams, T: real, dt: real, paths: int,
                            z: Innovations, z': Innovations, i: nat)
    requires Gbm(m, p, T, dt, paths, z).Ok? && i < paths
    requires SameDraws(z, i, z', i, Steps(T, dt, paths).value)
    ensures Gbm(m, p, T, dt, paths, z).value[i] == Gbm(m, p, T, dt, paths, z').value[i]
  {
    var n := Steps(T, dt, paths).value;
    assert Draws(z, i, n) == Draws(z', i, n);
    assert GbmLog(m, p, T, dt, paths, z).value[i] == GbmLog(m, p, T, dt, paths, z').value[i];
  }

  // ---------------------------------------------------------------------------
  // Heston

  /** `Z2 = rho * Z1 + sqrt(1 - rho^2) * Z3`: a draw correlated with `z1` by `rho`. */
  function Correlate(m: Elementary, rho: real, z1: real, z3: real): (r: real) {
    rho * z1 + m.sqrt(1.0 - rho * rho) * z3
  }

  /** At `rho = 0` the correlated draw is the independent one; at `rho = 1` or
      `rho = -1` it is `z1` or `-z1`. */
  lemma CorrelateExtremes(m: Elementary, rho: real, z1: real, z3: real)
    requires Lawful(m)
    ensures rho == 0.0 ==> Correlate(m, rho, z1, z3) == z3
    ensures rho == 1.0 ==> Correlate(m, rho, z1, z3) == z1
    ensures rho == -1.0 ==> Correlate(m, rho, z1, z3) == -z1
  {
    SqrtOfSquare(m, 1.0);
    SqrtOfSquare(m, 0.0);
  }

  /** Log-return of the price over one step, `(mu - v/2) * dt + sqrt(v) * sqrt(dt) * z1`,
      given the variance `v` used for the step and the two square roots. */
  function LogReturn(mu: real, dt: real, v: real, rootV: real, rootDt: real, z1: real): (r: real) {
    (mu - 0.5 * v) * dt + rootV * rootDt * z1
  }

  /** One Euler–Maruyama step of the Heston pair with full truncation:
      `v_prev = max(v, 0)` is what enters the drift and both square roots. */
  function HestonStep(m: Elementary, p: HestonParams, dt: real, st: HestonState, z1: real, z2: real)
    : (next: HestonState)
  {
    var vPrev := Max(st.variance, 0.0);
    HestonState(
      st.price * m.exp(LogReturn(p.mu, dt, vPrev, m.sqrt(vPrev), m.sqrt(dt), z1)),
      st.variance + p.kappa * (p.theta - vPrev) * dt + p.xi * m.sqrt(vPrev) * m.sqrt(dt) * z2)
  }

  /** Full truncation: from a non-negative variance the step is the plain
      Euler–Maruyama step; from a negative variance it carries no noise at
      all: the price grows at rate `mu` and the variance moves by
      `kappa * theta * dt`. */
  lemma HestonStepTruncation(m: Elementary, p: HestonParams, dt: real, st: HestonState, z1: real, z2: real)
    requires Lawful(m)
    ensures 0.0 <= st.variance ==>
      HestonStep(m, p, dt, st, z1, z2) == HestonState(
        st.price * m.exp(LogReturn(p.mu, dt, st.variance, m.sqrt(st.variance), m.sqrt(dt), z1)),
        st.variance + p.kappa * (p.theta - st.variance) * dt + p.xi * m.sqrt(st.variance) * m.sqrt(dt) * z2)
    ensures st.variance < 0.0 ==>
      HestonStep(m, p, dt, st, z1, z2) == HestonState(
        st.price * m.exp(p.mu * dt),
        st.variance + p.kappa * p.theta * dt)
  {
    var v := st.variance;
    var vPrev := Max(v, 0.0);
    if 0.0 <= v {
      assert vPrev == v;
    } else {
      SqrtOfSquare(m, 0.0);
      assert vPrev == 0.0 * 0.0;
      assert m.sqrt(vPrev) == 0.0;
      assert LogReturn(p.mu, dt, vPrev, m.sqrt(vPrev), m.sqrt(dt), z1) == p.mu * dt;
    }
  }

  /** The stored variance is not floored: one step from `v = 1` with a large
      negative draw leaves it at `-9`. */
  lemma HestonVarianceCanGoNegative(m: Elementary)
    requires Lawful(m)
    ensures HestonStep(m, HestonParams(1.0, 1.0, 0.0, 0.0, 0.0, 1.0, 0.0), 1.0,
                       HestonState(1.0, 1.0), 0.0, -10.0).variance == -9.0
  {
    SqrtOfSquare(m, 1.0);
  }

  /** A step from a positive price keeps the price positive. */
  lemma HestonStepPositive(m: Elementary, p: HestonParams, dt: real, st: HestonState, z1: real, z2: real)
    requires Lawful(m) && 0.0 < st.price
    ensures 0.0 < HestonStep(m, p, dt, st, z1, z2).price
  {
    var vPrev := Max(st.variance, 0.0);
    var e := m.exp(LogReturn(p.mu, dt, vPrev, m.sqrt(vPrev), m.sqrt(dt), z1));
    assert 0.0 < e;
    assert HestonStep(m, p, dt, st, z1, z2).price == st.price * e;
  }

  /** With `xi = 0` the next variance depends on the current variance only. */
  lemma HestonStepNoVolOfVol(m: Elementary, p: HestonParams, dt: real, st: HestonState, z1: real, z2: real)
    requires p.xi == 0.0
    ensures HestonStep(m, p, dt, st, z1, z2).variance == VarianceDrift(p.kappa, p.theta, st.variance, dt)
  {
    var vPrev := Max(st.variance, 0.0);
    assert p.xi * m.sqrt(vPrev) * m.sqrt(dt) * z2 == 0.0;
  }

  /** The noise-free part of the variance step: mean reversion of the
      truncated variance towards `theta` at rate `kappa`. */
  function VarianceDrift(kappa: real, theta: real, v: real, dt: real): (r: real) {
    v + kappa * (theta - Max(v, 0.0)) * dt
  }

  /** Without vol-of-vol, equal variances step to equal variances, whatever
      the draws and the prices. */
  lemma VarianceStepNoVolOfVol(m: Elementary, p: HestonParams, dt: real,
                               a: HestonState, za1: real, za2: real, b: HestonState, zb1: real, zb2: real)
    requires p.xi == 0.0 && a.variance == b.variance
    ensures HestonStep(m, p, dt, a, za1, za2).variance == HestonStep(m, p, dt, b, zb1, zb2).variance
  {
    HestonStepNoVolOfVol(m, p, dt, a, za1, za2);
    HestonStepNoVolOfVol(m, p, dt, b, zb1, zb2);
  }

  /** The first `len` states of Heston path `i`: `(S0, v0)`, then one step per
      time index `t`, driven by `z1(i, t)` and the correlated draw. */
  function HestonPath(m: Elementary, p: HestonParams, dt: real, z1: Innovations, z3: Innovations,
                      i: nat, len: nat): (r: seq<HestonState>)
    requires 0 < len
    ensures |r| == len
    ensures r[0] == HestonState(p.s0, p.v0)
    ensures forall t :: 0 < t < len ==>
      r[t] == HestonStep(m, p, dt, r[t - 1], z1(i, t), Correlate(m, p.rho, z1(i, t), z3(i, t)))
    decreases len
  {
    if len == 1 then [HestonState(p.s0, p.v0)]
    else
      var prev := HestonPath(m, p, dt, z1, z3, i, len - 1);
      var t := len - 1;
      prev + [HestonStep(m, p, dt, prev[t - 1], z1(i, t), Correlate(m, p.rho, z1(i, t), z3(i, t)))]
  }

  function Prices(states: seq<HestonState>): (r: seq<real>)
    ensures |r| == |states| && forall k :: 0 <= k < |r| ==> r[k] == states[k].price
  {
    seq(|states|, k requires 0 <= k < |states| => states[k].price)
  }

  function Variances(states: seq<HestonState>): (r: seq<real>)
    ensures |r| == |states| && forall k :: 0 <= k < |r| ==> r[k] == states[k].variance
  {
    seq(|states|, k requires 0 <= k < |states| => states[k].variance)
  }

  /** `ProcessosEstocasticos.heston`: price paths and variance paths, each
      `paths x int(T/dt)`. Writing the initial column into an array without
      columns raises an IndexError, so zero time points is an error. */
  function Heston(m: Elementary, p: HestonParams, T: real, dt: real, paths: int,
                  z1: Innovations, z3: Innovations)
    : (r: Result<(seq<seq<real>>, seq<seq<real>>)>)
    ensures Steps(T, dt, paths).Err? ==> r == Err(Steps(T, dt, paths).error)
    ensures Steps(T, dt, paths) == Ok(0) ==> r == Err(IndexOutOfBounds)
    ensures r.Ok? <==> Steps(T, dt, paths).Ok? && 0 < Steps(T, dt, paths).value
    ensures r.Ok? ==>
      var n := Steps(T, dt, paths).value;
      IsMatrix(r.value.0, paths, n) && IsMatrix(r.value.1, paths, n)
    ensures r.Ok? ==> forall i :: 0 <= i < paths ==>
      r.value.0[i][0] == p.s0 && r.value.1[i][0] == p.v0
  {
    match Steps(T, dt, paths)
    case Err(e) => Err(e)
    case Ok(n) =>
      if n == 0 then Err(IndexOutOfBounds)
      else
        var states := seq(paths, i requires 0 <= i < paths => HestonPath(m, p, dt, z1, z3, i, n));
        Ok((seq(paths, i requires 0 <= i < paths => Prices(states[i])),
            seq(paths, i requires 0 <= i < paths => Variances(states[i]))))
  }

  /** Row `i` of the Heston price and variance matrices is path `i`. */
  lemma HestonRow(m: Elementary, p: HestonParams, T: real, dt: real, paths: int,
                  z1: Innovations, z3: Innovations, i: nat)
    requires Heston(m, p, T, dt, paths, z1, z3).Ok? && i < paths
    ensures var path := HestonPath(m, p, dt, z1, z3, i, Steps(T, dt, paths).value);
      && Heston(m, p, T, dt, paths, z1, z3).value.0[i] == Prices(path)
      && Heston(m, p, T, dt, paths, z1, z3).value.1[i] == Variances(path)
  {
  }

  /** Each Heston column follows from the previous one by one `HestonStep`
      driven by `Z1` and the correlated draw `Z2 = rho * Z1 + sqrt(1 - rho^2) * Z3`
      of the same path and time index. */
  lemma HestonRecurrence(m: Elementary, p: HestonParams, T: real, dt: real, paths: int,
                         z1: Innovations, z3: Innovations, i: nat, t: nat)
    requires Heston(m, p, T, dt, paths, z1, z3).Ok?
    requires i < paths && 0 < t < Steps(T, dt, paths).value
    ensures var s := Heston(m, p, T, dt, paths, z1, z3).value.0;
      var v := Heston(m, p, T, dt, paths, z1, z3).value.1;
      HestonState(s[i][t], v[i][t])
        == HestonStep(m, p, dt, HestonState(s[i][t - 1], v[i][t - 1]), z1(i, t),
                      Correlate(m, p.rho, z1(i, t), z3(i, t)))
  {
    var n := Steps(T, dt, paths).value;
    var path := HestonPath(m, p, dt, z1, z3, i, n);
    HestonRow(m, p, T, dt, paths, z1, z3, i);
    var s := Heston(m, p, T, dt, paths, z1, z3).value.0;
    var v := Heston(m, p, T, dt, paths, z1, z3).value.1;
    var z2 := Correlate(m, p.rho, z1(i, t), z3(i, t));
    assert path[t - 1] == HestonState(s[i][t - 1], v[i][t - 1]);
    assert path[t] == HestonState(s[i][t], v[i][t]);
    assert path[t] == HestonStep(m, p, dt, path[t - 1], z1(i, t), z2);
  }

  /** A positive initial price keeps every Heston price positive. */
  lemma {:induction false} HestonPathPositive(m: Elementary, p: HestonParams, dt: real,
                                              z1: Innovations, z3: Innovations, i: nat, len: nat)
    requires Lawful(m) && 0.0 < p.s0 && 0 < len
    ensures forall t :: 0 <= t < len ==> 0.0 < HestonPath(m, p, dt, z1, z3, i, len)[t].price
  {
    if 1 < len {
      HestonPathPositive(m, p, dt, z1, z3, i, len - 1);
      var r := HestonPath(m, p, dt, z1, z3, i, len);
      var prev := HestonPath(m, p, dt, z1, z3, i, len - 1);
      assert r[..len - 1] == prev;
      var t := len - 1;
      HestonStepPositive(m, p, dt, r[t - 1], z1(i, t), Correlate(m, p.rho, z1(i, t), z3(i, t)));
    }
  }

  lemma HestonPositive(m: Elementary, p: HestonParams, T: real, dt: real, paths: int,
                       z1: Innovations, z3: Innovations)
    requires Lawful(m) && 0.0 < p.s0
    requires Heston(m, p, T, dt, paths, z1, z3).Ok?
    ensures var s := Heston(m, p, T, dt, paths, z1, z3).value.0;
      forall i, t :: 0 <= i < |s| && 0 <= t < |s[i]| ==> 0.0 < s[i][t]
  {
    var n := Steps(T, dt, paths).value;
    var s := Heston(m, p, T, dt, paths, z1, z3).value.0;
    forall i, t | 0 <= i < |s| && 0 <= t < |s[i]|
      ensures 0.0 < s[i][t]
    {
      HestonPathPositive(m, p, dt, z1, z3, i, n);
      HestonRow(m, p, T, dt, paths, z1, z3, i);
    }
  }

  /** With `xi = 0` the variance path carries no noise: it is the same for
      every path and every pair of draw streams. */
  lemma {:induction false} HestonPathVarianceNoiseFree(
    m: Elementary, p: HestonParams, dt: real,
    z1: Innovations, z3: Innovations, i: nat, z1': Innovations, z3': Innovations, i': nat, len: nat)
    requires p.xi == 0.0 && 0 < len
    ensures forall k :: 0 <= k < len ==>
      HestonPath(m, p, dt, z1, z3, i, len)[k].variance == HestonPath(m, p, dt, z1', z3', i', len)[k].variance
  {
    if 1 < len {
      HestonPathVarianceNoiseFree(m, p, dt, z1, z3, i, z1', z3', i', len - 1);
      var a := HestonPath(m, p, dt, z1, z3, i, len);
      var b := HestonPath(m, p, dt, z1', z3', i', len);
      assert a[..len - 1] == HestonPath(m, p, dt, z1, z3, i, len - 1);
      assert b[..len - 1] == HestonPath(m, p, dt, z1', z3', i', len - 1);
      var t := len - 1;
      assert a[t] == HestonStep(m, p, dt, a[t - 1], z1(i, t), Correlate(m, p.rho, z1(i, t), z3(i, t)));
      assert b[t] == HestonStep(m, p, dt, b[t - 1], z1'(i', t), Correlate(m, p.rho, z1'(i', t), z3'(i', t)));
      assert a[t - 1].variance == b[t - 1].variance;
      VarianceStepNoVolOfVol(m, p, dt, a[t - 1], z1(i, t), Correlate(m, p.rho, z1(i, t), z3(i, t)),
                             b[t - 1], z1'(i', t), Correlate(m, p.rho, z1'(i', t), z3'(i', t)));
      assert a[t].variance == b[t].variance;
      assert forall k :: 0 <= k < t ==> a[k].variance == b[k].variance;
    }
  }

  lemma HestonVarianceNoiseFree(m: Elementary, p: HestonParams, T: real, dt: real, paths: int,
                                z1: Innovations, z3: Innovations, z1': Innovations, z3': Innovations)
    requires p.xi == 0.0 && Heston(m, p, T, dt, paths, z1, z3).Ok?
    ensures var v := Heston(m, p, T, dt, paths, z1, z3).value.1;
      var v' := Heston(m, p, T, dt, paths, z1', z3').value.1;
      forall i, i' :: 0 <= i < paths && 0 <= i' < paths ==> v[i] == v'[i']
  {
    var n := Steps(T, dt, paths).value;
    var v := Heston(m, p, T, dt, paths, z1, z3).value.1;
    var v' := Heston(m, p, T, dt, paths, z1', z3').value.1;
    forall i, i' | 0 <= i < paths && 0 <= i' < paths
      ensures v[i] == v'[i']
    {
      HestonPathVarianceNoiseFree(m, p, dt, z1, z3, i, z1', z3', i', n);
      HestonRow(m, p, T, dt, paths, z1, z3, i);
      HestonRow(m, p, T, dt, paths, z1', z3', i');
    }
  }

  /** A Heston path depends on its own draws only. */
  lemma {:induction false} HestonPathIndependence(
    m: Elementary, p: HestonParams, dt: real,
    z1: Innovations, z3: Innovations, i: nat, z1': Innovations, z3': Innovations, i': nat, len: nat)
    requires 0 < len
    requires SameDraws(z1, i, z1', i', len) && SameDraws(z3, i, z3', i', len)
    ensures HestonPath(m, p, dt, z1, z3, i, len) == HestonPath(m, p, dt, z1', z3', i', len)
  {
    if 1 < len {
      HestonPathIndependence(m, p, dt, z1, z3, i, z1', z3', i', len - 1);
      assert z1(i, len - 1) == z1'(i', len - 1) && z3(i, len - 1) == z3'(i', len - 1);
    }
  }

  lemma HestonIndependence(m: Elementary, p: HestonParams, T: real, dt: real, paths: int,
                           z1: Innovations, z3: Innovations, z1': Innovations, z3': Innovations, i: nat)
    requires Heston(m, p, T, dt, paths, z1, z3).Ok? && i < paths
    requires SameDraws(z1, i, z1', i, Steps(T, dt, paths).value)
    requires SameDraws(z3, i, z3', i, Steps(T, dt, paths).value)
    ensures Heston(m, p, T, dt, paths, z1, z3).value.0[i] == Heston(m, p, T, dt, paths, z1', z3').value.0[i]
    ensures Heston(m, p, T, dt, paths, z1, z3).value.1[i] == Heston(m, p, T, dt, paths, z1', z3').value.1[i]
  {
    HestonPathIndependence(m, p, dt, z1, z3, i, z1', z3', i, Steps(T, dt, paths).value);
    HestonRow(m, p, T, dt, paths, z1, z3, i);
    HestonRow(m, p, T, dt, paths, z1', z3', i);
  }

  // ---------------------------------------------------------------------------
  // Ornstein–Uhlenbeck

  /** One Euler–Maruyama step of the OU process from `x` with draw `z`. */
  function OuStep(m: Elementary, p: OuParams, dt: real, x: real, z: real): (r: real) {
    x + p.theta * (p.mu - x) * dt + p.sigma * m.sqrt(dt) * z
  }

  /** Without diffusion and with `0 <= theta * dt <= 1`, a step moves `x`
      towards `mu` and never past it. */
  lemma OuStepReverts(m: Elementary, p: OuParams, dt: real, x: real, z: real)
    requires p.sigma == 0.0 && 0.0 <= p.theta * dt <= 1.0
    ensures x <= p.mu ==> x <= OuStep(m, p, dt, x, z) <= p.mu
    ensures p.mu <= x ==> p.mu <= OuStep(m, p, dt, x, z) <= x
  {
    var k := p.theta * dt;
    var d := p.mu - x;
    assert p.theta * (p.mu - x) * dt == k * d;
    assert p.sigma * m.sqrt(dt) * z == 0.0;
    assert OuStep(m, p, dt, x, z) == x + k * d;
    if 0.0 <= d {
      ScaleAtMostOne(k, d);
    } else {
      ScaleAtMostOne(k, -d);
      assert k * d == -(k * -d);
    }
  }

  /** The first `len` points of OU path `i`: `X0`, then one `OuStep` per time
      index `t` driven by `w(i, t)`. */
  function OuPath(m: Elementary, p: OuParams, dt: real, w: Innovations, i: nat, len: nat): (r: seq<real>)
    requires 0 < len
    ensures |r| == len
    ensures r[0] == p.x0
    ensures forall t :: 0 < t < len ==> r[t] == OuStep(m, p, dt, r[t - 1], w(i, t))
    decreases len
  {
    if len == 1 then [p.x0]
    else
      var prev := OuPath(m, p, dt, w, i, len - 1);
      prev + [OuStep(m, p, dt, prev[len - 2], w(i, len - 1))]
  }

  /** `ProcessosEstocasticos.ornstein_uhlenbeck`: `paths x int(T/dt)` OU paths;
      as for Heston, zero time points raise an IndexError. */
  function OrnsteinUhlenbeck(m: Elementary, p: OuParams, T: real, dt: real, paths: int, w: Innovations)
    : (r: Result<seq<seq<real>>>)
    ensures Steps(T, dt, paths).Err? ==> r == Err(Steps(T, dt, paths).error)
    ensures Steps(T, dt, paths) == Ok(0) ==> r == Err(IndexOutOfBounds)
    ensures r.Ok? <==> Steps(T, dt, paths).Ok? && 0 < Steps(T, dt, paths).value
    ensures r.Ok? ==> IsMatrix(r.value, paths, Steps(T, dt, paths).value)
    ensures r.Ok? ==> forall i :: 0 <= i < paths ==> r.value[i][0] == p.x0
  {
    match Steps(T, dt, paths)
    case Err(e) => Err(e)
    case Ok(n) =>
      if n == 0 then Err(IndexOutOfBounds)
      else Ok(seq(paths, i requires 0 <= i < paths => OuPath(m, p, dt, w, i, n)))
  }

  /** Without diffusion and with `0 <= theta * dt <= 1`, an OU path started
      below its long-run mean rises monotonically towards it and never crosses
      it; started at the mean, it stays there. */
  lemma {:induction false} OuPathReverts(m: Elementary, p: OuParams, dt: real, w: Innovations,
                                         i: nat, len: nat)
    requires 0 < len && p.sigma == 0.0 && 0.0 <= p.theta * dt <= 1.0 && p.x0 <= p.mu
    ensures var r := OuPath(m, p, dt, w, i, len);
      forall t :: 0 <= t < len ==> p.x0 <= r[t] <= p.mu
    ensures var r := OuPath(m, p, dt, w, i, len);
      forall t :: 0 < t < len ==> r[t - 1] <= r[t]
  {
    if 1 < len {
      OuPathReverts(m, p, dt, w, i, len - 1);
      var r := OuPath(m, p, dt, w, i, len);
      assert r[..len - 1] == OuPath(m, p, dt, w, i, len - 1);
      assert forall k :: 0 <= k < len - 1 ==> p.x0 <= r[k] <= p.mu;
      assert forall k :: 0 < k < len - 1 ==> r[k - 1] <= r[k];
      OuStepReverts(m, p, dt, r[len - 2], w(i, len - 1));
    }
  }

  /** Started at its long-run mean with no diffusion, the OU process stays there. */
  lemma {:induction false} OuPathAtEquilibrium(m: Elementary, p: OuParams, dt: real, w: Innovations,
                                               i: nat, len: nat)
    requires 0 < len && p.sigma == 0.0 && p.x0 == p.mu
    ensures forall t :: 0 <= t < len ==> OuPath(m, p, dt, w, i, len)[t] == p.mu
  {
    if 1 < len {
      OuPathAtEquilibrium(m, p, dt, w, i, len - 1);
      var r := OuPath(m, p, dt, w, i, len);
      assert r[..len - 1] == OuPath(m, p, dt, w, i, len - 1);
      assert forall k :: 0 <= k < len - 1 ==> r[k] == p.mu;
      var x := r[len - 2];
      assert p.theta * (p.mu - x) * dt == 0.0 by { assert p.mu - x == 0.0; }
      assert p.sigma * m.sqrt(dt) * w(i, len - 1) == 0.0;
    }
  }

  lemma OuAtEquilibrium(m: Elementary, p: OuParams, T: real, dt: real, paths: int, w: Innovations)
    requires OrnsteinUhlenbeck(m, p, T, dt, paths, w).Ok?
    requires p.sigma == 0.0 && p.x0 == p.mu
    ensures var x := OrnsteinUhlenbeck(m, p, T, dt, paths, w).value;
      forall i, t :: 0 <= i < |x| && 0 <= t < |x[i]| ==> x[i][t] == p.mu
  {
    var n := Steps(T, dt, paths).value;
    forall i | 0 <= i < paths
      ensures forall t :: 0 <= t < n ==> OuPath(m, p, dt, w, i, n)[t] == p.mu
    {
      OuPathAtEquilibrium(m, p, dt, w, i, n);
    }
  }

  lemma OuReverts(m: Elementary, p: OuParams, T: real, dt: real, paths: int, w: Innovations)
    requires OrnsteinUhlenbeck(m, p, T, dt, paths, w).Ok?
    requires p.sigma == 0.0 && 0.0 <= p.theta * dt <= 1.0 && p.x0 <= p.mu
    ensures var x := OrnsteinUhlenbeck(m, p, T, dt, paths, w).value;
      forall i, t :: 0 <= i < |x| && 0 <= t < |x[i]| ==> p.x0 <= x[i][t] <= p.mu
    ensures var x := OrnsteinUhlenbeck(m, p, T, dt, paths, w).value;
      forall i, t :: 0 <= i < |x| && 0 < t < |x[i]| ==> x[i][t - 1] <= x[i][t]
  {
    var n := Steps(T, dt, paths).value;
    forall i | 0 <= i < paths
      ensures var r := OuPath(m, p, dt, w, i, n);
        (forall t :: 0 <= t < n ==> p.x0 <= r[t] <= p.mu) && (forall t :: 0 < t < n ==> r[t - 1] <= r[t])
    {
      OuPathReverts(m, p, dt, w, i, n);
    }
  }

  /** An OU path depends on its own draws only. */
  lemma {:induction false} OuPathIndependence(m: Elementary, p: OuParams, dt: real,
                                              w: Innovations, i: nat, w': Innovations, i': nat, len: nat)
    requires 0 < len && SameDraws(w, i, w', i', len)
    ensures OuPath(m, p, dt, w, i, len) == OuPath(m, p, dt, w', i', len)
  {
    if 1 < len {
      OuPathIndependence(m, p, dt, w, i, w', i', len - 1);
      var a := OuPath(m, p, dt, w, i, len);
      var b := OuPath(m, p, dt, w', i', len);
      assert a[..len - 1] == b[..len - 1];
      assert w(i, len - 1) == w'(i', len - 1);
      assert a[len - 1] == b[len - 1];
    }
  }

  lemma OuIndependence(m: Elementary, p: OuParams, T: real, dt: real, paths: int,
                       w: Innovations, w': Innovations, i: nat)
    requires OrnsteinUhlenbeck(m, p, T, dt, paths, w).Ok? && i < paths
    requires SameDraws(w, i, w', i, Steps(T, dt, paths).value)
    ensures OrnsteinUhlenbeck(m, p, T, dt, paths, w).value[i] == OrnsteinUhlenbeck(m, p, T, dt, paths, w').value[i]
  {
    OuPathIndependence(m, p, dt, w, i, w', i, Steps(T, dt, paths).value);
  }
}
