/** `SimuladorMonteCarlo`: runs one of the SDE generators for a configured
    number of paths and horizon, lays the paths out time-major (one row per
    time point, one column per path), and summarises each time point by its
    mean, median and 5% / 95% quantiles. */
module MonteCarlo {
  import opened Common
  import opened RealMath
  import opened Scans
  import opened Stats
  import opened Matrix
  import opened Sde

  /** The simulator's configuration: number of paths, horizon in years, and
      the step, fixed at one trading day. */
  datatype Simulator = Simulator(paths: int, horizon: real, dt: real)

  /** Trading days in a year. */
  const TradingDays: real := 252.0

  /** `SimuladorMonteCarlo(n_caminhos, horizonte_anos)`; the defaults are
      10000 paths over two years. */
  function NewSimulator(paths: int := 10000, horizon: real := 2.0): (s: Simulator)
    ensures s.paths == paths && s.horizon == horizon
    ensures s.dt * TradingDays == 1.0
  {
    Simulator(paths, horizon, 1.0 / TradingDays)
  }

  /** The default simulator covers 504 daily time points per path, and any
      simulator with a non-negative path count has one time point per trading
      day of its horizon, truncated. */
  lemma SimulatorSteps(paths: int, horizon: real)
    requires 0 <= paths
    ensures var s := NewSimulator(paths, horizon);
      Steps(s.horizon, s.dt, s.paths).Ok? <==> -1.0 < horizon * TradingDays
    ensures var s := NewSimulator(paths, horizon);
      Steps(s.horizon, s.dt, s.paths).Ok? ==> Steps(s.horizon, s.dt, s.paths).value == Trunc(horizon * TradingDays)
    ensures var s := NewSimulator();
      Steps(s.horizon, s.dt, s.paths) == Ok(504)
  {
    var s := NewSimulator(paths, horizon);
    assert s.horizon / s.dt == horizon * TradingDays;
    var d := NewSimulator();
    assert d.horizon / d.dt == 504.0;
  }

  /** Model parameters by name, as the `parametros` dictionary. */
  type Parameters = map<string, real>

  const GbmKeys: seq<string> := ["S0", "mu", "sigma"]
  const HestonKeys: seq<string> := ["S0", "v0", "mu", "kappa", "theta", "xi", "rho"]

  /** The first of `keys`, in order, that `params` lacks. */
  function FirstMissing(keys: seq<string>, params: Parameters): (r: Option<string>)
    ensures r.None? <==> forall k :: 0 <= k < |keys| ==> keys[k] in params
    ensures r.Some? ==> exists k :: 0 <= k < |keys| && keys[k] == r.value && keys[k] !in params
                                     && forall l :: 0 <= l < k ==> keys[l] in params
  {
    if |keys| == 0 then None
    else if keys[0] !in params then Some(keys[0])
    else
      var r := FirstMissing(keys[1..], params);
      assert r.Some? ==> exists k :: 0 <= k < |keys| && keys[k] == r.value && keys[k] !in params
                                       && forall l :: 0 <= l < k ==> keys[l] in params by {
        if r.Some? {
          var k :| 0 <= k < |keys[1..]| && keys[1..][k] == r.value && keys[1..][k] !in params
                   && forall l :: 0 <= l < k ==> keys[1..][l] in params;
          assert forall l :: 0 <= l < k + 1 ==> keys[l] in params by {
            forall l | 0 <= l < k + 1
              ensures keys[l] in params
            {
              if 0 < l {
                assert keys[l] == keys[1..][l - 1];
              }
            }
          }
        }
      }
      r
  }

  /** `parametros[key]` for each of `keys` in turn: the first missing key
      raises a `KeyError`. */
  function Lookups(params: Parameters, keys: seq<string>): (r: Result<seq<real>>)
    ensures r.Ok? <==> FirstMissing(keys, params).None?
    ensures r.Err? ==> r.error == MissingKey(FirstMissing(keys, params).value)
    ensures r.Ok? ==> |r.value| == |keys| && forall k :: 0 <= k < |keys| ==> r.value[k] == params[keys[k]]
  {
    if |keys| == 0 then Ok([])
    else if keys[0] !in params then Err(MissingKey(keys[0]))
    else
      match Lookups(params, keys[1..])
      case Err(e) => Err(e)
      case Ok(rest) => Ok([params[keys[0]]] + rest)
  }

  /** The keyword arguments of the `gbm` call, evaluated left to right. */
  function GbmArguments(params: Parameters): (r: Result<GbmParams>)
    ensures r.Ok? <==> FirstMissing(GbmKeys, params).None?
    ensures r.Err? ==> r.error == MissingKey(FirstMissing(GbmKeys, params).value)
    ensures r.Ok? ==> ("S0" in params && "mu" in params && "sigma" in params
                       && r.value == GbmParams(params["S0"], params["mu"], params["sigma"]))
  {
    match Lookups(params, GbmKeys)
    case Err(e) => Err(e)
    case Ok(v) => Ok(GbmParams(v[0], v[1], v[2]))
  }

  /** The keyword arguments of the `heston` call, evaluated left to right. */
  function HestonArguments(params: Parameters): (r: Result<HestonParams>)
    ensures r.Ok? <==> FirstMissing(HestonKeys, params).None?
    ensures r.Err? ==> r.error == MissingKey(FirstMissing(HestonKeys, params).value)
    ensures r.Ok? ==> ("S0" in params && "v0" in params && "mu" in params && "kappa" in params
                       && "theta" in params && "xi" in params && "rho" in params
                       && r.value == HestonParams(params["S0"], params["v0"], params["mu"], params["kappa"],
                                                  params["theta"], params["xi"], params["rho"]))
  {
    match Lookups(params, HestonKeys)
    case Err(e) => Err(e)
    case Ok(v) => Ok(HestonParams(v[0], v[1], v[2], v[3], v[4], v[5], v[6]))
  }

  /** `SimuladorMonteCarlo.executar_simulacao`: the `gbm` paths, or the
      `heston` price paths (its variance paths are discarded), transposed so
      that row `j` holds every path's value at time point `j`. Any other model
      name is rejected. The GBM draws come from `z1`; Heston uses `z1` and `z3`. */
  function Simulate(m: Elementary, s: Simulator, model: string, params: Parameters,
                    z1: Innovations, z3: Innovations): (r: Result<seq<seq<real>>>)
    ensures model != "gbm" && model != "heston" ==> r == Err(UnsupportedModel(model))
    ensures model == "gbm" && GbmArguments(params).Err? ==> r == Err(GbmArguments(params).error)
    ensures model == "heston" && HestonArguments(params).Err? ==> r == Err(HestonArguments(params).error)
    ensures model == "gbm" && GbmArguments(params).Ok? ==>
      (r.Ok? <==> Steps(s.horizon, s.dt, s.paths).Ok?) && (r.Err? ==> r.error == Steps(s.horizon, s.dt, s.paths).error)
    ensures model == "heston" && HestonArguments(params).Ok? ==>
      (r.Ok? <==> Steps(s.horizon, s.dt, s.paths).Ok? && 0 < Steps(s.horizon, s.dt, s.paths).value)
    ensures model == "heston" && HestonArguments(params).Ok? && r.Err? ==>
      r.error == if Steps(s.horizon, s.dt, s.paths).Err? then Steps(s.horizon, s.dt, s.paths).error
                 else IndexOutOfBounds
    ensures r.Ok? ==> IsMatrix(r.value, Steps(s.horizon, s.dt, s.paths).value, s.paths)
    ensures r.Ok? && model == "gbm" ==>
      var g := Gbm(m, GbmArguments(params).value, s.horizon, s.dt, s.paths, z1).value;
      forall j, i :: 0 <= j < Steps(s.horizon, s.dt, s.paths).value && 0 <= i < s.paths ==> r.value[j][i] == g[i][j]
    ensures r.Ok? && model == "heston" ==>
      var h := Heston(m, HestonArguments(params).value, s.horizon, s.dt, s.paths, z1, z3).value.0;
      forall j, i :: 0 <= j < Steps(s.horizon, s.dt, s.paths).value && 0 <= i < s.paths ==> r.value[j][i] == h[i][j]
  {
    if model == "gbm" then
      match GbmArguments(params)
      case Err(e) => Err(e)
      case Ok(p) =>
        match Gbm(m, p, s.horizon, s.dt, s.paths, z1)
        case Err(e) => Err(e)
        case Ok(paths) => Ok(Transpose(paths, Steps(s.horizon, s.dt, s.paths).value))
    else if model == "heston" then
      match HestonArguments(params)
      case Err(e) => Err(e)
      case Ok(p) =>
        match Heston(m, p, s.horizon, s.dt, s.paths, z1, z3)
        case Err(e) => Err(e)
        case Ok((prices, _)) => Ok(Transpose(prices, Steps(s.horizon, s.dt, s.paths).value))
    else Err(UnsupportedModel(model))
  }

  // ---------------------------------------------------------------------------
  // Aggregation

  /** One row of the summary frame. A time point with no paths has all four
      statistics undefined (pandas yields NaN). */
  datatype Summary = Summary(media: real, mediana: real, q5: real, q95: real) | Undefined

  /** The four statistics of the paths' values at one time point. */
  function Summarize(row: seq<real>): (r: Summary)
    ensures r.Undefined? <==> |row| == 0
    ensures r.Summary? ==> MinOf(row) <= r.q5 <= r.mediana <= r.q95 <= MaxOf(row)
    ensures r.Summary? ==> MinOf(row) <= r.media <= MaxOf(row)
  {
    if |row| == 0 then Undefined
    else
      MedianIsHalfQuantile(row);
      QuantileMonotone(row, 0.05, 0.5);
      QuantileMonotone(row, 0.5, 0.95);
      QuantileWithinRange(row, 0.05);
      QuantileWithinRange(row, 0.95);
      MeanWithinRange(row);
      Summary(Mean(row), Median(row), Quantile(row, 0.05), Quantile(row, 0.95))
  }

  /** `SimuladorMonteCarlo.agregar_resultados`: one summary per time point. */
  function Aggregate(frame: seq<seq<real>>): (r: seq<Summary>)
    ensures |r| == |frame|
    ensures forall j :: 0 <= j < |frame| ==> (r[j].Undefined? <==> |frame[j]| == 0)
    ensures forall j :: 0 <= j < |frame| ==> r[j] == Summarize(frame[j])
    ensures forall j :: 0 <= j < |frame| && r[j].Summary? ==>
      MinOf(frame[j]) <= r[j].q5 <= r[j].mediana <= r[j].q95 <= MaxOf(frame[j])
      && MinOf(frame[j]) <= r[j].media <= MaxOf(frame[j])
  {
    seq(|frame|, j requires 0 <= j < |frame| => Summarize(frame[j]))
  }

  /** The summary of a time point at which every path has the same value `c`
      is `c` four times over. */
  lemma SummarizeConstant(row: seq<real>, c: real)
    requires 0 < |row|
    requires forall i :: 0 <= i < |row| ==> row[i] == c
    ensures Summarize(row) == Summary(c, c, c, c)
  {
    ConstantSample(row, c);
  }

  /** In a GBM simulation without volatility, every path has the same value
      `S0 * exp(mu * t_j)` at time point `j`. */
  lemma DeterministicGbmRow(m: Elementary, s: Simulator, params: Parameters,
                            z1: Innovations, z3: Innovations, j: nat)
    requires Lawful(m)
    requires Simulate(m, s, "gbm", params, z1, z3).Ok?
    requires "sigma" in params && params["sigma"] == 0.0
    requires j < Steps(s.horizon, s.dt, s.paths).value
    ensures GbmArguments(params).Ok?
    ensures var row := Simulate(m, s, "gbm", params, z1, z3).value[j];
      var p := GbmArguments(params).value;
      var c := GbmCurve(m, p.s0, p.mu, Linspace(s.horizon, Steps(s.horizon, s.dt, s.paths).value)[j]);
      |row| == s.paths && forall i :: 0 <= i < |row| ==> row[i] == c
  {
    GbmDeterministicColumn(m, GbmArguments(params).value, s.horizon, s.dt, s.paths, z1, j);
  }

  /** End to end: a GBM simulation without volatility has, at time point `j`,
      mean, median and both quantiles equal to `S0 * exp(mu * t_j)`. */
  lemma DeterministicGbmSummary(m: Elementary, s: Simulator, params: Parameters,
                                z1: Innovations, z3: Innovations, j: nat)
    requires Lawful(m)
    requires Simulate(m, s, "gbm", params, z1, z3).Ok?
    requires "sigma" in params && params["sigma"] == 0.0
    requires 0 < s.paths && j < Steps(s.horizon, s.dt, s.paths).value
    ensures "S0" in params && "mu" in params
    ensures var t := Linspace(s.horizon, Steps(s.horizon, s.dt, s.paths).value)[j];
      var c := GbmCurve(m, params["S0"], params["mu"], t);
      Aggregate(Simulate(m, s, "gbm", params, z1, z3).value)[j] == Summary(c, c, c, c)
  {
    DeterministicGbmRow(m, s, params, z1, z3, j);
    var p := GbmArguments(params).value;
    var t := Linspace(s.horizon, Steps(s.horizon, s.dt, s.paths).value)[j];
    SummarizeConstant(Simulate(m, s, "gbm", params, z1, z3).value[j], GbmCurve(m, p.s0, p.mu, t));
  }
}
