# ModeloFinanceiro300 core in Dafny

This project models the numerical core of the ModeloFinanceiro300 quantitative-finance pipeline and proves properties of the model. The core consists of:

- **Path generators** (`ProcessosEstocasticos`):
  - geometric Brownian motion (GBM), simulated exactly on the log-price;
  - the Heston stochastic-volatility model (Euler–Maruyama with full truncation of the variance);
  - the Ornstein–Uhlenbeck (OU) process (Euler–Maruyama).
- **Monte Carlo driver** (`SimuladorMonteCarlo`):
  - its configuration (paths, horizon, one trading day per step);
  - model dispatch by name, with parameters looked up in a dictionary;
  - the time-major layout of the paths;
  - a per-time-point summary: mean, median, 5% and 95% quantiles.
- **Risk metrics** (`AnaliseRisco`): historical Value at Risk, Conditional Value at Risk (expected shortfall), and maximum drawdown.
- **Walk-forward backtest** (`Backtest.executar_backtest`): signals, strategy returns and the compounded equity curve.
- **Data cleaning** (`preencher_valores_nulos`, `remover_outliers`) and **validation** (`validar_dados`).

The modules follow the repository's layout:

| file | module | models |
|---|---|---|
| `common.dfy` | `Common`, `RealMath` | errors as `Result`, optional values, abstract `exp`/`sqrt`, real-arithmetic helpers |
| `scans.dfy` | `Scans` | `sum`, `prod`, `min`, `max`, `cumsum`, `cumprod`, `cummax` |
| `stats.dfy` | `Stats` | sorting, linear-interpolation quantiles, median, mean |
| `matrix.dfy` | `Matrix` | matrices as sequences of rows, transposition |
| `sde.dfy` | `Sde` | `src/modelos/sde.py` |
| `monte_carlo.dfy` | `MonteCarlo` | `src/simulacao/monte_carlo.py` |
| `risk.dfy` | `Risk` | `src/analise/risk_metrics.py` |
| `backtest.dfy` | `Backtest` | `src/analise/backtest.py` |
| `frames.dfy` | `Frames` | tables of nullable numeric cells |
| `cleaner.dfy` | `Cleaner` | `src/processamento/cleaner.py` |
| `validator.dfy` | `Validator` | `src/processamento/validator.py` |

Modelling choices:

- **Numbers.** Floating-point numbers are `real`.
- **`exp` and `sqrt`.** They are passed in as an `Elementary` value. The predicate `Lawful` states the laws the proofs rely on:
  - `exp` is positive and `exp(0) = 1`;
  - `sqrt` is non-negative and squares back for non-negative arguments.
- **Random draws.** The standard-normal draws are inputs of type `Innovations`, a function from (path, time index) to a draw. A seeded random driver would supply it. Heston takes two independent streams; its second draw is built by the correlation formula, as in the code.
- **Exceptions.** Every exception the modelled code raises is an `Err` of a `Result`, except the date-range error listed under "## Left out":
  - division by zero in `int(T / dt)`;
  - a negative array dimension;
  - the `IndexError` of writing column 0 of an array with no columns;
  - an unknown model name;
  - a missing parameter key (the first missing one, in argument order);
  - a percentile outside `[0, 100]`, or one asked of an empty sample;
  - the errors of a negative backtest window.
- **Function parameters.** The backtest's signal function and pandas' interpolation are parameters.
- **Default arguments.** The code's defaults are Dafny default parameters: `metodo = 'ffill'`, `z_thresh = 3.0`, `confianca = 0.95` and `janela = 50`. The default method comes after the interpolation parameter in `Cleaner.FillNulls`.

Behaviours of the code the model keeps:

- **Number of time points.** `int(T / dt)` truncates toward zero (`Sde.Steps`).
- **Heston variance.** The code clamps the variance only where it is used (`max(v, 0)`). It stores the unclamped value, so the stored variance can be negative (`Sde.HestonVarianceCanGoNegative`).
- **Heston noise term.** The code computes `sqrt(v_prev) * sqrt(dt)` as two square roots, and the model keeps that form.
- **No parameter validation.** Negative volatilities and correlations outside `[-1, 1]` are accepted; the code does not validate them.
- **GBM first column.** It is `S0 * exp(sigma * sqrt(dt) * Z[i][0])`, not `S0`. The first cumulative Brownian increment is already included at `t = 0` (`Sde.GbmFirstColumn`).
- **Backtest with `janela = 0`.** The return of the first day reads `iloc[-1]`, the last price of the series. The no-look-ahead lemmas therefore assume a window of at least one day.

## Model

| member | source | states |
|---|---|---|
| Scans.CumSum | src/modelos/sde.py:19 | entry `j` of the running sum is the sum of the first `j + 1` draws |
| Scans.CumProd | src/analise/backtest.py:32 | entry `j` of the running product is the product of the first `j + 1` factors |
| Scans.CumMax | src/analise/risk_metrics.py:29 | each running peak is at least every earlier price and is one of them |
| Scans.ProductStep | src/analise/backtest.py:32 | a running product grows by exactly one factor per step |
| Stats.Sort | src/analise/risk_metrics.py:14 | the order statistics are sorted and are a permutation of the sample |
| Stats.SortExtremes | src/analise/risk_metrics.py:14 | the first and last order statistics are the sample's minimum and maximum |
| Stats.SortedQuantile | src/simulacao/monte_carlo.py:67-68 | a linearly interpolated quantile lies between the smallest and largest order statistic |
| Stats.QuantileWithinRange | src/simulacao/monte_carlo.py:67-68 | every quantile lies within the sample's range |
| Stats.QuantileMonotone | src/simulacao/monte_carlo.py:67-68 | a higher probability never gives a lower quantile |
| Stats.MedianIsHalfQuantile | src/simulacao/monte_carlo.py:66 | the median (middle value, or mean of the two middle values) equals the 0.5 quantile |
| Stats.MeanWithinRange | src/simulacao/monte_carlo.py:65 | the mean lies within the sample's range |
| Stats.ConstantSample | src/simulacao/monte_carlo.py:65-68 | a constant sample has mean, median and every quantile equal to the constant |
| Matrix.Transpose | src/simulacao/monte_carlo.py:58 | the transpose has one row per time point, and entry `[j][i]` is entry `[i][j]` of the input |
| Matrix.TransposeInvolution | src/simulacao/monte_carlo.py:58 | transposing twice gives back the matrix |
| Sde.Steps | src/modelos/sde.py:16-18 | `dt = 0` is a division error; otherwise a negative count or path count is exactly the dimension error, and the count is `T / dt` truncated toward zero |
| Sde.Linspace | src/modelos/sde.py:17 | `n` points from 0 to `T` inclusive with constant spacing `T / (n - 1)` |
| Sde.GbmLogPathEntry | src/modelos/sde.py:19-21 | each log-price is the drift times `t_j` plus `sigma * sqrt(dt)` times the sum of the path's draws up to `j` |
| Sde.GbmLog | src/modelos/sde.py:16-21 | the log-price matrix has `paths x N` entries, and fails exactly when the step count fails |
| Sde.Gbm | src/modelos/sde.py:11-23 | `paths x N` prices; each is `S0 * exp` of the log-price; errors come from the step count |
| Sde.GbmClosedForm | src/modelos/sde.py:19-21 | every GBM log-price is the closed-form solution at its time point |
| Sde.GbmFirstColumn | src/modelos/sde.py:17-22 | the first column carries one innovation: `S0 * exp(sigma * sqrt(dt) * Z[i][0])` |
| Sde.GbmCurveStart | src/modelos/sde.py:22 | the noise-free curve starts at `S0` |
| Sde.OnGbmCurve | src/modelos/sde.py:22 | a price whose log-price is `mu * t` lies on the curve `S0 * exp(mu * t)` |
| Sde.GbmDeterministic | src/modelos/sde.py:21-22 | with `sigma = 0` every entry is `S0 * exp(mu * t_j)`, and the first is `S0` |
| Sde.GbmDeterministicColumn | src/modelos/sde.py:21-22 | with `sigma = 0` all paths agree at every time point |
| Sde.GbmPositive | src/modelos/sde.py:22 | a positive `S0` gives positive prices everywhere |
| Sde.GbmPathIndependence | src/modelos/sde.py:18-22 | a GBM path depends only on its own draws |
| Sde.CorrelateExtremes | src/modelos/sde.py:42 | the correlated draw is `Z3` at `rho = 0`, `Z1` at `rho = 1` and `-Z1` at `rho = -1` |
| Sde.HestonStepTruncation | src/modelos/sde.py:46-49 | from a non-negative variance the step is plain Euler–Maruyama; from a negative one it carries no noise |
| Sde.HestonVarianceCanGoNegative | src/modelos/sde.py:48 | a concrete step takes the stored variance from 1 to -9 |
| Sde.HestonStepPositive | src/modelos/sde.py:49 | a step from a positive price keeps the price positive |
| Sde.HestonStepNoVolOfVol | src/modelos/sde.py:48 | with `xi = 0` the next variance is the mean-reverting drift of the current one |
| Sde.VarianceStepNoVolOfVol | src/modelos/sde.py:48 | with `xi = 0`, equal variances step to equal variances, whatever the draws |
| Sde.HestonPath | src/modelos/sde.py:36-49 | a path starts at `(S0, v0)` and each state is one step from the previous, driven by that time index's draws |
| Sde.Heston | src/modelos/sde.py:26-51 | price and variance matrices of `paths x N`, with column 0 equal to `S0` and `v0`; step-count errors propagate, and zero time points raise an `IndexError` |
| Sde.HestonRow | src/modelos/sde.py:34-51 | row `i` of both matrices is path `i` |
| Sde.HestonRecurrence | src/modelos/sde.py:39-49 | each column follows from the previous by one Heston step with `Z1` and the correlated `Z2` |
| Sde.HestonPathPositive | src/modelos/sde.py:36-49 | a positive `S0` keeps every price on a path positive |
| Sde.HestonPositive | src/modelos/sde.py:36-49 | a positive `S0` keeps every simulated price positive |
| Sde.HestonPathVarianceNoiseFree | src/modelos/sde.py:37-48 | with `xi = 0` the variance path is the same for every path and every draw stream |
| Sde.HestonVarianceNoiseFree | src/modelos/sde.py:37-48 | with `xi = 0` all rows of the variance matrix agree, whatever the draws |
| Sde.HestonPathIndependence | src/modelos/sde.py:39-49 | a Heston path depends only on its own draws |
| Sde.HestonIndependence | src/modelos/sde.py:39-49 | rows of the simulation depend only on that path's draws |
| Sde.OuStepReverts | src/modelos/sde.py:65 | without diffusion and with `0 <= theta*dt <= 1`, a step moves toward `mu` without overshooting |
| Sde.OuPath | src/modelos/sde.py:60-65 | a path starts at `X0` and each point is one Euler–Maruyama step from the previous |
| Sde.OrnsteinUhlenbeck | src/modelos/sde.py:54-67 | a `paths x N` matrix with column 0 equal to `X0`; step-count errors propagate, and zero time points raise an `IndexError` |
| Sde.OuPathReverts | src/modelos/sde.py:61-65 | without diffusion and with `0 <= theta * dt <= 1`, a path started at or below `mu` rises monotonically and stays at most `mu` |
| Sde.OuPathAtEquilibrium | src/modelos/sde.py:61-65 | without diffusion, a path started at `mu` stays there |
| Sde.OuAtEquilibrium | src/modelos/sde.py:59-65 | without diffusion and with `X0 = mu`, every entry is `mu` |
| Sde.OuReverts | src/modelos/sde.py:59-65 | without diffusion, with `0 <= theta * dt <= 1` and `X0 <= mu`, every path is bounded by `X0` and `mu` and non-decreasing |
| Sde.OuPathIndependence | src/modelos/sde.py:63-65 | an OU path depends only on its own draws |
| Sde.OuIndependence | src/modelos/sde.py:59-65 | rows of the simulation depend only on that path's draws |
| MonteCarlo.NewSimulator | src/simulacao/monte_carlo.py:11-14 | the simulator keeps the path count and horizon; its step is one 252nd of a year |
| MonteCarlo.SimulatorSteps | src/simulacao/monte_carlo.py:11-14 | the simulator has `horizon * 252` time points, truncated; the default has 504 |
| MonteCarlo.FirstMissing | src/simulacao/monte_carlo.py:21-24 | the first key, in argument order, that the dictionary lacks; none exactly when all are present |
| MonteCarlo.Lookups | src/simulacao/monte_carlo.py:22-24 | succeeds exactly when all keys are present and returns their values in order; otherwise a `KeyError` on the first missing key |
| MonteCarlo.GbmArguments | src/simulacao/monte_carlo.py:21-28 | the GBM parameters are `S0`, `mu` and `sigma` from the dictionary; otherwise a `KeyError` names the first missing one |
| MonteCarlo.HestonArguments | src/simulacao/monte_carlo.py:30-41 | the seven Heston parameters from the dictionary; otherwise a `KeyError` names the first missing one |
| MonteCarlo.Simulate | src/simulacao/monte_carlo.py:16-58 | unknown model names are rejected; a missing key is the first one's `KeyError`; then the step-count errors, and for Heston the `IndexError` of zero time points; the result is the generator's price matrix transposed to `N x paths` |
| MonteCarlo.Summarize | src/simulacao/monte_carlo.py:64-68 | undefined exactly for an empty cross-section; otherwise `min <= Q5 <= median <= Q95 <= max` and the mean lies within `[min, max]` |
| MonteCarlo.Aggregate | src/simulacao/monte_carlo.py:60-69 | summary `j` is the summary of time point `j`; each is undefined exactly for an empty cross-section, and otherwise has `min <= Q5 <= median <= Q95 <= max` and the mean within `[min, max]` |
| MonteCarlo.SummarizeConstant | src/simulacao/monte_carlo.py:65-68 | a constant cross-section `c` summarises to `c` four times |
| MonteCarlo.DeterministicGbmRow | src/simulacao/monte_carlo.py:20-58 | with `sigma = 0`, every path at time point `j` equals `S0 * exp(mu * t_j)` |
| MonteCarlo.DeterministicGbmSummary | src/simulacao/monte_carlo.py:60-69 | with `sigma = 0`, mean, median and both quantiles at time `j` all equal `S0 * exp(mu * t_j)` |
| Risk.ValueAtRisk | src/analise/risk_metrics.py:10-14 | a percentile error exactly when confidence is outside `[0, 1]`; an index error exactly for empty returns; otherwise a value within the returns' range |
| Risk.ValueAtRiskMonotone | src/analise/risk_metrics.py:14 | a higher confidence never gives a higher VaR |
| Risk.ValueAtRiskExtremes | src/analise/risk_metrics.py:14 | at confidence 1 the VaR is the worst return; at confidence 0 it is the best |
| Risk.QuantileEnds | src/analise/risk_metrics.py:14 | the 0 and 1 quantiles of order statistics are the first and the last |
| Risk.Tail | src/analise/risk_metrics.py:22 | the selection holds exactly the returns at or below the threshold, each as often as it occurs in the returns |
| Risk.ConditionalValueAtRisk | src/analise/risk_metrics.py:17-22 | defined exactly when the VaR is, with the same errors; lies between the minimum return and the VaR |
| Risk.ConditionalValueAtRiskTail | src/analise/risk_metrics.py:17-22 | for valid inputs the CVaR is defined, and is the mean of a non-empty tail holding exactly the returns at or below the VaR, with their multiplicities |
| Risk.ConstantReturns | src/analise/risk_metrics.py:14-22 | constant returns `c` give VaR and CVaR both equal to `c` |
| Risk.ConstantTail | src/analise/risk_metrics.py:22 | the tail at `c` of constant returns `c` is non-empty with mean `c` |
| Risk.Drawdowns | src/analise/risk_metrics.py:29-30 | each drawdown is `(p_j - peak_j) / peak_j`, with `peak_j` the running maximum; only the peaks must be non-zero |
| Risk.MaxDrawdown | src/analise/risk_metrics.py:25-31 | undefined exactly for an empty series; otherwise the smallest drawdown, attained at some index |
| Risk.RelativeDrop | src/analise/risk_metrics.py:30 | a positive price at most its peak has a drop in `(-1, 0]`, zero exactly at the peak |
| Risk.DrawdownBounds | src/analise/risk_metrics.py:29-30 | for positive prices every drawdown lies in `(-1, 0]`, and is zero exactly at a running peak |
| Risk.MaxDrawdownBounds | src/analise/risk_metrics.py:29-31 | for positive prices the maximum drawdown lies in `(-1, 0]` |
| Risk.TotalDrop | src/analise/risk_metrics.py:30 | a non-negative price at most a positive peak has a drop in `[-1, 0]`, `-1` exactly at a zero price |
| Risk.DrawdownBoundsNonNegative | src/analise/risk_metrics.py:29-30 | a series that starts positive and stays non-negative has defined drawdowns in `[-1, 0]`, `-1` exactly where the price is zero |
| Risk.TotalLoss | src/analise/risk_metrics.py:25-31 | the series `[1, 0]` has a maximum drawdown of `-1` |
| Risk.MaxDrawdownZero | src/analise/risk_metrics.py:29-31 | for positive prices the maximum drawdown is 0 exactly when the series never falls |
| Backtest.Previous | src/analise/backtest.py:24 | `iloc[i - 1]` reads the previous day, and the last price when `i = 0` |
| Backtest.Trades | src/analise/backtest.py:18-25 | one signal and one return per day from `janela` on; the signal sees the `janela` prices before the day; the return is signal times price return |
| Backtest.Growth | src/analise/backtest.py:32 | the compounding factors are `1 + r` for each strategy return |
| Backtest.Table | src/analise/backtest.py:15-33 | `max(0, len - janela)` rows indexed from `janela`; each row's signal, return and equity as above; equity is the product of `1 + r` so far |
| Backtest.RunBacktest | src/analise/backtest.py:11-33 | a negative window fails: an `IndexError` if it reaches past the series' start, else a length mismatch; otherwise the table; the window defaults to 50 |
| Backtest.TableRow | src/analise/backtest.py:19-25 | row `k` has the signal of the window `k .. k + janela - 1` and earns it times day `janela + k`'s return |
| Backtest.DailyReturnPrefix | src/analise/backtest.py:24 | a day's return (day at least 1) depends only on prices up to that day |
| Backtest.SignalNoLookAhead | src/analise/backtest.py:19-20 | the signal of a day depends only on prices strictly before it |
| Backtest.ReturnNoLookAhead | src/analise/backtest.py:19-25 | with a window of at least one day, a day's strategy return depends only on prices up to that day |
| Backtest.EquityNoLookAhead | src/analise/backtest.py:19-32 | with a window of at least one day, the equity after a day depends only on prices up to that day |
| Backtest.EquityStep | src/analise/backtest.py:32 | equity compounds day by day from 1: `e_k = e_(k-1) * (1 + r_k)` |
| Backtest.CompoundStep | src/analise/backtest.py:32 | a running product of `1 + r` satisfies the one-step compounding recurrence |
| Backtest.FlatDay | src/analise/backtest.py:20-32 | a zero signal earns 0 and leaves the equity unchanged |
| Backtest.LongDays | src/analise/backtest.py:20-32 | always long, each day's return is the price return and compounds the equity |
| Backtest.TotalLossDay | src/analise/backtest.py:18-32 | a last price of zero is no divisor: always long on `[1, 2, 0]` with `janela = 1` returns `+1` then `-1`, and the equity ends at 0 |
| Backtest.BuyAndHold | src/analise/backtest.py:24-32 | always long, the equity after day `janela + k` is that day's price over the price of day `janela - 1` |
| Backtest.LongCurve | src/analise/backtest.py:32 | an equity curve of long days telescopes to a ratio of two prices |
| Cleaner.FFillSpec | src/processamento/cleaner.py:9 | forward fill keeps values; fills a null exactly when a value precedes it, and with the nearest such value |
| Cleaner.BFillSpec | src/processamento/cleaner.py:9 | backward fill keeps values; fills a null exactly when a value follows it, and with the nearest such value |
| Cleaner.FillSpec | src/processamento/cleaner.py:8-9 | `ffill().bfill()` keeps values and takes the nearest earlier value, else the first later one; a cell stays null only in an all-null column |
| Cleaner.FillIdempotent | src/processamento/cleaner.py:9 | filling twice changes nothing |
| Cleaner.KeptRows | src/processamento/cleaner.py:13 | the positions of the rows without nulls, increasing, and all of them |
| Cleaner.DropNa | src/processamento/cleaner.py:12-13 | the result is a table without nulls, with the same columns and index kind and no more rows |
| Cleaner.RowsWithin | src/processamento/cleaner.py:13 | a strictly increasing selection of row positions has at most as many rows as the table |
| Cleaner.DropNaSpec | src/processamento/cleaner.py:13 | `dropna` keeps exactly the complete rows, in order, with their labels and cells; a table without nulls comes back whole |
| Cleaner.RowsAreAll | src/processamento/cleaner.py:13 | a selection that keeps every row keeps them in place |
| Cleaner.FillColumns | src/processamento/cleaner.py:9 | filling keeps the index and the number of columns |
| Cleaner.FillNulls | src/processamento/cleaner.py:4-13 | `'ffill'` (the default) fills every column, `'interpolate'` is delegated, and any other method drops incomplete rows |
| Cleaner.FillNullsFfill | src/processamento/cleaner.py:8-9 | with `'ffill'`, values stay, and a cell ends up null exactly when its column has no value |
| Cleaner.FillNullsFfillComplete | src/processamento/cleaner.py:8-9 | with `'ffill'`, a table with no all-null column comes out without nulls |
| Cleaner.FillNullsDrop | src/processamento/cleaner.py:12-13 | any other method leaves no nulls, and leaves a table without nulls as it was |
| Cleaner.Clamp | src/processamento/cleaner.py:30 | a clipped value lies in `[lo, hi]`, and a value already inside is unchanged |
| Cleaner.ClampMonotone | src/processamento/cleaner.py:30 | clipping never reverses the order of two values |
| Cleaner.Values | src/processamento/cleaner.py:30 | the non-null values of a column, each as often as it occurs in the column |
| Cleaner.Bounds | src/processamento/cleaner.py:30 | missing exactly for an all-null column; otherwise the 1% and 99% linear quantiles of the column's non-null values, in order |
| Cleaner.RemoveOutliers | src/processamento/cleaner.py:15-30 | `remover_outliers` keeps the index and the number of columns |
| Cleaner.RemoveOutliersSpec | src/processamento/cleaner.py:30 | nulls stay null; every value lands in its column's `[q01, q99]`; values already inside are unchanged |
| Cleaner.RemoveOutliersMonotone | src/processamento/cleaner.py:30 | clipping keeps the order of values within a column |
| Cleaner.RemoveOutliersIgnoresThreshold | src/processamento/cleaner.py:23-30 | the result does not depend on `z_thresh` |
| Validator.AnyNull | src/processamento/validator.py:7 | true exactly when some cell is null |
| Validator.ValidateData | src/processamento/validator.py:5-19 | rejects nulls first, then fewer than 30 rows, then a non-datetime index; accepts exactly when none applies |

## Left out

- Random number generation (`np.random.standard_normal`): the draws are inputs. The model does not claim they are normally distributed, so no statistical property is stated, such as convergence of means.
- Floating point: values are exact reals. Rounding, overflow, NaN and infinity are not modelled. This includes the float quirk by which `int(T / dt)` with `dt = 1/252` can differ from `int(T * 252)`.
- `exp` and `sqrt`: abstract functions constrained by the `Lawful` laws, not computed.
- The `dates` index built from `pd.Timestamp.now()` in `executar_simulacao` (lines 46-47) is never used: the result's row index is the default `0 .. N - 1`.
- MonteCarlo.Simulate: returns `Ok` even for a horizon whose daily date range would pass pandas' last `Timestamp` (2262-04-11). The code raises `OutOfBoundsDatetime` there, once `int(horizonte * 252)` calendar days from now pass that date, which today means a horizon above roughly 340 years. The model has no clock, so it does not model this error.
- The `'interpolate'` branch of `preencher_valores_nulos`: pandas' linear interpolation is a parameter of `Cleaner.FillNulls`, not modelled.
- `remover_outliers`:
  - The z-scores (scipy's `zscore`) and their mask are computed but never used, so they are not modelled.
  - Only numeric columns are modelled; non-numeric columns are out of scope.
- Cleaner tables: columns are positional, without names. Row labels are integers, and the cleaner carries them along unchanged.
- The messages `validar_dados` prints: the `Verdict` it returns names which check failed.
- Backtest.RunBacktest: requires the prices it divides by to be non-zero. These are `iloc[i - 1]` for each traded day `i`. A zero divisor gives an IEEE infinity or NaN in the code, not an exception.
- Backtest.Table: indexes the rows by their positions `janela + k` in the series. The code takes the labels `series_precos.index[janela:]`, which are dates in the caller. Row `k`'s label is the series' label at that position; the labels themselves are not modelled.
- Backtest.Trades: passes the signal function the window's values, without the series' labels.
- Risk.Drawdowns: requires every running peak to be non-zero, for the same reason. The tightest bounds on drawdowns assume positive prices. The non-negative case is covered separately.
- The signal function of the backtest is total and returns an integer. Exceptions it might raise, and non-integer signals, are not modelled.
- The rest of the repository (data download, plotting, parameter estimation, statistical tests and other indicators) is not part of this model.
