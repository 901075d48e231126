# Portfolio metrics and price-path simulation, modelled in Dafny

This project models the arithmetic core of a mean-variance portfolio tool:

- **Portfolio metrics** (`src/portfolio_stats.py`): the expected return `w @ r` of a
  weighted portfolio, its risk `sqrt(wᵀ C w)`, and the Sharpe ratio
  `(return − risk_free_rate) / risk`. This includes the error the Sharpe ratio raises on zero risk.
  Both operations are pure functions, in the source and in the model (module `PortfolioStats`,
  over the vector and matrix products of module `LinearAlgebra`).
- **Price-path simulation** (`src/monte_carlo.py`): a geometric-Brownian-motion
  projection that allocates a `sims × (steps + 1)` matrix and seeds column 0 with the
  initial value. It then fills every row from a running sum of per-step log-returns
  `drift + risk·sqrt(step)·Z`. It is modelled as a method over `array2<real>` with
  nested loops (module `MonteCarlo`).
- **The optimizer's constraint set** (`src/optimization.py`): the long-only, fully
  invested weight vectors that reach a target return (module `Optimization`). The
  solver's minimisation is not modelled.

All arithmetic is exact arithmetic over `real`. The three things the source computes
numerically or randomly are parameters:

- `sqrt: real -> real` stands for numpy's square root. Lemmas that need it assume
  `IsSquareRoot(sqrt)`: a non-negative root of every non-negative real.
- `exp: real -> real` stands for numpy's exponential. Lemmas that need it assume
  `IsExponential(exp)`: positive everywhere, and `exp(a + b) == exp(a) * exp(b)`.
- The standard-normal draws `Z` are a parameter `z: (int, int) -> real`, where `z(i, t)` is
  the draw for path `i` at step `t`. `sqrt(step_size)` is a parameter `sqrtStep`.

Errors the source raises are modelled as `Result` values:

- numpy's shape error on mismatched operands of `@` becomes `ShapeMismatch`.
- The Sharpe ratio's `ValueError` on zero risk becomes `ZeroRisk`.
- The simulation has three failures. Division by a zero step size gives `ZeroStepSize`.
  A negative matrix dimension gives `NegativeDimension`. A matrix with no column 0 to
  seed, when the step count is −1, gives `NoInitialColumn`.

The NaN that `np.sqrt` returns for a negative variance is modelled as a missing risk
(`Option.None`).

## Model

| member | source | states |
|---|---|---|
| `PortfolioStats.PortfolioReturnAndRisk` | src/portfolio_stats.py:3-22 | Fails exactly when the weights, returns and covariance shapes do not line up. Otherwise the return is the weighted sum of the asset returns. The risk is present exactly when the double-sum variance is non-negative, and is then `sqrt` of it. |
| `PortfolioStats.Variance` | src/portfolio_stats.py:19 | numpy's left-to-right `(wᵀ C) w` equals the double sum Σᵢ wᵢ·(Σⱼ Cᵢⱼ·wⱼ). |
| `LinearAlgebra.BilinearSwap` | src/portfolio_stats.py:19 | For any rectangular matrix, `u @ (M @ v) == (u @ M) @ v`: the double sum taken column-first equals the sum taken row-first. |
| `PortfolioStats.RiskSquaresToVariance` | src/portfolio_stats.py:19-20 | For shape-correct inputs and a true square root, the metrics succeed. The risk is present iff the variance is ≥ 0, and is then non-negative with risk·risk == variance. |
| `PortfolioStats.EqualReturnsGiveThatReturn` | src/portfolio_stats.py:17 | If every asset returns `c` and the weights sum to 1, the portfolio return is `c`. |
| `PortfolioStats.TwoAssetMetrics` | test/test_portfolio_stats.py:9-21 | Returns [0.1, 0.2], covariance [[0.2, 0.05], [0.05, 0.1]] and weights [0.25, 0.75] give return 0.175 and risk `sqrt(0.0875)`, exactly. |
| `PortfolioStats.SharpeRatio` | src/portfolio_stats.py:24-43 | Fails iff risk == 0, for every return and risk-free rate. Otherwise the ratio `s` satisfies s·risk + rf == return. |
| `PortfolioStats.SharpeRatioUnique` | src/portfolio_stats.py:42-43 | For non-zero risk, a number is the Sharpe ratio iff it satisfies s·risk + rf == return (both directions). |
| `PortfolioStats.SharpeRatioExample` | test/test_portfolio_stats.py:23-41 | Return 0.13, risk 0.20 and rate 0.03 give exactly 0.5. Risk 0 gives the zero-risk error. |
| `Optimization.Feasible` | src/optimization.py:24-28 | A weight vector is feasible when it has one weight per asset, sums to 1, has no negative weight and reaches the target return. Any feasible vector implies that some single asset's return reaches the target. |
| `Optimization.ReturnAtMostLargest` | src/optimization.py:24-28 | Non-negative weights summing to 1 give a return no larger than the best asset's return. |
| `Optimization.FeasibleIffSomeAssetReachesTarget` | src/optimization.py:24-28 | A weight vector meeting all three constraints exists iff some single asset's return reaches the target. |
| `MonteCarlo.Truncate` | src/monte_carlo.py:20 | The result is the integer part toward zero. For q ≥ 0 it is the floor (n ≤ q < n+1); for q < 0 it is n−1 < q ≤ n. |
| `MonteCarlo.TotalSteps` | src/monte_carlo.py:20 | The step count is ≥ 0 iff `total_time / step_size > −1`, which is when the path matrix has a column 0. It is 0 iff the quotient lies strictly between −1 and 1. |
| `MonteCarlo.StepsFitHorizon` | src/monte_carlo.py:20 | For a positive step and a non-negative horizon, the step count is ≥ 0. The dropped remainder `total − steps·step` lies in [0, step). |
| `MonteCarlo.OneStepHorizon` | src/monte_carlo.py:16-23 | With total_time == step_size there is exactly one step, and the column count `steps + 1` of the path matrix is 2. |
| `MonteCarlo.Drift` | src/monte_carlo.py:30 | With zero risk the per-step drift is the plain expected return times the step. For a non-negative step, risk can only lower the drift below that (the −½σ² correction). |
| `MonteCarlo.LogReturn` | src/monte_carlo.py:30-32 | A step's log-return is exactly the drift when its draw is zero or the risk is zero. |
| `MonteCarlo.LogReturnsShareDrift` | src/monte_carlo.py:30-32 | Any two log-returns of one simulation differ by `risk · sqrtStep · (z₁ − z₂)`. The drift is common to every path and step. |
| `MonteCarlo.CumulativeLogReturn` | src/monte_carlo.py:32-35 | The running sum over the first `t` steps of row `i` equals the sum of the first `t` entries of that row of the log-return matrix, as `np.cumsum` along axis 1 gives. |
| `MonteCarlo.PathValue` | src/monte_carlo.py:24-35 | Column 0 holds the initial value. Column `t > 0` holds the initial value times `exp` of the sum of the row's first `t` log-returns. |
| `MonteCarlo.SimulatePortfolioReturns` | src/monte_carlo.py:3-37 | Succeeds iff the step size is non-zero, sims ≥ 0 and the step count is ≥ 0, and states which of the three errors occurs otherwise. On success it returns a fresh matrix with `sims` rows and `steps + 1` columns. Column 0 is the initial value. Every entry `[i, t]` equals `PathValue`: the initial value times `exp` of the sum of the first `t` log-returns of row `i`. |
| `MonteCarlo.FillPath` | src/monte_carlo.py:35 | After the running-sum loop, row `i` holds its path values in every column. Every other row is unchanged. |
| `MonteCarlo.PathStep` | src/monte_carlo.py:35 | Under the law of exponents, each column is the previous one times `exp` of that step's log-return. |
| `MonteCarlo.PathIsGrowthProduct` | src/monte_carlo.py:35 | A path value is the initial value times the product of the one-step growth factors `exp(log-return)`. |
| `MonteCarlo.PathsPositive` | src/monte_carlo.py:24-35 | A positive initial value and a positive `exp` make every path value positive. |
| `MonteCarlo.RowsIndependent` | src/monte_carlo.py:27-35 | Path `i` up to time `t` depends only on the draws of row `i` before `t`. |
| `MonteCarlo.ZeroDrawsDeterministic` | src/monte_carlo.py:30-35 | If every draw of a row is zero, the path is `initial · exp(t · drift)`. The drift is the same for every path and step. |
| `MonteCarlo.ExpZero` | src/monte_carlo.py:35 | Any positive function that maps sums to products has `exp(0) == 1`. So column 0 agrees with `initial · exp(0)`. |

## Left out

- The minimisation in `src/optimization.py` is left out. It is a call into an external convex
  solver whose algorithm is not visible. Only its constraint set is modelled (`Optimization.Feasible`).
  Nothing is claimed about optimality or about the closed-form test weights.
- `src/data_processing.py` is left out: it downloads market data and computes pandas statistics.
- `src/visualizations.py` (chart rendering) is left out.
- `src/main.py` (orchestration, CSV loading, random ticker choice) is left out.
- The efficient-frontier sweep and the random and return-matching samplers are left out. The
  orchestration imports them, but no code for them exists (`get_efficient_frontier_data`,
  `get_random_portfolios`, `find_similar_random_portfolio`).
- The transcendental functions and the random source are parameters, not computed. The model
  does not capture how the normal draws are sampled, nor their distribution.
- `sqrt(step_size)` is a free parameter `sqrtStep`. A negative step size, for which numpy yields
  NaN paths, is therefore not modelled.
- Floating-point behaviour is not modelled: IEEE rounding (for example, whether `1 / (1/252)`
  truncates to 251 or 252), overflow, and infinities.
- The metrics treat the covariance as given. Its symmetry and positive semi-definiteness are
  not assumed; a negative variance is the NaN case above.
- The step count is `int(total_time / step_size)`, which truncates toward zero. It equals the
  floor only for non-negative quotients, and the model keeps the truncation.
- Path values are positive only for a positive initial value. The code does not check the sign
  of the initial value, and neither does the model.
- The zero-risk Sharpe failure is the code's `ValueError`, modelled as `ZeroRisk`. It is not a
  separate division-by-zero error.
