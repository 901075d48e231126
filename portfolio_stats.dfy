/**
 * Portfolio metrics: the expected return and risk (standard deviation) of a weighted
 * portfolio, and its Sharpe ratio.
 *
 * The square root is a parameter `sqrt`, since it has no closed form over the reals;
 * the lemmas that speak about risk assume only that `sqrt` is a square root on the
 * non-negative reals (IsSquareRoot).
 */
module PortfolioStats {
  import opened Wrappers
  import opened LinearAlgebra

  /** numpy refuses `@` on operands whose shapes do not line up. */
  datatype MetricsError = ShapeMismatch

  /** The Sharpe ratio refuses a zero risk, which would divide by zero. */
  datatype SharpeError = ZeroRisk

  /**
   * The pair the metrics return. `risk` is None where numpy's square root of a
   * negative variance yields NaN.
   */
  datatype ReturnAndRisk = ReturnAndRisk(ret: real, risk: Option<real>)

  /** `sqrt` returns the non-negative square root of every non-negative real. */
  ghost predicate IsSquareRoot(sqrt: real -> real)
  {
    forall v :: v >= 0.0 ==> sqrt(v) >= 0.0 && sqrt(v) * sqrt(v) == v
  }

  /**
   * The portfolio variance as the double sum over i and j of w[i] * cov[i][j] * w[j],
   * summed row by row: w @ (cov @ w).
   */
  function QuadraticForm(cov: seq<seq<real>>, w: seq<real>): real
    requires IsMatrix(cov, |w|, |w|)
  {
    Dot(w, MatVec(cov, w))
  }

  /**
   * The variance exactly as numpy evaluates `weights.T @ cov_matrix @ weights`:
   * left to right, (w @ cov) @ w. It is the same double sum, taken column by column.
   */
  function Variance(cov: seq<seq<real>>, w: seq<real>): (v: real)
    requires IsMatrix(cov, |w|, |w|)
    ensures v == QuadraticForm(cov, w)
  {
    BilinearSwap(w, cov, w);
    Dot(VecMat(w, cov, |w|), w)
  }

  /**
   * `portfolio_return_and_risk`: the return `weights @ returns` and the risk
   * sqrt(weights.T @ cov_matrix @ weights).
   */
  function PortfolioReturnAndRisk(assetReturns: seq<real>, cov: seq<seq<real>>, weights: seq<real>,
                                  sqrt: real -> real): (r: Result<ReturnAndRisk, MetricsError>)
    ensures r.Failure? <==> |weights| != |assetReturns| || !IsMatrix(cov, |weights|, |weights|)
    ensures r.Success? ==> r.value.ret == Dot(assetReturns, weights)
    ensures r.Success? ==> (r.value.risk.Some? <==> QuadraticForm(cov, weights) >= 0.0)
    ensures r.Success? && r.value.risk.Some? ==>
              r.value.risk.value == sqrt(QuadraticForm(cov, weights))
  {
    if |weights| != |assetReturns| || !IsMatrix(cov, |weights|, |weights|) then
      Failure(ShapeMismatch)
    else
      DotSymmetric(weights, assetReturns);
      var ret := Dot(weights, assetReturns);
      var variance := Variance(cov, weights);
      var risk := if variance < 0.0 then None else Some(sqrt(variance));
      Success(ReturnAndRisk(ret, risk))
  }

  /**
   * `portfolio_sharpe_ratio`: the excess return per unit of risk. A zero risk is an
   * error for every return and risk-free rate; otherwise the ratio is the one number
   * that scales the risk back to the excess return.
   */
  function SharpeRatio(ret: real, risk: real, riskFreeRate: real): (r: Result<real, SharpeError>)
    ensures r.Failure? <==> risk == 0.0
    ensures r.Success? ==> r.value * risk + riskFreeRate == ret
  {
    if risk == 0.0 then Failure(ZeroRisk) else Success((ret - riskFreeRate) / risk)
  }

  /** The Sharpe ratio is determined uniquely by its defining equation. */
  lemma SharpeRatioUnique(ret: real, risk: real, riskFreeRate: real, s: real)
    requires risk != 0.0
    ensures s * risk + riskFreeRate == ret <==> SharpeRatio(ret, risk, riskFreeRate) == Success(s)
  {
    var r := SharpeRatio(ret, risk, riskFreeRate);
    if s * risk + riskFreeRate == ret {
      assert (s - r.value) * risk == 0.0;
      assert s - r.value == 0.0;
    }
  }

  /**
   * Whenever the variance is non-negative, the risk is a non-negative number whose
   * square is the variance; a negative variance gives no risk (NaN).
   */
  lemma RiskSquaresToVariance(assetReturns: seq<real>, cov: seq<seq<real>>, weights: seq<real>,
                              sqrt: real -> real)
    requires IsSquareRoot(sqrt)
    requires |weights| == |assetReturns| && IsMatrix(cov, |weights|, |weights|)
    ensures var r := PortfolioReturnAndRisk(assetReturns, cov, weights, sqrt);
            r.Success? &&
            (r.value.risk.Some? <==> QuadraticForm(cov, weights) >= 0.0) &&
            (r.value.risk.Some? ==>
               r.value.risk.value >= 0.0 &&
               r.value.risk.value * r.value.risk.value == QuadraticForm(cov, weights))
  {
  }

  /** If every asset has the same return `c` and the weights sum to 1, so does the portfolio. */
  lemma {:induction false} EqualReturnsGiveThatReturn(assetReturns: seq<real>, cov: seq<seq<real>>,
                                                      weights: seq<real>, sqrt: real -> real, c: real)
    requires |weights| == |assetReturns| && IsMatrix(cov, |weights|, |weights|)
    requires forall i :: 0 <= i < |assetReturns| ==> assetReturns[i] == c
    requires Sum(weights) == 1.0
    ensures PortfolioReturnAndRisk(assetReturns, cov, weights, sqrt).value.ret == c
  {
    DotSymmetric(assetReturns, weights);
    DotConstantRight(weights, assetReturns, c);
  }

  /**
   * The metrics of the two-asset portfolio with returns [0.1, 0.2], covariance
   * [[0.2, 0.05], [0.05, 0.1]] and weights [0.25, 0.75]: return 0.175 and risk
   * sqrt(0.0875), exactly.
   */
  lemma TwoAssetMetrics(sqrt: real -> real)
    ensures PortfolioReturnAndRisk([0.1, 0.2], [[0.2, 0.05], [0.05, 0.1]], [0.25, 0.75], sqrt)
            == Success(ReturnAndRisk(0.175, Some(sqrt(0.0875))))
  {
  }

  /** Return 0.13, risk 0.20 and risk-free rate 0.03 give a Sharpe ratio of exactly 0.5. */
  lemma SharpeRatioExample()
    ensures SharpeRatio(0.13, 0.20, 0.03) == Success(0.5)
    ensures SharpeRatio(0.10, 0.0, 0.02) == Failure(ZeroRisk)
  {
  }
}
