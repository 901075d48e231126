/**
 * Forward simulation of a portfolio's value under geometric Brownian motion.
 *
 * The simulation draws nothing itself: the standard-normal draws are a parameter `z`
 * giving the draw for path i at step t as z(i, t), and sqrt(step_size) and the
 * exponential are parameters `sqrtStep` and `exp`. The lemmas that need the exponential
 * assume only that `exp` is positive and turns sums into products (IsExponential).
 */
module MonteCarlo {
  import opened Wrappers
  import opened LinearAlgebra

  /** The ways the simulation fails before it produces any path. */
  datatype SimulationError =
    | ZeroStepSize        // total_time / step_size divides by zero
    | NegativeDimension   // the path matrix would have a negative number of rows or columns
    | NoInitialColumn     // the path matrix has no column 0 to seed

  /** The scalar inputs that shape every log-return. */
  datatype Gbm = Gbm(expectedReturn: real, expectedRisk: real, stepSize: real, sqrtStep: real)

  /**
   * The sum a + b under a name of its own, so that the law of exponents below is used
   * only where a proof writes a sum this way.
   */
  function Add(a: real, b: real): real
  {
    a + b
  }

  /** `exp` is positive everywhere and maps sums to products. */
  ghost predicate IsExponential(exp: real -> real)
  {
    && (forall x :: exp(x) > 0.0)
    && (forall a, b :: exp(Add(a, b)) == exp(a) * exp(b))
  }

  /** Truncation of a real toward zero, as Python's int() does to a float. */
  function Truncate(q: real): (n: int)
    ensures q >= 0.0 ==> n as real <= q < n as real + 1.0
    ensures q < 0.0 ==> n as real - 1.0 < q <= n as real
  {
    if q >= 0.0 then q.Floor else -((-q).Floor)
  }

  /** The number of whole steps in the horizon; any fractional remainder is dropped. */
  function TotalSteps(totalTime: real, stepSize: real): (n: int)
    requires stepSize != 0.0
    ensures n >= 0 <==> totalTime / stepSize > -1.0
    ensures n == 0 <==> -1.0 < totalTime / stepSize < 1.0
  {
    Truncate(totalTime / stepSize)
  }

  /**
   * The log-space drift of one step: the expected return less half the variance, per
   * step. Without risk it is the plain return per step; risk only lowers it.
   */
  function Drift(g: Gbm): (d: real)
    ensures g.expectedRisk == 0.0 ==> d == g.expectedReturn * g.stepSize
    ensures g.stepSize >= 0.0 ==> d <= g.expectedReturn * g.stepSize
  {
    (g.expectedReturn - 0.5 * g.expectedRisk * g.expectedRisk) * g.stepSize
  }

  /**
   * The log-return of one step whose standard-normal draw is `draw`: drift plus
   * diffusion. Randomness enters only through the draw: a zero draw, or zero risk,
   * leaves exactly the drift.
   */
  function LogReturn(g: Gbm, draw: real): (x: real)
    ensures draw == 0.0 || g.expectedRisk == 0.0 ==> x == Drift(g)
  {
    Drift(g) + g.expectedRisk * g.sqrtStep * draw
  }

  /** Any two log-returns of one simulation differ only in their diffusion terms. */
  lemma LogReturnsShareDrift(g: Gbm, draw1: real, draw2: real)
    ensures LogReturn(g, draw1) - LogReturn(g, draw2)
            == g.expectedRisk * g.sqrtStep * (draw1 - draw2)
  {
  }

  /** The first t log-returns of path i: a prefix of row i of the log-return matrix. */
  function LogReturnRow(g: Gbm, z: (int, int) -> real, i: int, t: nat): (row: seq<real>)
    ensures |row| == t
  {
    seq(t, k requires 0 <= k < t => LogReturn(g, z(i, k)))
  }

  /**
   * The running sum of the log-returns of path i over its first t steps; it is the sum
   * of that prefix of row i, as a cumulative sum along the row gives.
   */
  function CumulativeLogReturn(g: Gbm, z: (int, int) -> real, i: int, t: nat): (c: real)
    ensures c == Sum(LogReturnRow(g, z, i, t))
  {
    if t == 0 then 0.0
    else
      var row := LogReturnRow(g, z, i, t);
      assert row[..t - 1] == LogReturnRow(g, z, i, t - 1);
      SumSnoc(row[..t - 1], row[t - 1]);
      assert row[..t - 1] + [row[t - 1]] == row;
      CumulativeLogReturn(g, z, i, t - 1) + LogReturn(g, z(i, t - 1))
  }

  /** Appending an entry to a vector adds it to the sum. */
  lemma {:induction false} SumSnoc(v: seq<real>, x: real)
    ensures Sum(v + [x]) == Sum(v) + x
  {
    if |v| > 0 {
      assert (v + [x])[1..] == v[1..] + [x];
      SumSnoc(v[1..], x);
    }
  }

  /**
   * The value of path i at time index t: the initial value at t == 0, and the initial
   * value grown by the exponential of the cumulative log-return after that.
   */
  function PathValue(initialValue: real, g: Gbm, z: (int, int) -> real, exp: real -> real,
                     i: int, t: nat): (v: real)
    ensures t == 0 ==> v == initialValue
    ensures t > 0 ==> v == initialValue * exp(Sum(LogReturnRow(g, z, i, t)))
  {
    if t == 0 then initialValue else initialValue * exp(CumulativeLogReturn(g, z, i, t))
  }

  /** The product of the one-step growth factors exp(log-return) of path i over t steps. */
  function GrowthProduct(g: Gbm, z: (int, int) -> real, exp: real -> real, i: int, t: nat): real
  {
    if t == 0 then 1.0 else GrowthProduct(g, z, exp, i, t - 1) * exp(LogReturn(g, z(i, t - 1)))
  }

  /** The simulation succeeds exactly when none of its three failures occurs. */
  predicate Simulable(totalTime: real, stepSize: real, sims: int)
  {
    stepSize != 0.0 && sims >= 0 && TotalSteps(totalTime, stepSize) >= 0
  }

  /**
   * `simulate_portfolio_returns`: a fresh sims x (steps + 1) matrix whose row i is path i,
   * with column 0 set to the initial value and column t + 1 set from the running sum of
   * the first t + 1 log-returns of that row.
   */
  method SimulatePortfolioReturns(initialValue: real, expectedReturn: real, expectedRisk: real,
                                  totalTime: real, stepSize: real, sims: int,
                                  sqrtStep: real, z: (int, int) -> real, exp: real -> real)
    returns (r: Result<array2<real>, SimulationError>)
    ensures r.Success? <==> Simulable(totalTime, stepSize, sims)
    ensures r == Failure(ZeroStepSize) <==> stepSize == 0.0
    ensures r == Failure(NegativeDimension) <==>
              stepSize != 0.0 && (sims < 0 || TotalSteps(totalTime, stepSize) < -1)
    ensures r.Success? ==>
              var paths := r.value;
              var g := Gbm(expectedReturn, expectedRisk, stepSize, sqrtStep);
              && fresh(paths)
              && paths.Length0 == sims
              && paths.Length1 == TotalSteps(totalTime, stepSize) + 1
              && (forall i :: 0 <= i < sims ==> paths[i, 0] == initialValue)
              && (forall i, t :: 0 <= i < sims && 0 <= t < paths.Length1 ==>
                    paths[i, t] == PathValue(initialValue, g, z, exp, i, t))
  {
    if stepSize == 0.0 {
      return Failure(ZeroStepSize);
    }
    var steps := TotalSteps(totalTime, stepSize);
    if sims < 0 || steps + 1 < 0 {
      return Failure(NegativeDimension);
    }
    if steps + 1 == 0 {
      return Failure(NoInitialColumn);
    }
    var paths := new real[sims, steps + 1];

    // Seed column 0 of every path.
    var i := 0;
    while i < sims
      invariant 0 <= i <= sims
      invariant forall k :: 0 <= k < i ==> paths[k, 0] == initialValue
    {
      paths[i, 0] := initialValue;
      i := i + 1;
    }

    // Fill columns 1..steps of each row from a running sum of its log-returns.
    var g := Gbm(expectedReturn, expectedRisk, stepSize, sqrtStep);
    i := 0;
    while i < sims
      invariant 0 <= i <= sims
      invariant forall k :: i <= k < sims ==> paths[k, 0] == initialValue
      invariant forall k, t :: 0 <= k < i && 0 <= t <= steps ==>
                  paths[k, t] == PathValue(initialValue, g, z, exp, k, t)
    {
      FillPath(paths, i, initialValue, g, z, exp);
      i := i + 1;
    }
    return Success(paths);
  }

  /**
   * Fills columns 1.. of row i of `paths` from column 0 and a running sum of the row's
   * log-returns, leaving every other row as it was.
   */
  method FillPath(paths: array2<real>, i: int, initialValue: real, g: Gbm,
                  z: (int, int) -> real, exp: real -> real)
    requires 0 <= i < paths.Length0 && 0 < paths.Length1
    requires paths[i, 0] == initialValue
    modifies paths
    ensures forall u :: 0 <= u < paths.Length1 ==>
              paths[i, u] == PathValue(initialValue, g, z, exp, i, u)
    ensures forall k, u :: 0 <= k < paths.Length0 && 0 <= u < paths.Length1 && k != i ==>
              paths[k, u] == old(paths[k, u])
  {
    var steps := paths.Length1 - 1;
    var logSum := 0.0;
    var t := 0;
    while t < steps
      invariant 0 <= t <= steps
      invariant logSum == CumulativeLogReturn(g, z, i, t)
      invariant forall u :: 0 <= u <= t ==> paths[i, u] == PathValue(initialValue, g, z, exp, i, u)
      invariant forall k, u :: 0 <= k < paths.Length0 && 0 <= u < paths.Length1 && k != i ==>
                  paths[k, u] == old(paths[k, u])
    {
      logSum := logSum + LogReturn(g, z(i, t));
      paths[i, t + 1] := paths[i, 0] * exp(logSum);
      t := t + 1;
    }
  }

  /**
   * With total_time == step_size there is one step, so the simulation's matrix, which
   * has TotalSteps + 1 columns, has two.
   */
  lemma OneStepHorizon(totalTime: real, stepSize: real)
    requires stepSize != 0.0 && totalTime == stepSize
    ensures TotalSteps(totalTime, stepSize) == 1
    ensures TotalSteps(totalTime, stepSize) + 1 == 2
  {
  }

  /**
   * For a positive step and a non-negative horizon the steps cover the horizon without
   * passing it, leaving a remainder shorter than one step.
   */
  lemma StepsFitHorizon(totalTime: real, stepSize: real)
    requires stepSize > 0.0 && totalTime >= 0.0
    ensures var n := TotalSteps(totalTime, stepSize);
            n >= 0 && 0.0 <= totalTime - n as real * stepSize < stepSize
  {
    var q := totalTime / stepSize;
    assert q * stepSize == totalTime;
    RemainderBounds(totalTime, stepSize, q, TotalSteps(totalTime, stepSize) as real);
  }

  /** If t == q * s with n <= q < n + 1 and s > 0, then t - n * s lies in [0, s). */
  lemma RemainderBounds(t: real, s: real, q: real, n: real)
    requires s > 0.0 && q * s == t && n <= q < n + 1.0
    ensures 0.0 <= t - n * s < s
  {
    var below := (q - n) * s;
    assert below >= 0.0;
    assert below == t - n * s;
    var gap := n + 1.0 - q;
    assert gap > 0.0;
    var above := gap * s;
    assert above > 0.0;
    assert above == s - (t - n * s);
  }

  /** A positive number equal to its own square is 1. */
  lemma PositiveIdempotent(e: real)
    requires e > 0.0 && e * e == e
    ensures e == 1.0
  {
  }

  /** exp(0) == 1 for any positive function that maps sums to products. */
  lemma ExpZero(exp: real -> real)
    requires IsExponential(exp)
    ensures exp(0.0) == 1.0
  {
    var e := exp(0.0);
    calc {
      e * e;
      exp(Add(0.0, 0.0));
      { assert Add(0.0, 0.0) == 0.0; }
      e;
    }
    PositiveIdempotent(e);
  }

  /** Each step multiplies the path value by the exponential of that step's log-return. */
  lemma PathStep(initialValue: real, g: Gbm, z: (int, int) -> real, exp: real -> real, i: int, t: nat)
    requires IsExponential(exp)
    ensures PathValue(initialValue, g, z, exp, i, t + 1)
            == PathValue(initialValue, g, z, exp, i, t) * exp(LogReturn(g, z(i, t)))
  {
    var c := CumulativeLogReturn(g, z, i, t);
    var x := LogReturn(g, z(i, t));
    if t == 0 {
      assert CumulativeLogReturn(g, z, i, 1) == x;
    } else {
      calc {
        PathValue(initialValue, g, z, exp, i, t + 1);
        initialValue * exp(Add(c, x));
        initialValue * (exp(c) * exp(x));
        PathValue(initialValue, g, z, exp, i, t) * exp(x);
      }
    }
  }

  /** A path's value is its initial value times the product of its one-step growth factors. */
  lemma {:induction false} PathIsGrowthProduct(initialValue: real, g: Gbm, z: (int, int) -> real,
                                               exp: real -> real, i: int, t: nat)
    requires IsExponential(exp)
    ensures PathValue(initialValue, g, z, exp, i, t) == initialValue * GrowthProduct(g, z, exp, i, t)
  {
    if t > 0 {
      PathIsGrowthProduct(initialValue, g, z, exp, i, t - 1);
      PathStep(initialValue, g, z, exp, i, t - 1);
    }
  }

  /** A positive initial value gives a positive value everywhere on every path. */
  lemma PathsPositive(initialValue: real, g: Gbm, z: (int, int) -> real, exp: real -> real,
                      i: int, t: nat)
    requires IsExponential(exp) && initialValue > 0.0
    ensures PathValue(initialValue, g, z, exp, i, t) > 0.0
  {
  }

  /** The cumulative log-return of row i reads only row i of the draws. */
  lemma {:induction false} CumulativeLogReturnReadsOwnRow(g: Gbm, z1: (int, int) -> real,
                                                          z2: (int, int) -> real, i: int, t: nat)
    requires forall k :: 0 <= k < t ==> z1(i, k) == z2(i, k)
    ensures CumulativeLogReturn(g, z1, i, t) == CumulativeLogReturn(g, z2, i, t)
  {
    if t > 0 {
      CumulativeLogReturnReadsOwnRow(g, z1, z2, i, t - 1);
    }
  }

  /** Paths are independent: path i up to time t depends only on row i of the draws. */
  lemma RowsIndependent(initialValue: real, g: Gbm, z1: (int, int) -> real, z2: (int, int) -> real,
                        exp: real -> real, i: int, t: nat)
    requires forall k :: 0 <= k < t ==> z1(i, k) == z2(i, k)
    ensures PathValue(initialValue, g, z1, exp, i, t) == PathValue(initialValue, g, z2, exp, i, t)
  {
    CumulativeLogReturnReadsOwnRow(g, z1, z2, i, t);
  }

  /** With every draw of a row zero, the cumulative log-return is t times the drift. */
  lemma {:induction false} ZeroDrawsCumulative(g: Gbm, z: (int, int) -> real, i: int, t: nat)
    requires forall k :: 0 <= k < t ==> z(i, k) == 0.0
    ensures CumulativeLogReturn(g, z, i, t) == t as real * Drift(g)
  {
    if t > 0 {
      ZeroDrawsCumulative(g, z, i, t - 1);
    }
  }

  /** With every draw of a row zero, the path is deterministic: initial * exp(t * drift). */
  lemma ZeroDrawsDeterministic(initialValue: real, g: Gbm, z: (int, int) -> real,
                               exp: real -> real, i: int, t: nat)
    requires IsExponential(exp)
    requires forall k :: 0 <= k < t ==> z(i, k) == 0.0
    ensures PathValue(initialValue, g, z, exp, i, t) == initialValue * exp(t as real * Drift(g))
  {
    ZeroDrawsCumulative(g, z, i, t);
    if t == 0 {
      ExpZero(exp);
    }
  }
}
