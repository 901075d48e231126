/**
 * The constraint set of the minimum-risk optimizer: long-only weights that sum to 1 and
 * reach a target return. The minimisation itself is delegated to a convex solver and is
 * not part of this model; only which weight vectors the solver may choose from is.
 */
module Optimization {
  import opened LinearAlgebra

  /**
   * `w` is one weight per asset, sums to 1, has no negative entry and meets the target.
   * Such a vector exists only if some single asset's return reaches the target.
   */
  predicate Feasible(assetReturns: seq<real>, w: seq<real>, targetReturn: real)
    ensures Feasible(assetReturns, w, targetReturn) ==>
              exists k :: 0 <= k < |assetReturns| && assetReturns[k] >= targetReturn
  {
    var meets :=
      && |w| == |assetReturns|
      && Sum(w) == 1.0
      && (forall i :: 0 <= i < |w| ==> w[i] >= 0.0)
      && Dot(w, assetReturns) >= targetReturn;
    if meets && |w| > 0 then
      ReturnAtMostLargest(assetReturns, w);
      assert exists k :: 0 <= k < |assetReturns| && assetReturns[k] == Largest(assetReturns);
      true
    else
      meets
  }

  /** The largest entry of a non-empty vector. */
  function Largest(v: seq<real>): (m: real)
    requires |v| > 0
    ensures forall i :: 0 <= i < |v| ==> v[i] <= m
    ensures exists i :: 0 <= i < |v| && v[i] == m
  {
    if |v| == 1 then v[0]
    else
      var rest := Largest(v[1..]);
      assert forall i :: 1 <= i < |v| ==> v[i] == v[1..][i - 1];
      if v[0] >= rest then v[0] else rest
  }

  /** A long-only portfolio whose weights sum to 1 never beats its best asset. */
  lemma ReturnAtMostLargest(assetReturns: seq<real>, w: seq<real>)
    requires |w| == |assetReturns| > 0
    requires Sum(w) == 1.0
    requires forall i :: 0 <= i < |w| ==> w[i] >= 0.0
    ensures Dot(w, assetReturns) <= Largest(assetReturns)
  {
    DotBoundedAbove(w, assetReturns, Largest(assetReturns));
  }

  /**
   * The constraints can be met exactly when some single asset's return reaches the
   * target; otherwise the problem is infeasible.
   */
  lemma FeasibleIffSomeAssetReachesTarget(assetReturns: seq<real>, targetReturn: real)
    ensures (exists w :: Feasible(assetReturns, w, targetReturn))
        <==> (exists k :: 0 <= k < |assetReturns| && assetReturns[k] >= targetReturn)
  {
    var n := |assetReturns|;
    if k :| 0 <= k < n && assetReturns[k] >= targetReturn {
      UnitVectorPicks(n, k, assetReturns);
      assert Feasible(assetReturns, UnitVector(n, k), targetReturn);
    }
  }
}
