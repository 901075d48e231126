/**
 * The parts of numpy's array arithmetic that the portfolio metrics use, over exact reals:
 * the sum of a vector, the inner product `a @ b` of two vectors, and the products
 * `v @ M` and `M @ v` of a vector with a matrix (a matrix is a sequence of rows).
 */
module LinearAlgebra {

  /** Sum of the entries of a vector. */
  function Sum(v: seq<real>): real
  {
    if |v| == 0 then 0.0 else v[0] + Sum(v[1..])
  }

  /** Inner product `a @ b` of two vectors of the same length: the sum of a[i] * b[i]. */
  function Dot(a: seq<real>, b: seq<real>): real
    requires |a| == |b|
  {
    if |a| == 0 then 0.0 else a[0] * b[0] + Dot(a[1..], b[1..])
  }

  /** `m` has `rows` rows of `cols` entries each. */
  predicate IsMatrix(m: seq<seq<real>>, rows: nat, cols: nat)
  {
    |m| == rows && forall i :: 0 <= i < rows ==> |m[i]| == cols
  }

  /** Column `j` of a matrix whose rows all have more than `j` entries. */
  function Column(m: seq<seq<real>>, j: nat): (c: seq<real>)
    requires forall i :: 0 <= i < |m| ==> j < |m[i]|
    ensures |c| == |m|
    ensures forall i :: 0 <= i < |m| ==> c[i] == m[i][j]
  {
    seq(|m|, i requires 0 <= i < |m| => m[i][j])
  }

  /** Row vector times matrix, `v @ m`: entry j is the sum over i of v[i] * m[i][j]. */
  function VecMat(v: seq<real>, m: seq<seq<real>>, cols: nat): (r: seq<real>)
    requires IsMatrix(m, |v|, cols)
    ensures |r| == cols
  {
    seq(cols, j requires 0 <= j < cols => Dot(v, Column(m, j)))
  }

  /** Matrix times column vector, `m @ v`: entry i is the sum over j of m[i][j] * v[j]. */
  function MatVec(m: seq<seq<real>>, v: seq<real>): (r: seq<real>)
    requires IsMatrix(m, |m|, |v|)
    ensures |r| == |m|
  {
    seq(|m|, i requires 0 <= i < |m| => Dot(m[i], v))
  }

  /** The vector c * x + y, entry by entry. */
  function ScaleAdd(c: real, x: seq<real>, y: seq<real>): (r: seq<real>)
    requires |x| == |y|
    ensures |r| == |x|
  {
    seq(|x|, j requires 0 <= j < |x| => c * x[j] + y[j])
  }

  /** A vector with 1 at position k and 0 elsewhere. */
  function UnitVector(n: nat, k: nat): (e: seq<real>)
    requires k < n
    ensures |e| == n
  {
    seq(n, j requires 0 <= j < n => if j == k then 1.0 else 0.0)
  }

  /** The inner product does not depend on the order of its operands. */
  lemma {:induction false} DotSymmetric(a: seq<real>, b: seq<real>)
    requires |a| == |b|
    ensures Dot(a, b) == Dot(b, a)
  {
    if |a| > 0 {
      DotSymmetric(a[1..], b[1..]);
    }
  }

  /** The inner product with the zero vector is zero. */
  lemma {:induction false} DotZeroLeft(z: seq<real>, v: seq<real>)
    requires |z| == |v|
    requires forall j :: 0 <= j < |z| ==> z[j] == 0.0
    ensures Dot(z, v) == 0.0
  {
    if |z| > 0 {
      DotZeroLeft(z[1..], v[1..]);
    }
  }

  /** The inner product is linear in its left operand. */
  lemma {:induction false} DotScaleAdd(c: real, x: seq<real>, y: seq<real>, v: seq<real>)
    requires |x| == |y| == |v|
    ensures Dot(ScaleAdd(c, x, y), v) == c * Dot(x, v) + Dot(y, v)
  {
    if |x| > 0 {
      var s := ScaleAdd(c, x, y);
      forall j | 0 <= j < |x| - 1
        ensures s[1..][j] == ScaleAdd(c, x[1..], y[1..])[j]
      {
      }
      assert s[1..] == ScaleAdd(c, x[1..], y[1..]);
      DotScaleAdd(c, x[1..], y[1..], v[1..]);
      calc {
        Dot(s, v);
        (c * x[0] + y[0]) * v[0] + Dot(s[1..], v[1..]);
        (c * x[0] + y[0]) * v[0] + c * Dot(x[1..], v[1..]) + Dot(y[1..], v[1..]);
        { assert (c * x[0] + y[0]) * v[0] == c * (x[0] * v[0]) + y[0] * v[0]; }
        c * (x[0] * v[0] + Dot(x[1..], v[1..])) + (y[0] * v[0] + Dot(y[1..], v[1..]));
      }
    }
  }

  /**
   * Summing a bilinear form row by row or column by column gives the same value:
   * u @ (m @ v) == (u @ m) @ v, where m has |u| rows and |v| columns.
   */
  lemma {:induction false} BilinearSwap(u: seq<real>, m: seq<seq<real>>, v: seq<real>)
    requires IsMatrix(m, |u|, |v|)
    ensures Dot(u, MatVec(m, v)) == Dot(VecMat(u, m, |v|), v)
  {
    var k := |v|;
    if |u| == 0 {
      DotZeroLeft(VecMat(u, m, k), v);
    } else {
      var rest := VecMat(u[1..], m[1..], k);
      VecMatFirstRow(u, m, k);
      MatVecTail(m, v);
      BilinearSwap(u[1..], m[1..], v);
      DotScaleAdd(u[0], m[0], rest, v);
      calc {
        Dot(u, MatVec(m, v));
        u[0] * Dot(m[0], v) + Dot(u[1..], MatVec(m[1..], v));
        u[0] * Dot(m[0], v) + Dot(rest, v);
        Dot(ScaleAdd(u[0], m[0], rest), v);
      }
    }
  }

  /** Peeling the first row off `m`: u @ m == u[0] * m[0] + u[1..] @ m[1..]. */
  lemma VecMatFirstRow(u: seq<real>, m: seq<seq<real>>, k: nat)
    requires |u| > 0 && IsMatrix(m, |u|, k)
    ensures VecMat(u, m, k) == ScaleAdd(u[0], m[0], VecMat(u[1..], m[1..], k))
  {
    var rest := VecMat(u[1..], m[1..], k);
    var whole := VecMat(u, m, k);
    forall j | 0 <= j < k
      ensures whole[j] == ScaleAdd(u[0], m[0], rest)[j]
    {
      assert Column(m, j)[1..] == Column(m[1..], j);
    }
  }

  /** Dropping the first row of `m` drops the first entry of m @ v. */
  lemma MatVecTail(m: seq<seq<real>>, v: seq<real>)
    requires |m| > 0 && IsMatrix(m, |m|, |v|)
    ensures MatVec(m, v)[0] == Dot(m[0], v)
    ensures MatVec(m, v)[1..] == MatVec(m[1..], v)
  {
  }

  /** When every entry of `v` is `c`, w @ v is c times the sum of w. */
  lemma {:induction false} DotConstantRight(w: seq<real>, v: seq<real>, c: real)
    requires |w| == |v|
    requires forall j :: 0 <= j < |v| ==> v[j] == c
    ensures Dot(w, v) == c * Sum(w)
  {
    if |w| > 0 {
      DotConstantRight(w[1..], v[1..], c);
    }
  }

  /** With non-negative weights, w @ v is at most hi times the sum of w when every v[j] <= hi. */
  lemma {:induction false} DotBoundedAbove(w: seq<real>, v: seq<real>, hi: real)
    requires |w| == |v|
    requires forall j :: 0 <= j < |w| ==> w[j] >= 0.0
    requires forall j :: 0 <= j < |v| ==> v[j] <= hi
    ensures Dot(w, v) <= hi * Sum(w)
  {
    if |w| > 0 {
      DotBoundedAbove(w[1..], v[1..], hi);
      assert w[0] * v[0] <= w[0] * hi;
    }
  }

  /** The unit vector picks out one entry and has sum 1. */
  lemma {:induction false} UnitVectorPicks(n: nat, k: nat, v: seq<real>)
    requires k < n && |v| == n
    ensures Dot(UnitVector(n, k), v) == v[k]
    ensures Sum(UnitVector(n, k)) == 1.0
  {
    var e := UnitVector(n, k);
    if k == 0 {
      DotZeroLeft(e[1..], v[1..]);
      SumOfZeros(e[1..]);
    } else {
      assert e[1..] == UnitVector(n - 1, k - 1);
      UnitVectorPicks(n - 1, k - 1, v[1..]);
    }
  }

  /** A vector of zeros sums to zero. */
  lemma {:induction false} SumOfZeros(z: seq<real>)
    requires forall j :: 0 <= j < |z| ==> z[j] == 0.0
    ensures Sum(z) == 0.0
  {
    if |z| > 0 {
      SumOfZeros(z[1..]);
    }
  }
}
