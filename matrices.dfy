/**
 * The numpy vector and matrix products the portfolio statistics use: dot
 * products, a matrix times a vector, and the exchange of the two sums in
 * `uᵀ (Mᵀ v) = vᵀ (M u)` on which the statistics' identities rest.
 */
module Matrices {
  import opened Common
  import opened WeightedSums

  /** A table of reals with `n` entries in every row. */
  predicate Rectangular(m: seq<seq<real>>, n: nat) {
    forall t :: 0 <= t < |m| ==> |m[t]| == n
  }

  /** The sum of `u[i] * v[i]` over the first `k` positions. */
  function DotTo(u: seq<real>, v: seq<real>, k: nat): real
    requires k <= |u| == |v|
  {
    if k == 0 then 0.0 else DotTo(u, v, k - 1) + u[k - 1] * v[k - 1]
  }

  /** `np.dot` of two vectors of the same length. */
  function Dot(u: seq<real>, v: seq<real>): real
    requires |u| == |v|
  {
    DotTo(u, v, |u|)
  }

  /** Column `i` of a table. */
  function Column(m: seq<seq<real>>, n: nat, i: nat): (c: seq<real>)
    requires Rectangular(m, n) && i < n
    ensures |c| == |m| && forall t :: 0 <= t < |m| ==> c[t] == m[t][i]
  {
    seq(|m|, t requires 0 <= t < |m| => m[t][i])
  }

  /** `np.dot(m, u)`: the dot product of every row with `u`. */
  function MatVec(m: seq<seq<real>>, n: nat, u: seq<real>): (r: seq<real>)
    requires Rectangular(m, n) && |u| == n
    ensures |r| == |m| && forall t :: 0 <= t < |m| ==> r[t] == Dot(m[t], u)
  {
    seq(|m|, t requires 0 <= t < |m| => Dot(m[t], u))
  }

  /** `np.dot(m.T, v)`: the dot product of every column with `v`. */
  function ColumnDots(m: seq<seq<real>>, n: nat, v: seq<real>): (r: seq<real>)
    requires Rectangular(m, n) && |v| == |m|
    ensures |r| == n && forall i :: 0 <= i < n ==> r[i] == Dot(Column(m, n, i), v)
  {
    seq(n, i requires 0 <= i < n => Dot(Column(m, n, i), v))
  }

  /** Element-wise difference. */
  function Minus(a: seq<real>, b: seq<real>): (r: seq<real>)
    requires |a| == |b|
    ensures |r| == |a| && forall i :: 0 <= i < |a| ==> r[i] == a[i] - b[i]
  {
    seq(|a|, i requires 0 <= i < |a| => a[i] - b[i])
  }

  /** Element-wise sum. */
  function Plus(a: seq<real>, b: seq<real>): (r: seq<real>)
    requires |a| == |b|
    ensures |r| == |a| && forall i :: 0 <= i < |a| ==> r[i] == a[i] + b[i]
  {
    seq(|a|, i requires 0 <= i < |a| => a[i] + b[i])
  }

  function Ones(n: nat): (r: seq<real>)
    ensures |r| == n && forall i :: 0 <= i < n ==> r[i] == 1.0
  {
    seq(n, i => 1.0)
  }

  // Steps of real arithmetic, each stated on plain variables so that the
  // inductive proofs below never ask the solver for nonlinear reasoning.

  lemma ScaleStep(c: real, x: real, a: real, b: real)
    ensures c * x + (c * a) * b == c * (x + a * b)
  {
  }

  lemma ScaleStepRight(c: real, x: real, a: real, b: real)
    ensures c * x + a * (c * b) == c * (x + a * b)
  {
  }

  lemma PlusStep(x: real, y: real, u: real, a: real, b: real)
    ensures (x + y) + u * (a + b) == (x + u * a) + (y + u * b)
  {
  }

  lemma MinusStep(x: real, y: real, a: real, b: real, w: real)
    ensures (x - y) + (a - b) * w == (x + a * w) - (y + b * w)
  {
  }

  lemma MulCommutes(a: real, b: real)
    ensures a * b == b * a
  {
  }

  lemma SquareNonnegative(a: real)
    ensures a * a >= 0.0
  {
  }

  lemma {:induction false} DotToCommutes(u: seq<real>, v: seq<real>, k: nat)
    requires k <= |u| == |v|
    ensures DotTo(u, v, k) == DotTo(v, u, k)
  {
    if k > 0 {
      DotToCommutes(u, v, k - 1);
      MulCommutes(u[k - 1], v[k - 1]);
    }
  }

  lemma DotCommutes(u: seq<real>, v: seq<real>)
    requires |u| == |v|
    ensures Dot(u, v) == Dot(v, u)
  {
    DotToCommutes(u, v, |u|);
  }

  lemma {:induction false} DotToScaled(c: real, u: seq<real>, v: seq<real>, k: nat)
    requires k <= |u| == |v|
    ensures DotTo(ScaledBy(c, u), v, k) == c * DotTo(u, v, k)
  {
    if k > 0 {
      var i := k - 1;
      DotToScaled(c, u, v, i);
      assert ScaledBy(c, u)[i] == c * u[i];
      ScaleStep(c, DotTo(u, v, i), u[i], v[i]);
    }
  }

  /** Scaling the first vector scales the dot product. */
  lemma DotScaled(c: real, u: seq<real>, v: seq<real>)
    requires |u| == |v|
    ensures Dot(ScaledBy(c, u), v) == c * Dot(u, v)
  {
    DotToScaled(c, u, v, |u|);
  }

  lemma {:induction false} DotToScaledRight(c: real, u: seq<real>, v: seq<real>, k: nat)
    requires k <= |u| == |v|
    ensures DotTo(u, ScaledBy(c, v), k) == c * DotTo(u, v, k)
  {
    if k > 0 {
      var i := k - 1;
      DotToScaledRight(c, u, v, i);
      assert ScaledBy(c, v)[i] == c * v[i];
      ScaleStepRight(c, DotTo(u, v, i), u[i], v[i]);
    }
  }

  /** Scaling the second vector scales the dot product. */
  lemma DotScaledRight(c: real, u: seq<real>, v: seq<real>)
    requires |u| == |v|
    ensures Dot(u, ScaledBy(c, v)) == c * Dot(u, v)
  {
    DotToScaledRight(c, u, v, |u|);
  }

  lemma {:induction false} DotToPlus(u: seq<real>, a: seq<real>, b: seq<real>, k: nat)
    requires k <= |u| == |a| == |b|
    ensures DotTo(u, Plus(a, b), k) == DotTo(u, a, k) + DotTo(u, b, k)
  {
    if k > 0 {
      var i := k - 1;
      DotToPlus(u, a, b, i);
      assert Plus(a, b)[i] == a[i] + b[i];
      PlusStep(DotTo(u, a, i), DotTo(u, b, i), u[i], a[i], b[i]);
    }
  }

  lemma DotPlus(u: seq<real>, a: seq<real>, b: seq<real>)
    requires |u| == |a| == |b|
    ensures Dot(u, Plus(a, b)) == Dot(u, a) + Dot(u, b)
  {
    DotToPlus(u, a, b, |u|);
  }

  lemma {:induction false} DotToMinus(a: seq<real>, b: seq<real>, w: seq<real>, k: nat)
    requires k <= |a| == |b| == |w|
    ensures DotTo(Minus(a, b), w, k) == DotTo(a, w, k) - DotTo(b, w, k)
  {
    if k > 0 {
      var i := k - 1;
      DotToMinus(a, b, w, i);
      assert Minus(a, b)[i] == a[i] - b[i];
      MinusStep(DotTo(a, w, i), DotTo(b, w, i), a[i], b[i], w[i]);
    }
  }

  lemma DotMinus(a: seq<real>, b: seq<real>, w: seq<real>)
    requires |a| == |b| == |w|
    ensures Dot(Minus(a, b), w) == Dot(a, w) - Dot(b, w)
  {
    DotToMinus(a, b, w, |a|);
  }

  lemma {:induction false} DotToOnes(v: seq<real>, k: nat)
    requires k <= |v|
    ensures DotTo(v, Ones(|v|), k) == Sum(v[..k])
  {
    if k > 0 {
      var i := k - 1;
      DotToOnes(v, i);
      assert v[..k][..i] == v[..i];
      assert Ones(|v|)[i] == 1.0;
    }
  }

  /** The dot product with a vector of ones is the plain sum. */
  lemma DotOnes(v: seq<real>)
    ensures Dot(v, Ones(|v|)) == Sum(v)
  {
    DotToOnes(v, |v|);
    assert v[..|v|] == v;
  }

  lemma {:induction false} DotToSelfNonnegative(u: seq<real>, k: nat)
    requires k <= |u|
    ensures DotTo(u, u, k) >= 0.0
  {
    if k > 0 {
      DotToSelfNonnegative(u, k - 1);
      SquareNonnegative(u[k - 1]);
    }
  }

  /** A sum of squares is never negative. */
  lemma DotSelfNonnegative(u: seq<real>)
    ensures Dot(u, u) >= 0.0
  {
    DotToSelfNonnegative(u, |u|);
  }

  /** `mᵀ v` over the first `k` rows only. */
  function ColumnDotsTo(m: seq<seq<real>>, n: nat, v: seq<real>, k: nat): (r: seq<real>)
    requires Rectangular(m, n) && |v| == |m| && k <= |m|
    ensures |r| == n && forall i :: 0 <= i < n ==> r[i] == DotTo(Column(m, n, i), v, k)
  {
    seq(n, i requires 0 <= i < n => DotTo(Column(m, n, i), v, k))
  }

  /** Taking row `k` into the partial `mᵀ v` adds that row scaled by
      `v[k]`. */
  lemma ColumnDotsStep(m: seq<seq<real>>, n: nat, v: seq<real>, k: nat)
    requires Rectangular(m, n) && |v| == |m| && k < |m|
    ensures ColumnDotsTo(m, n, v, k + 1) == Plus(ColumnDotsTo(m, n, v, k), ScaledBy(v[k], m[k]))
  {
    var lhs, rhs := ColumnDotsTo(m, n, v, k + 1), Plus(ColumnDotsTo(m, n, v, k), ScaledBy(v[k], m[k]));
    forall i | 0 <= i < n ensures lhs[i] == rhs[i] {
      var c := Column(m, n, i);
      assert c[k] == m[k][i];
      MulCommutes(c[k], v[k]);
    }
  }

  lemma {:induction false} BilinearSwapTo(m: seq<seq<real>>, n: nat, u: seq<real>, v: seq<real>, k: nat)
    requires Rectangular(m, n) && |u| == n && |v| == |m| && k <= |m|
    ensures Dot(u, ColumnDotsTo(m, n, v, k)) == DotTo(v, MatVec(m, n, u), k)
  {
    if k == 0 {
      DotScaledRight(0.0, u, u);
      assert ColumnDotsTo(m, n, v, 0) == ScaledBy(0.0, u);
    } else {
      var j := k - 1;
      var r, c := m[j], v[j];
      BilinearSwapTo(m, n, u, v, j);
      ColumnDotsStep(m, n, v, j);
      DotPlus(u, ColumnDotsTo(m, n, v, j), ScaledBy(c, r));
      DotScaledRight(c, u, r);
      DotCommutes(u, r);
    }
  }

  /** The two ways of summing `Σₜ Σᵢ uᵢ mₜᵢ vₜ` agree:
      `uᵀ (mᵀ v) = vᵀ (m u)`. */
  lemma BilinearSwap(m: seq<seq<real>>, n: nat, u: seq<real>, v: seq<real>)
    requires Rectangular(m, n) && |u| == n && |v| == |m|
    ensures Dot(u, ColumnDots(m, n, v)) == Dot(v, MatVec(m, n, u))
  {
    BilinearSwapTo(m, n, u, v, |m|);
    assert ColumnDotsTo(m, n, v, |m|) == ColumnDots(m, n, v);
  }
}
