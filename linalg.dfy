/** Dense real matrices and vectors standing for the Armadillo types
    `arma::dvec`/`arma::dmat` that the pipeline uses.  A matrix is a sequence
    of rows; functions that multiply take the column count explicitly so that
    matrices with no rows keep their shape. */
module LinAlg {

  type Vector = seq<real>
  type Matrix = seq<seq<real>>

  predicate IsMatrix(m: Matrix, rows: nat, cols: nat)
  {
    |m| == rows && forall i :: 0 <= i < rows ==> |m[i]| == cols
  }

  /** sum of f(0), ..., f(n-1) */
  function Sum(n: nat, f: int -> real): real
  {
    if n == 0 then 0.0 else Sum(n - 1, f) + f(n - 1)
  }

  lemma {:induction false} SumExt(n: nat, f: int -> real, g: int -> real)
    requires forall k :: 0 <= k < n ==> f(k) == g(k)
    ensures Sum(n, f) == Sum(n, g)
  {
    if n > 0 { SumExt(n - 1, f, g); }
  }

  lemma {:induction false} SumZero(n: nat, f: int -> real)
    requires forall k :: 0 <= k < n ==> f(k) == 0.0
    ensures Sum(n, f) == 0.0
  {
    if n > 0 { SumZero(n - 1, f); }
  }

  /** A sum whose only non-zero term is term p. */
  lemma {:induction false} SumOneHot(n: nat, f: int -> real, p: nat)
    requires p < n
    requires forall k :: 0 <= k < n && k != p ==> f(k) == 0.0
    ensures Sum(n, f) == f(p)
  {
    if n - 1 == p {
      SumZero(n - 1, f);
    } else {
      SumOneHot(n - 1, f, p);
    }
  }

  lemma {:induction false} SumScale(n: nat, f: int -> real, g: int -> real, c: real)
    requires forall k :: 0 <= k < n ==> g(k) == c * f(k)
    ensures Sum(n, g) == c * Sum(n, f)
  {
    if n > 0 { SumScale(n - 1, f, g, c); }
  }

  lemma {:induction false} SumAdd(n: nat, f: int -> real, g: int -> real, h: int -> real)
    requires forall k :: 0 <= k < n ==> h(k) == f(k) + g(k)
    ensures Sum(n, h) == Sum(n, f) + Sum(n, g)
  {
    if n > 0 { SumAdd(n - 1, f, g, h); }
  }

  /** A sum of 2n terms taken pairwise. */
  lemma {:induction false} SumPairs(n: nat, f: int -> real, g: int -> real)
    requires forall i :: 0 <= i < n ==> g(i) == f(2 * i) + f(2 * i + 1)
    ensures Sum(2 * n, f) == Sum(n, g)
  {
    if n > 0 {
      SumPairs(n - 1, f, g);
      assert Sum(2 * n, f) == Sum(2 * (n - 1), f) + f(2 * (n - 1)) + f(2 * (n - 1) + 1);
    }
  }

  /** Finite double sums can be taken in either order. */
  lemma {:induction false} SumSwap(m: nat, n: nat, f: (int, int) -> real)
    ensures Sum(m, i => Sum(n, j => f(i, j))) == Sum(n, j => Sum(m, i => f(i, j)))
  {
    if m > 0 {
      SumSwap(m - 1, n, f);
      SumAdd(n, j => Sum(m - 1, i => f(i, j)), j => f(m - 1, j), j => Sum(m, i => f(i, j)));
      assert Sum(m, i => Sum(n, j => f(i, j))) ==
             Sum(m - 1, i => Sum(n, j => f(i, j))) + Sum(n, j => f(m - 1, j));
    } else {
      SumZero(n, j => Sum(m, i => f(i, j)));
    }
  }

  /** Inner product of two vectors of equal length. */
  function Dot(u: Vector, v: Vector): real
    requires |u| == |v|
  {
    Sum(|u|, k => if 0 <= k < |u| then u[k] * v[k] else 0.0)
  }

  lemma DotComm(u: Vector, v: Vector)
    requires |u| == |v|
    ensures Dot(u, v) == Dot(v, u)
  {
    SumExt(|u|, k => if 0 <= k < |u| then u[k] * v[k] else 0.0, k => if 0 <= k < |v| then v[k] * u[k] else 0.0);
  }

  /** Matrix times vector. */
  function MatVec(m: Matrix, v: Vector): (r: Vector)
    requires forall i :: 0 <= i < |m| ==> |m[i]| == |v|
    ensures |r| == |m|
  {
    seq(|m|, i requires 0 <= i < |m| => Dot(m[i], v))
  }

  /** Column j of a matrix with at least j+1 columns. */
  function Col(m: Matrix, j: nat): (c: Vector)
    requires forall i :: 0 <= i < |m| ==> j < |m[i]|
    ensures |c| == |m|
  {
    seq(|m|, i requires 0 <= i < |m| => m[i][j])
  }

  /** a (rows x |b|) times b (|b| x p). */
  function MatMul(a: Matrix, b: Matrix, p: nat): (c: Matrix)
    requires forall i :: 0 <= i < |a| ==> |a[i]| == |b|
    requires IsMatrix(b, |b|, p)
    ensures IsMatrix(c, |a|, p)
  {
    seq(|a|, i requires 0 <= i < |a| => seq(p, j requires 0 <= j < p => Dot(a[i], Col(b, j))))
  }

  /** Transpose of a matrix with `cols` columns. */
  function Transpose(a: Matrix, cols: nat): (t: Matrix)
    requires IsMatrix(a, |a|, cols)
    ensures IsMatrix(t, cols, |a|)
    ensures forall i, j :: 0 <= i < |a| && 0 <= j < cols ==> t[j][i] == a[i][j]
  {
    seq(cols, j requires 0 <= j < cols => seq(|a|, i requires 0 <= i < |a| => a[i][j]))
  }

  /** Entry-wise negation (`-m`). */
  function Neg(a: Matrix): (n: Matrix)
    ensures |n| == |a|
    ensures forall i :: 0 <= i < |a| ==> |n[i]| == |a[i]|
    ensures forall i, j :: 0 <= i < |a| && 0 <= j < |a[i]| ==> n[i][j] == -a[i][j]
  {
    seq(|a|, i requires 0 <= i < |a| => seq(|a[i]|, j requires 0 <= j < |a[i]| => -a[i][j]))
  }

  function ZeroVector(n: nat): (v: Vector)
    ensures |v| == n && forall i :: 0 <= i < n ==> v[i] == 0.0
  {
    seq(n, i => 0.0)
  }

  function ZeroMatrix(rows: nat, cols: nat): (m: Matrix)
    ensures IsMatrix(m, rows, cols)
    ensures forall i, j :: 0 <= i < rows && 0 <= j < cols ==> m[i][j] == 0.0
  {
    seq(rows, i => seq(cols, j => 0.0))
  }

  predicate IsSymmetric(m: Matrix, n: nat)
  {
    IsMatrix(m, n, n) && forall i, j :: 0 <= i < n && 0 <= j < n ==> m[i][j] == m[j][i]
  }

  /** Row vector times matrix: entry k is row · (column k of b), the rows
      of a product. */
  function RowTimes(row: Vector, b: Matrix, p: nat): (r: Vector)
    requires |row| == |b| && IsMatrix(b, |b|, p)
    ensures |r| == p
  {
    seq(p, k requires 0 <= k < p => Dot(row, Col(b, k)))
  }

  lemma MulRotate(x: real, y: real, z: real)
    ensures x * (y * z) == z * (x * y)
  {
  }

  /** (row·b)·v as the double sum over k < p, l < |b| of g(k, l). */
  lemma RowTimesDotLeft(row: Vector, b: Matrix, p: nat, v: Vector, g: (int, int) -> real)
    requires |row| == |b| && IsMatrix(b, |b|, p) && |v| == p
    requires forall k, l :: 0 <= k < p && 0 <= l < |b| ==> g(k, l) == row[l] * (b[l][k] * v[k])
    ensures Dot(RowTimes(row, b, p), v) == Sum(p, k => Sum(|b|, l => g(k, l)))
  {
    var rt := RowTimes(row, b, p);
    forall k | 0 <= k < p
      ensures rt[k] * v[k] == Sum(|b|, l => g(k, l))
    {
      var c := Col(b, k);
      forall l | 0 <= l < |b|
        ensures g(k, l) == v[k] * (row[l] * c[l])
      {
        MulRotate(row[l], c[l], v[k]);
      }
      SumScale(|b|, l => if 0 <= l < |row| then row[l] * c[l] else 0.0, l => g(k, l), v[k]);
    }
    SumExt(p, k => if 0 <= k < |rt| then rt[k] * v[k] else 0.0, k => Sum(|b|, l => g(k, l)));
  }

  /** row·(b·v) as the double sum over l < |b|, k < p of g(k, l). */
  lemma RowTimesDotRight(row: Vector, b: Matrix, p: nat, v: Vector, g: (int, int) -> real)
    requires |row| == |b| && IsMatrix(b, |b|, p) && |v| == p
    requires forall k, l :: 0 <= k < p && 0 <= l < |b| ==> g(k, l) == row[l] * (b[l][k] * v[k])
    ensures Dot(row, MatVec(b, v)) == Sum(|b|, l => Sum(p, k => g(k, l)))
  {
    var bv := MatVec(b, v);
    forall l | 0 <= l < |b|
      ensures row[l] * bv[l] == Sum(p, k => g(k, l))
    {
      SumScale(p, k => if 0 <= k < |b[l]| then b[l][k] * v[k] else 0.0, k => g(k, l), row[l]);
    }
    SumExt(|b|, l => if 0 <= l < |row| then row[l] * bv[l] else 0.0, l => Sum(p, k => g(k, l)));
  }

  /** (row·b)·v == row·(b·v), by exchanging the two sums. */
  lemma RowTimesDot(row: Vector, b: Matrix, p: nat, v: Vector)
    requires |row| == |b| && IsMatrix(b, |b|, p) && |v| == p
    ensures Dot(RowTimes(row, b, p), v) == Dot(row, MatVec(b, v))
  {
    var g := (k: int, l: int) => if 0 <= k < p && 0 <= l < |b| then row[l] * (b[l][k] * v[k]) else 0.0;
    RowTimesDotLeft(row, b, p, v, g);
    SumSwap(p, |b|, g);
    RowTimesDotRight(row, b, p, v, g);
  }

  /** (a·b)·v == a·(b·v). */
  lemma MatVecAssoc(a: Matrix, b: Matrix, p: nat, v: Vector)
    requires forall i :: 0 <= i < |a| ==> |a[i]| == |b|
    requires IsMatrix(b, |b|, p) && |v| == p
    ensures MatVec(MatMul(a, b, p), v) == MatVec(a, MatVec(b, v))
  {
    var ab := MatMul(a, b, p);
    forall i | 0 <= i < |a|
      ensures Dot(ab[i], v) == Dot(a[i], MatVec(b, v))
    {
      assert ab[i] == RowTimes(a[i], b, p);
      RowTimesDot(a[i], b, p, v);
    }
  }

  /** (a·b)·c == a·(b·c). */
  lemma MatMulAssoc(a: Matrix, b: Matrix, c: Matrix, p: nat, r: nat)
    requires forall i :: 0 <= i < |a| ==> |a[i]| == |b|
    requires IsMatrix(b, |b|, p) && IsMatrix(c, p, r)
    ensures MatMul(MatMul(a, b, p), c, r) == MatMul(a, MatMul(b, c, r), r)
  {
    var ab, bc := MatMul(a, b, p), MatMul(b, c, r);
    var lhs, rhs := MatMul(ab, c, r), MatMul(a, bc, r);
    forall i | 0 <= i < |a|
      ensures lhs[i] == rhs[i]
    {
      assert ab[i] == RowTimes(a[i], b, p);
      forall j | 0 <= j < r
        ensures lhs[i][j] == rhs[i][j]
      {
        var cj := Col(c, j);
        RowTimesDot(a[i], b, p, cj);
        assert Col(bc, j) == MatVec(b, cj);
      }
    }
  }

  /** (a·b)ᵀ == bᵀ·aᵀ. */
  lemma TransposeMul(a: Matrix, b: Matrix, p: nat)
    requires IsMatrix(a, |a|, |b|) && IsMatrix(b, |b|, p)
    ensures Transpose(MatMul(a, b, p), p) == MatMul(Transpose(b, p), Transpose(a, |b|), |a|)
  {
    var bt, at := Transpose(b, p), Transpose(a, |b|);
    var lhs, rhs := Transpose(MatMul(a, b, p), p), MatMul(bt, at, |a|);
    forall j | 0 <= j < p
      ensures lhs[j] == rhs[j]
    {
      assert bt[j] == Col(b, j);
      forall i | 0 <= i < |a|
        ensures lhs[j][i] == rhs[j][i]
      {
        assert Col(at, i) == a[i];
        DotComm(a[i], Col(b, j));
      }
    }
  }

  lemma TransposeTwice(a: Matrix, cols: nat)
    requires IsMatrix(a, |a|, cols)
    ensures Transpose(Transpose(a, cols), |a|) == a
  {
    var t := Transpose(Transpose(a, cols), |a|);
    assert forall i :: 0 <= i < |a| ==> t[i] == a[i];
  }

  /** A symmetric matrix is its own transpose. */
  lemma TransposeSymmetric(m: Matrix, n: nat)
    requires IsSymmetric(m, n)
    ensures Transpose(m, n) == m
  {
    var t := Transpose(m, n);
    assert forall i :: 0 <= i < n ==> t[i] == m[i];
  }
}
