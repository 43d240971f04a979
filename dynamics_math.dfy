/** Rigid-body helpers (src/dynamics_math.cpp): the locator (selection)
    matrix and the skew-symmetric cross-product matrix. */
module DynamicsMath {
  import opened LinAlg
  import opened Errors

  /** Row i selects column loc[i]. */
  function OneHot(n: nat, p: int): (row: Vector)
    ensures |row| == n
  {
    seq(n, j => if j == p then 1.0 else 0.0)
  }

  /** `locator_matrix`: a |loc| × nCols zero matrix with a 1 at (i, loc[i]).
      An entry outside 0 .. nCols-1 fails the bounds check of the element
      access. */
  function LocatorMatrix(loc: seq<int>, nCols: nat): (r: Result<Matrix>)
    ensures r.Ok? <==> forall i :: 0 <= i < |loc| ==> 0 <= loc[i] < nCols
    ensures r.Fail? ==> r.error == OutOfRange
    ensures r.Ok? ==> IsMatrix(r.value, |loc|, nCols)
    ensures r.Ok? ==> forall i, j :: 0 <= i < |loc| && 0 <= j < nCols ==>
      r.value[i][j] == if j == loc[i] then 1.0 else 0.0
  {
    if forall i :: 0 <= i < |loc| ==> 0 <= loc[i] < nCols then
      Ok(seq(|loc|, i requires 0 <= i < |loc| => OneHot(nCols, loc[i])))
    else Fail(OutOfRange)
  }

  /** A one-hot row picks one entry out of v. */
  lemma DotOneHot(n: nat, p: nat, v: Vector)
    requires p < n == |v|
    ensures Dot(OneHot(n, p), v) == v[p]
  {
    var row := OneHot(n, p);
    SumOneHot(n, k => if 0 <= k < |row| then row[k] * v[k] else 0.0, p);
  }

  /** The locator matrix gathers: (L·v)[i] = v[loc[i]]. */
  lemma LocatorGathers(loc: seq<int>, nCols: nat, v: Vector)
    requires LocatorMatrix(loc, nCols).Ok? && |v| == nCols
    ensures var l := LocatorMatrix(loc, nCols).value;
      forall i :: 0 <= i < |loc| ==> MatVec(l, v)[i] == v[loc[i]]
  {
    forall i | 0 <= i < |loc|
      ensures MatVec(LocatorMatrix(loc, nCols).value, v)[i] == v[loc[i]]
    {
      DotOneHot(nCols, loc[i], v);
    }
  }

  /** `s`: the matrix of the cross product with r, built from r(0), r(1)
      and r(2); a vector with fewer entries fails the bounds check of the
      element access. */
  function Skew(r: Vector): (s: Result<Matrix>)
    ensures s.Ok? <==> |r| >= 3
    ensures s.Fail? ==> s.error == OutOfRange
    ensures s.Ok? ==> IsMatrix(s.value, 3, 3)
  {
    if |r| < 3 then Fail(OutOfRange)
    else Ok([[0.0, -r[2], r[1]], [r[2], 0.0, -r[0]], [-r[1], r[0], 0.0]])
  }

  /** The cross product a × b, written out. */
  function Cross(a: Vector, b: Vector): (c: Vector)
    requires |a| >= 3 && |b| >= 3
    ensures |c| == 3
  {
    [a[1] * b[2] - a[2] * b[1], a[2] * b[0] - a[0] * b[2], a[0] * b[1] - a[1] * b[0]]
  }

  /** s(r) is antisymmetric with a zero diagonal. */
  lemma SkewAntisymmetric(r: Vector)
    requires |r| >= 3
    ensures var s := Skew(r).value;
      forall i, j :: 0 <= i < 3 && 0 <= j < 3 ==> s[i][j] == -s[j][i]
  {
  }

  /** A three-entry inner product, term by term. */
  lemma Dot3(u: Vector, v: Vector)
    requires |u| == 3 && |v| == 3
    ensures Dot(u, v) == u[0] * v[0] + u[1] * v[1] + u[2] * v[2]
  {
    var f := k => if 0 <= k < |u| then u[k] * v[k] else 0.0;
    assert Sum(1, f) == f(0);
    assert Sum(2, f) == f(0) + f(1);
  }

  /** Row i of s(a)·b is entry i of a × b. */
  lemma SkewRowIsCross(a: Vector, b: Vector, i: nat)
    requires |a| == 3 && |b| == 3 && i < 3
    ensures Dot(Skew(a).value[i], b) == Cross(a, b)[i]
  {
    var s := Skew(a).value;
    Dot3(s[i], b);
    if i == 0 {
      NegProduct(a[2], b[1]);
    } else if i == 1 {
      NegProduct(a[0], b[2]);
    } else {
      NegProduct(a[1], b[0]);
    }
  }

  /** s(a)·b is the cross product a × b. */
  lemma SkewIsCross(a: Vector, b: Vector)
    requires |a| == 3 && |b| == 3
    ensures MatVec(Skew(a).value, b) == Cross(a, b)
  {
    var m, c := MatVec(Skew(a).value, b), Cross(a, b);
    forall i | 0 <= i < 3
      ensures m[i] == c[i]
    {
      SkewRowIsCross(a, b, i);
    }
  }

  lemma NegProduct(x: real, y: real)
    ensures (-x) * y == -(x * y) && 0.0 * y == 0.0
  {
  }

  /** s(r)·r = 0: r is parallel to itself. */
  lemma SkewAnnihilates(r: Vector)
    requires |r| == 3
    ensures MatVec(Skew(r).value, r) == ZeroVector(3)
  {
    SkewIsCross(r, r);
    assert r[1] * r[2] == r[2] * r[1] && r[2] * r[0] == r[0] * r[2] && r[0] * r[1] == r[1] * r[0];
    assert Cross(r, r) == [0.0, 0.0, 0.0];
  }
}
