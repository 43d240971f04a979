/** RPIM shape functions with a multiquadric radial basis and an optional
    linear polynomial basis (src/shape_function.cpp).

    `pow` and the matrix inverse `arma::inv` are not modelled; both are
    parameters.  The squares of the code are `pow(·, 2.0)` calls too; the
    little the model relies on of them is stated by `SquareLaws`. */
module ShapeFunctions {
  import opened LinAlg
  import opened Errors

  /** A basis vector with its Jacobian (one row per basis function). */
  datatype VecJac = VecJac(vec: Vector, jac: Matrix)

  /** The shape-function values, their Jacobian and the 2 × 2ns Φ matrix. */
  datatype Measures = Measures(phisVec: Vector, phisJac: Matrix, phisMat: Matrix)

  /** The two polynomial-basis sizes the code can assemble a moment matrix
      for: no polynomial part, or the linear basis [1, x0, x1]. */
  type BasisCount = m: int | m == 0 || m == 3 witness 0

  /** The error the bases raise at a point they cannot read: a missing
      coordinate, or a Jacobian row wider than the two entries written. */
  function BasesError(x: Vector): (e: Error)
    ensures e == OutOfRange <==> |x| < 2
    ensures e == OutOfRange || e == SizeMismatch
  {
    if |x| < 2 then OutOfRange else SizeMismatch
  }

  /** Every point is a 2-vector. */
  predicate PlanarPoints(xs: seq<Vector>)
  {
    forall i :: 0 <= i < |xs| ==> |xs[i]| == 2
  }

  /** What the model relies on of `pow(·, 2.0)`: a square is never
      negative, is positive for a non-zero base, and does not see the
      base's sign. */
  ghost predicate SquareLaws(pow: (real, real) -> real)
  {
    && (forall v :: pow(v, 2.0) >= 0.0)
    && (forall v :: v != 0.0 ==> pow(v, 2.0) > 0.0)
    && (forall u, v :: u == -v ==> pow(u, 2.0) == pow(v, 2.0))
  }

  /** d1² + d2² + s², with the squares taken by `pow(·, 2.0)`. */
  function MultiquadricBase(d1: real, d2: real, s: real, pow: (real, real) -> real): real
  {
    pow(d1, 2.0) + pow(d2, 2.0) + pow(s, 2.0)
  }

  /** 2q·D^(q−1), the factor shared by both entries of a radial gradient row. */
  function MultiquadricSlope(d: real, q: real, pow: (real, real) -> real): real
  {
    2.0 * q * pow(d, q - 1.0)
  }

  /** The gradient row c·(d1, d2). */
  function GradientRow(c: real, d1: real, d2: real): (g: Vector)
    ensures |g| == 2
  {
    [c * d1, c * d2]
  }

  /** What the model relies on of `arma::inv`: a result, when there is one,
      is a square matrix of the size of its argument, and the empty matrix
      is its own inverse. */
  ghost predicate InverseKeepsShape(inv: Matrix -> Result<Matrix>)
  {
    && (forall m: Matrix :: inv(m).Ok? ==> IsMatrix(inv(m).value, |m|, |m|))
    && inv([]) == Ok([])
  }

  /** v[0]·g[off][col] + ... + v[n-1]·g[off+n-1][col]: the part of the
      product of the row vector v with column `col` of g that uses rows
      off .. off+n-1 of g. */
  function ColumnSum(v: Vector, g: Matrix, off: nat, n: nat, col: nat): real
    requires n <= |v| && off + n <= |g|
    requires forall j :: 0 <= j < |g| ==> col < |g[j]|
  {
    if n == 0 then 0.0 else ColumnSum(v, g, off, n - 1, col) + v[n - 1] * g[off + n - 1][col]
  }

  lemma {:induction false} ColumnSumExt(v: Vector, w: Vector, g: Matrix, off: nat, n: nat, col: nat)
    requires n <= |v| && n <= |w| && off + n <= |g|
    requires forall j :: 0 <= j < |g| ==> col < |g[j]|
    requires forall j :: 0 <= j < n ==> v[j] == w[j]
    ensures ColumnSum(v, g, off, n, col) == ColumnSum(w, g, off, n, col)
  {
    if n > 0 {
      ColumnSumExt(v, w, g, off, n - 1, col);
    }
  }

  /** A row made of two blocks multiplies a column block by block. */
  lemma {:induction false} ColumnSumSplit(u: Vector, w: Vector, g: Matrix, col: nat)
    requires |u| + |w| <= |g|
    requires forall j :: 0 <= j < |g| ==> col < |g[j]|
    ensures ColumnSum(u + w, g, 0, |u| + |w|, col) ==
            ColumnSum(u, g, 0, |u|, col) + ColumnSum(w, g, |u|, |w|, col)
  {
    if |w| == 0 {
      assert u + w == u;
    } else {
      var w' := w[..|w| - 1];
      ColumnSumSplit(u, w', g, col);
      ColumnSumExt(u + w, u + w', g, 0, |u| + |w'|, col);
      ColumnSumExt(w, w', g, |u|, |w'|, col);
    }
  }

  /** (a·b) is the product matrix entry with both factors given by rows:
      b is a right inverse of a when every such entry is that of I. */
  ghost predicate RightInverse(a: Matrix, b: Matrix, n: nat)
    requires IsMatrix(a, n, n) && IsMatrix(b, n, n)
  {
    forall r, c :: 0 <= r < n && 0 <= c < n ==>
      ColumnSum(a[r], b, 0, n, c) == if r == c then 1.0 else 0.0
  }

  /** The 2 × 2n matrix whose columns 2i and 2i+1 hold φ_i·I₂. */
  function PhiMatrix(phis: Vector): (m: Matrix)
    ensures IsMatrix(m, 2, 2 * |phis|)
  {
    [seq(2 * |phis|, c requires 0 <= c < 2 * |phis| => if c % 2 == 0 then phis[c / 2] else 0.0),
     seq(2 * |phis|, c requires 0 <= c < 2 * |phis| => if c % 2 == 1 then phis[c / 2] else 0.0)]
  }

  /** Setting φ_i to v changes exactly columns 2i and 2i+1 of Φ, to v·I₂. */
  lemma PhiMatrixUpdate(phis: Vector, i: nat, v: real)
    requires i < |phis|
    ensures var m := PhiMatrix(phis);
      PhiMatrix(phis[i := v]) == [m[0][2 * i := v][2 * i + 1 := 0.0], m[1][2 * i := 0.0][2 * i + 1 := v]]
  {
    var m, m' := PhiMatrix(phis), PhiMatrix(phis[i := v]);
    assert (2 * i) / 2 == i && (2 * i) % 2 == 0;
    assert (2 * i + 1) / 2 == i && (2 * i + 1) % 2 == 1;
    forall c | 0 <= c < 2 * |phis| && c != 2 * i && c != 2 * i + 1
      ensures m'[0][c] == m[0][c] && m'[1][c] == m[1][c]
    {
      assert c / 2 != i;
    }
    assert m'[0] == m[0][2 * i := v][2 * i + 1 := 0.0];
    assert m'[1] == m[1][2 * i := 0.0][2 * i + 1 := v];
  }

  /** The shape-function values from a radial basis r (ns functions) and
      a polynomial basis p: φ_i = Σ_j r_j·G⁻¹[j][i] + Σ_k p_k·G⁻¹[ns+k][i]. */
  function CombinedValues(r: VecJac, p: VecJac, gInv: Matrix): (phis: Vector)
    requires IsMatrix(gInv, |r.vec| + |p.vec|, |r.vec| + |p.vec|)
    ensures |phis| == |r.vec|
  {
    var ns := |r.vec|;
    seq(ns, i requires 0 <= i < ns =>
      ColumnSum(r.vec, gInv, 0, ns, i) + ColumnSum(p.vec, gInv, ns, |p.vec|, i))
  }

  /** The shape-function Jacobian, formed from the basis Jacobians as the
      values are from the bases. */
  function CombinedGradients(r: VecJac, p: VecJac, gInv: Matrix): (jac: Matrix)
    requires IsMatrix(gInv, |r.vec| + |p.vec|, |r.vec| + |p.vec|)
    requires IsMatrix(r.jac, |r.vec|, 2) && IsMatrix(p.jac, |p.vec|, 2)
    ensures IsMatrix(jac, |r.vec|, 2)
  {
    var ns := |r.vec|;
    seq(ns, i requires 0 <= i < ns =>
      [ColumnSum(Col(r.jac, 0), gInv, 0, ns, i) + ColumnSum(Col(p.jac, 0), gInv, ns, |p.vec|, i),
       ColumnSum(Col(r.jac, 1), gInv, 0, ns, i) + ColumnSum(Col(p.jac, 1), gInv, ns, |p.vec|, i)])
  }

  /** The sums of the inner loops of `calculate`: basis entries and both
      Jacobian columns, weighted by column `col` of G⁻¹ from row `off`. */
  method WeightedColumnSums(b: VecJac, gInv: Matrix, off: nat, n: nat, col: nat)
      returns (s: real, sx: real, sy: real)
    requires |b.vec| == n && IsMatrix(b.jac, n, 2)
    requires off + n <= |gInv| && forall j :: 0 <= j < |gInv| ==> col < |gInv[j]|
    ensures s == ColumnSum(b.vec, gInv, off, n, col)
    ensures sx == ColumnSum(Col(b.jac, 0), gInv, off, n, col)
    ensures sy == ColumnSum(Col(b.jac, 1), gInv, off, n, col)
  {
    s, sx, sy := 0.0, 0.0, 0.0;
    for j := 0 to n
      invariant s == ColumnSum(b.vec, gInv, off, j, col)
      invariant sx == ColumnSum(Col(b.jac, 0), gInv, off, j, col)
      invariant sy == ColumnSum(Col(b.jac, 1), gInv, off, j, col)
    {
      var w := gInv[off + j][col];
      s := s + b.vec[j] * w;
      sx := sx + b.jac[j][0] * w;
      sy := sy + b.jac[j][1] * w;
    }
  }

  /** The loop of `calculate` over the support points: φ_i, row i of the
      Jacobian and columns 2i, 2i+1 of Φ. */
  method Combine(r: VecJac, p: VecJac, gInv: Matrix) returns (m: Measures)
    requires IsMatrix(gInv, |r.vec| + |p.vec|, |r.vec| + |p.vec|)
    requires IsMatrix(r.jac, |r.vec|, 2) && IsMatrix(p.jac, |p.vec|, 2)
    ensures m == Measures(CombinedValues(r, p, gInv), CombinedGradients(r, p, gInv),
                          PhiMatrix(CombinedValues(r, p, gInv)))
  {
    var ns := |r.vec|;
    var phisVec := ZeroVector(ns);
    var phisJac := ZeroMatrix(ns, 2);
    var phisMat := ZeroMatrix(2, 2 * ns);
    assert phisMat[0] == PhiMatrix(phisVec)[0];
    assert phisMat[1] == PhiMatrix(phisVec)[1];
    ghost var phis := CombinedValues(r, p, gInv);
    ghost var grads := CombinedGradients(r, p, gInv);
    for i := 0 to ns
      invariant |phisVec| == ns && |phisJac| == ns
      invariant forall j :: 0 <= j < ns ==> phisVec[j] == if j < i then phis[j] else 0.0
      invariant forall j :: 0 <= j < i ==> phisJac[j] == grads[j]
      invariant phisMat == PhiMatrix(phisVec)
    {
      var sum1, sum1X, sum1Y := WeightedColumnSums(r, gInv, 0, ns, i);
      var sum2, sum2X, sum2Y := WeightedColumnSums(p, gInv, ns, |p.vec|, i);
      PhiMatrixUpdate(phisVec, i, sum1 + sum2);
      phisVec := phisVec[i := sum1 + sum2];
      phisJac := phisJac[i := [sum1X + sum2X, sum1Y + sum2Y]];
      phisMat := [phisMat[0][2 * i := phisVec[i]][2 * i + 1 := 0.0],
                  phisMat[1][2 * i := 0.0][2 * i + 1 := phisVec[i]]];
    }
    assert phisVec == phis;
    m := Measures(phisVec, phisJac, phisMat);
  }

  class ShapeFunction {
    /** The dimensionless shape parameter a_c. */
    const ac: real
    /** The characteristic nodal spacing d_c. */
    const dc: real
    /** The multiquadric exponent q. */
    const q: real
    /** The number of polynomial basis functions. */
    const ms: BasisCount

    constructor (ac: real, dc: real, q: real, ms: BasisCount)
      ensures this.ac == ac && this.dc == dc && this.q == q && this.ms == ms
    {
      this.ac := ac;
      this.dc := dc;
      this.q := q;
      this.ms := ms;
    }

    /** D_i = d1² + d2² + (a_c·d_c)² for the point x and support point xi,
        each square taken with `pow(·, 2.0)` as the code does. */
    function DistanceTerm(x: Vector, xi: Vector, pow: (real, real) -> real): real
      requires |x| == 2 && |xi| == 2
    {
      MultiquadricBase(x[0] - xi[0], x[1] - xi[1], ac * dc, pow)
    }

    /** D_i is positive whenever a_c·d_c is not zero, so that the
        multiquadric never takes a non-positive base. */
    lemma DistanceTermPositive(x: Vector, xi: Vector, pow: (real, real) -> real)
      requires |x| == 2 && |xi| == 2 && ac * dc != 0.0
      requires SquareLaws(pow)
      ensures DistanceTerm(x, xi, pow) > 0.0
    {
      assert pow(ac * dc, 2.0) > 0.0;
    }

    /** D_i depends only on the squared coordinate differences. */
    lemma DistanceTermSymmetric(x: Vector, xi: Vector, pow: (real, real) -> real)
      requires |x| == 2 && |xi| == 2
      requires SquareLaws(pow)
      ensures DistanceTerm(x, xi, pow) == DistanceTerm(xi, x, pow)
    {
      assert x[0] - xi[0] == -(xi[0] - x[0]);
      assert x[1] - xi[1] == -(xi[1] - x[1]);
      assert pow(x[0] - xi[0], 2.0) == pow(xi[0] - x[0], 2.0);
      assert pow(x[1] - xi[1], 2.0) == pow(xi[1] - x[1], 2.0);
    }

    /** r_i = D_i^q. */
    function RbfValue(x: Vector, xi: Vector, pow: (real, real) -> real): real
      requires |x| == 2 && |xi| == 2
    {
      pow(DistanceTerm(x, xi, pow), q)
    }

    /** Row i of the radial Jacobian: 2q·D_i^(q−1)·(d1, d2). */
    function RbfGradient(x: Vector, xi: Vector, pow: (real, real) -> real): (g: Vector)
      requires |x| == 2 && |xi| == 2
      ensures |g| == 2
    {
      GradientRow(MultiquadricSlope(DistanceTerm(x, xi, pow), q, pow), x[0] - xi[0], x[1] - xi[1])
    }

    /** At a support point itself the radial gradient vanishes. */
    lemma RbfGradientAtNode(xi: Vector, pow: (real, real) -> real)
      requires |xi| == 2
      ensures RbfGradient(xi, xi, pow) == [0.0, 0.0]
    {
    }

    /** The radial basis at x over the support points, with its Jacobian. */
    function RadialBasis(x: Vector, supDom: seq<Vector>, pow: (real, real) -> real): (b: VecJac)
      requires |x| == 2 && PlanarPoints(supDom)
      ensures |b.vec| == |supDom| && IsMatrix(b.jac, |supDom|, 2)
    {
      VecJac(seq(|supDom|, i requires 0 <= i < |supDom| => RbfValue(x, supDom[i], pow)),
             seq(|supDom|, i requires 0 <= i < |supDom| => RbfGradient(x, supDom[i], pow)))
    }

    /** `rbf_mq`: entry i of the vector is D_i^q and row i of the Jacobian
        is 2q·D_i^(q−1)·(d1, d2). */
    method RbfMq(x: Vector, supDom: seq<Vector>, pow: (real, real) -> real) returns (r: VecJac)
      requires |x| == 2 && PlanarPoints(supDom)
      ensures r == RadialBasis(x, supDom, pow)
    {
      var ns := |supDom|;
      var vec := ZeroVector(ns);
      var jac := ZeroMatrix(ns, 2);
      for i := 0 to ns
        invariant |vec| == ns && |jac| == ns
        invariant forall j :: 0 <= j < i ==> vec[j] == RbfValue(x, supDom[j], pow)
        invariant forall j :: 0 <= j < i ==> jac[j] == RbfGradient(x, supDom[j], pow)
      {
        var xi := supDom[i];
        var d1 := x[0] - xi[0];
        var d2 := x[1] - xi[1];
        var di := MultiquadricBase(d1, d2, ac * dc, pow);
        vec := vec[i := pow(di, q)];
        var c := MultiquadricSlope(di, q, pow);
        jac := jac[i := GradientRow(c, d1, d2)];
      }
      r := VecJac(vec, jac);
    }

    /** `polynomial2D_basis`: [1, x0, x1] with Jacobian rows [0, 0],
        [1, 0], [0, 1] when ms is 3, and empty otherwise. */
    function Polynomial2DBasis(x: Vector): (b: VecJac)
      requires |x| == 2
      ensures |b.vec| == ms && IsMatrix(b.jac, ms, 2)
    {
      if ms == 3 then VecJac([1.0, x[0], x[1]], [[0.0, 0.0], [1.0, 0.0], [0.0, 1.0]])
      else VecJac([], [])
    }

    /** The linear basis reproduces the linear field c0 + c1·x0 + c2·x1, and
        its Jacobian gives that field's gradient (c1, c2). */
    lemma PolynomialBasisLinear(x: Vector, c: Vector)
      requires |x| == 2 && |c| == 3 && ms == 3
      ensures var b := Polynomial2DBasis(x);
        && ColumnSum(b.vec, [[c[0]], [c[1]], [c[2]]], 0, 3, 0) == c[0] + c[1] * x[0] + c[2] * x[1]
        && ColumnSum(Col(b.jac, 0), [[c[0]], [c[1]], [c[2]]], 0, 3, 0) == c[1]
        && ColumnSum(Col(b.jac, 1), [[c[0]], [c[1]], [c[2]]], 0, 3, 0) == c[2]
    {
      var b := Polynomial2DBasis(x);
      var g: Matrix := [[c[0]], [c[1]], [c[2]]];
      assert Col(b.jac, 0) == [0.0, 1.0, 0.0];
      assert Col(b.jac, 1) == [0.0, 0.0, 1.0];
      assert ColumnSum(b.vec, g, 0, 1, 0) == c[0];
      assert ColumnSum(Col(b.jac, 0), g, 0, 1, 0) == 0.0;
      assert ColumnSum(Col(b.jac, 1), g, 0, 1, 0) == 0.0;
    }

    /** The moment matrix G = [[R, P], [Pᵀ, 0]]: R[i][j] = r(x_i, x_j) and
        row i of P is the polynomial basis at x_i. */
    function MomentMatrix(supDom: seq<Vector>, pow: (real, real) -> real): (g: Matrix)
      requires PlanarPoints(supDom)
      ensures IsMatrix(g, |supDom| + ms, |supDom| + ms)
    {
      var ns := |supDom|;
      seq(ns + ms, i requires 0 <= i < ns + ms => seq(ns + ms, j requires 0 <= j < ns + ms =>
        if i < ns && j < ns then RbfValue(supDom[i], supDom[j], pow)
        else if i < ns then Polynomial2DBasis(supDom[i]).vec[j - ns]
        else if j < ns then Polynomial2DBasis(supDom[j]).vec[i - ns]
        else 0.0))
    }

    /** G is symmetric: its radial block because each entry depends only on
        squared coordinate differences, and its polynomial blocks by
        construction. */
    lemma MomentMatrixSymmetric(supDom: seq<Vector>, pow: (real, real) -> real)
      requires PlanarPoints(supDom) && SquareLaws(pow)
      ensures IsSymmetric(MomentMatrix(supDom, pow), |supDom| + ms)
    {
      var g := MomentMatrix(supDom, pow);
      var ns := |supDom|;
      forall i, j | 0 <= i < ns + ms && 0 <= j < ns + ms
        ensures g[i][j] == g[j][i]
      {
        if i < ns && j < ns {
          DistanceTermSymmetric(supDom[i], supDom[j], pow);
        }
      }
    }

    /** `gs_matrix`: the rows of R and P are the radial and polynomial
        bases at each support point, joined into [[R, P], [Pᵀ, 0]]. */
    method GsMatrix(supDom: seq<Vector>, pow: (real, real) -> real) returns (g: Matrix)
      requires PlanarPoints(supDom)
      ensures g == MomentMatrix(supDom, pow)
    {
      var ns := |supDom|;
      var rs := ZeroMatrix(ns, ns);
      var ps := ZeroMatrix(ns, ms);
      for i := 0 to ns
        invariant IsMatrix(rs, ns, ns) && IsMatrix(ps, ns, ms)
        invariant forall k, j :: 0 <= k < i && 0 <= j < ns ==> rs[k][j] == RbfValue(supDom[k], supDom[j], pow)
        invariant forall k :: 0 <= k < i ==> ps[k] == Polynomial2DBasis(supDom[k]).vec
      {
        var rsRow := RbfMq(supDom[i], supDom, pow);
        var psRow := Polynomial2DBasis(supDom[i]);
        rs := rs[i := rsRow.vec];
        ps := ps[i := psRow.vec];
      }
      var rows1 := seq(ns, i requires 0 <= i < ns => rs[i] + ps[i]);
      var rows2 := seq(ms, k requires 0 <= k < ms => Col(ps, k) + ZeroVector(ms));
      g := rows1 + rows2;
      assert forall i :: 0 <= i < ns + ms ==> g[i] == MomentMatrix(supDom, pow)[i];
    }

    /** φ_i(x) = Σ_j r_j·G⁻¹[j][i] + Σ_k p_k·G⁻¹[ns+k][i]. */
    function PhiValues(x: Vector, supDom: seq<Vector>, pow: (real, real) -> real, gInv: Matrix): (phis: Vector)
      requires |x| == 2 && PlanarPoints(supDom)
      requires IsMatrix(gInv, |supDom| + ms, |supDom| + ms)
      ensures |phis| == |supDom|
    {
      CombinedValues(RadialBasis(x, supDom, pow), Polynomial2DBasis(x), gInv)
    }

    /** Row i of the shape-function Jacobian, formed from the basis
        Jacobians as φ_i is from the bases. */
    function PhiGradients(x: Vector, supDom: seq<Vector>, pow: (real, real) -> real, gInv: Matrix): (jac: Matrix)
      requires |x| == 2 && PlanarPoints(supDom)
      requires IsMatrix(gInv, |supDom| + ms, |supDom| + ms)
      ensures IsMatrix(jac, |supDom|, 2)
    {
      CombinedGradients(RadialBasis(x, supDom, pow), Polynomial2DBasis(x), gInv)
    }

    /** Whether the bases can be formed at x over ns support points: the
        radial basis reads x0 and x1 and writes a two-entry Jacobian row for
        each support point, and the linear basis reads x0 and x1. */
    predicate BasesReadable(x: Vector, ns: nat)
    {
      |x| == 2 || (ns == 0 && (ms == 0 || |x| > 2))
    }

    /** How `calculate` at x over supDom ends: with the bases' error at a
        point they cannot read, with Singular for a moment matrix without
        inverse, and with success otherwise. */
    ghost function Outcome(x: Vector, supDom: seq<Vector>, pow: (real, real) -> real,
                           inv: Matrix -> Result<Matrix>): Result<()>
      requires PlanarPoints(supDom)
    {
      if !BasesReadable(x, |supDom|) then Fail(BasesError(x))
      else if inv(MomentMatrix(supDom, pow)).Fail? then Fail(Singular)
      else Ok(())
    }

    /** `calculate`: the shape-function values, their Jacobian and Φ at x,
        from the bases at x and the inverse of the moment matrix.  A point
        the bases cannot read fails first; a singular moment matrix aborts
        next.  A point that is not a 2-vector can only pass with no support
        point, and then every measure is empty: Φ has a row per entry of x
        and no column. */
    method Calculate(x: Vector, supDom: seq<Vector>, pow: (real, real) -> real,
                     inv: Matrix -> Result<Matrix>) returns (r: Result<Measures>)
      requires PlanarPoints(supDom)
      requires InverseKeepsShape(inv)
      ensures !BasesReadable(x, |supDom|) ==> r == Fail(BasesError(x))
      ensures BasesReadable(x, |supDom|) ==> (r.Fail? <==> inv(MomentMatrix(supDom, pow)).Fail?)
      ensures BasesReadable(x, |supDom|) && r.Fail? ==> r.error == Singular
      ensures r.Ok? && |x| == 2 ==>
        var gInv := inv(MomentMatrix(supDom, pow)).value;
        r.value == Measures(PhiValues(x, supDom, pow, gInv), PhiGradients(x, supDom, pow, gInv),
                            PhiMatrix(PhiValues(x, supDom, pow, gInv)))
      ensures r.Ok? && |x| != 2 ==> supDom == [] && r.value == Measures([], [], ZeroMatrix(|x|, 0))
    {
      if !BasesReadable(x, |supDom|) {
        return Fail(BasesError(x));
      }
      var gs := GsMatrix(supDom, pow);
      var inverted := inv(gs);
      if inverted.Fail? {
        return Fail(Singular);
      }
      if |x| != 2 {
        return Ok(Measures([], [], ZeroMatrix(|x|, 0)));
      }
      var ri := RbfMq(x, supDom, pow);
      var pi := Polynomial2DBasis(x);
      var measures := Combine(ri, pi, inverted.value);
      r := Ok(measures);
    }

    /** Kronecker delta property: if the supplied inverse is a right
        inverse of G, shape function i is 1 at support point i and 0 at
        every other support point. */
    lemma KroneckerDelta(supDom: seq<Vector>, pow: (real, real) -> real, gInv: Matrix, k: nat, i: nat)
      requires PlanarPoints(supDom) && k < |supDom| && i < |supDom|
      requires IsMatrix(gInv, |supDom| + ms, |supDom| + ms)
      requires RightInverse(MomentMatrix(supDom, pow), gInv, |supDom| + ms)
      ensures PhiValues(supDom[k], supDom, pow, gInv)[i] == if k == i then 1.0 else 0.0
    {
      var ns := |supDom|;
      var g := MomentMatrix(supDom, pow);
      var r := RadialBasis(supDom[k], supDom, pow);
      var p := Polynomial2DBasis(supDom[k]);
      assert g[k] == r.vec + p.vec;
      ColumnSumSplit(r.vec, p.vec, gInv, i);
    }
  }
}
