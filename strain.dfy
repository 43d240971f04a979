/** Small-strain evaluation from RPIM shape functions (src/strain.cpp).

    For ns support points the strain-displacement matrix Ds is 3 × 2ns:
    the block of support point i holds ∂φ_i/∂x and ∂φ_i/∂y so that
    Ds·es = (ε_xx, ε_yy, γ_xy) for the local displacement vector
    es = (u_0, v_0, u_1, v_1, ...). */
module Strains {
  import opened LinAlg
  import opened Errors
  import opened ShapeFunctions

  /** Rows 0 .. n-1 of the shape-function Jacobian can be read with
      `at(i, 0)` and `at(i, 1)`. */
  predicate HasGradients(jac: Matrix, n: nat)
  {
    n <= |jac| && forall i :: 0 <= i < n ==> 2 <= |jac[i]|
  }

  /** The first i in [from, ns) whose Jacobian row cannot be read, or ns:
      the number of blocks `update` writes before `at` throws. */
  function ReadableRows(jac: Matrix, ns: nat, from: nat): (k: nat)
    requires from <= ns && HasGradients(jac, from)
    ensures from <= k <= ns && HasGradients(jac, k)
    decreases ns - from
  {
    if from == ns || from >= |jac| || |jac[from]| < 2 then from
    else ReadableRows(jac, ns, from + 1)
  }

  lemma {:induction false} ReadableRowsMeaning(jac: Matrix, ns: nat, from: nat)
    requires from <= ns && HasGradients(jac, from)
    ensures ReadableRows(jac, ns, from) == ns <==> HasGradients(jac, ns)
    decreases ns - from
  {
    if !(from == ns || from >= |jac| || |jac[from]| < 2) {
      ReadableRowsMeaning(jac, ns, from + 1);
    }
  }

  /** Entry r of the column of Ds for gradient g: column 2i is
      (g_x, 0, g_y) and column 2i+1 is (0, g_y, g_x). */
  function DsValue(g: Vector, r: nat, odd: bool): real
    requires |g| >= 2 && r < 3
  {
    if r == 0 then (if odd then 0.0 else g[0])
    else if r == 1 then (if odd then g[1] else 0.0)
    else if odd then g[0] else g[1]
  }

  /** The 3 × 2ns matrix whose column blocks 0 .. k-1 are those of the
      first k support points and whose other entries are zero. */
  function DsBlocks(jac: Matrix, ns: nat, k: nat): (ds: Matrix)
    requires k <= ns && HasGradients(jac, k)
    ensures IsMatrix(ds, 3, 2 * ns)
  {
    [DsRow(jac, ns, k, 0), DsRow(jac, ns, k, 1), DsRow(jac, ns, k, 2)]
  }

  /** Row r of DsBlocks(jac, ns, k). */
  function DsRow(jac: Matrix, ns: nat, k: nat, r: nat): (row: Vector)
    requires k <= ns && HasGradients(jac, k) && r < 3
    ensures |row| == 2 * ns
  {
    seq(2 * ns, c requires 0 <= c < 2 * ns =>
      if c / 2 < k then DsValue(jac[c / 2], r, c % 2 == 1) else 0.0)
  }

  /** Ds for all ns support points. */
  function DsMatrix(jac: Matrix, ns: nat): (ds: Matrix)
    requires HasGradients(jac, ns)
    ensures IsMatrix(ds, 3, 2 * ns)
  {
    DsBlocks(jac, ns, ns)
  }

  /** Columns 2i and 2i+1 of Ds are (∂φ_i/∂x, 0, ∂φ_i/∂y) and
      (0, ∂φ_i/∂y, ∂φ_i/∂x). */
  lemma DsColumns(jac: Matrix, ns: nat, i: nat)
    requires HasGradients(jac, ns) && i < ns
    ensures var ds := DsMatrix(jac, ns);
      && ds[0][2 * i] == jac[i][0] && ds[1][2 * i] == 0.0 && ds[2][2 * i] == jac[i][1]
      && ds[0][2 * i + 1] == 0.0 && ds[1][2 * i + 1] == jac[i][1] && ds[2][2 * i + 1] == jac[i][0]
  {
    assert (2 * i) / 2 == i && (2 * i) % 2 == 0;
    assert (2 * i + 1) / 2 == i && (2 * i + 1) % 2 == 1;
  }

  // ---------------------------------------------------------------------
  // The strain components as sums over the support points.
  // ---------------------------------------------------------------------

  /** ε_xx = Σ ∂φ_i/∂x · es[2i]. */
  function StrainXX(jac: Matrix, es: Vector, n: nat): real
    requires HasGradients(jac, n) && 2 * n <= |es|
  {
    if n == 0 then 0.0 else StrainXX(jac, es, n - 1) + jac[n - 1][0] * es[2 * (n - 1)]
  }

  /** ε_yy = Σ ∂φ_i/∂y · es[2i+1]. */
  function StrainYY(jac: Matrix, es: Vector, n: nat): real
    requires HasGradients(jac, n) && 2 * n <= |es|
  {
    if n == 0 then 0.0 else StrainYY(jac, es, n - 1) + jac[n - 1][1] * es[2 * (n - 1) + 1]
  }

  /** γ_xy = Σ (∂φ_i/∂y · es[2i] + ∂φ_i/∂x · es[2i+1]). */
  function ShearXY(jac: Matrix, es: Vector, n: nat): real
    requires HasGradients(jac, n) && 2 * n <= |es|
  {
    if n == 0 then 0.0
    else ShearXY(jac, es, n - 1) + (jac[n - 1][1] * es[2 * (n - 1)] + jac[n - 1][0] * es[2 * (n - 1) + 1])
  }

  /** The strain vector (ε_xx, ε_yy, γ_xy). */
  function StrainOf(jac: Matrix, ns: nat, es: Vector): (e: Vector)
    requires HasGradients(jac, ns) && |es| == 2 * ns
    ensures |e| == 3
  {
    [StrainXX(jac, es, ns), StrainYY(jac, es, ns), ShearXY(jac, es, ns)]
  }

  /** u[0]·v[0] + ... + u[2n-1]·v[2n-1], summed a pair of entries at a time. */
  function PairSum(u: Vector, v: Vector, n: nat): real
    requires 2 * n <= |u| && 2 * n <= |v|
  {
    if n == 0 then 0.0
    else PairSum(u, v, n - 1) + (u[2 * (n - 1)] * v[2 * (n - 1)] + u[2 * (n - 1) + 1] * v[2 * (n - 1) + 1])
  }

  lemma {:induction false} SumPrefixPairs(u: Vector, v: Vector, f: int -> real, n: nat)
    requires |u| == |v| && 2 * n <= |u|
    requires forall k :: 0 <= k < |u| ==> f(k) == u[k] * v[k]
    ensures Sum(2 * n, f) == PairSum(u, v, n)
  {
    if n > 0 {
      SumPrefixPairs(u, v, f, n - 1);
      assert Sum(2 * (n - 1) + 1, f) == Sum(2 * (n - 1), f) + f(2 * (n - 1));
      assert Sum(2 * n, f) == Sum(2 * (n - 1) + 1, f) + f(2 * (n - 1) + 1);
    }
  }

  lemma DotPairs(u: Vector, v: Vector, n: nat)
    requires |u| == 2 * n && |v| == 2 * n
    ensures Dot(u, v) == PairSum(u, v, n)
  {
    SumPrefixPairs(u, v, k => if 0 <= k < |u| then u[k] * v[k] else 0.0, n);
  }

  /** Entries 2i and 2i+1 of a row of Ds. */
  lemma DsRowPair(jac: Matrix, ns: nat, r: nat, i: nat)
    requires HasGradients(jac, ns) && r < 3 && i < ns
    ensures var row := DsRow(jac, ns, ns, r);
      row[2 * i] == DsValue(jac[i], r, false) && row[2 * i + 1] == DsValue(jac[i], r, true)
  {
    assert (2 * i) / 2 == i && (2 * i) % 2 == 0;
    assert (2 * i + 1) / 2 == i && (2 * i + 1) % 2 == 1;
  }

  lemma {:induction false} RowXX(jac: Matrix, ns: nat, es: Vector, n: nat)
    requires HasGradients(jac, ns) && |es| == 2 * ns && n <= ns
    ensures PairSum(DsRow(jac, ns, ns, 0), es, n) == StrainXX(jac, es, n)
  {
    if n > 0 {
      RowXX(jac, ns, es, n - 1);
      DsRowPair(jac, ns, 0, n - 1);
    }
  }

  lemma {:induction false} RowYY(jac: Matrix, ns: nat, es: Vector, n: nat)
    requires HasGradients(jac, ns) && |es| == 2 * ns && n <= ns
    ensures PairSum(DsRow(jac, ns, ns, 1), es, n) == StrainYY(jac, es, n)
  {
    if n > 0 {
      RowYY(jac, ns, es, n - 1);
      DsRowPair(jac, ns, 1, n - 1);
    }
  }

  lemma {:induction false} RowXY(jac: Matrix, ns: nat, es: Vector, n: nat)
    requires HasGradients(jac, ns) && |es| == 2 * ns && n <= ns
    ensures PairSum(DsRow(jac, ns, ns, 2), es, n) == ShearXY(jac, es, n)
  {
    if n > 0 {
      RowXY(jac, ns, es, n - 1);
      DsRowPair(jac, ns, 2, n - 1);
    }
  }

  /** Ds·es is (ε_xx, ε_yy, γ_xy). */
  lemma StrainComponents(jac: Matrix, ns: nat, es: Vector)
    requires HasGradients(jac, ns) && |es| == 2 * ns
    ensures MatVec(DsMatrix(jac, ns), es) == StrainOf(jac, ns, es)
  {
    var ds := DsMatrix(jac, ns);
    DotPairs(ds[0], es, ns);
    DotPairs(ds[1], es, ns);
    DotPairs(ds[2], es, ns);
    RowXX(jac, ns, es, ns);
    RowYY(jac, ns, es, ns);
    RowXY(jac, ns, es, ns);
    var e := StrainOf(jac, ns, es);
    assert MatVec(ds, es)[0] == e[0] && MatVec(ds, es)[1] == e[1] && MatVec(ds, es)[2] == e[2];
  }

  /** a + c·b, entry by entry. */
  function Combination(a: Vector, c: real, b: Vector): (s: Vector)
    requires |a| == |b|
    ensures |s| == |a|
  {
    seq(|a|, k requires 0 <= k < |a| => a[k] + c * b[k])
  }

  lemma {:induction false} StrainXXLinear(jac: Matrix, a: Vector, c: real, b: Vector, n: nat)
    requires HasGradients(jac, n) && |a| == |b| && 2 * n <= |a|
    ensures StrainXX(jac, Combination(a, c, b), n) == StrainXX(jac, a, n) + c * StrainXX(jac, b, n)
  {
    if n > 0 {
      StrainXXLinear(jac, a, c, b, n - 1);
      var g, x, y := jac[n - 1][0], a[2 * (n - 1)], b[2 * (n - 1)];
      assert g * (x + c * y) == g * x + c * (g * y);
    }
  }

  lemma {:induction false} StrainYYLinear(jac: Matrix, a: Vector, c: real, b: Vector, n: nat)
    requires HasGradients(jac, n) && |a| == |b| && 2 * n <= |a|
    ensures StrainYY(jac, Combination(a, c, b), n) == StrainYY(jac, a, n) + c * StrainYY(jac, b, n)
  {
    if n > 0 {
      StrainYYLinear(jac, a, c, b, n - 1);
      var g, x, y := jac[n - 1][1], a[2 * (n - 1) + 1], b[2 * (n - 1) + 1];
      assert g * (x + c * y) == g * x + c * (g * y);
    }
  }

  lemma {:induction false} ShearXYLinear(jac: Matrix, a: Vector, c: real, b: Vector, n: nat)
    requires HasGradients(jac, n) && |a| == |b| && 2 * n <= |a|
    ensures ShearXY(jac, Combination(a, c, b), n) == ShearXY(jac, a, n) + c * ShearXY(jac, b, n)
  {
    if n > 0 {
      ShearXYLinear(jac, a, c, b, n - 1);
      var gy, x0, y0 := jac[n - 1][1], a[2 * (n - 1)], b[2 * (n - 1)];
      var gx, x1, y1 := jac[n - 1][0], a[2 * (n - 1) + 1], b[2 * (n - 1) + 1];
      assert gy * (x0 + c * y0) == gy * x0 + c * (gy * y0);
      assert gx * (x1 + c * y1) == gx * x1 + c * (gx * y1);
    }
  }

  /** The strain is linear in the local displacements. */
  lemma StrainLinear(jac: Matrix, ns: nat, a: Vector, c: real, b: Vector)
    requires HasGradients(jac, ns) && |a| == 2 * ns && |b| == 2 * ns
    ensures StrainOf(jac, ns, Combination(a, c, b)) ==
            Combination(StrainOf(jac, ns, a), c, StrainOf(jac, ns, b))
  {
    StrainXXLinear(jac, a, c, b, ns);
    StrainYYLinear(jac, a, c, b, ns);
    ShearXYLinear(jac, a, c, b, ns);
    var lhs := StrainOf(jac, ns, Combination(a, c, b));
    var rhs := Combination(StrainOf(jac, ns, a), c, StrainOf(jac, ns, b));
    assert lhs[0] == rhs[0] && lhs[1] == rhs[1] && lhs[2] == rhs[2];
  }

  lemma {:induction false} StrainOfZeroPrefix(jac: Matrix, es: Vector, n: nat)
    requires HasGradients(jac, n) && 2 * n <= |es|
    requires forall k :: 0 <= k < |es| ==> es[k] == 0.0
    ensures StrainXX(jac, es, n) == 0.0 && StrainYY(jac, es, n) == 0.0 && ShearXY(jac, es, n) == 0.0
  {
    if n > 0 {
      StrainOfZeroPrefix(jac, es, n - 1);
    }
  }

  /** No displacement, no strain. */
  lemma StrainOfZero(jac: Matrix, ns: nat)
    requires HasGradients(jac, ns)
    ensures StrainOf(jac, ns, ZeroVector(2 * ns)) == [0.0, 0.0, 0.0]
  {
    StrainOfZeroPrefix(jac, ZeroVector(2 * ns), ns);
  }

  class Strain {
    /** The stored shape-function measures. */
    var sfS: Measures
    /** The number of support points, the length of φ. */
    var ns: nat
    var strainVector: Vector
    var dsMatrix: Matrix

    constructor ()
      ensures sfS == Measures([], [], []) && ns == 0 && strainVector == [] && dsMatrix == []
    {
      sfS := Measures([], [], []);
      ns := 0;
      strainVector := [];
      dsMatrix := [];
    }

    /** `set_shape_function`: keeps the measures and takes ns from φ. */
    method SetShapeFunction(sf: Measures)
      modifies this`sfS, this`ns
      ensures sfS == sf && ns == |sf.phisVec|
    {
      sfS := sf;
      ns := |sf.phisVec|;
    }

    /** `update`: rebuilds Ds block by block and sets the strain to Ds·es.
        A Jacobian with fewer than ns rows of two entries is read through
        Armadillo's unchecked `at`: the model stops at the first such row,
        and the failure stands for that undefined behaviour.  An es whose
        length is not 2ns fails the product.  In both cases the strain keeps
        its old value. */
    method Update(es: Vector) returns (r: Result<()>)
      modifies this`dsMatrix, this`strainVector
      ensures dsMatrix == DsBlocks(sfS.phisJac, ns, ReadableRows(sfS.phisJac, ns, 0))
      ensures r.Ok? <==> HasGradients(sfS.phisJac, ns) && |es| == 2 * ns
      ensures r.Fail? ==> strainVector == old(strainVector)
      ensures r.Fail? ==> r.error == (if HasGradients(sfS.phisJac, ns) then SizeMismatch else OutOfRange)
      ensures r.Ok? ==> strainVector == StrainOf(sfS.phisJac, ns, es)
    {
      var phisJac := sfS.phisJac;
      var k := ReadableRows(phisJac, ns, 0);
      ReadableRowsMeaning(phisJac, ns, 0);
      dsMatrix := ZeroMatrix(3, 2 * ns);
      assert forall r :: 0 <= r < 3 ==> dsMatrix[r] == DsBlocks(phisJac, ns, 0)[r];
      for i := 0 to k
        invariant dsMatrix == DsBlocks(phisJac, ns, i)
        invariant strainVector == old(strainVector)
      {
        var dphiX1 := phisJac[i][0];
        var dphiX2 := phisJac[i][1];
        dsMatrix := [dsMatrix[0][2 * i := dphiX1][2 * i + 1 := 0.0],
                     dsMatrix[1][2 * i := 0.0][2 * i + 1 := dphiX2],
                     dsMatrix[2][2 * i := dphiX2][2 * i + 1 := dphiX1]];
        BlocksStep(phisJac, ns, i);
      }
      if k < ns {
        return Fail(OutOfRange);
      }
      if |es| != 2 * ns {
        return Fail(SizeMismatch);
      }
      StrainComponents(phisJac, ns, es);
      strainVector := MatVec(dsMatrix, es);
      r := Ok(());
    }
  }

  /** Writing block i into DsBlocks(jac, ns, i) gives DsBlocks(jac, ns, i+1). */
  lemma BlocksStep(jac: Matrix, ns: nat, i: nat)
    requires i < ns && HasGradients(jac, i + 1)
    ensures var d := DsBlocks(jac, ns, i);
      DsBlocks(jac, ns, i + 1) ==
        [d[0][2 * i := jac[i][0]][2 * i + 1 := 0.0],
         d[1][2 * i := 0.0][2 * i + 1 := jac[i][1]],
         d[2][2 * i := jac[i][1]][2 * i + 1 := jac[i][0]]]
  {
    var d, d' := DsBlocks(jac, ns, i), DsBlocks(jac, ns, i + 1);
    assert (2 * i) / 2 == i && (2 * i) % 2 == 0;
    assert (2 * i + 1) / 2 == i && (2 * i + 1) % 2 == 1;
    forall r, c | 0 <= r < 3 && 0 <= c < 2 * ns && c != 2 * i && c != 2 * i + 1
      ensures d'[r][c] == d[r][c]
    {
      assert c / 2 != i;
    }
    assert d'[0] == d[0][2 * i := jac[i][0]][2 * i + 1 := 0.0];
    assert d'[1] == d[1][2 * i := 0.0][2 * i + 1 := jac[i][1]];
    assert d'[2] == d[2][2 * i := jac[i][1]][2 * i + 1 := jac[i][0]];
  }
}
