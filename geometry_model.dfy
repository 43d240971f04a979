/** The elastic model evaluated at one quadrature point
    (src/geometry_model.cpp): the mapping Ls from the global displacement
    vector q̄ to the displacements of the point's support nodes, the
    displacement u = Φ·Ls·q̄ and strain ε = Ds·Ls·q̄ with their Jacobians,
    and from them the internal force −Jᵀ·C·ε, the body and traction forces
    and the stiffness Lsᵀ·Dsᵀ·C·Ds·Ls. */
module GeometryModels {
  import opened LinAlg
  import opened Errors
  import opened SupportDomain
  import opened Geom
  import opened ShapeFunctions
  import opened Strains
  import opened Material
  import opened LoadingConditions
  import opened DynamicsMath

  /** The global degrees of freedom of the support nodes, two per node:
      local slot 2i holds x-dof 2·idx_i and slot 2i+1 the y-dof 2·idx_i+1. */
  function DofSlots(idxs: seq<nat>): (slots: seq<int>)
    ensures |slots| == 2 * |idxs|
    ensures forall i :: 0 <= i < |idxs| ==> slots[2 * i] == 2 * idxs[i] && slots[2 * i + 1] == 2 * idxs[i] + 1
  {
    if |idxs| == 0 then []
    else
      var last := idxs[|idxs| - 1];
      DofSlots(idxs[..|idxs| - 1]) + [2 * last, 2 * last + 1]
  }

  /** Both dofs of every support node lie inside a q̄ of length qSize. */
  predicate SlotsFit(idxs: seq<nat>, qSize: nat)
  {
    forall i :: 0 <= i < |idxs| ==> 2 * idxs[i] + 1 < qSize
  }

  /** The 2ns × qSize matrix Ls with the 2 × 2 identity in rows 2i, 2i+1 and
      columns 2·idx_i, 2·idx_i+1; a support node whose dofs are past the end
      of q̄ fails the bounds check of the sub-matrix view. */
  function MappingMatrix(idxs: seq<nat>, qSize: nat): (r: Result<Matrix>)
    ensures r.Ok? <==> SlotsFit(idxs, qSize)
    ensures r.Fail? ==> r.error == OutOfRange
    ensures r.Ok? ==> IsMatrix(r.value, 2 * |idxs|, qSize)
  {
    if SlotsFit(idxs, qSize) then
      var slots := DofSlots(idxs);
      Ok(seq(|slots|, r requires 0 <= r < |slots| => OneHot(qSize, slots[r])))
    else Fail(OutOfRange)
  }

  /** Every dof slot of nodes that fit lies inside q̄. */
  lemma {:induction false} SlotsInRange(idxs: seq<nat>, qSize: nat)
    requires SlotsFit(idxs, qSize)
    ensures forall r :: 0 <= r < |DofSlots(idxs)| ==> 0 <= DofSlots(idxs)[r] < qSize
  {
    if |idxs| > 0 {
      var n := |idxs|;
      SlotsInRange(idxs[..n - 1], qSize);
      assert DofSlots(idxs) == DofSlots(idxs[..n - 1]) + [2 * idxs[n - 1], 2 * idxs[n - 1] + 1];
    }
  }

  /** Ls is the locator matrix of the support nodes' dofs. */
  lemma MappingIsLocator(idxs: seq<nat>, qSize: nat)
    requires SlotsFit(idxs, qSize)
    ensures LocatorMatrix(DofSlots(idxs), qSize) == MappingMatrix(idxs, qSize)
  {
    SlotsInRange(idxs, qSize);
  }

  /** es = Ls·q̄ holds the displacements (q̄[2·idx_i], q̄[2·idx_i+1]) of the
      support nodes, in support order. */
  lemma LocalDisplacements(idxs: seq<nat>, qBar: Vector, i: nat)
    requires SlotsFit(idxs, |qBar|) && i < |idxs|
    ensures var es := MatVec(MappingMatrix(idxs, |qBar|).value, qBar);
      es[2 * i] == qBar[2 * idxs[i]] && es[2 * i + 1] == qBar[2 * idxs[i] + 1]
  {
    MappingIsLocator(idxs, |qBar|);
    LocatorGathers(DofSlots(idxs), |qBar|, qBar);
  }

  /** Rows 2j and 2j+1 of ls hold the identity block of support node j
      when j < n, and are zero otherwise. */
  ghost predicate NodeBlock(ls: Matrix, idxs: seq<nat>, qSize: nat, n: nat, j: nat)
    requires IsMatrix(ls, 2 * |idxs|, qSize) && j < |idxs|
  {
    var r0, r1 := ls[2 * j], ls[2 * j + 1];
    forall k :: 0 <= k < qSize ==>
      && r0[k] == (if j < n && k == 2 * idxs[j] then 1.0 else 0.0)
      && r1[k] == (if j < n && k == 2 * idxs[j] + 1 then 1.0 else 0.0)
  }

  /** The blocks of the first n support nodes are written, the rest zero. */
  ghost predicate BlocksWritten(ls: Matrix, idxs: seq<nat>, qSize: nat, n: nat)
    requires IsMatrix(ls, 2 * |idxs|, qSize)
  {
    forall j :: 0 <= j < |idxs| ==> NodeBlock(ls, idxs, qSize, n, j)
  }

  /** Writing the identity block of support node n extends the written
      blocks by one. */
  lemma BlockStep(ls: Matrix, idxs: seq<nat>, qSize: nat, n: nat)
    requires IsMatrix(ls, 2 * |idxs|, qSize) && BlocksWritten(ls, idxs, qSize, n)
    requires n < |idxs| && 2 * idxs[n] + 1 < qSize
    ensures var c := 2 * idxs[n];
      var ls' := ls[2 * n := ls[2 * n][c := 1.0][c + 1 := 0.0]][2 * n + 1 := ls[2 * n + 1][c := 0.0][c + 1 := 1.0]];
      IsMatrix(ls', 2 * |idxs|, qSize) && BlocksWritten(ls', idxs, qSize, n + 1)
  {
    var c := 2 * idxs[n];
    var ls' := ls[2 * n := ls[2 * n][c := 1.0][c + 1 := 0.0]][2 * n + 1 := ls[2 * n + 1][c := 0.0][c + 1 := 1.0]];
    var n' := n + 1;
    forall j | 0 <= j < |idxs|
      ensures NodeBlock(ls', idxs, qSize, n', j)
    {
      assert NodeBlock(ls, idxs, qSize, n, j);
      if j != n {
        assert ls'[2 * j] == ls[2 * j] && ls'[2 * j + 1] == ls[2 * j + 1];
      }
    }
  }

  /** With every block written the matrix is Ls. */
  lemma AllBlocksWritten(ls: Matrix, idxs: seq<nat>, qSize: nat)
    requires SlotsFit(idxs, qSize) && IsMatrix(ls, 2 * |idxs|, qSize)
    requires BlocksWritten(ls, idxs, qSize, |idxs|)
    ensures ls == MappingMatrix(idxs, qSize).value
  {
    var m := MappingMatrix(idxs, qSize).value;
    var slots := DofSlots(idxs);
    forall j | 0 <= j < |idxs|
      ensures ls[2 * j] == m[2 * j] && ls[2 * j + 1] == m[2 * j + 1]
    {
      var a, b := OneHot(qSize, 2 * idxs[j]), OneHot(qSize, 2 * idxs[j] + 1);
      assert m[2 * j] == a && m[2 * j + 1] == b;
      assert NodeBlock(ls, idxs, qSize, |idxs|, j);
      assert forall k :: 0 <= k < qSize ==> ls[2 * j][k] == a[k] && ls[2 * j + 1][k] == b[k];
    }
    forall r | 0 <= r < 2 * |idxs|
      ensures ls[r] == m[r]
    {
      var j := r / 2;
      if r % 2 == 0 {
        assert r == 2 * j;
      } else {
        assert r == 2 * j + 1;
      }
    }
  }

  /** `global_to_local_mapping_matrix`: Ls for the support domain, built
      block by block; the first support node whose block falls outside
      the matrix aborts it. */
  method GlobalToLocalMappingMatrix(supDomS: SupportDomainPoint, qBarSize: nat) returns (r: Result<Matrix>)
    ensures r == MappingMatrix(supDomS.supportIndices, qBarSize)
  {
    var idxs := supDomS.supportIndices;
    var ns := |idxs|;
    var lsMat := ZeroMatrix(2 * ns, qBarSize);
    for i := 0 to ns
      invariant forall j :: 0 <= j < i ==> 2 * idxs[j] + 1 < qBarSize
      invariant IsMatrix(lsMat, 2 * ns, qBarSize)
      invariant BlocksWritten(lsMat, idxs, qBarSize, i)
    {
      var idx := idxs[i];
      if 2 * idx + 1 >= qBarSize {
        return Fail(OutOfRange);
      }
      BlockStep(lsMat, idxs, qBarSize, i);
      lsMat := lsMat[2 * i := lsMat[2 * i][2 * idx := 1.0][2 * idx + 1 := 0.0]]
                    [2 * i + 1 := lsMat[2 * i + 1][2 * idx := 0.0][2 * idx + 1 := 1.0]];
    }
    AllBlocksWritten(lsMat, idxs, qBarSize);
    r := Ok(lsMat);
  }

  /** A support-domain entry with 2-vector supports and one coordinate
      pair per support index, as `generate` records them. */
  predicate PairedEntry(sd: SupportDomainPoint)
  {
    PlanarPoints(sd.supportCoords) && |sd.supportIndices| == |sd.supportCoords|
  }

  /** A paired entry with a 2-vector point.  The entry of a cloud point
      without support nodes has no point coordinates. */
  predicate WellFormedEntry(sd: SupportDomainPoint)
  {
    |sd.pointCoords| == 2 && PairedEntry(sd)
  }

  /** The displacement u = Φ(x)·Ls·q̄ that an evaluation at entry sd with
      shape function sf produces: an out-of-range support dof or a singular
      moment matrix gives no displacement. */
  ghost function Displacement(sf: ShapeFunction, sd: SupportDomainPoint, qBar: Vector,
                              pow: (real, real) -> real, inv: Matrix -> Result<Matrix>): (r: Result<Vector>)
    requires WellFormedEntry(sd) && InverseKeepsShape(inv)
    ensures r.Ok? <==> SlotsFit(sd.supportIndices, |qBar|) && inv(sf.MomentMatrix(sd.supportCoords, pow)).Ok?
    ensures r.Ok? ==> |r.value| == 2
  {
    if !SlotsFit(sd.supportIndices, |qBar|) then Fail(OutOfRange)
    else
      var g := inv(sf.MomentMatrix(sd.supportCoords, pow));
      if g.Fail? then Fail(Singular)
      else
        var phis := sf.PhiValues(sd.pointCoords, sd.supportCoords, pow, g.value);
        Ok(MatVec(PhiMatrix(phis), MatVec(MappingMatrix(sd.supportIndices, |qBar|).value, qBar)))
  }

  /** Columns 2i and 2i+1 of Φ hold φ_i·I₂. */
  lemma PhiMatrixColumns(phis: Vector, i: nat)
    requires i < |phis|
    ensures var m := PhiMatrix(phis);
      m[0][2 * i] == phis[i] && m[0][2 * i + 1] == 0.0 && m[1][2 * i] == 0.0 && m[1][2 * i + 1] == phis[i]
  {
    assert (2 * i) / 2 == i && (2 * i) % 2 == 0;
    assert (2 * i + 1) / 2 == i && (2 * i + 1) % 2 == 1;
  }

  /** Row c of Φ picks φ_i on column 2i+c: Φ·es interpolates the pairs of es. */
  lemma PhiRowDot(phis: Vector, es: Vector, c: nat)
    requires c < 2 && |es| == 2 * |phis|
    ensures Dot(PhiMatrix(phis)[c], es) ==
            Sum(|phis|, i => if 0 <= i < |phis| then phis[i] * es[2 * i + c] else 0.0)
  {
    var row := PhiMatrix(phis)[c];
    var f := k => if 0 <= k < |row| then row[k] * es[k] else 0.0;
    var g := i => if 0 <= i < |phis| then phis[i] * es[2 * i + c] else 0.0;
    forall i | 0 <= i < |phis|
      ensures g(i) == f(2 * i) + f(2 * i + 1)
    {
      PhiMatrixColumns(phis, i);
    }
    SumPairs(|phis|, f, g);
  }

  /** Component c of the displacements of the support nodes, in support
      order: q̄[2·idx_i + c]. */
  function NodeComponent(idxs: seq<nat>, qBar: Vector, c: nat): (v: Vector)
    requires c < 2 && SlotsFit(idxs, |qBar|)
    ensures |v| == |idxs| && forall i :: 0 <= i < |idxs| ==> v[i] == qBar[2 * idxs[i] + c]
  {
    seq(|idxs|, i requires 0 <= i < |idxs| => qBar[2 * idxs[i] + c])
  }

  /** Row c of Φ against es is φ against the entries 2i+c of es. */
  lemma PhiRowPicks(phis: Vector, es: Vector, xs: Vector, c: nat)
    requires c < 2 && |es| == 2 * |phis| && |xs| == |phis|
    requires forall i :: 0 <= i < |xs| ==> es[2 * i + c] == xs[i]
    ensures Dot(PhiMatrix(phis)[c], es) == Dot(phis, xs)
  {
    var f := i => if 0 <= i < |phis| then phis[i] * es[2 * i + c] else 0.0;
    var g := k => if 0 <= k < |phis| then phis[k] * xs[k] else 0.0;
    assert forall i :: 0 <= i < |phis| ==> f(i) == g(i);
    PhiRowDot(phis, es, c);
    SumExt(|phis|, f, g);
  }

  /** es = Ls·q̄ holds component c of support node i at 2i+c. */
  lemma LocalComponents(idxs: seq<nat>, qBar: Vector, c: nat)
    requires c < 2 && SlotsFit(idxs, |qBar|)
    ensures var es := MatVec(MappingMatrix(idxs, |qBar|).value, qBar);
      |es| == 2 * |idxs| && forall i :: 0 <= i < |idxs| ==> es[2 * i + c] == NodeComponent(idxs, qBar, c)[i]
  {
    forall i | 0 <= i < |idxs|
      ensures MatVec(MappingMatrix(idxs, |qBar|).value, qBar)[2 * i + c] == NodeComponent(idxs, qBar, c)[i]
    {
      LocalDisplacements(idxs, qBar, i);
    }
  }

  /** Row c of Φ·Ls·q̄ is φ · (component c of the support displacements). */
  lemma InterpolatedComponent(phis: Vector, idxs: seq<nat>, qBar: Vector, c: nat)
    requires c < 2 && |phis| == |idxs| && SlotsFit(idxs, |qBar|)
    ensures Dot(PhiMatrix(phis)[c], MatVec(MappingMatrix(idxs, |qBar|).value, qBar)) ==
            Dot(phis, NodeComponent(idxs, qBar, c))
  {
    LocalComponents(idxs, qBar, c);
    PhiRowPicks(phis, MatVec(MappingMatrix(idxs, |qBar|).value, qBar), NodeComponent(idxs, qBar, c), c);
  }

  /** The displacement interpolates the support nodes' displacements:
      u_x = Σ φ_i·q̄[2·idx_i] and u_y = Σ φ_i·q̄[2·idx_i+1]. */
  lemma DisplacementInterpolates(phis: Vector, idxs: seq<nat>, qBar: Vector)
    requires |phis| == |idxs| && SlotsFit(idxs, |qBar|)
    ensures var u := MatVec(PhiMatrix(phis), MatVec(MappingMatrix(idxs, |qBar|).value, qBar));
      u[0] == Dot(phis, NodeComponent(idxs, qBar, 0)) && u[1] == Dot(phis, NodeComponent(idxs, qBar, 1))
  {
    InterpolatedComponent(phis, idxs, qBar, 0);
    InterpolatedComponent(phis, idxs, qBar, 1);
  }

  /** The displacement an evaluation produces is the shape-function
      interpolation of the support nodes' displacements. */
  lemma DisplacementIsInterpolation(sf: ShapeFunction, sd: SupportDomainPoint, qBar: Vector,
                                    pow: (real, real) -> real, inv: Matrix -> Result<Matrix>)
    requires WellFormedEntry(sd) && InverseKeepsShape(inv)
    requires Displacement(sf, sd, qBar, pow, inv).Ok?
    ensures var gInv := inv(sf.MomentMatrix(sd.supportCoords, pow)).value;
      var phis := sf.PhiValues(sd.pointCoords, sd.supportCoords, pow, gInv);
      var u := Displacement(sf, sd, qBar, pow, inv).value;
      u[0] == Dot(phis, NodeComponent(sd.supportIndices, qBar, 0)) &&
      u[1] == Dot(phis, NodeComponent(sd.supportIndices, qBar, 1))
  {
    var gInv := inv(sf.MomentMatrix(sd.supportCoords, pow)).value;
    DisplacementInterpolates(sf.PhiValues(sd.pointCoords, sd.supportCoords, pow, gInv), sd.supportIndices, qBar);
  }

  /** Entry-wise negation of a vector. */
  function NegVec(v: Vector): (n: Vector)
    ensures |n| == |v| && forall i :: 0 <= i < |v| ==> n[i] == -v[i]
  {
    seq(|v|, i requires 0 <= i < |v| => -v[i])
  }

  /** The internal force −Jᵀ·C·ε of a 3 × n strain Jacobian J. */
  function ElasticForce(j: Matrix, n: nat, c: Matrix, strain: Vector): (f: Vector)
    requires IsMatrix(j, 3, n) && IsMatrix(c, 3, 3) && |strain| == 3
    ensures |f| == n
  {
    MatVec(MatMul(Neg(Transpose(j, n)), c, 3), strain)
  }

  /** The stiffness Lsᵀ·Dsᵀ·C·Ds·Ls, multiplied left to right as written. */
  function Stiffness(ls: Matrix, qSize: nat, ds: Matrix, c: Matrix): (k: Matrix)
    requires IsMatrix(ls, |ls|, qSize) && IsMatrix(ds, 3, |ls|) && IsMatrix(c, 3, 3)
    ensures IsMatrix(k, qSize, qSize)
  {
    var a := MatMul(Transpose(ls, qSize), Transpose(ds, |ls|), 3);
    MatMul(MatMul(MatMul(a, c, 3), ds, |ls|), ls, qSize)
  }

  /** With J = Ds·Ls the stiffness is Jᵀ·C·J. */
  lemma StiffnessFromJacobian(ls: Matrix, qSize: nat, ds: Matrix, c: Matrix)
    requires IsMatrix(ls, |ls|, qSize) && IsMatrix(ds, 3, |ls|) && IsMatrix(c, 3, 3)
    ensures var j := MatMul(ds, ls, qSize);
      Stiffness(ls, qSize, ds, c) == MatMul(MatMul(Transpose(j, qSize), c, 3), j, qSize)
  {
    var j := MatMul(ds, ls, qSize);
    TransposeMul(ds, ls, qSize);
    var a := MatMul(Transpose(j, qSize), c, 3);
    MatMulAssoc(a, ds, ls, |ls|, qSize);
  }

  /** Jᵀ·C·J is symmetric when C is. */
  lemma QuadraticFormSymmetric(j: Matrix, n: nat, c: Matrix)
    requires IsMatrix(j, 3, n) && IsSymmetric(c, 3)
    ensures IsSymmetric(MatMul(MatMul(Transpose(j, n), c, 3), j, n), n)
  {
    var jt := Transpose(j, n);
    var a := MatMul(jt, c, 3);
    var k := MatMul(a, j, n);
    TransposeMul(a, j, n);
    TransposeMul(jt, c, 3);
    TransposeSymmetric(c, 3);
    TransposeTwice(j, n);
    MatMulAssoc(jt, c, j, 3, n);
    var kt := Transpose(k, n);
    assert kt == k;
    forall r, s | 0 <= r < n && 0 <= s < n
      ensures k[r][s] == k[s][r]
    {
      assert kt[s][r] == k[r][s];
    }
  }

  /** The stiffness matrix is symmetric for a symmetric elasticity matrix. */
  lemma StiffnessSymmetric(ls: Matrix, qSize: nat, ds: Matrix, c: Matrix)
    requires IsMatrix(ls, |ls|, qSize) && IsMatrix(ds, 3, |ls|) && IsSymmetric(c, 3)
    ensures IsSymmetric(Stiffness(ls, qSize, ds, c), qSize)
  {
    StiffnessFromJacobian(ls, qSize, ds, c);
    QuadraticFormSymmetric(MatMul(ds, ls, qSize), qSize, c);
  }

  /** (−a)·b == −(a·b). */
  lemma NegMatMul(a: Matrix, b: Matrix, p: nat)
    requires forall i :: 0 <= i < |a| ==> |a[i]| == |b|
    requires IsMatrix(b, |b|, p)
    ensures MatMul(Neg(a), b, p) == Neg(MatMul(a, b, p))
  {
    var l, r := MatMul(Neg(a), b, p), Neg(MatMul(a, b, p));
    forall i | 0 <= i < |a|
      ensures l[i] == r[i]
    {
      var na := Neg(a)[i];
      forall j | 0 <= j < p
        ensures l[i][j] == r[i][j]
      {
        var cj := Col(b, j);
        SumScale(|b|, k => if 0 <= k < |a[i]| then a[i][k] * cj[k] else 0.0,
                      k => if 0 <= k < |na| then na[k] * cj[k] else 0.0, -1.0);
      }
    }
  }

  /** (−m)·v == −(m·v). */
  lemma NegMatVec(m: Matrix, v: Vector)
    requires forall i :: 0 <= i < |m| ==> |m[i]| == |v|
    ensures MatVec(Neg(m), v) == NegVec(MatVec(m, v))
  {
    var l, r := MatVec(Neg(m), v), NegVec(MatVec(m, v));
    forall i | 0 <= i < |m|
      ensures l[i] == r[i]
    {
      var nm := Neg(m)[i];
      SumScale(|v|, k => if 0 <= k < |m[i]| then m[i][k] * v[k] else 0.0,
                    k => if 0 <= k < |nm| then nm[k] * v[k] else 0.0, -1.0);
    }
  }

  /** With ε = J·q̄ the internal force is −K·q̄ for K = Jᵀ·C·J: the element
      is linear elastic. */
  lemma ElasticForceIsStiffness(ls: Matrix, qSize: nat, ds: Matrix, c: Matrix, qBar: Vector)
    requires IsMatrix(ls, |ls|, qSize) && IsMatrix(ds, 3, |ls|) && IsMatrix(c, 3, 3) && |qBar| == qSize
    ensures var j := MatMul(ds, ls, qSize);
      ElasticForce(j, qSize, c, MatVec(j, qBar)) == NegVec(MatVec(Stiffness(ls, qSize, ds, c), qBar))
  {
    var j := MatMul(ds, ls, qSize);
    var jt := Transpose(j, qSize);
    var a := MatMul(jt, c, 3);
    NegMatMul(jt, c, 3);
    NegMatVec(a, MatVec(j, qBar));
    StiffnessFromJacobian(ls, qSize, ds, c);
    MatVecAssoc(a, j, qSize, qBar);
  }

  /** Jᵀ·f for a 2 × n Jacobian J and a 2-vector f: entry k is
      J[0][k]·f[0] + J[1][k]·f[1]. */
  lemma TransposeTimesPair(j: Matrix, n: nat, f: Vector, k: nat)
    requires IsMatrix(j, 2, n) && |f| == 2 && k < n
    ensures MatVec(Transpose(j, n), f)[k] == j[0][k] * f[0] + j[1][k] * f[1]
  {
    var row := Transpose(j, n)[k];
    var g := i => if 0 <= i < |row| then row[i] * f[i] else 0.0;
    assert Sum(1, g) == g(0);
  }

  class GeometryModel {
    const sdPts: seq<SupportDomainPoint>
    const searchParams: RPIMParameters
    /** The elasticity matrix of the material. */
    const cMat: Matrix := ElasticityMatrix()
    var deformation: Vector
    var strain: Vector
    var deformationJac: Matrix
    var strainJac: Matrix
    var xInter: Vector
    var lsMat: Matrix
    /** The column count of Ls, the length of the q̄ it was built for. */
    var qSize: nat
    var dsMatrix: Matrix
    /** The shape function of the last evaluation that built one. */
    ghost var shapeFunction: ShapeFunction?

    constructor (sdPts: seq<SupportDomainPoint>, rpimParams: RPIMParameters)
      ensures this.sdPts == sdPts && searchParams == rpimParams && cMat == ElasticityMatrix()
      ensures deformation == [] && strain == [] && deformationJac == [] && strainJac == []
      ensures xInter == [] && lsMat == [] && qSize == 0 && dsMatrix == [] && shapeFunction == null
    {
      this.sdPts := sdPts;
      searchParams := rpimParams;
      deformation, strain, deformationJac, strainJac := [], [], [], [];
      xInter, lsMat, qSize, dsMatrix := [], [], 0, [];
      shapeFunction := null;
    }

    /** The state after a complete evaluation at entry idx for q̄: Ls for
        q̄, the entry's point and shape function, and the quantities
        computed from its measures. */
    ghost predicate Evaluated(idx: nat, qBar: Vector, pow: (real, real) -> real, inv: Matrix -> Result<Matrix>)
      reads this
      requires idx < |sdPts| && PairedEntry(sdPts[idx]) && InverseKeepsShape(inv)
    {
      && Mapped(idx, qBar)
      && ShapeReady(sdPts[idx])
      && Computed(sdPts[idx], qBar, pow, inv)
    }

    /** Ls for entry idx and q̄ is stored with its column count. */
    ghost predicate Mapped(idx: nat, qBar: Vector)
      reads this`lsMat, this`qSize
      requires idx < |sdPts|
    {
      && MappingMatrix(sdPts[idx].supportIndices, |qBar|).Ok?
      && lsMat == MappingMatrix(sdPts[idx].supportIndices, |qBar|).value && qSize == |qBar|
    }

    /** x is the entry's point, and the shape function has a_c = alphaS,
        d_c and q from the search parameters and no polynomial terms. */
    ghost predicate ShapeReady(sd: SupportDomainPoint)
      reads this`xInter, this`shapeFunction
    {
      var sf := shapeFunction;
      && xInter == sd.pointCoords
      && sf != null && sf.ac == searchParams.alphaS && sf.dc == searchParams.dc && sf.q == searchParams.q && sf.ms == 0
    }

    /** The bases can be read at x, the moment matrix of the stored shape
        function is invertible and the stored quantities come from the
        measures it gives at x: those of `calculate` for a 2-vector x, and
        the empty measures otherwise, which only an entry without supports
        reaches. */
    ghost predicate Computed(sd: SupportDomainPoint, qBar: Vector, pow: (real, real) -> real, inv: Matrix -> Result<Matrix>)
      reads this
      requires PlanarPoints(sd.supportCoords) && InverseKeepsShape(inv)
      requires ShapeReady(sd)
    {
      var sf := shapeFunction;
      && sf.BasesReadable(xInter, |sd.supportCoords|)
      && inv(sf.MomentMatrix(sd.supportCoords, pow)).Ok?
      && if |xInter| == 2 then
           var gInv := inv(sf.MomentMatrix(sd.supportCoords, pow)).value;
           var phis := sf.PhiValues(xInter, sd.supportCoords, pow, gInv);
           StoredFrom(Measures(phis, sf.PhiGradients(xInter, sd.supportCoords, pow, gInv), PhiMatrix(phis)),
                      |sd.supportCoords|, qBar)
         else sd.supportCoords == [] && StoredFrom(Measures([], [], ZeroMatrix(|xInter|, 0)), 0, qBar)
    }

    /** The displacement, strain and their Jacobians computed from the
        shape-function measures m of ns support nodes and the stored Ls:
        u = Φ·es, Jᵤ = Φ·Ls, Ds from ∂Φ, ε = Strain(∂Φ, es), J = Ds·Ls
        with es = Ls·q̄. */
    ghost predicate StoredFrom(m: Measures, ns: nat, qBar: Vector)
      reads this
    {
      && IsMatrix(m.phisMat, |m.phisMat|, 2 * ns) && IsMatrix(m.phisJac, ns, 2) && IsMatrix(lsMat, 2 * ns, |qBar|)
      && var es := MatVec(lsMat, qBar);
         && deformation == MatVec(m.phisMat, es)
         && deformationJac == MatMul(m.phisMat, lsMat, |qBar|)
         && dsMatrix == DsMatrix(m.phisJac, ns)
         && strain == StrainOf(m.phisJac, ns, es)
         && strainJac == MatMul(dsMatrix, lsMat, |qBar|)
    }

    /** The second half of `update`: u and Jᵤ from Φ, then ε and Ds from a
        fresh strain object, then J = Ds·Ls.  The stored Jacobians map q̄
        to the stored displacement and strain. */
    method StoreMeasures(m: Measures, ns: nat, es: Vector, qBar: Vector)
      requires IsMatrix(m.phisMat, |m.phisMat|, 2 * ns) && IsMatrix(m.phisJac, ns, 2) && |m.phisVec| == ns
      requires IsMatrix(lsMat, 2 * ns, |qBar|) && es == MatVec(lsMat, qBar)
      modifies this`deformation, this`deformationJac, this`strain, this`dsMatrix, this`strainJac
      ensures StoredFrom(m, ns, qBar)
      ensures deformation == MatVec(deformationJac, qBar) && strain == MatVec(strainJac, qBar)
    {
      deformation := MatVec(m.phisMat, es);
      deformationJac := MatMul(m.phisMat, lsMat, |qBar|);
      MatVecAssoc(m.phisMat, lsMat, |qBar|, qBar);
      var strainS := new Strain();
      strainS.SetShapeFunction(m);
      ReadableRowsMeaning(m.phisJac, ns, 0);
      var su := strainS.Update(es);
      assert su.Ok?;
      strain := strainS.strainVector;
      dsMatrix := strainS.dsMatrix;
      strainJac := MatMul(dsMatrix, lsMat, |qBar|);
      StrainComponents(m.phisJac, ns, es);
      MatVecAssoc(dsMatrix, lsMat, |qBar|, qBar);
    }

    /** The part of `update` after Ls: a fresh shape function with the
        search parameters, x from the entry, the shape-function measures,
        and from them the displacement, the strain and their Jacobians.  A
        point the bases cannot read, or a singular moment matrix, aborts
        before any of those is stored. */
    method Evaluate(sd: SupportDomainPoint, qBar: Vector, pow: (real, real) -> real, inv: Matrix -> Result<Matrix>)
      returns (r: Result<()>)
      requires PlanarPoints(sd.supportCoords) && InverseKeepsShape(inv)
      requires IsMatrix(lsMat, 2 * |sd.supportCoords|, |qBar|)
      modifies this`xInter, this`shapeFunction
      modifies this`deformation, this`deformationJac, this`strain, this`dsMatrix, this`strainJac
      ensures ShapeReady(sd) && fresh(shapeFunction)
      ensures r == shapeFunction.Outcome(sd.pointCoords, sd.supportCoords, pow, inv)
      ensures r.Fail? ==> (deformation == old(deformation) && deformationJac == old(deformationJac)
        && strain == old(strain) && dsMatrix == old(dsMatrix) && strainJac == old(strainJac))
      ensures r.Ok? ==> Computed(sd, qBar, pow, inv)
      ensures r.Ok? ==> deformation == MatVec(deformationJac, qBar) && strain == MatVec(strainJac, qBar)
      ensures r.Ok? && |sd.pointCoords| != 2 ==>
        sd.supportCoords == [] && deformation == ZeroVector(|sd.pointCoords|) && strain == ZeroVector(3)
    {
      var es := MatVec(lsMat, qBar);
      var sfS := new ShapeFunction(searchParams.alphaS, searchParams.dc, searchParams.q, 0);
      shapeFunction := sfS;
      xInter := sd.pointCoords;
      var shapeFunctionS := sfS.Calculate(xInter, sd.supportCoords, pow, inv);
      if shapeFunctionS.Fail? {
        return Fail(shapeFunctionS.error);
      }
      StoreMeasures(shapeFunctionS.value, |sd.supportCoords|, es, qBar);
      if |xInter| != 2 {
        EmptyMeasuresStore(|xInter|, qBar);
      }
      r := Ok(());
    }

    /** The empty measures of a d-entry point leave a zero displacement
        with d entries and a zero strain. */
    lemma EmptyMeasuresStore(d: nat, qBar: Vector)
      requires StoredFrom(Measures([], [], ZeroMatrix(d, 0)), 0, qBar)
      ensures deformation == ZeroVector(d) && strain == ZeroVector(3)
    {
      assert forall i :: 0 <= i < d ==> deformation[i] == Dot([], []);
    }

    /** `update`: evaluates the model at entry idx for q̄.  An idx past the
        end, or a support node whose dofs lie past the end of q̄, aborts
        with nothing changed; a point the bases cannot read or a singular
        moment matrix aborts after Ls and x are stored.  On success
        u = (Φ·Ls)·q̄ and ε = (Ds·Ls)·q̄: the stored Jacobians map q̄ to the
        stored displacement and strain.  An entry without supports whose
        point is not a 2-vector (the entry of a point no field node reached)
        evaluates to the empty measures, so its u has one zero per entry of
        its point and its ε is zero. */
    method Update(idx: nat, qBar: Vector, tol: real, pow: (real, real) -> real, inv: Matrix -> Result<Matrix>)
      returns (r: Result<()>)
      requires idx < |sdPts| ==> PairedEntry(sdPts[idx])
      requires InverseKeepsShape(inv)
      modifies this`lsMat, this`qSize, this`xInter, this`shapeFunction
      modifies this`deformation, this`deformationJac, this`strain, this`dsMatrix, this`strainJac
      ensures idx >= |sdPts| || !SlotsFit(sdPts[idx].supportIndices, |qBar|) ==>
        r == Fail(OutOfRange) && lsMat == old(lsMat) && qSize == old(qSize) && xInter == old(xInter)
        && shapeFunction == old(shapeFunction)
      ensures r.Fail? ==> (deformation == old(deformation) && deformationJac == old(deformationJac)
        && strain == old(strain) && dsMatrix == old(dsMatrix) && strainJac == old(strainJac))
      ensures idx < |sdPts| && SlotsFit(sdPts[idx].supportIndices, |qBar|) ==>
        && Mapped(idx, qBar) && ShapeReady(sdPts[idx]) && fresh(shapeFunction)
        && r == shapeFunction.Outcome(sdPts[idx].pointCoords, sdPts[idx].supportCoords, pow, inv)
      ensures r.Ok? ==> idx < |sdPts| && Evaluated(idx, qBar, pow, inv)
      ensures r.Ok? ==> deformation == MatVec(deformationJac, qBar) && strain == MatVec(strainJac, qBar)
      ensures r.Ok? && |sdPts[idx].pointCoords| != 2 ==>
        sdPts[idx].supportCoords == [] && deformation == ZeroVector(|sdPts[idx].pointCoords|) && strain == ZeroVector(3)
    {
      if idx >= |sdPts| {
        return Fail(OutOfRange);
      }
      var supDomS := sdPts[idx];
      var ls := GlobalToLocalMappingMatrix(supDomS, |qBar|);
      if ls.Fail? {
        return Fail(ls.error);
      }
      lsMat := ls.value;
      qSize := |qBar|;
      r := Evaluate(supDomS, qBar, pow, inv);
    }

    /** `f_el_function`: the internal force −Jᵀ·C·ε from the stored strain
        Jacobian and strain; before any evaluation the sizes disagree. */
    function FEl(x: Vector, qBar: Vector): (r: Result<Vector>)
      reads this`strainJac, this`strain
      ensures r.Ok? <==> |strainJac| == 3 && IsMatrix(strainJac, 3, |strainJac[0]|) && |strain| == 3
      ensures r.Fail? ==> r.error == SizeMismatch
      ensures r.Ok? ==> |r.value| == |strainJac[0]|
    {
      if |strainJac| == 3 && IsMatrix(strainJac, 3, |strainJac[0]|) && |strain| == 3 then
        Ok(ElasticForce(strainJac, |strainJac[0]|, cMat, strain))
      else Fail(SizeMismatch)
    }

    /** `k_el_function`: Lsᵀ·Dsᵀ·C·Ds·Ls from the stored Ls and Ds, a
        symmetric qSize × qSize matrix. */
    function KEl(x: Vector, qBar: Vector): (r: Result<Matrix>)
      reads this`lsMat, this`qSize, this`dsMatrix
      ensures r.Ok? <==> IsMatrix(lsMat, |lsMat|, qSize) && IsMatrix(dsMatrix, 3, |lsMat|)
      ensures r.Fail? ==> r.error == SizeMismatch
      ensures r.Ok? ==> IsSymmetric(r.value, qSize)
    {
      if IsMatrix(lsMat, |lsMat|, qSize) && IsMatrix(dsMatrix, 3, |lsMat|) then
        StiffnessSymmetric(lsMat, qSize, dsMatrix, cMat);
        Ok(Stiffness(lsMat, qSize, dsMatrix, cMat))
      else Fail(SizeMismatch)
    }

    /** `f_bex_function`: the body force carried to the dofs, Jᵤᵀ·b, which
        is zero because the body force is. */
    function FBex(x: Vector, qBar: Vector): (r: Result<Vector>)
      reads this`deformationJac
      ensures r.Ok? <==> |deformationJac| == 2 && IsMatrix(deformationJac, 2, |deformationJac[0]|)
      ensures r.Fail? ==> r.error == SizeMismatch
      ensures r.Ok? ==> r.value == ZeroVector(|deformationJac[0]|)
    {
      if |deformationJac| == 2 && IsMatrix(deformationJac, 2, |deformationJac[0]|) then
        var n := |deformationJac[0]|;
        var f := MatVec(Transpose(deformationJac, n), ExternalForceFunction(x, qBar));
        assert forall k :: 0 <= k < n ==> f[k] == 0.0 by {
          forall k | 0 <= k < n
            ensures f[k] == 0.0
          {
            TransposeTimesPair(deformationJac, n, ExternalForceFunction(x, qBar), k);
          }
        }
        Ok(f)
      else Fail(SizeMismatch)
    }

    /** `f_tex_function`: the traction carried to the dofs, Jᵤᵀ·t(x): only
        the y row of Jᵤ contributes, and only on the loaded end.  An x the
        traction cannot read (no x0, or no x1 on the loaded end) fails its
        element access. */
    function FTex(x: Vector, qBar: Vector): (r: Result<Vector>)
      reads this`deformationJac
      ensures !TractionReadable(x) ==> r == Fail(OutOfRange)
      ensures TractionReadable(x) ==> (r.Ok? <==> |deformationJac| == 2 && IsMatrix(deformationJac, 2, |deformationJac[0]|))
      ensures r.Fail? ==> r.error == OutOfRange || r.error == SizeMismatch
      ensures r.Ok? ==> (TractionReadable(x) && |r.value| == |deformationJac[0]| &&
        forall k :: 0 <= k < |r.value| ==>
          r.value[k] == if x[0] >= 47.8 then deformationJac[1][k] * ShearTraction(x[1]) else 0.0)
    {
      if !TractionReadable(x) then Fail(OutOfRange)
      else if |deformationJac| == 2 && IsMatrix(deformationJac, 2, |deformationJac[0]|) then
        var n := |deformationJac[0]|;
        var t := ExternalTractionFunction(x, qBar);
        var f := MatVec(Transpose(deformationJac, n), t);
        assert forall k :: 0 <= k < n ==>
          f[k] == if x[0] >= 47.8 then deformationJac[1][k] * ShearTraction(x[1]) else 0.0 by {
          forall k | 0 <= k < n
            ensures f[k] == if x[0] >= 47.8 then deformationJac[1][k] * ShearTraction(x[1]) else 0.0
          {
            TransposeTimesPair(deformationJac, n, t, k);
          }
        }
        Ok(f)
      else Fail(SizeMismatch)
    }

    /** After a successful evaluation the internal force is −K·q̄: the
        stored strain is linear in q̄ through the stiffness. */
    lemma ForceBalance(x: Vector, idx: nat, qBar: Vector, pow: (real, real) -> real, inv: Matrix -> Result<Matrix>)
      requires idx < |sdPts| && WellFormedEntry(sdPts[idx]) && InverseKeepsShape(inv)
      requires Evaluated(idx, qBar, pow, inv)
      requires strain == MatVec(strainJac, qBar)
      ensures FEl(x, qBar).Ok? && KEl(x, qBar).Ok?
      ensures FEl(x, qBar).value == NegVec(MatVec(KEl(x, qBar).value, qBar))
    {
      ElasticForceIsStiffness(lsMat, qSize, dsMatrix, cMat, qBar);
    }

    /** After a successful evaluation the stored displacement is the one the
        evaluation's shape function gives at the entry. */
    lemma EvaluatedDisplacement(idx: nat, qBar: Vector, pow: (real, real) -> real, inv: Matrix -> Result<Matrix>)
      requires idx < |sdPts| && WellFormedEntry(sdPts[idx]) && InverseKeepsShape(inv)
      requires Evaluated(idx, qBar, pow, inv)
      ensures shapeFunction != null && Displacement(shapeFunction, sdPts[idx], qBar, pow, inv) == Ok(deformation)
    {
    }
  }
}
