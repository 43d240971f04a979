/** Gauss-Legendre quadrature over the boundary segments (`GQLineRPIM`,
    src/gq_line_rpim.cpp): the weight and abscissa tables, kept exactly as
    the constructor pushes them, and the generation of the quadrature points
    of every boundary segment of a mesh. */
module GQLine {
  import opened Geom
  import opened Meshes
  import opened Errors
  import opened SeqUtils
  import opened LinAlg

  /** Per segment: its index, half its length and the indices of its
      quadrature points. */
  datatype CellProperties = CellProperties(cellIdx: nat, length: real, quadrPtIdx: seq<nat>)

  // -----------------------------------------------------------------------
  // The tables pushed by `weight_point_generation`
  // -----------------------------------------------------------------------

  function Weights1(): seq<real> { [2.0] }
  function Points1(): seq<real> { [0.0] }

  function Weights2(): seq<real> { [1.0, 1.0] }
  function Points2(): seq<real> { [-0.5773502691896257, 0.5773502691896257] }

  function Weights3(): seq<real> { [0.8888888888888888, 0.5555555555555556, 0.5555555555555556] }
  function Points3(): seq<real> { [0.0, -0.7745966692414834, 0.7745966692414834] }

  function Weights4(): seq<real>
  {
    [0.6521451548625461, 0.6521451548625461, 0.3478548451374538, 0.3478548451374538]
  }
  function Points4(): seq<real>
  {
    [-0.3399810435848563, 0.3399810435848563, -0.8611363115940526, 0.8611363115940526]
  }

  function Weights5(): seq<real>
  {
    [0.5688888888888889, 0.4786286704993665, 0.4786286704993665, 0.2369268850561891, 0.2369268850561891]
  }
  function Points5(): seq<real>
  {
    [0.0, -0.5384693101056831, 0.5384693101056831, -0.9061798459386640, 0.9061798459386640]
  }

  function Weights6(): seq<real>
  {
    [0.3607615730481386, 0.3607615730481386, 0.4679139345726910, 0.4679139345726910,
     0.1713244923791704, 0.1713244923791704]
  }
  function Points6(): seq<real>
  {
    [0.6612093864662645, -0.6612093864662645, -0.2386191860831969, 0.2386191860831969,
     -0.9324695142031521, 0.9324695142031521]
  }

  function Weights7(): seq<real>
  {
    [0.4179591836734694, 0.3818300505051189, 0.3818300505051189, 0.2797053914892766,
     0.2797053914892766, 0.1294849661688697, 0.1294849661688697]
  }
  function Points7(): seq<real>
  {
    [0.0, 0.4058451513773972, -0.4058451513773972, -0.7415311855993945, 0.7415311855993945,
     -0.9491079123427585, 0.9491079123427585]
  }

  function Weights8(): seq<real>
  {
    [0.3626837833783620, 0.3626837833783620, 0.3137066458778873, 0.3137066458778873,
     0.2223810344533745, 0.2223810344533745, 0.1012285362903763, 0.1012285362903763]
  }
  function Points8(): seq<real>
  {
    [-0.1834346424956498, 0.1834346424956498, -0.5255324099163290, 0.5255324099163290,
     -0.7966664774136267, 0.7966664774136267, -0.9602898564975363, 0.9602898564975363]
  }

  function Weights9(): seq<real>
  {
    [0.3302393550012598, 0.1806481606948574, 0.1806481606948574, 0.0812743883615744,
     0.0812743883615744, 0.3123470770400029, 0.3123470770400029, 0.2606106964029354,
     0.2606106964029354]
  }
  function Points9(): seq<real>
  {
    [0.0000000000000000, -0.8360311073266358, 0.8360311073266358, -0.9681602395076261,
     0.9681602395076261, -0.3242534234038089, 0.3242534234038089, -0.6133714327005904,
     0.6133714327005904]
  }

  function Weights10(): seq<real>
  {
    [0.2955242247147529, 0.2955242247147529, 0.2692667193099963, 0.2692667193099963,
     0.2190863625159820, 0.2190863625159820, 0.1494513491505806, 0.1494513491505806,
     0.0666713443086881, 0.0666713443086881]
  }
  function Points10(): seq<real>
  {
    [-0.1488743389816312, 0.1488743389816312, -0.4333953941292472, 0.4333953941292472,
     -0.6794095682990244, 0.6794095682990244, -0.8650633666889845, 0.8650633666889845,
     -0.9739065285171717, 0.9739065285171717]
  }

  /** The weights container as built: the four-point abscissas are pushed
      into it right after the four-point weights, so it holds 11 tables. */
  function WeightsContainer(): seq<seq<real>>
  {
    LowOrderWeights() + HighOrderWeights()
  }

  function LowOrderWeights(): seq<seq<real>>
  {
    [Weights1(), Weights2(), Weights3(), Weights4(), Points4()]
  }

  function HighOrderWeights(): seq<seq<real>>
  {
    [Weights5(), Weights6(), Weights7(), Weights8(), Weights9(), Weights10()]
  }

  /** The points container as built: no four-point abscissas, so 9 tables. */
  function PointsContainer(): seq<seq<real>>
  {
    LowOrderPoints() + HighOrderPoints()
  }

  function LowOrderPoints(): seq<seq<real>>
  {
    [Points1(), Points2(), Points3()]
  }

  function HighOrderPoints(): seq<seq<real>>
  {
    [Points5(), Points6(), Points7(), Points8(), Points9(), Points10()]
  }

  function SumOf(w: seq<real>): real
  {
    if |w| == 0 then 0.0 else w[0] + SumOf(w[1..])
  }

  /** Abscissas lie in [-1, 1] and come in +/- pairs. */
  predicate SymmetricAbscissas(p: seq<real>)
  {
    (forall k :: 0 <= k < |p| ==> -1.0 <= p[k] <= 1.0) &&
    (forall k :: 0 <= k < |p| ==> -p[k] in p)
  }

  /** The weights of the one-, two- and three-point rules sum to exactly 2,
      the length of [-1, 1]. */
  lemma LowOrderWeightSums()
    ensures SumOf(Weights1()) == 2.0
    ensures SumOf(Weights2()) == 2.0
    ensures SumOf(Weights3()) == 2.0
  {
    var w2 := Weights2();
    assert w2[1..][1..] == [];
    var w3 := Weights3();
    assert w3[1..][1..][1..] == [];
  }

  /** The abscissas of the one-, two- and three-point rules are symmetric
      sets inside [-1, 1]. */
  lemma OnePointAbscissasSymmetric()
    ensures SymmetricAbscissas(Points1())
  {
  }

  lemma TwoPointAbscissasSymmetric()
    ensures SymmetricAbscissas(Points2())
  {
  }

  lemma ThreePointAbscissasSymmetric()
    ensures SymmetricAbscissas(Points3())
  {
  }

  /** The consequences of the misplaced push: 11 weight tables against 9
      point tables; evals = 4 reads the first four abscissas of the
      five-point rule, evals = 5 takes the four-point abscissas as its
      weights, and the point tables for evals = 10 and 11 do not exist. */
  lemma ContainersMisaligned()
    ensures |WeightsContainer()| == 11 && |PointsContainer()| == 9
    ensures PointsContainer()[4 - 1] == Points5()
    ensures WeightsContainer()[5 - 1] == Points4()
    ensures forall k :: 0 <= k < 9 ==> |PointsContainer()[k]| >= k + 1
    ensures forall k :: 0 <= k < 11 ==> |WeightsContainer()[k]| == (if k == 4 then 4 else if k > 4 then k else k + 1)
  {
  }

  // -----------------------------------------------------------------------
  // Geometry of one segment
  // -----------------------------------------------------------------------

  /** `(p2 - p1) * xi / 2 + (p1 + p2) / 2`, with z = 0. */
  function LinePoint(p1: Point, p2: Point, xi: real): Point
  {
    Point((p2.x - p1.x) * xi / 2.0 + (p1.x + p2.x) / 2.0,
          (p2.y - p1.y) * xi / 2.0 + (p1.y + p2.y) / 2.0,
          0.0)
  }

  /** xi = -1, 0 and 1 land on the first end, the midpoint and the second
      end of the segment (in the plane). */
  lemma LinePointEnds(p1: Point, p2: Point)
    ensures LinePoint(p1, p2, -1.0).x == p1.x && LinePoint(p1, p2, -1.0).y == p1.y
    ensures LinePoint(p1, p2, 1.0).x == p2.x && LinePoint(p1, p2, 1.0).y == p2.y
    ensures LinePoint(p1, p2, 0.0).x == SegmentMidpoint(p1, p2).x
    ensures LinePoint(p1, p2, 0.0).y == SegmentMidpoint(p1, p2).y
  {
  }

  /** dx^2 + dy^2 of a segment. */
  function SquaredLength(p1: Point, p2: Point): real
  {
    (p2.x - p1.x) * (p2.x - p1.x) + (p2.y - p1.y) * (p2.y - p1.y)
  }

  /** `ls = 0.5 * sqrt(dx^2 + dy^2)`; the square root is supplied. */
  function HalfLength(sqrt: real -> real, p1: Point, p2: Point): real
  {
    (1.0 / 2.0) * sqrt(SquaredLength(p1, p2))
  }

  /** Where the square root is exact, the stored length is half the
      segment's length: non-negative, and 4 ls^2 = dx^2 + dy^2. */
  lemma HalfLengthSquared(sqrt: real -> real, p1: Point, p2: Point)
    requires var d := SquaredLength(p1, p2); sqrt(d) >= 0.0 && sqrt(d) * sqrt(d) == d
    ensures HalfLength(sqrt, p1, p2) >= 0.0
    ensures 4.0 * HalfLength(sqrt, p1, p2) * HalfLength(sqrt, p1, p2) ==
            (p2.x - p1.x) * (p2.x - p1.x) + (p2.y - p1.y) * (p2.y - p1.y)
  {
    var s := sqrt(SquaredLength(p1, p2));
    assert 4.0 * ((1.0 / 2.0) * s) * ((1.0 / 2.0) * s) == s * s;
  }

  // -----------------------------------------------------------------------
  // What one call produces for segment i
  // -----------------------------------------------------------------------

  predicate ValidLines(mesh: Mesh2D)
  {
    forall i :: 0 <= i < |mesh.boundElements| ==> ValidLine(mesh, mesh.boundElements[i])
  }

  function End1(mesh: Mesh2D, i: nat): Point
    requires ValidLines(mesh) && i < |mesh.boundElements|
  {
    mesh.nodeCoords[mesh.boundElements[i].node1]
  }

  function End2(mesh: Mesh2D, i: nat): Point
    requires ValidLines(mesh) && i < |mesh.boundElements|
  {
    mesh.nodeCoords[mesh.boundElements[i].node2]
  }

  /** The points of segment i, one per abscissa, in table order. */
  function ElementPoints(mesh: Mesh2D, xi: seq<real>, i: nat): (pts: seq<Point>)
    requires ValidLines(mesh) && i < |mesh.boundElements|
    ensures |pts| == |xi|
  {
    seq(|xi|, k requires 0 <= k < |xi| => LinePoint(End1(mesh, i), End2(mesh, i), xi[k]))
  }

  /** The same points as the 2-vectors kept in `m_quadrature_pts`. */
  function ElementVectors(mesh: Mesh2D, xi: seq<real>, i: nat): (vs: seq<Vector>)
    requires ValidLines(mesh) && i < |mesh.boundElements|
    ensures |vs| == |xi|
  {
    var pts := ElementPoints(mesh, xi, i);
    seq(|pts|, k requires 0 <= k < |pts| => [pts[k].x, pts[k].y])
  }

  /** Cell i owns the n consecutive point indices i*n, ..., i*n+n-1. */
  function ElementCell(mesh: Mesh2D, sqrt: real -> real, n: nat, i: nat): CellProperties
    requires ValidLines(mesh) && i < |mesh.boundElements|
  {
    CellProperties(i, HalfLength(sqrt, End1(mesh, i), End2(mesh, i)), Iota(i * n, n))
  }

  function AllPoints(mesh: Mesh2D, xi: seq<real>, n: nat): (s: seq<seq<Point>>)
    requires ValidLines(mesh) && n <= |mesh.boundElements|
    ensures |s| == n && AllOfLength(s, |xi|)
    ensures forall i :: 0 <= i < n ==> s[i] == ElementPoints(mesh, xi, i)
  {
    seq(n, i requires 0 <= i < n => ElementPoints(mesh, xi, i))
  }

  function AllVectors(mesh: Mesh2D, xi: seq<real>, n: nat): (s: seq<seq<Vector>>)
    requires ValidLines(mesh) && n <= |mesh.boundElements|
    ensures |s| == n && forall i :: 0 <= i < n ==> s[i] == ElementVectors(mesh, xi, i)
  {
    seq(n, i requires 0 <= i < n => ElementVectors(mesh, xi, i))
  }

  function AllCells(mesh: Mesh2D, sqrt: real -> real, k: nat, n: nat): (s: seq<CellProperties>)
    requires ValidLines(mesh) && n <= |mesh.boundElements|
    ensures |s| == n && forall i :: 0 <= i < n ==> s[i] == ElementCell(mesh, sqrt, k, i)
  {
    seq(n, i requires 0 <= i < n => ElementCell(mesh, sqrt, k, i))
  }

  lemma AllSnoc(mesh: Mesh2D, xi: seq<real>, sqrt: real -> real, i: nat)
    requires ValidLines(mesh) && i < |mesh.boundElements|
    ensures Flatten(AllPoints(mesh, xi, i + 1)) == Flatten(AllPoints(mesh, xi, i)) + ElementPoints(mesh, xi, i)
    ensures AllVectors(mesh, xi, i + 1) == AllVectors(mesh, xi, i) + [ElementVectors(mesh, xi, i)]
    ensures AllCells(mesh, sqrt, |xi|, i + 1) == AllCells(mesh, sqrt, |xi|, i) + [ElementCell(mesh, sqrt, |xi|, i)]
  {
    assert AllPoints(mesh, xi, i + 1) == AllPoints(mesh, xi, i) + [ElementPoints(mesh, xi, i)];
    FlattenSnoc(AllPoints(mesh, xi, i), ElementPoints(mesh, xi, i));
  }

  /** The abscissas a call with `evals` points uses: the first `evals`
      entries of table `evals - 1` of the points container. */
  function Abscissas(evals: int): (xi: seq<real>)
    requires 1 <= evals <= 9
    ensures |xi| == evals
  {
    ContainersMisaligned();
    PointsContainer()[evals - 1][..evals]
  }

  /** The cloud of one call has (segments x evals) points in cell-major
      order, and the indices recorded for cell i address exactly the points
      of segment i. */
  lemma CellOwnsItsPoints(mesh: Mesh2D, xi: seq<real>, sqrt: real -> real, i: nat, k: nat)
    requires ValidLines(mesh)
    requires i < |mesh.boundElements| && k < |xi|
    ensures |Flatten(AllPoints(mesh, xi, |mesh.boundElements|))| == |mesh.boundElements| * |xi|
    ensures var idx := ElementCell(mesh, sqrt, |xi|, i).quadrPtIdx[k];
      idx < |Flatten(AllPoints(mesh, xi, |mesh.boundElements|))| &&
      Flatten(AllPoints(mesh, xi, |mesh.boundElements|))[idx] == ElementPoints(mesh, xi, i)[k]
  {
    var all := AllPoints(mesh, xi, |mesh.boundElements|);
    FlattenLength(all, |xi|);
    FlattenIndex(all, |xi|, i, k);
  }

  /** The inner loop of `generate_quadrature_points` for segment i: map
      each abscissa onto the segment and number it with the running
      counter. */
  method MapSegment(mesh: Mesh2D, xi: seq<real>, i: nat, counter: nat)
      returns (pts: seq<Point>, vecs: seq<Vector>, idx: seq<nat>, counterOut: nat)
    requires ValidLines(mesh) && i < |mesh.boundElements|
    ensures pts == ElementPoints(mesh, xi, i)
    ensures vecs == ElementVectors(mesh, xi, i)
    ensures idx == Iota(counter, |xi|)
    ensures counterOut == counter + |xi|
  {
    var e := mesh.boundElements[i];
    var v1, v2 := mesh.nodeCoords[e.node1], mesh.nodeCoords[e.node2];
    ghost var elemPts := ElementPoints(mesh, xi, i);
    ghost var elemVecs := ElementVectors(mesh, xi, i);
    pts, vecs, idx, counterOut := [], [], [], counter;
    var k := 0;
    while k < |xi|
      invariant 0 <= k <= |xi|
      invariant counterOut == counter + k
      invariant idx == Iota(counter, k)
      invariant vecs == elemVecs[..k]
      invariant pts == elemPts[..k]
    {
      var p := LinePoint(v1, v2, xi[k]);
      var xk: Vector := [p.x, p.y];
      assert elemPts[k] == p == Point(xk[0], xk[1], 0.0);
      assert elemPts[..k + 1] == elemPts[..k] + [Point(xk[0], xk[1], 0.0)];
      assert elemVecs[..k + 1] == elemVecs[..k] + [xk];
      assert Iota(counter, k + 1) == Iota(counter, k) + [counterOut];
      vecs := vecs + [xk];
      pts := pts + [Point(xk[0], xk[1], 0.0)];
      idx := idx + [counterOut];
      counterOut := counterOut + 1;
      k := k + 1;
    }
    assert elemPts[..k] == elemPts;
    assert elemVecs[..k] == elemVecs;
  }

  // -----------------------------------------------------------------------
  // The class
  // -----------------------------------------------------------------------

  class GQLineRPIM {
    var weights: seq<real>
    var weightsContainer: seq<seq<real>>
    var pointsContainer: seq<seq<real>>
    var quadraturePts: seq<seq<Vector>>
    var elementsNum: nat
    var cellProperties: seq<CellProperties>

    predicate Valid()
      reads this
    {
      weightsContainer == WeightsContainer() && pointsContainer == PointsContainer()
    }

    /** The constructor fills the tables. */
    constructor ()
      ensures Valid()
      ensures weights == [] && cellProperties == [] && quadraturePts == []
    {
      weights := [];
      weightsContainer := [];
      pointsContainer := [];
      quadraturePts := [];
      elementsNum := 0;
      cellProperties := [];
      new;
      WeightPointGeneration();
    }

    /** `weight_point_generation`: push the tables in source order,
        including the four-point abscissas into the weights container. */
    method WeightPointGeneration()
      modifies this
      ensures weightsContainer == old(weightsContainer) + WeightsContainer()
      ensures pointsContainer == old(pointsContainer) + PointsContainer()
      ensures weights == old(weights) && quadraturePts == old(quadraturePts)
      ensures elementsNum == old(elementsNum) && cellProperties == old(cellProperties)
    {
      PushLowOrders();
      PushHighOrders();
      assert WeightsContainer() == LowOrderWeights() + HighOrderWeights();
      assert PointsContainer() == LowOrderPoints() + HighOrderPoints();
    }

    /** The one- to four-point tables, with the misplaced push. */
    method PushLowOrders()
      modifies this
      ensures weightsContainer == old(weightsContainer) + LowOrderWeights()
      ensures pointsContainer == old(pointsContainer) + LowOrderPoints()
      ensures weights == old(weights) && quadraturePts == old(quadraturePts)
      ensures elementsNum == old(elementsNum) && cellProperties == old(cellProperties)
    {
      weightsContainer := weightsContainer + [Weights1()];
      pointsContainer := pointsContainer + [Points1()];
      weightsContainer := weightsContainer + [Weights2()];
      pointsContainer := pointsContainer + [Points2()];
      weightsContainer := weightsContainer + [Weights3()];
      pointsContainer := pointsContainer + [Points3()];
      weightsContainer := weightsContainer + [Weights4()];
      weightsContainer := weightsContainer + [Points4()];
    }

    /** The five- to ten-point tables. */
    method PushHighOrders()
      modifies this
      ensures weightsContainer == old(weightsContainer) + HighOrderWeights()
      ensures pointsContainer == old(pointsContainer) + HighOrderPoints()
      ensures weights == old(weights) && quadraturePts == old(quadraturePts)
      ensures elementsNum == old(elementsNum) && cellProperties == old(cellProperties)
    {
      weightsContainer := weightsContainer + [Weights5()];
      pointsContainer := pointsContainer + [Points5()];
      weightsContainer := weightsContainer + [Weights6()];
      pointsContainer := pointsContainer + [Points6()];
      weightsContainer := weightsContainer + [Weights7()];
      pointsContainer := pointsContainer + [Points7()];
      weightsContainer := weightsContainer + [Weights8()];
      pointsContainer := pointsContainer + [Points8()];
      weightsContainer := weightsContainer + [Weights9()];
      pointsContainer := pointsContainer + [Points9()];
      weightsContainer := weightsContainer + [Weights10()];
      pointsContainer := pointsContainer + [Points10()];
    }

    /** `get_integration_cells_properties` */
    function GetIntegrationCellsProperties(): (c: seq<CellProperties>)
      reads this
      ensures c == cellProperties
    {
      cellProperties
    }

    /** `get_quadrature_weights` */
    function GetQuadratureWeights(): (w: seq<real>)
      reads this
      ensures w == weights
    {
      weights
    }

    /** `generate_quadrature_points`.  `evals` outside 1..11 fails the
        weights look-up before anything changes.  Otherwise `weights` is
        replaced by table `evals - 1` of the weights container; for evals 10
        and 11 the look-up of the points table then fails as soon as there
        is a segment, leaving the points and cells as they were.  In the
        remaining cases every segment contributes its mapped points (z = 0)
        in cell-major order, and one cell record per segment is appended to
        `cellProperties`, its point indices counted from 0 for this call. */
    method GenerateQuadraturePoints(mesh: Mesh2D, evals: int, sqrt: real -> real) returns (r: Result<seq<Point>>)
      requires Valid()
      requires ValidLines(mesh)
      modifies this
      ensures Valid()
      ensures r.Ok? <==> (1 <= evals <= 9 || (10 <= evals <= 11 && |mesh.boundElements| == 0))
      ensures r.Fail? ==> r.error == OutOfRange
      ensures !(1 <= evals <= 11) ==> weights == old(weights) && elementsNum == old(elementsNum)
      ensures 1 <= evals <= 11 ==> weights == WeightsContainer()[evals - 1] && elementsNum == |mesh.boundElements|
      ensures r.Fail? ==> quadraturePts == old(quadraturePts) && cellProperties == old(cellProperties)
      ensures r.Ok? && evals <= 9 ==> r.value == Flatten(AllPoints(mesh, Abscissas(evals), |mesh.boundElements|))
      ensures r.Ok? && evals <= 9 ==> quadraturePts == old(quadraturePts) + AllVectors(mesh, Abscissas(evals), |mesh.boundElements|)
      ensures r.Ok? && evals <= 9 ==> cellProperties == old(cellProperties) + AllCells(mesh, sqrt, evals, |mesh.boundElements|)
      ensures r.Ok? && evals > 9 ==> r.value == [] && quadraturePts == old(quadraturePts) && cellProperties == old(cellProperties)
    {
      if !(0 <= evals - 1 < |weightsContainer|) {
        return Fail(OutOfRange);
      }
      weights := weightsContainer[evals - 1];
      elementsNum := |mesh.boundElements|;
      if elementsNum == 0 {
        return Ok([]);
      }
      if !(evals - 1 < |pointsContainer|) {
        return Fail(OutOfRange);
      }
      ContainersMisaligned();
      var xi := pointsContainer[evals - 1][..evals];
      assert xi == Abscissas(evals);

      var quadrPts: seq<Point> := [];
      var quadrCounter: nat := 0;
      var i := 0;
      while i < elementsNum
        invariant 0 <= i <= elementsNum == |mesh.boundElements|
        invariant Valid() && weights == WeightsContainer()[evals - 1]
        invariant quadrCounter == i * evals
        invariant quadrPts == Flatten(AllPoints(mesh, xi, i))
        invariant quadraturePts == old(quadraturePts) + AllVectors(mesh, xi, i)
        invariant cellProperties == old(cellProperties) + AllCells(mesh, sqrt, evals, i)
      {
        var e := mesh.boundElements[i];
        var v1, v2 := mesh.nodeCoords[e.node1], mesh.nodeCoords[e.node2];
        var ls := (1.0 / 2.0) * sqrt(SquaredLength(v1, v2));
        var cellIdx := i;
        var cellPts, xkVec, cellPtIdx;
        cellPts, xkVec, cellPtIdx, quadrCounter := MapSegment(mesh, xi, i, quadrCounter);
        quadrPts := quadrPts + cellPts;
        assert ls == HalfLength(sqrt, End1(mesh, i), End2(mesh, i));
        assert cellPtIdx == Iota(i * evals, evals);
        assert ElementCell(mesh, sqrt, evals, i) == CellProperties(cellIdx, ls, cellPtIdx);
        cellProperties := cellProperties + [CellProperties(cellIdx, ls, cellPtIdx)];
        quadraturePts := quadraturePts + [xkVec];
        AllSnoc(mesh, xi, sqrt, i);
        assert (i + 1) * evals == i * evals + evals;
        i := i + 1;
      }
      r := Ok(quadrPts);
    }
  }
}
