/** Gaussian quadrature over the background triangles (`GQTriangleRPIM`,
    src/gq_triangle_rpim.cpp): the rule tables of Zienkiewicz, The Finite
    Element Method, Vol. 1, Table 9.2, and the generation of the quadrature
    points of every triangle of a mesh. */
module GQTriangle {
  import opened Geom
  import opened Meshes
  import opened Errors
  import opened SeqUtils
  import opened LinAlg

  /** Integration orders (include/gq_triangle_rpim.h:16-19). */
  const LINEAR: int := 0
  const QUADRATIC: int := 1
  const CUBIC: int := 2
  const QUINTIC: int := 3

  /** A point in area coordinates (u, v, w). */
  datatype RefPoint = RefPoint(u: real, v: real, w: real)

  /** A rule: weights and points of equal number. */
  datatype WeightPoint = WeightPoint(weight: seq<real>, point: seq<RefPoint>)

  /** Per triangle: its index, its area and the indices of its quadrature
      points. */
  datatype CellProperties = CellProperties(cellIdx: nat, area: real, quadrPtIdx: seq<nat>)

  // -----------------------------------------------------------------------
  // The tables built by `weight_point_generation`
  // -----------------------------------------------------------------------

  function LinearRule(): WeightPoint
  {
    WeightPoint([1.0], [RefPoint(1.0 / 3.0, 1.0 / 3.0, 1.0 / 3.0)])
  }

  function QuadraticRule(): WeightPoint
  {
    WeightPoint([1.0 / 3.0, 1.0 / 3.0, 1.0 / 3.0],
                [RefPoint(0.5, 0.5, 0.0), RefPoint(0.0, 0.5, 0.5), RefPoint(0.5, 0.0, 0.5)])
  }

  function CubicRule(): WeightPoint
  {
    WeightPoint([-27.0 / 48.0, 25.0 / 48.0, 25.0 / 48.0, 25.0 / 48.0],
                [RefPoint(1.0 / 3.0, 1.0 / 3.0, 1.0 / 3.0), RefPoint(0.6, 0.2, 0.2),
                 RefPoint(0.2, 0.6, 0.2), RefPoint(0.2, 0.2, 0.6)])
  }

  function QuinticRule(): WeightPoint
  {
    var a1 := 0.0597158717;
    var b1 := 0.4701420641;
    var a2 := 0.797426985;
    var b2 := 0.1012865073;
    var w1 := 0.1323941527;
    var w2 := 0.1259391805;
    WeightPoint([0.225, w1, w1, w1, w2, w2, w2],
                [RefPoint(1.0 / 3.0, 1.0 / 3.0, 1.0 / 3.0),
                 RefPoint(a1, b1, b1), RefPoint(b1, a1, b1), RefPoint(b1, b1, a1),
                 RefPoint(a2, b2, b2), RefPoint(b2, a2, b2), RefPoint(b2, b2, a2)])
  }

  function SumWeights(w: seq<real>): real
  {
    if |w| == 0 then 0.0 else w[0] + SumWeights(w[1..])
  }

  /** The rules of orders 0..3 have 1, 3, 4 and 7 points, each with one
      weight per point. */
  lemma RuleSizes()
    ensures |LinearRule().weight| == |LinearRule().point| == 1
    ensures |QuadraticRule().weight| == |QuadraticRule().point| == 3
    ensures |CubicRule().weight| == |CubicRule().point| == 4
    ensures |QuinticRule().weight| == |QuinticRule().point| == 7
  {
  }

  /** The linear, quadratic and cubic weights sum to exactly 1; the quintic
      ones, rounded to ten decimals in the table, to within 1e-9. */
  lemma RuleWeightSums()
    ensures SumWeights(LinearRule().weight) == 1.0
    ensures SumWeights(QuadraticRule().weight) == 1.0
    ensures SumWeights(CubicRule().weight) == 1.0
    ensures Abs(SumWeights(QuinticRule().weight) - 1.0) <= 0.000000001
  {
    var q := QuadraticRule().weight;
    assert q[1..][1..][1..] == [];
    var c := CubicRule().weight;
    assert c[1..][1..][1..][1..] == [];
    var p := QuinticRule().weight;
    assert p[1..][1..][1..][1..][1..][1..][1..] == [];
    assert SumWeights(p) == 0.9999999996;
  }

  predicate AreaCoordinatesSumToOne(r: WeightPoint)
  {
    forall k :: 0 <= k < |r.point| ==> r.point[k].u + r.point[k].v + r.point[k].w == 1.0
  }

  predicate AreaCoordinatesNearOne(r: WeightPoint)
  {
    forall k :: 0 <= k < |r.point| ==> Abs(r.point[k].u + r.point[k].v + r.point[k].w - 1.0) <= 0.000000001
  }

  /** Every tabulated point has u + v + w = 1 for orders 0..2, and within
      1e-9 for the quintic rule. */
  lemma RulePointsAreBarycentric()
    ensures AreaCoordinatesSumToOne(LinearRule())
    ensures AreaCoordinatesSumToOne(QuadraticRule())
    ensures AreaCoordinatesSumToOne(CubicRule())
    ensures AreaCoordinatesNearOne(QuinticRule())
  {
  }

  /** The table list after construction. */
  function StandardRules(): seq<WeightPoint>
  {
    [LinearRule(), QuadraticRule(), CubicRule(), QuinticRule()]
  }

  // -----------------------------------------------------------------------
  // Geometry of one triangle
  // -----------------------------------------------------------------------

  /** `arma::det` of {{1, x1, y1}, {1, x2, y2}, {1, x3, y3}}, expanded along
      the first column and taken exactly. */
  function Det3(v1: Point, v2: Point, v3: Point): real
  {
    (v2.x * v3.y - v3.x * v2.y) - (v1.x * v3.y - v3.x * v1.y) + (v1.x * v2.y - v2.x * v1.y)
  }

  /** Cell area: half the absolute determinant. */
  function TriangleArea(v1: Point, v2: Point, v3: Point): (a: real)
    ensures a >= 0.0
    ensures a + a == Abs(Det3(v1, v2, v3))
  {
    (1.0 / 2.0) * Abs(Det3(v1, v2, v3))
  }

  /** The determinant equals that of the 2x2 edge Jacobian `ju`. */
  lemma Det3IsEdgeJacobianDet(v1: Point, v2: Point, v3: Point)
    ensures Det3(v1, v2, v3) == (v1.x - v3.x) * (v2.y - v3.y) - (v2.x - v3.x) * (v1.y - v3.y)
  {
  }

  /** `x3 + ju * (u, v)`, as a point with z = 0. */
  function MapPoint(v1: Point, v2: Point, v3: Point, p: RefPoint): Point
  {
    Point(v3.x + ((v1.x - v3.x) * p.u + (v2.x - v3.x) * p.v),
          v3.y + ((v1.y - v3.y) * p.u + (v2.y - v3.y) * p.v),
          0.0)
  }

  /** The mapped point is u*v1 + v*v2 + (1-u-v)*v3 in the plane; the table's
      w is not used. */
  lemma MapPointIsBarycentric(v1: Point, v2: Point, v3: Point, p: RefPoint)
    ensures MapPoint(v1, v2, v3, p).x == p.u * v1.x + p.v * v2.x + (1.0 - p.u - p.v) * v3.x
    ensures MapPoint(v1, v2, v3, p).y == p.u * v1.y + p.v * v2.y + (1.0 - p.u - p.v) * v3.y
    ensures MapPoint(v1, v2, v3, p).z == 0.0
  {
  }

  /** The single point of the linear rule maps to the triangle's centroid
      (the same point `get_volume_elements_centroids` reports, in the plane). */
  lemma LinearRuleHitsCentroid(v1: Point, v2: Point, v3: Point)
    ensures var m := MapPoint(v1, v2, v3, LinearRule().point[0]);
      var g := TriangleCentroid(v1, v2, v3);
      m.x == g.x && m.y == g.y
  {
    MapPointIsBarycentric(v1, v2, v3, LinearRule().point[0]);
  }

  // -----------------------------------------------------------------------
  // What one call produces for element i
  // -----------------------------------------------------------------------

  predicate ValidTriangles(mesh: Mesh2D)
  {
    forall i :: 0 <= i < |mesh.volumeElements| ==> ValidTriangle(mesh, mesh.volumeElements[i])
  }

  predicate WellFormedRule(r: WeightPoint)
  {
    |r.weight| == |r.point|
  }

  function Vertex(mesh: Mesh2D, n: int): Point
    requires ValidNode(mesh, n)
  {
    mesh.nodeCoords[n]
  }

  /** The points of element i, in rule order. */
  function ElementPoints(mesh: Mesh2D, r: WeightPoint, i: nat): (pts: seq<Point>)
    requires ValidTriangles(mesh) && WellFormedRule(r) && i < |mesh.volumeElements|
    ensures |pts| == |r.weight|
  {
    var e := mesh.volumeElements[i];
    seq(|r.weight|, k requires 0 <= k < |r.weight| =>
      MapPoint(Vertex(mesh, e.node1), Vertex(mesh, e.node2), Vertex(mesh, e.node3), r.point[k]))
  }

  /** The same points as the 2-vectors kept in `m_quadrature_pts`. */
  function ElementVectors(mesh: Mesh2D, r: WeightPoint, i: nat): (vs: seq<Vector>)
    requires ValidTriangles(mesh) && WellFormedRule(r) && i < |mesh.volumeElements|
    ensures |vs| == |r.weight|
  {
    var pts := ElementPoints(mesh, r, i);
    seq(|pts|, k requires 0 <= k < |pts| => [pts[k].x, pts[k].y])
  }

  /** Cell i owns the k consecutive point indices i*k, ..., i*k+k-1. */
  function ElementCell(mesh: Mesh2D, r: WeightPoint, i: nat): CellProperties
    requires ValidTriangles(mesh) && i < |mesh.volumeElements|
  {
    var e := mesh.volumeElements[i];
    CellProperties(i, TriangleArea(Vertex(mesh, e.node1), Vertex(mesh, e.node2), Vertex(mesh, e.node3)),
                   Iota(i * |r.weight|, |r.weight|))
  }

  function AllPoints(mesh: Mesh2D, r: WeightPoint, n: nat): (s: seq<seq<Point>>)
    requires ValidTriangles(mesh) && WellFormedRule(r) && n <= |mesh.volumeElements|
    ensures |s| == n && AllOfLength(s, |r.weight|)
    ensures forall i :: 0 <= i < n ==> s[i] == ElementPoints(mesh, r, i)
  {
    seq(n, i requires 0 <= i < n => ElementPoints(mesh, r, i))
  }

  function AllVectors(mesh: Mesh2D, r: WeightPoint, n: nat): (s: seq<seq<Vector>>)
    requires ValidTriangles(mesh) && WellFormedRule(r) && n <= |mesh.volumeElements|
    ensures |s| == n && forall i :: 0 <= i < n ==> s[i] == ElementVectors(mesh, r, i)
  {
    seq(n, i requires 0 <= i < n => ElementVectors(mesh, r, i))
  }

  function AllCells(mesh: Mesh2D, r: WeightPoint, n: nat): (s: seq<CellProperties>)
    requires ValidTriangles(mesh) && n <= |mesh.volumeElements|
    ensures |s| == n && forall i :: 0 <= i < n ==> s[i] == ElementCell(mesh, r, i)
  {
    seq(n, i requires 0 <= i < n => ElementCell(mesh, r, i))
  }

  lemma AllSnoc(mesh: Mesh2D, r: WeightPoint, i: nat)
    requires ValidTriangles(mesh) && WellFormedRule(r) && i < |mesh.volumeElements|
    ensures Flatten(AllPoints(mesh, r, i + 1)) == Flatten(AllPoints(mesh, r, i)) + ElementPoints(mesh, r, i)
    ensures AllVectors(mesh, r, i + 1) == AllVectors(mesh, r, i) + [ElementVectors(mesh, r, i)]
    ensures AllCells(mesh, r, i + 1) == AllCells(mesh, r, i) + [ElementCell(mesh, r, i)]
  {
    assert AllPoints(mesh, r, i + 1) == AllPoints(mesh, r, i) + [ElementPoints(mesh, r, i)];
    FlattenSnoc(AllPoints(mesh, r, i), ElementPoints(mesh, r, i));
  }

  /** The cloud of one call has (elements x rule size) points in cell-major
      order, and the indices recorded for cell i address exactly the points
      of triangle i. */
  lemma CellOwnsItsPoints(mesh: Mesh2D, r: WeightPoint, i: nat, k: nat)
    requires ValidTriangles(mesh) && WellFormedRule(r)
    requires i < |mesh.volumeElements| && k < |r.weight|
    ensures |Flatten(AllPoints(mesh, r, |mesh.volumeElements|))| == |mesh.volumeElements| * |r.weight|
    ensures var idx := ElementCell(mesh, r, i).quadrPtIdx[k];
      idx < |Flatten(AllPoints(mesh, r, |mesh.volumeElements|))| &&
      Flatten(AllPoints(mesh, r, |mesh.volumeElements|))[idx] == ElementPoints(mesh, r, i)[k]
  {
    var all := AllPoints(mesh, r, |mesh.volumeElements|);
    FlattenLength(all, |r.weight|);
    FlattenIndex(all, |r.weight|, i, k);
  }

  /** The inner loop of `generate_quadrature_points` for triangle i: map
      each rule point with `x3 + ju * (u, v)` and number it with the running
      counter. */
  method MapTriangle(mesh: Mesh2D, rule: WeightPoint, i: nat, counter: nat)
      returns (pts: seq<Point>, vecs: seq<Vector>, idx: seq<nat>, counterOut: nat)
    requires ValidTriangles(mesh) && WellFormedRule(rule) && i < |mesh.volumeElements|
    ensures pts == ElementPoints(mesh, rule, i)
    ensures vecs == ElementVectors(mesh, rule, i)
    ensures idx == Iota(counter, |rule.weight|)
    ensures counterOut == counter + |rule.weight|
  {
    var e := mesh.volumeElements[i];
    var v1, v2, v3 := mesh.nodeCoords[e.node1], mesh.nodeCoords[e.node2], mesh.nodeCoords[e.node3];
    ghost var elemPts := ElementPoints(mesh, rule, i);
    ghost var elemVecs := ElementVectors(mesh, rule, i);
    pts, vecs, idx, counterOut := [], [], [], counter;
    var k := 0;
    while k < |rule.weight|
      invariant 0 <= k <= |rule.weight|
      invariant counterOut == counter + k
      invariant idx == Iota(counter, k)
      invariant vecs == elemVecs[..k]
      invariant pts == elemPts[..k]
    {
      var uk := rule.point[k];
      var p := MapPoint(v1, v2, v3, uk);
      var xk: Vector := [p.x, p.y];
      assert elemPts[k] == p == Point(xk[0], xk[1], 0.0);
      assert elemPts[..k + 1] == elemPts[..k] + [Point(xk[0], xk[1], 0.0)];
      assert elemVecs[..k + 1] == elemVecs[..k] + [xk];
      assert Iota(counter, k + 1) == Iota(counter, k) + [counterOut];
      vecs := vecs + [xk];
      pts := pts + [Point(xk[0], xk[1], 0.0)];
      idx := idx + [counterOut];
      counterOut := counterOut + 1;
      k := k + 1;
    }
    assert elemPts[..k] == elemPts;
    assert elemVecs[..k] == elemVecs;
  }

  // -----------------------------------------------------------------------
  // The class
  // -----------------------------------------------------------------------

  class GQTriangleRPIM {
    var wp: seq<WeightPoint>
    var wps: WeightPoint
    var elementsNum: nat
    var weights: seq<real>
    var quadraturePts: seq<seq<Vector>>
    var cellProperties: seq<CellProperties>

    predicate Valid()
      reads this
    {
      wp == StandardRules()
    }

    /** The constructor fills the rule tables. */
    constructor ()
      ensures Valid()
      ensures weights == [] && cellProperties == [] && quadraturePts == []
    {
      wp := [];
      wps := WeightPoint([], []);
      elementsNum := 0;
      weights := [];
      quadraturePts := [];
      cellProperties := [];
      new;
      WeightPointGeneration();
    }

    /** `weight_point_generation`: push the four rules, in order. */
    method WeightPointGeneration()
      modifies this
      ensures wp == old(wp) + StandardRules()
      ensures wps == old(wps) && elementsNum == old(elementsNum) && weights == old(weights)
      ensures quadraturePts == old(quadraturePts) && cellProperties == old(cellProperties)
    {
      wp := wp + [LinearRule()];
      wp := wp + [QuadraticRule()];
      wp := wp + [CubicRule()];
      wp := wp + [QuinticRule()];
    }

    /** `get_integration_cells_properties` */
    function GetIntegrationCellsProperties(): (c: seq<CellProperties>)
      reads this
      ensures c == cellProperties
    {
      cellProperties
    }

    /** `get_quadrature_weights` */
    function GetQuadratureWeights(): (w: seq<real>)
      reads this
      ensures w == weights
    {
      weights
    }

    /** `generate_quadrature_points`: an order outside 0..3 fails the
        bounds-checked table look-up before anything changes.  Otherwise the
        rule's weights are appended to `weights`, every triangle contributes
        its mapped points (z = 0) in cell-major order, and one cell record
        per triangle is appended to `cellProperties`, its point indices
        counted from 0 for this call. */
    method GenerateQuadraturePoints(mesh: Mesh2D, order: int) returns (r: Result<seq<Point>>)
      requires Valid()
      requires ValidTriangles(mesh)
      modifies this
      ensures Valid()
      ensures r.Ok? <==> 0 <= order < 4
      ensures r.Fail? ==> r.error == OutOfRange
      ensures r.Fail? ==> wps == old(wps) && elementsNum == old(elementsNum) && weights == old(weights) &&
                          quadraturePts == old(quadraturePts) && cellProperties == old(cellProperties)
      ensures r.Ok? ==> wps == StandardRules()[order]
      ensures r.Ok? ==> weights == old(weights) + wps.weight
      ensures r.Ok? ==> elementsNum == |mesh.volumeElements|
      ensures r.Ok? ==> r.value == Flatten(AllPoints(mesh, wps, |mesh.volumeElements|))
      ensures r.Ok? ==> quadraturePts == old(quadraturePts) + AllVectors(mesh, wps, |mesh.volumeElements|)
      ensures r.Ok? ==> cellProperties == old(cellProperties) + AllCells(mesh, wps, |mesh.volumeElements|)
    {
      if !(0 <= order < |wp|) {
        return Fail(OutOfRange);
      }
      wps := wp[order];
      var rule := wps;
      assert WellFormedRule(rule);
      var kNum := |rule.weight|;

      var j := 0;
      while j < kNum
        invariant 0 <= j <= kNum
        invariant weights == old(weights) + rule.weight[..j]
        invariant wp == old(wp) && wps == rule
        invariant quadraturePts == old(quadraturePts) && cellProperties == old(cellProperties)
      {
        weights := weights + [rule.weight[j]];
        j := j + 1;
      }
      assert rule.weight[..kNum] == rule.weight;

      elementsNum := |mesh.volumeElements|;
      var quadrPts: seq<Point> := [];
      var quadrCounter: nat := 0;
      var i := 0;
      while i < elementsNum
        invariant 0 <= i <= elementsNum == |mesh.volumeElements|
        invariant wp == old(wp) && wps == rule && weights == old(weights) + rule.weight
        invariant quadrCounter == i * kNum
        invariant quadrPts == Flatten(AllPoints(mesh, rule, i))
        invariant quadraturePts == old(quadraturePts) + AllVectors(mesh, rule, i)
        invariant cellProperties == old(cellProperties) + AllCells(mesh, rule, i)
      {
        var e := mesh.volumeElements[i];
        var v1, v2, v3 := mesh.nodeCoords[e.node1], mesh.nodeCoords[e.node2], mesh.nodeCoords[e.node3];
        var area := (1.0 / 2.0) * Abs(Det3(v1, v2, v3));
        var cellIdx := i;
        var cellPts, xkVec, cellPtIdx;
        cellPts, xkVec, cellPtIdx, quadrCounter := MapTriangle(mesh, rule, i, quadrCounter);
        quadrPts := quadrPts + cellPts;
        assert ElementCell(mesh, rule, i) == CellProperties(cellIdx, area, cellPtIdx);
        cellProperties := cellProperties + [CellProperties(cellIdx, area, cellPtIdx)];
        quadraturePts := quadraturePts + [xkVec];
        AllSnoc(mesh, rule, i);
        assert (i + 1) * kNum == i * kNum + kNum;
        i := i + 1;
      }
      r := Ok(quadrPts);
    }
  }
}
