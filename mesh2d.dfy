/** The background mesh (include/mesh2D.h) and its element centroids
    (src/mesh2D.cpp). */
module Meshes {
  import opened Geom
  import opened Errors

  /** `Mesh2D`: node ids, node coordinates (indexed by node position),
      triangles and boundary segments. */
  datatype Mesh2D = Mesh2D(nodeIndices: seq<nat>, nodeCoords: seq<Point>,
                           volumeElements: seq<Triangular2DElement>,
                           boundElements: seq<LineElement>)

  predicate ValidNode(m: Mesh2D, k: int)
  {
    0 <= k < |m.nodeCoords|
  }

  predicate ValidTriangle(m: Mesh2D, e: Triangular2DElement)
  {
    ValidNode(m, e.node1) && ValidNode(m, e.node2) && ValidNode(m, e.node3)
  }

  predicate ValidLine(m: Mesh2D, e: LineElement)
  {
    ValidNode(m, e.node1) && ValidNode(m, e.node2)
  }

  /** Every element refers to existing nodes. */
  predicate ValidMesh(m: Mesh2D)
  {
    (forall i :: 0 <= i < |m.volumeElements| ==> ValidTriangle(m, m.volumeElements[i])) &&
    (forall i :: 0 <= i < |m.boundElements| ==> ValidLine(m, m.boundElements[i]))
  }

  /** The coordinate-wise mean of three vertices: the point from which the
      three vertex offsets sum to zero. */
  function TriangleCentroid(a: Point, b: Point, c: Point): (g: Point)
    ensures (a.x - g.x) + (b.x - g.x) + (c.x - g.x) == 0.0
    ensures (a.y - g.y) + (b.y - g.y) + (c.y - g.y) == 0.0
    ensures (a.z - g.z) + (b.z - g.z) + (c.z - g.z) == 0.0
  {
    Point((a.x + b.x + c.x) / 3.0, (a.y + b.y + c.y) / 3.0, (a.z + b.z + c.z) / 3.0)
  }

  /** The midpoint of a segment: equidistant, coordinate by coordinate, from
      both ends. */
  function SegmentMidpoint(a: Point, b: Point): (g: Point)
    ensures g.x - a.x == b.x - g.x && g.y - a.y == b.y - g.y && g.z - a.z == b.z - g.z
  {
    Point((a.x + b.x) / 2.0, (a.y + b.y) / 2.0, (a.z + b.z) / 2.0)
  }

  /** `get_volume_elements_centroids`: one centroid per triangle, in element
      order; an element with a node index outside the coordinate list makes
      the bounds-checked look-up fail. */
  function VolumeElementsCentroids(m: Mesh2D): (r: Result<seq<Point>>)
    ensures r.Ok? <==> forall i :: 0 <= i < |m.volumeElements| ==> ValidTriangle(m, m.volumeElements[i])
    ensures r.Fail? ==> r.error == OutOfRange
    ensures r.Ok? ==> |r.value| == |m.volumeElements|
    ensures r.Ok? ==> forall i :: 0 <= i < |r.value| ==>
      var e := m.volumeElements[i];
      ValidTriangle(m, e) &&
      r.value[i] == TriangleCentroid(m.nodeCoords[e.node1], m.nodeCoords[e.node2], m.nodeCoords[e.node3])
  {
    if forall i :: 0 <= i < |m.volumeElements| ==> ValidTriangle(m, m.volumeElements[i]) then
      Ok(seq(|m.volumeElements|, i requires 0 <= i < |m.volumeElements| =>
        var e := m.volumeElements[i];
        TriangleCentroid(m.nodeCoords[e.node1], m.nodeCoords[e.node2], m.nodeCoords[e.node3])))
    else
      Fail(OutOfRange)
  }

  /** `get_surface_elements_centroids`: one midpoint per boundary segment, in
      element order, failing like the volume version on a bad node index. */
  function SurfaceElementsCentroids(m: Mesh2D): (r: Result<seq<Point>>)
    ensures r.Ok? <==> forall i :: 0 <= i < |m.boundElements| ==> ValidLine(m, m.boundElements[i])
    ensures r.Fail? ==> r.error == OutOfRange
    ensures r.Ok? ==> |r.value| == |m.boundElements|
    ensures r.Ok? ==> forall i :: 0 <= i < |r.value| ==>
      var e := m.boundElements[i];
      ValidLine(m, e) && r.value[i] == SegmentMidpoint(m.nodeCoords[e.node1], m.nodeCoords[e.node2])
  {
    if forall i :: 0 <= i < |m.boundElements| ==> ValidLine(m, m.boundElements[i]) then
      Ok(seq(|m.boundElements|, i requires 0 <= i < |m.boundElements| =>
        var e := m.boundElements[i];
        SegmentMidpoint(m.nodeCoords[e.node1], m.nodeCoords[e.node2])))
    else
      Fail(OutOfRange)
  }
}
