/** Concentrated nodal loads (src/point_loads.cpp): a list of loaded field
    nodes and the global load vector that puts each node's load on its two
    degrees of freedom 2n and 2n+1. */
module PointLoads {
  import opened Geom
  import opened GpUtils
  import opened Meshes
  import opened Errors
  import opened LinAlg

  /** `point_load_function`: the load applied at every selected node. */
  function PointLoadFunction(qBar: Vector): (p: Vector)
    ensures |p| == 2
  {
    [0.0, 0.0]
  }

  /** Node n owns the degrees of freedom 2n and 2n+1 of a vector of length
      `size`; a negative id or one past the end has no slot. */
  predicate HasSlots(n: int, size: nat)
  {
    0 <= n && 2 * n + 1 < size
  }

  /** The load vector of length `size` holding `load` on the two slots of
      every node in `ids` and zero elsewhere. */
  function LoadVector(size: nat, ids: seq<int>, load: Vector): (v: Vector)
    requires |load| == 2
    ensures |v| == size
  {
    seq(size, k requires 0 <= k < size => if k / 2 in ids then load[k % 2] else 0.0)
  }

  /** Writing the two slots of node n adds n to the loaded nodes. */
  lemma LoadVectorStep(size: nat, ids: seq<int>, n: int, load: Vector)
    requires |load| == 2 && HasSlots(n, size)
    ensures LoadVector(size, ids + [n], load) ==
            LoadVector(size, ids, load)[2 * n := load[0]][2 * n + 1 := load[1]]
  {
    var a, b := LoadVector(size, ids + [n], load), LoadVector(size, ids, load)[2 * n := load[0]][2 * n + 1 := load[1]];
    assert (2 * n) / 2 == n && (2 * n) % 2 == 0;
    assert (2 * n + 1) / 2 == n && (2 * n + 1) % 2 == 1;
    forall k | 0 <= k < size
      ensures a[k] == b[k]
    {
      if k != 2 * n && k != 2 * n + 1 {
        assert k / 2 != n;
        assert k / 2 in ids + [n] <==> k / 2 in ids;
      }
    }
  }

  /** With the zero point load the whole load vector is zero. */
  lemma PointLoadsAreZero(size: nat, ids: seq<int>, qBar: Vector)
    ensures LoadVector(size, ids, PointLoadFunction(qBar)) == ZeroVector(size)
  {
    var v := LoadVector(size, ids, PointLoadFunction(qBar));
    assert forall k :: 0 <= k < size ==> v[k] == 0.0;
  }

  /** `arma::norm(target - node) <= tol`, compared on squares: the norm is
      never negative, so a negative tolerance admits nothing. */
  predicate WithinTolerance(target: Point, node: Point, tol: real)
  {
    var dx := target.x - node.x;
    var dy := target.y - node.y;
    0.0 <= tol && dx * dx + dy * dy <= tol * tol
  }

  /** The ascending indices among 0 .. n-1 of the nodes within tol of target. */
  function NodesNear(nodes: seq<Point>, target: Point, tol: real, n: nat): (ids: seq<int>)
    requires n <= |nodes|
  {
    if n == 0 then []
    else
      var front := NodesNear(nodes, target, tol, n - 1);
      if WithinTolerance(target, nodes[n - 1], tol) then front + [n - 1] else front
  }

  lemma {:induction false} NodesNearMembership(nodes: seq<Point>, target: Point, tol: real, n: nat, i: int)
    requires n <= |nodes|
    ensures i in NodesNear(nodes, target, tol, n) <==> 0 <= i < n && WithinTolerance(target, nodes[i], tol)
  {
    if n > 0 {
      NodesNearMembership(nodes, target, tol, n - 1, i);
    }
  }

  /** Strictly increasing, hence also free of duplicates. */
  predicate Ascending(ids: seq<int>)
  {
    forall a, b :: 0 <= a < b < |ids| ==> ids[a] < ids[b]
  }

  lemma {:induction false} NodesNearAscending(nodes: seq<Point>, target: Point, tol: real, n: nat)
    requires n <= |nodes|
    ensures Ascending(NodesNear(nodes, target, tol, n))
  {
    if n > 0 {
      NodesNearAscending(nodes, target, tol, n - 1);
      var front := NodesNear(nodes, target, tol, n - 1);
      if WithinTolerance(target, nodes[n - 1], tol) {
        forall j | 0 <= j < |front|
          ensures front[j] < n - 1
        {
          NodesNearMembership(nodes, target, tol, n - 1, front[j]);
        }
      }
    }
  }

  /** The point on the middle of the right-hand edge of the nodes' bounding box. */
  function SelectionTarget(nodes: seq<Point>): Point
    requires |nodes| > 0
  {
    var v := ConvPcToPcVec(nodes);
    var rangeX := FindVectorRange(v.x);
    var rangeY := FindVectorRange(v.y);
    Point(rangeX.max, rangeY.min + rangeY.val / 2.0, 0.0)
  }

  /** `node_selection`: the indices, in ascending order, of the nodes within
      tol of the middle of the right-hand edge.  The node list must not be
      empty (the ranges of an empty list are undefined). */
  method NodeSelection(nodes: seq<Point>, tol: real) returns (ids: seq<int>)
    requires |nodes| > 0
    ensures ids == NodesNear(nodes, SelectionTarget(nodes), tol, |nodes|)
  {
    var target := SelectionTarget(nodes);
    ids := [];
    for i := 0 to |nodes|
      invariant ids == NodesNear(nodes, target, tol, i)
    {
      if WithinTolerance(target, nodes[i], tol) {
        ids := ids + [i];
      }
    }
  }

  /** A node is selected exactly when it is within tol of the target, and
      the selection is strictly ascending. */
  lemma NodeSelectionMeaning(nodes: seq<Point>, tol: real, i: int)
    requires |nodes| > 0
    ensures var ids := NodesNear(nodes, SelectionTarget(nodes), tol, |nodes|);
      && (i in ids <==> 0 <= i < |nodes| && WithinTolerance(SelectionTarget(nodes), nodes[i], tol))
      && Ascending(ids)
  {
    NodesNearMembership(nodes, SelectionTarget(nodes), tol, |nodes|, i);
    NodesNearAscending(nodes, SelectionTarget(nodes), tol, |nodes|);
  }

  class PointLoads {
    var selectedNodesId: seq<int>

    constructor ()
      ensures selectedNodesId == []
    {
      selectedNodesId := [];
    }

    /** `initialize`: appends node 28; calling it again appends it again. */
    method Initialize(mesh: Mesh2D)
      modifies this`selectedNodesId
      ensures selectedNodesId == old(selectedNodesId) + [28]
    {
      selectedNodesId := selectedNodesId + [28];
    }

    /** `get_point_loads`: a vector of the length of qBar with the point load
        on the slots of every selected node.  A selected node without both
        slots is written through Armadillo's unchecked `at`: the failure
        stands for that undefined behaviour. */
    method GetPointLoads(qBar: Vector) returns (r: Result<Vector>)
      ensures r.Ok? <==> forall i :: 0 <= i < |selectedNodesId| ==> HasSlots(selectedNodesId[i], |qBar|)
      ensures r.Fail? ==> r.error == OutOfRange
      ensures r.Ok? ==> r.value == LoadVector(|qBar|, selectedNodesId, PointLoadFunction(qBar))
    {
      var qp := ZeroVector(|qBar|);
      assert qp == LoadVector(|qBar|, [], PointLoadFunction(qBar));
      for i := 0 to |selectedNodesId|
        invariant forall j :: 0 <= j < i ==> HasSlots(selectedNodesId[j], |qBar|)
        invariant qp == LoadVector(|qBar|, selectedNodesId[..i], PointLoadFunction(qBar))
      {
        var nodeI := selectedNodesId[i];
        if !HasSlots(nodeI, |qBar|) {
          return Fail(OutOfRange);
        }
        var pointLoad := PointLoadFunction(qBar);
        LoadVectorStep(|qBar|, selectedNodesId[..i], nodeI, pointLoad);
        qp := qp[2 * nodeI := pointLoad[0]][2 * nodeI + 1 := pointLoad[1]];
        assert selectedNodesId[..i + 1] == selectedNodesId[..i] + [nodeI];
      }
      assert selectedNodesId[..|selectedNodesId|] == selectedNodesId;
      r := Ok(qp);
    }
  }
}
