/** `BoundaryConditions` (src/boundary_conditions.cpp): split the nodes of the
    raw mesh into clamped boundary nodes (a thin strip at the smallest x) and
    free nodes, renumber the mesh so that the boundary nodes come first, and
    record the renumbered index blocks. */
module Boundaries {
  import opened Geom
  import opened GpUtils
  import opened Meshes
  import opened SeqUtils

  predicate StrictlyAscending(s: seq<nat>)
  {
    forall a, b :: 0 <= a < b < |s| ==> s[a] < s[b]
  }

  /** The x-threshold below which a node is a boundary node: the smallest x
      plus `m_bound_x_scale_factor` (0.02) times the x-range. */
  function BoundaryThreshold(pts: seq<Point>): real
    requires |pts| > 0
  {
    var range := FindVectorRange(ConvPcToPcVec(pts).x);
    range.min + 0.02 * Abs(range.val)
  }

  /** Indices j < n with pts[j].x < t, in the order the scan meets them. */
  function Below(pts: seq<Point>, t: real, n: nat): (b: seq<nat>)
    requires n <= |pts|
    ensures forall j :: 0 <= j < |b| ==> b[j] < n
  {
    if n == 0 then [] else Below(pts, t, n - 1) + (if pts[n - 1].x < t then [n - 1] else [])
  }

  /** Indices j < n not listed in bs, ascending. */
  function NotIn(bs: seq<nat>, n: nat): (f: seq<nat>)
    ensures forall j :: 0 <= j < |f| ==> f[j] < n
  {
    if n == 0 then [] else NotIn(bs, n - 1) + (if n - 1 in bs then [] else [n - 1])
  }

  /** How many of 0..n-1 are listed in bs. */
  function CountIn(bs: seq<nat>, n: nat): nat
  {
    if n == 0 then 0 else CountIn(bs, n - 1) + (if n - 1 in bs then 1 else 0)
  }

  /** `get_index_of_specified_value`: the first position of k in v, or -1
      (the C++ `int` -1 returned through `size_t` and stored back into an
      `int` element field).  A negative k, converted to `size_t`, is never
      found. */
  function IndexOf(v: seq<nat>, k: int): (r: int)
    ensures -1 <= r < |v|
    ensures r == -1 <==> k !in v
    ensures 0 <= r ==> v[r] == k && forall j :: 0 <= j < r ==> v[j] != k
  {
    if |v| == 0 then -1
    else if v[0] == k then 0
    else
      var r := IndexOf(v[1..], k);
      assert forall j :: 0 <= j < |v| - 1 ==> v[1..][j] == v[j + 1];
      assert k in v ==> v[0] == k || k in v[1..];
      if r == -1 then -1 else r + 1
  }

  // -----------------------------------------------------------------------
  // Facts about the index lists
  // -----------------------------------------------------------------------

  /** The boundary list is ascending ... */
  lemma {:induction false} BelowAscending(pts: seq<Point>, t: real, n: nat)
    requires n <= |pts|
    ensures StrictlyAscending(Below(pts, t, n))
  {
    if n > 0 { BelowAscending(pts, t, n - 1); }
  }

  /** ... and lists exactly the nodes strictly below t. */
  lemma {:induction false} BelowCorrect(pts: seq<Point>, t: real, n: nat)
    requires n <= |pts|
    ensures forall j :: j in Below(pts, t, n) <==> 0 <= j < n && pts[j].x < t
  {
    if n > 0 { BelowCorrect(pts, t, n - 1); }
  }

  /** The free list is the ascending complement of bs in 0..n-1. */
  lemma {:induction false} NotInCorrect(bs: seq<nat>, n: nat)
    ensures StrictlyAscending(NotIn(bs, n))
    ensures forall j :: j in NotIn(bs, n) <==> 0 <= j < n && j !in bs
  {
    if n > 0 { NotInCorrect(bs, n - 1); }
  }

  lemma {:induction false} NotInSize(bs: seq<nat>, n: nat)
    ensures |NotIn(bs, n)| + CountIn(bs, n) == n
  {
    if n > 0 { NotInSize(bs, n - 1); }
  }

  lemma {:induction false} CountInAppend(bs: seq<nat>, w: nat, n: nat)
    requires w !in bs
    ensures CountIn(bs + [w], n) == CountIn(bs, n) + (if w < n then 1 else 0)
  {
    if n > 0 {
      CountInAppend(bs, w, n - 1);
      assert (n - 1 in bs + [w]) <==> (n - 1 in bs || n - 1 == w);
    }
  }

  /** A list of distinct ascending indices below n counts itself. */
  lemma {:induction false} CountInAscending(bs: seq<nat>, n: nat)
    requires StrictlyAscending(bs)
    requires forall j :: 0 <= j < |bs| ==> bs[j] < n
    ensures CountIn(bs, n) == |bs|
  {
    if |bs| == 0 {
      CountZero(n);
    } else {
      var front := bs[..|bs| - 1];
      var w := bs[|bs| - 1];
      assert bs == front + [w];
      CountInAscending(front, n);
      assert w !in front by {
        forall j | 0 <= j < |front| ensures front[j] != w {
          assert front[j] == bs[j];
        }
      }
      CountInAppend(front, w, n);
    }
  }

  lemma {:induction false} CountZero(n: nat)
    ensures CountIn([], n) == 0
  {
    if n > 0 { CountZero(n - 1); }
  }

  /** Adding v >= n to the exclusion list does not change the complement below n. */
  lemma {:induction false} NotInIgnoresLarge(bs: seq<nat>, v: nat, n: nat)
    requires n <= v
    ensures NotIn(bs + [v], n) == NotIn(bs, n)
  {
    if n > 0 {
      NotInIgnoresLarge(bs, v, n - 1);
      assert (n - 1 in bs + [v]) <==> (n - 1 in bs);
    }
  }

  /** v sits in the complement at position |NotIn(bs, v)|; erasing it there
      gives the complement of bs + [v]. */
  lemma {:induction false} EraseFromComplement(bs: seq<nat>, v: nat, n: nat)
    requires v !in bs && v < n
    ensures var p := |NotIn(bs, v)|;
      p < |NotIn(bs, n)| && NotIn(bs, n)[p] == v &&
      NotIn(bs, n)[..p] + NotIn(bs, n)[p + 1..] == NotIn(bs + [v], n)
  {
    var p := |NotIn(bs, v)|;
    NotInIgnoresLarge(bs, v, v);
    if n == v + 1 {
      assert NotIn(bs, n) == NotIn(bs, v) + [v];
      assert !(v in bs + [v]) == false;
      assert NotIn(bs + [v], n) == NotIn(bs + [v], v);
      assert NotIn(bs, n)[..p] == NotIn(bs, v);
    } else {
      EraseFromComplement(bs, v, n - 1);
      var prev := NotIn(bs, n - 1);
      var tail: seq<nat> := if n - 1 in bs then [] else [n - 1];
      assert (n - 1 in bs + [v]) <==> (n - 1 in bs);
      assert NotIn(bs, n) == prev + tail;
      assert NotIn(bs + [v], n) == NotIn(bs + [v], n - 1) + tail;
      assert (prev + tail)[..p] == prev[..p];
      assert (prev + tail)[p + 1..] == prev[p + 1..] + tail;
    }
  }

  /** Step i of the erase loop: with strictly ascending boundary indices,
      b[i] sits at offset b[i] - i of the list from which b[..i] is already
      erased, and erasing it there leaves the complement of b[..i+1]. */
  lemma EraseStep(b: seq<nat>, i: nat, n: nat)
    requires StrictlyAscending(b)
    requires forall j :: 0 <= j < |b| ==> b[j] < n
    requires i < |b|
    ensures 0 <= b[i] - i < |NotIn(b[..i], n)|
    ensures NotIn(b[..i], n)[b[i] - i] == b[i]
    ensures NotIn(b[..i], n)[..b[i] - i] + NotIn(b[..i], n)[b[i] - i + 1..] == NotIn(b[..i + 1], n)
  {
    assert b[..i + 1] == b[..i] + [b[i]];
    assert forall j :: 0 <= j < i ==> b[..i][j] < b[i];
    CountInAscending(b[..i], b[i]);
    NotInSize(b[..i], b[i]);
    EraseFromComplement(b[..i], b[i], n);
  }

  /** The renumbering order `state_format = boundary ++ free` is a bijection
      onto 0..n-1 when free is the complement of the boundary list. */
  lemma StateFormatBijection(bs: seq<nat>, n: nat)
    requires StrictlyAscending(bs)
    requires forall j :: 0 <= j < |bs| ==> bs[j] < n
    ensures |bs + NotIn(bs, n)| == n
    ensures forall j :: 0 <= j < n <==> j in bs + NotIn(bs, n)
    ensures forall a, b :: 0 <= a < b < n ==> (bs + NotIn(bs, n))[a] != (bs + NotIn(bs, n))[b]
  {
    var f := NotIn(bs, n);
    var sf := bs + f;
    NotInCorrect(bs, n);
    NotInSize(bs, n);
    CountInAscending(bs, n);
    forall a, b | 0 <= a < b < n ensures sf[a] != sf[b] {
      if b < |bs| {
      } else if a < |bs| {
        assert sf[b] == f[b - |bs|] && sf[b] in f;
      } else {
        assert sf[a] == f[a - |bs|] && sf[b] == f[b - |bs|];
      }
    }
  }

  /** In a bijection onto 0..n-1, `IndexOf` inverts the renumbering. */
  lemma IndexOfInverts(sf: seq<nat>, r: int)
    requires forall j :: 0 <= j < |sf| <==> j in sf
    requires 0 <= r < |sf|
    ensures 0 <= IndexOf(sf, r) < |sf| && sf[IndexOf(sf, r)] == r
  {
  }

  // -----------------------------------------------------------------------
  // The renumbered mesh
  // -----------------------------------------------------------------------

  function RemapTriangle(sf: seq<nat>, e: Triangular2DElement): Triangular2DElement
  {
    Triangular2DElement(IndexOf(sf, e.node1), IndexOf(sf, e.node2), IndexOf(sf, e.node3))
  }

  function RemapLine(sf: seq<nat>, e: LineElement): LineElement
  {
    LineElement(IndexOf(sf, e.node1), IndexOf(sf, e.node2))
  }

  /** The field-nodes mesh built from the raw mesh in the order sf. */
  function FieldNodesMesh(raw: Mesh2D, sf: seq<nat>): Mesh2D
    requires forall k :: 0 <= k < |sf| ==> sf[k] < |raw.nodeCoords|
  {
    Mesh2D(raw.nodeIndices,
           seq(|sf|, k requires 0 <= k < |sf| => raw.nodeCoords[sf[k]]),
           seq(|raw.volumeElements|, i requires 0 <= i < |raw.volumeElements| => RemapTriangle(sf, raw.volumeElements[i])),
           seq(|raw.boundElements|, i requires 0 <= i < |raw.boundElements| => RemapLine(sf, raw.boundElements[i])))
  }

  /** Renumbering a valid mesh by a bijection keeps it valid, and every
      renumbered element node carries the coordinates of the raw node it
      replaces. */
  lemma FieldNodesMeshValid(raw: Mesh2D, sf: seq<nat>)
    requires |sf| == |raw.nodeCoords|
    requires forall j :: 0 <= j < |sf| <==> j in sf
    requires ValidMesh(raw)
    ensures forall k :: 0 <= k < |sf| ==> sf[k] < |raw.nodeCoords|
    ensures ValidMesh(FieldNodesMesh(raw, sf))
    ensures forall i :: 0 <= i < |raw.volumeElements| ==>
      var e := raw.volumeElements[i];
      var m := FieldNodesMesh(raw, sf);
      m.nodeCoords[m.volumeElements[i].node1] == raw.nodeCoords[e.node1] &&
      m.nodeCoords[m.volumeElements[i].node2] == raw.nodeCoords[e.node2] &&
      m.nodeCoords[m.volumeElements[i].node3] == raw.nodeCoords[e.node3]
    ensures forall i :: 0 <= i < |raw.boundElements| ==>
      var e := raw.boundElements[i];
      var m := FieldNodesMesh(raw, sf);
      m.nodeCoords[m.boundElements[i].node1] == raw.nodeCoords[e.node1] &&
      m.nodeCoords[m.boundElements[i].node2] == raw.nodeCoords[e.node2]
  {
    forall k | 0 <= k < |sf| ensures sf[k] < |raw.nodeCoords| {
      assert sf[k] in sf;
    }
    var m := FieldNodesMesh(raw, sf);
    forall i | 0 <= i < |raw.volumeElements|
      ensures ValidTriangle(m, m.volumeElements[i])
      ensures m.nodeCoords[m.volumeElements[i].node1] == raw.nodeCoords[raw.volumeElements[i].node1]
      ensures m.nodeCoords[m.volumeElements[i].node2] == raw.nodeCoords[raw.volumeElements[i].node2]
      ensures m.nodeCoords[m.volumeElements[i].node3] == raw.nodeCoords[raw.volumeElements[i].node3]
    {
      var e := raw.volumeElements[i];
      assert ValidTriangle(raw, e);
      IndexOfInverts(sf, e.node1);
      IndexOfInverts(sf, e.node2);
      IndexOfInverts(sf, e.node3);
    }
    forall i | 0 <= i < |raw.boundElements|
      ensures ValidLine(m, m.boundElements[i])
      ensures m.nodeCoords[m.boundElements[i].node1] == raw.nodeCoords[raw.boundElements[i].node1]
      ensures m.nodeCoords[m.boundElements[i].node2] == raw.nodeCoords[raw.boundElements[i].node2]
    {
      var e := raw.boundElements[i];
      assert ValidLine(raw, e);
      IndexOfInverts(sf, e.node1);
      IndexOfInverts(sf, e.node2);
    }
  }

  /** If every node has the same x, the threshold is that x and the strict
      comparison leaves no boundary node. */
  lemma FlatCloudHasNoBoundary(pts: seq<Point>)
    requires |pts| > 0
    requires forall j :: 0 <= j < |pts| ==> pts[j].x == pts[0].x
    ensures Below(pts, BoundaryThreshold(pts), |pts|) == []
  {
    var t := FlatThreshold(pts);
    NoneBelowCommonX(pts, t);
  }

  lemma NoneBelowCommonX(pts: seq<Point>, t: real)
    requires |pts| > 0
    requires forall j :: 0 <= j < |pts| ==> pts[j].x == pts[0].x
    requires t == pts[0].x
    ensures Below(pts, t, |pts|) == []
  {
    BelowNone(pts, t, |pts|);
  }

  lemma {:induction false} BelowNone(pts: seq<Point>, t: real, n: nat)
    requires n <= |pts|
    requires forall j :: 0 <= j < n ==> t <= pts[j].x
    ensures Below(pts, t, n) == []
  {
    if n > 0 { BelowNone(pts, t, n - 1); }
  }

  lemma FlatThreshold(pts: seq<Point>) returns (t: real)
    requires |pts| > 0
    requires forall j :: 0 <= j < |pts| ==> pts[j].x == pts[0].x
    ensures t == BoundaryThreshold(pts) == pts[0].x
  {
    var xs := ConvPcToPcVec(pts).x;
    forall j | 0 <= j < |xs| ensures xs[j] == pts[0].x {
      assert xs[j] == pts[j].x;
    }
    FindVectorRangeConstant(xs, pts[0].x);
    t := BoundaryThreshold(pts);
  }

  // -----------------------------------------------------------------------
  // Field nodes
  // -----------------------------------------------------------------------

  /** The raw nodes the boundary conditions take as boundary nodes, in the
      order the scan meets them. */
  function BoundaryNodes(raw: Mesh2D): (bs: seq<nat>)
    requires |raw.nodeCoords| > 0
    ensures forall j :: 0 <= j < |bs| ==> bs[j] < |raw.nodeCoords|
  {
    Below(raw.nodeCoords, BoundaryThreshold(raw.nodeCoords), |raw.nodeCoords|)
  }

  /** The order of the field nodes: the boundary nodes, then the others in
      ascending order. */
  function FieldOrder(raw: Mesh2D): (sf: seq<nat>)
    requires |raw.nodeCoords| > 0
    ensures forall k :: 0 <= k < |sf| ==> sf[k] < |raw.nodeCoords|
  {
    BoundaryNodes(raw) + NotIn(BoundaryNodes(raw), |raw.nodeCoords|)
  }

  /** The field-node mesh: the raw mesh renumbered in field order. */
  function FieldNodes(raw: Mesh2D): Mesh2D
    requires |raw.nodeCoords| > 0
  {
    FieldNodesMesh(raw, FieldOrder(raw))
  }

  // -----------------------------------------------------------------------
  // The class
  // -----------------------------------------------------------------------

  class BoundaryConditions {
    var meshRaw: Mesh2D
    var mesh: Mesh2D
    var meshInitial: Mesh2D
    var boundaryPtsIndices: seq<nat>
    var boundariesNum: nat
    var freePtsIndices: seq<nat>
    var freePtsNum: nat

    /** Classify, renumber, then relabel the index blocks. */
    constructor (raw: Mesh2D)
      requires |raw.nodeCoords| > 0
      ensures meshRaw == raw
      ensures boundariesNum == |BoundaryNodes(raw)| && mesh == FieldNodes(raw) && meshInitial == mesh
      ensures boundariesNum + freePtsNum == |raw.nodeCoords|
      ensures boundaryPtsIndices == Iota(0, boundariesNum)
      ensures freePtsIndices == Iota(boundariesNum, freePtsNum)
    {
      meshRaw := raw;
      mesh := Mesh2D([], [], [], []);
      meshInitial := Mesh2D([], [], [], []);
      boundaryPtsIndices := [];
      boundariesNum := 0;
      freePtsIndices := [];
      freePtsNum := 0;
      new;
      SetBoundaryPtsIndices();
      ghost var bs := boundaryPtsIndices;
      ghost var n := |raw.nodeCoords|;
      ghost var t := BoundaryThreshold(raw.nodeCoords);
      assert bs == Below(raw.nodeCoords, t, n) == BoundaryNodes(raw);
      BelowAscending(raw.nodeCoords, t, n);
      StateFormatBijection(bs, n);
      assert boundariesNum + freePtsNum == n;
      assert boundaryPtsIndices + freePtsIndices == FieldOrder(raw);
      ghost var fm := FieldNodes(raw);
      GenerateFieldNodesMesh();
      assert [] + fm.nodeCoords == fm.nodeCoords;
      assert [] + fm.volumeElements == fm.volumeElements;
      assert [] + fm.boundElements == fm.boundElements;
      UpdateBoundaries();
    }

    /** `set_boundary_pts_indices`: the boundary list by a strict x-threshold
        scan, then the free list as the identity list with the boundary
        entries erased at offset b[i] - i. */
    method SetBoundaryPtsIndices()
      requires |meshRaw.nodeCoords| > 0
      requires boundaryPtsIndices == [] && freePtsIndices == []
      modifies this
      ensures meshRaw == old(meshRaw) && mesh == old(mesh) && meshInitial == old(meshInitial)
      ensures boundaryPtsIndices ==
        Below(meshRaw.nodeCoords, BoundaryThreshold(meshRaw.nodeCoords), |meshRaw.nodeCoords|)
      ensures boundariesNum == |boundaryPtsIndices|
      ensures freePtsIndices == NotIn(boundaryPtsIndices, |meshRaw.nodeCoords|)
      ensures freePtsNum == |freePtsIndices|
    {
      var xThresh := BoundaryThreshold(meshRaw.nodeCoords);
      CollectBoundaryPts(xThresh);
      boundariesNum := |boundaryPtsIndices|;
      BelowAscending(meshRaw.nodeCoords, xThresh, |meshRaw.nodeCoords|);
      SetFreePtsIndices();
    }

    /** The scan of `set_boundary_pts_indices`: push every node index whose
        x lies strictly below the threshold, in node order. */
    method CollectBoundaryPts(xThresh: real)
      requires boundaryPtsIndices == []
      modifies this
      ensures meshRaw == old(meshRaw) && mesh == old(mesh) && meshInitial == old(meshInitial)
      ensures freePtsIndices == old(freePtsIndices) && boundariesNum == old(boundariesNum)
      ensures freePtsNum == old(freePtsNum)
      ensures boundaryPtsIndices == Below(meshRaw.nodeCoords, xThresh, |meshRaw.nodeCoords|)
    {
      var pts := meshRaw.nodeCoords;
      var n := |pts|;
      var i := 0;
      while i < n
        invariant 0 <= i <= n
        invariant boundaryPtsIndices == Below(pts, xThresh, i)
        invariant meshRaw == old(meshRaw) && mesh == old(mesh) && meshInitial == old(meshInitial)
        invariant freePtsIndices == old(freePtsIndices) && boundariesNum == old(boundariesNum)
        invariant freePtsNum == old(freePtsNum)
      {
        if pts[i].x < xThresh {
          boundaryPtsIndices := boundaryPtsIndices + [i];
        }
        i := i + 1;
      }
    }

    /** The second half of `set_boundary_pts_indices`: the free list as the
        identity list 0..N-1 with the boundary entries erased one by one at
        offset b[i] - i, valid because the boundary list is strictly
        ascending. */
    method SetFreePtsIndices()
      requires freePtsIndices == []
      requires StrictlyAscending(boundaryPtsIndices)
      requires forall j :: 0 <= j < |boundaryPtsIndices| ==> boundaryPtsIndices[j] < |meshRaw.nodeCoords|
      modifies this
      ensures meshRaw == old(meshRaw) && mesh == old(mesh) && meshInitial == old(meshInitial)
      ensures boundaryPtsIndices == old(boundaryPtsIndices) && boundariesNum == old(boundariesNum)
      ensures freePtsIndices == NotIn(boundaryPtsIndices, |meshRaw.nodeCoords|)
      ensures freePtsNum == |freePtsIndices|
    {
      var n := |meshRaw.nodeCoords|;
      var b := boundaryPtsIndices;
      var i := 0;
      while i < n
        invariant 0 <= i <= n
        invariant freePtsIndices == NotIn([], i)
        invariant boundaryPtsIndices == b && boundariesNum == old(boundariesNum)
        invariant meshRaw == old(meshRaw) && mesh == old(mesh) && meshInitial == old(meshInitial)
      {
        freePtsIndices := freePtsIndices + [i];
        i := i + 1;
      }

      i := 0;
      while i < |b|
        invariant 0 <= i <= |b|
        invariant boundaryPtsIndices == b && boundariesNum == old(boundariesNum)
        invariant freePtsIndices == NotIn(b[..i], n)
        invariant meshRaw == old(meshRaw) && mesh == old(mesh) && meshInitial == old(meshInitial)
      {
        EraseStep(b, i, n);
        var p := b[i] - i;
        freePtsIndices := freePtsIndices[..p] + freePtsIndices[p + 1..];
        i := i + 1;
      }
      assert b[..|b|] == b;
      freePtsNum := |freePtsIndices|;
    }

    /** `generate_field_nodes_mesh`: append the nodes in the order
        boundary ++ free and the elements with their node indices looked up
        in that order; then snapshot the result. */
    method GenerateFieldNodesMesh()
      requires forall j :: 0 <= j < |boundaryPtsIndices| ==> boundaryPtsIndices[j] < |meshRaw.nodeCoords|
      requires forall j :: 0 <= j < |freePtsIndices| ==> freePtsIndices[j] < |meshRaw.nodeCoords|
      modifies this
      ensures meshRaw == old(meshRaw)
      ensures boundaryPtsIndices == old(boundaryPtsIndices) && freePtsIndices == old(freePtsIndices)
      ensures boundariesNum == old(boundariesNum) && freePtsNum == old(freePtsNum)
      ensures var fm := FieldNodesMesh(meshRaw, boundaryPtsIndices + freePtsIndices);
        mesh == Mesh2D(meshRaw.nodeIndices,
                       old(mesh.nodeCoords) + fm.nodeCoords,
                       old(mesh.volumeElements) + fm.volumeElements,
                       old(mesh.boundElements) + fm.boundElements)
      ensures meshInitial == mesh
    {
      mesh := mesh.(nodeIndices := meshRaw.nodeIndices);
      var stateFormat := boundaryPtsIndices + freePtsIndices;
      AppendFieldNodeCoords(stateFormat);
      AppendRemappedTriangles(stateFormat);
      AppendRemappedLines(stateFormat);
      meshInitial := mesh;
    }

    /** Lines 76-80: node k of the new mesh is raw node stateFormat[k]. */
    method AppendFieldNodeCoords(stateFormat: seq<nat>)
      requires forall j :: 0 <= j < |stateFormat| ==> stateFormat[j] < |meshRaw.nodeCoords|
      modifies this
      ensures meshRaw == old(meshRaw) && meshInitial == old(meshInitial)
      ensures mesh == old(mesh).(nodeCoords := old(mesh.nodeCoords) + FieldNodesMesh(meshRaw, stateFormat).nodeCoords)
      ensures boundaryPtsIndices == old(boundaryPtsIndices) && freePtsIndices == old(freePtsIndices)
      ensures boundariesNum == old(boundariesNum) && freePtsNum == old(freePtsNum)
    {
      ghost var target := FieldNodesMesh(meshRaw, stateFormat).nodeCoords;
      var i := 0;
      while i < |stateFormat|
        invariant 0 <= i <= |stateFormat|
        invariant meshRaw == old(meshRaw) && meshInitial == old(meshInitial)
        invariant mesh == old(mesh).(nodeCoords := old(mesh.nodeCoords) + target[..i])
        invariant boundaryPtsIndices == old(boundaryPtsIndices) && freePtsIndices == old(freePtsIndices)
        invariant boundariesNum == old(boundariesNum) && freePtsNum == old(freePtsNum)
      {
        var pt := meshRaw.nodeCoords[stateFormat[i]];
        assert target[..i + 1] == target[..i] + [pt];
        mesh := mesh.(nodeCoords := mesh.nodeCoords + [pt]);
        i := i + 1;
      }
      assert target[..i] == target;
    }

    /** Lines 83-110: each raw triangle, its nodes looked up in stateFormat. */
    method AppendRemappedTriangles(stateFormat: seq<nat>)
      requires forall j :: 0 <= j < |stateFormat| ==> stateFormat[j] < |meshRaw.nodeCoords|
      modifies this
      ensures meshRaw == old(meshRaw) && meshInitial == old(meshInitial)
      ensures mesh == old(mesh).(volumeElements := old(mesh.volumeElements) + FieldNodesMesh(meshRaw, stateFormat).volumeElements)
      ensures boundaryPtsIndices == old(boundaryPtsIndices) && freePtsIndices == old(freePtsIndices)
      ensures boundariesNum == old(boundariesNum) && freePtsNum == old(freePtsNum)
    {
      ghost var target := FieldNodesMesh(meshRaw, stateFormat).volumeElements;
      var i := 0;
      while i < |meshRaw.volumeElements|
        invariant 0 <= i <= |meshRaw.volumeElements|
        invariant meshRaw == old(meshRaw) && meshInitial == old(meshInitial)
        invariant mesh == old(mesh).(volumeElements := old(mesh.volumeElements) + target[..i])
        invariant boundaryPtsIndices == old(boundaryPtsIndices) && freePtsIndices == old(freePtsIndices)
        invariant boundariesNum == old(boundariesNum) && freePtsNum == old(freePtsNum)
      {
        var e := meshRaw.volumeElements[i];
        var remapped := Triangular2DElement(IndexOf(stateFormat, e.node1),
                                            IndexOf(stateFormat, e.node2),
                                            IndexOf(stateFormat, e.node3));
        assert target[..i + 1] == target[..i] + [remapped];
        mesh := mesh.(volumeElements := mesh.volumeElements + [remapped]);
        i := i + 1;
      }
      assert target[..i] == target;
    }

    /** Lines 113-126: each raw boundary line, its nodes looked up in
        stateFormat. */
    method AppendRemappedLines(stateFormat: seq<nat>)
      requires forall j :: 0 <= j < |stateFormat| ==> stateFormat[j] < |meshRaw.nodeCoords|
      modifies this
      ensures meshRaw == old(meshRaw) && meshInitial == old(meshInitial)
      ensures mesh == old(mesh).(boundElements := old(mesh.boundElements) + FieldNodesMesh(meshRaw, stateFormat).boundElements)
      ensures boundaryPtsIndices == old(boundaryPtsIndices) && freePtsIndices == old(freePtsIndices)
      ensures boundariesNum == old(boundariesNum) && freePtsNum == old(freePtsNum)
    {
      ghost var target := FieldNodesMesh(meshRaw, stateFormat).boundElements;
      var i := 0;
      while i < |meshRaw.boundElements|
        invariant 0 <= i <= |meshRaw.boundElements|
        invariant meshRaw == old(meshRaw) && meshInitial == old(meshInitial)
        invariant mesh == old(mesh).(boundElements := old(mesh.boundElements) + target[..i])
        invariant boundaryPtsIndices == old(boundaryPtsIndices) && freePtsIndices == old(freePtsIndices)
        invariant boundariesNum == old(boundariesNum) && freePtsNum == old(freePtsNum)
      {
        var e := meshRaw.boundElements[i];
        var remapped := LineElement(IndexOf(stateFormat, e.node1), IndexOf(stateFormat, e.node2));
        assert target[..i + 1] == target[..i] + [remapped];
        mesh := mesh.(boundElements := mesh.boundElements + [remapped]);
        i := i + 1;
      }
      assert target[..i] == target;
    }

    /** `update_boundaries`: overwrite the boundary list with 0..B-1 and the
        free list with B..B+F-1, in place. */
    method UpdateBoundaries()
      modifies this
      ensures meshRaw == old(meshRaw) && mesh == old(mesh) && meshInitial == old(meshInitial)
      ensures boundariesNum == old(boundariesNum) && freePtsNum == old(freePtsNum)
      ensures boundaryPtsIndices == Iota(0, |old(boundaryPtsIndices)|)
      ensures freePtsIndices == Iota(|old(boundaryPtsIndices)|, |old(freePtsIndices)|)
    {
      var i := 0;
      while i < |boundaryPtsIndices|
        invariant 0 <= i <= |boundaryPtsIndices| == |old(boundaryPtsIndices)|
        invariant forall j :: 0 <= j < i ==> boundaryPtsIndices[j] == j
        invariant freePtsIndices == old(freePtsIndices)
        invariant meshRaw == old(meshRaw) && mesh == old(mesh) && meshInitial == old(meshInitial)
        invariant boundariesNum == old(boundariesNum) && freePtsNum == old(freePtsNum)
      {
        boundaryPtsIndices := boundaryPtsIndices[i := i];
        i := i + 1;
      }
      i := 0;
      while i < |freePtsIndices|
        invariant 0 <= i <= |freePtsIndices| == |old(freePtsIndices)|
        invariant boundaryPtsIndices == Iota(0, |old(boundaryPtsIndices)|)
        invariant forall j :: 0 <= j < i ==> freePtsIndices[j] == j + |boundaryPtsIndices|
        invariant meshRaw == old(meshRaw) && mesh == old(mesh) && meshInitial == old(meshInitial)
        invariant boundariesNum == old(boundariesNum) && freePtsNum == old(freePtsNum)
      {
        freePtsIndices := freePtsIndices[i := i + |boundaryPtsIndices|];
        i := i + 1;
      }
    }
  }
}
