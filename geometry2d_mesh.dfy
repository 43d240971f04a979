/** The 2D geometry front end (src/geometry2D_mesh.cpp): the boundary read
    from file is resampled to a target number of points equally spaced
    along its polyline, gmsh triangulates the closed boundary, and the
    arrays gmsh hands back are unpacked into a triangular mesh whose
    boundary and inner node index lists are sorted and duplicate-free.
    The gmsh calls themselves are foreign; their outputs are inputs here. */
module Geometry2DMesh {
  import opened Geom
  import opened Errors

  /** gmsh's element type id of a 3-node triangle and its node count. */
  const Triangle2DId: int := 2
  const TriangleNodes: nat := 3
  /** gmsh's element type id of a 2-node line and its node count. */
  const LineId: int := 1
  const LineNodes: nat := 2

  /** gmsh numbers nodes from 1. */
  type Tag = t: nat | 1 <= t witness 1

  /** `Triangular2DMesh`: node indices are gmsh tags minus one. */
  datatype Triangular2DMesh = Triangular2DMesh(
    nodesNum: nat,
    nodeIndices: seq<nat>,
    nodeCoords: seq<Point>,
    elementsNum: nat,
    elementTags: seq<nat>,
    elements: seq<Triangular2DElement>,
    boundElements: seq<LineElement>,
    innerNodesIndices: seq<nat>,
    boundNodesIndices: seq<nat>)

  /** What `getNodes` and `getElements` return: node tags with their
      coordinates flattened x, y, z; and per element type its tags and its
      elements' node tags flattened. */
  datatype GmshOutput = GmshOutput(
    nodeTags: seq<Tag>,
    nodeCoords: seq<real>,
    elementTypes: seq<int>,
    elementTags: seq<seq<nat>>,
    elementNodeTags: seq<seq<Tag>>)

  // -----------------------------------------------------------------------
  // Input points
  // -----------------------------------------------------------------------

  /** `generate_input_points`: point i from row i of the x, y and z
      columns, one point per entry of x.  A y or z column shorter than x
      is read through Armadillo's unchecked `at`: the failure stands for
      that undefined behaviour (the pipeline passes three columns of one
      matrix, which are never shorter). */
  method GenerateInputPoints(x: seq<real>, y: seq<real>, z: seq<real>) returns (r: Result<seq<Point>>)
    ensures r.Ok? <==> |x| <= |y| && |x| <= |z|
    ensures r.Fail? ==> r.error == OutOfRange
    ensures r.Ok? ==> ConvPcToPcVec(r.value) == PointCloudVec(x, y[..|x|], z[..|x|])
  {
    var pc := [];
    for i := 0 to |x|
      invariant i <= |y| && i <= |z|
      invariant |pc| == i
      invariant forall k :: 0 <= k < i ==> pc[k] == Point(x[k], y[k], z[k])
    {
      if i >= |y| || i >= |z| {
        return Fail(OutOfRange);
      }
      pc := pc + [Point(x[i], y[i], z[i])];
    }
    var v := ConvPcToPcVec(pc);
    assert v.x == x && v.y == y[..|x|] && v.z == z[..|x|];
    r := Ok(pc);
  }

  // -----------------------------------------------------------------------
  // Polyline length
  // -----------------------------------------------------------------------

  /** `euclidean_distance`: the planar distance, z ignored; the square root
      is supplied. */
  function EuclideanDistance(a: Point, b: Point, sqrt: real -> real): real
  {
    sqrt((b.x - a.x) * (b.x - a.x) + (b.y - a.y) * (b.y - a.y))
  }

  /** The supplied square root never returns a negative number. */
  ghost predicate RootNonNegative(sqrt: real -> real)
  {
    forall x :: 0.0 <= x ==> 0.0 <= sqrt(x)
  }

  lemma DistanceNonNegative(a: Point, b: Point, sqrt: real -> real)
    requires RootNonNegative(sqrt)
    ensures 0.0 <= EuclideanDistance(a, b, sqrt)
  {
    var dx, dy := b.x - a.x, b.y - a.y;
    assert 0.0 <= dx * dx + dy * dy;
  }

  /** Distance along the polyline from pts[0] to pts[k]. */
  function ArcLength(pts: seq<Point>, k: nat, sqrt: real -> real): real
    requires k < |pts|
  {
    if k == 0 then 0.0 else ArcLength(pts, k - 1, sqrt) + EuclideanDistance(pts[k - 1], pts[k], sqrt)
  }

  /** Arc length grows along the polyline. */
  lemma {:induction false} ArcLengthMonotone(pts: seq<Point>, j: nat, k: nat, sqrt: real -> real)
    requires RootNonNegative(sqrt) && j <= k < |pts|
    ensures 0.0 <= ArcLength(pts, j, sqrt) <= ArcLength(pts, k, sqrt)
  {
    if k > j {
      ArcLengthMonotone(pts, j, k - 1, sqrt);
      DistanceNonNegative(pts[k - 1], pts[k], sqrt);
    } else if j > 0 {
      ArcLengthMonotone(pts, 0, j - 1, sqrt);
      ArcLengthMonotone(pts, j - 1, j - 1, sqrt);
      DistanceNonNegative(pts[j - 1], pts[j], sqrt);
    }
  }

  /** Length of the whole polyline; 0 for no or one point. */
  function CurveLength(pts: seq<Point>, sqrt: real -> real): (len: real)
    ensures |pts| < 2 ==> len == 0.0
  {
    if |pts| == 0 then 0.0 else ArcLength(pts, |pts| - 1, sqrt)
  }

  /** Appending a point adds the length of the last segment. */
  lemma CurveLengthAppend(pts: seq<Point>, p: Point, sqrt: real -> real)
    requires |pts| > 0
    ensures CurveLength(pts + [p], sqrt) == CurveLength(pts, sqrt) + EuclideanDistance(pts[|pts| - 1], p, sqrt)
  {
    ArcLengthPrefix(pts, pts + [p], |pts| - 1, sqrt);
  }

  /** Arc lengths only depend on the points up to k. */
  lemma {:induction false} ArcLengthPrefix(pts: seq<Point>, ext: seq<Point>, k: nat, sqrt: real -> real)
    requires k < |pts| <= |ext| && pts == ext[..|pts|]
    ensures ArcLength(pts, k, sqrt) == ArcLength(ext, k, sqrt)
  {
    if k > 0 {
      ArcLengthPrefix(pts, ext, k - 1, sqrt);
      assert pts[k - 1] == ext[k - 1] && pts[k] == ext[k];
    }
  }

  /** `linear_curve_length`: the sum of the distances between consecutive
      points, walked with a start and a finish iterator. */
  method LinearCurveLength(points: seq<Point>, sqrt: real -> real) returns (sum: real)
    ensures sum == CurveLength(points, sqrt)
  {
    if |points| == 0 {
      return 0.0;
    }
    var start, finish := 0, 1;
    sum := 0.0;
    while finish != |points|
      invariant 1 <= finish <= |points| && start == finish - 1
      invariant sum == ArcLength(points, start, sqrt)
      decreases |points| - finish
    {
      sum := sum + EuclideanDistance(points[start], points[finish], sqrt);
      start, finish := finish, finish + 1;
    }
  }

  /** The polyline is never shorter than 0. */
  lemma CurveLengthNonNegative(pts: seq<Point>, sqrt: real -> real)
    requires RootNonNegative(sqrt)
    ensures 0.0 <= CurveLength(pts, sqrt)
  {
    if |pts| > 0 {
      ArcLengthMonotone(pts, 0, |pts| - 1, sqrt);
    }
  }

  // -----------------------------------------------------------------------
  // Boundary resampling
  // -----------------------------------------------------------------------

  /** The point at ratio t of the way from a to b, in the plane z = 0. */
  function Lerp(a: Point, b: Point, t: real): (p: Point)
    ensures p.z == 0.0
    ensures t == 0.0 ==> p.x == a.x && p.y == a.y
    ensures t == 1.0 ==> p.x == b.x && p.y == b.y
  {
    Point(a.x + t * (b.x - a.x), a.y + t * (b.y - a.y), 0.0)
  }

  /** Point p, the i-th of the resampled curve, lies on source segment
      seg, at ratio t in [0, 1] of it, and at arc length i·L/(n-1) for a
      curve of length L resampled to n points. */
  ghost predicate OnArc(source: seq<Point>, n: nat, sqrt: real -> real,
                        p: Point, seg: nat, t: real, i: nat)
    requires 2 <= n
  {
    && seg + 1 < |source|
    && 0.0 <= t <= 1.0
    && p == Lerp(source[seg], source[seg + 1], t)
    && ArcLength(source, seg, sqrt) + t * EuclideanDistance(source[seg], source[seg + 1], sqrt)
       == CurveLength(source, sqrt) / ((n - 1) as real) * (i as real)
  }

  /** The first i points of the resampled curve are in place: the first
      source point, then inner points on their arc lengths, on source
      segments that never go back and that end before `bound`. */
  ghost predicate PlacedPrefix(source: seq<Point>, n: nat, sqrt: real -> real,
                               result: seq<Point>, segs: seq<nat>, ratios: seq<real>, i: nat, bound: nat)
    requires 2 <= n
  {
    && 0 < i && |result| == i && |segs| == i && |ratios| == i
    && 0 < |source| && result[0] == source[0]
    && (forall k :: 0 < k < i ==> OnArc(source, n, sqrt, result[k], segs[k], ratios[k], k))
    && (forall k :: 0 < k < i ==> segs[k] <= bound)
    && (forall k, j :: 0 < k <= j < i ==> segs[k] <= segs[j])
  }

  /** `result` resamples `source` to n points: the ends are kept, every
      other point lies on the polyline at its equally spaced arc length,
      and the walk along the source segments never goes back. */
  ghost predicate Resampled(source: seq<Point>, n: nat, sqrt: real -> real,
                            result: seq<Point>, segs: seq<nat>, ratios: seq<real>)
    requires 2 <= |source| && 2 <= n
  {
    && |result| == n && |segs| == n && |ratios| == n
    && result[0] == source[0] && result[n - 1] == source[|source| - 1]
    && (forall i :: 0 < i < n - 1 ==> OnArc(source, n, sqrt, result[i], segs[i], ratios[i], i))
    && (forall i, j :: 0 < i <= j < n - 1 ==> segs[i] <= segs[j])
  }

  /** i segments of the given length laid end to end. */
  ghost function Multiple(segmentLength: real, i: nat): real
  {
    if i == 0 then 0.0 else Multiple(segmentLength, i - 1) + segmentLength
  }

  lemma {:induction false} MultipleIsProduct(segmentLength: real, i: nat)
    ensures Multiple(segmentLength, i) == segmentLength * (i as real)
  {
    if i > 0 {
      MultipleIsProduct(segmentLength, i - 1);
    }
  }

  /** Laying more segments of a non-negative length never goes back. */
  lemma {:induction false} MultipleMonotone(segmentLength: real, i: nat, j: nat)
    requires 0.0 <= segmentLength && i <= j
    ensures Multiple(segmentLength, i) <= Multiple(segmentLength, j)
  {
    if i < j {
      MultipleMonotone(segmentLength, i, j - 1);
    }
  }

  /** With segments of length L/(n-1), the offsets i·L/(n-1) of the inner
      points lie strictly inside (0, L] and grow with i. */
  lemma OffsetBounds(total: real, n: nat, segmentLength: real, i: nat)
    requires 0.0 < total && 1 <= i < n - 1
    requires segmentLength == total / ((n - 1) as real)
    ensures 0.0 < Multiple(segmentLength, i) <= total
    ensures Multiple(segmentLength, i) < Multiple(segmentLength, i + 1)
  {
    var last := n - 1;
    MultipleIsProduct(segmentLength, last);
    assert segmentLength * (last as real) == total;
    assert 0.0 < segmentLength;
    MultipleMonotone(segmentLength, 1, i);
    MultipleMonotone(segmentLength, i, last);
  }

  /** The ratio of a part to a positive whole it does not exceed. */
  lemma RatioInUnit(part: real, whole: real)
    requires 0.0 <= part <= whole && 0.0 < whole
    ensures 0.0 <= part / whole <= 1.0 && part / whole * whole == part
  {
  }

  /** The inner walk of `boundary_density_adjustment`: step to the next
      source segment while the current one ends before the offset sought,
      so that the offset falls inside the segment reached. */
  method WalkToOffset(source: seq<Point>, sqrt: real -> real, start0: nat, offset0: real, nextOffset: real)
      returns (start: nat, finish: nat, offset: real, length: real)
    requires RootNonNegative(sqrt)
    requires start0 + 1 < |source| && offset0 == ArcLength(source, start0, sqrt)
    requires offset0 < nextOffset <= CurveLength(source, sqrt)
    ensures start0 <= start && finish == start + 1 < |source|
    ensures offset == ArcLength(source, start, sqrt)
    ensures length == EuclideanDistance(source[start], source[finish], sqrt)
    ensures offset < nextOffset <= offset + length
  {
    start, finish, offset := start0, start0 + 1, offset0;
    length := EuclideanDistance(source[start], source[finish], sqrt);
    ArcLengthMonotone(source, finish, |source| - 1, sqrt);
    while offset + length < nextOffset
      invariant start0 <= start && finish == start + 1 < |source|
      invariant offset == ArcLength(source, start, sqrt)
      invariant length == EuclideanDistance(source[start], source[finish], sqrt)
      invariant offset < nextOffset
      invariant ArcLength(source, finish, sqrt) <= CurveLength(source, sqrt)
      decreases |source| - finish
    {
      offset := offset + length;
      start, finish := finish, finish + 1;
      ArcLengthMonotone(source, finish, |source| - 1, sqrt);
      length := EuclideanDistance(source[start], source[finish], sqrt);
    }
  }

  /** Inner point i: when its offset falls inside the source segment
      reached, the segment is not degenerate and the ratio of the offset
      along it is in [0, 1] and puts the point at arc length i·L/(n-1). */
  lemma InnerPoint(source: seq<Point>, n: nat, sqrt: real -> real, i: nat, start: nat,
                   offset: real, length: real, segmentLength: real, nextOffset: real, t: real)
    requires 2 <= n && start + 1 < |source|
    requires segmentLength == CurveLength(source, sqrt) / ((n - 1) as real)
    requires nextOffset == Multiple(segmentLength, i)
    requires offset == ArcLength(source, start, sqrt)
    requires length == EuclideanDistance(source[start], source[start + 1], sqrt)
    requires offset < nextOffset <= offset + length
    requires t * length == nextOffset - offset
    ensures 0.0 < length
    ensures 0.0 <= t <= 1.0
    ensures ArcLength(source, start, sqrt) + t * EuclideanDistance(source[start], source[start + 1], sqrt)
            == CurveLength(source, sqrt) / ((n - 1) as real) * (i as real)
    ensures OnArc(source, n, sqrt, Lerp(source[start], source[start + 1], t), start, t, i)
  {
    MultipleIsProduct(segmentLength, i);
    RatioInUnit(nextOffset - offset, length);
    assert t == (nextOffset - offset) / length;
  }

  /** One more inner point placed keeps the prefix in place. */
  lemma PlacedStep(source: seq<Point>, n: nat, sqrt: real -> real,
                   result: seq<Point>, segs: seq<nat>, ratios: seq<real>, i: nat, bound: nat,
                   start: nat, t: real)
    requires 2 <= n && bound <= start && start + 1 < |source|
    requires PlacedPrefix(source, n, sqrt, result, segs, ratios, i, bound)
    requires OnArc(source, n, sqrt, Lerp(source[start], source[start + 1], t), start, t, i)
    ensures PlacedPrefix(source, n, sqrt, result + [Lerp(source[start], source[start + 1], t)],
                         segs + [start], ratios + [t], i + 1, start)
  {
  }

  /** The last point closes the resampled curve. */
  lemma PlacedComplete(source: seq<Point>, n: nat, sqrt: real -> real,
                       result: seq<Point>, segs: seq<nat>, ratios: seq<real>, bound: nat)
    requires 2 <= |source| && 2 <= n
    requires PlacedPrefix(source, n, sqrt, result, segs, ratios, n - 1, bound)
    ensures Resampled(source, n, sqrt, result + [source[|source| - 1]], segs + [bound], ratios + [0.0])
  {
    var r, s, t := result + [source[|source| - 1]], segs + [bound], ratios + [0.0];
    assert forall i :: 0 < i < n - 1 ==> r[i] == result[i] && s[i] == segs[i] && t[i] == ratios[i];
  }

  /** `boundary_density_adjustment`: fewer than two source points or a
      target below two give no points; otherwise the first source point,
      target-2 points equally spaced along the source polyline, and the
      last source point.  The ghost outputs name the source segment and the
      ratio along it of each inner point.  A curve of length 0 resampled to
      three or more points divides 0 by 0 (see README). */
  method BoundaryDensityAdjustment(source: seq<Point>, targetCount: nat, sqrt: real -> real)
      returns (result: seq<Point>, ghost segs: seq<nat>, ghost ratios: seq<real>)
    requires RootNonNegative(sqrt)
    requires 2 <= |source| && 3 <= targetCount ==> 0.0 < CurveLength(source, sqrt)
    ensures |source| < 2 || targetCount < 2 ==> result == []
    ensures 2 <= |source| && 2 <= targetCount ==> Resampled(source, targetCount, sqrt, result, segs, ratios)
  {
    if |source| < 2 || targetCount < 2 {
      return [], [], [];
    }
    var totalLength := LinearCurveLength(source, sqrt);
    var segmentLength := totalLength / ((targetCount - 1) as real);
    var start, finish := 0, 1;
    var srcSegmentOffset := 0.0;
    var srcSegmentLength := EuclideanDistance(source[start], source[finish], sqrt);
    result := [source[start]];
    segs, ratios := [0], [0.0];
    if 2 < targetCount {
      OffsetBounds(totalLength, targetCount, segmentLength, 1);
    }
    for i := 1 to targetCount - 1
      invariant finish == start + 1 < |source|
      invariant srcSegmentOffset == ArcLength(source, start, sqrt)
      invariant i < targetCount - 1 ==> srcSegmentOffset < Multiple(segmentLength, i)
      invariant PlacedPrefix(source, targetCount, sqrt, result, segs, ratios, i, start)
    {
      var nextOffset := segmentLength * (i as real);
      MultipleIsProduct(segmentLength, i);
      OffsetBounds(totalLength, targetCount, segmentLength, i);
      ghost var start0 := start;
      start, finish, srcSegmentOffset, srcSegmentLength :=
        WalkToOffset(source, sqrt, start, srcSegmentOffset, nextOffset);
      var partOffset := nextOffset - srcSegmentOffset;
      var partRatio := partOffset / srcSegmentLength;
      InnerPoint(source, targetCount, sqrt, i, start, srcSegmentOffset, srcSegmentLength, segmentLength, nextOffset, partRatio);
      PlacedStep(source, targetCount, sqrt, result, segs, ratios, i, start0, start, partRatio);
      result := result + [Lerp(source[start], source[finish], partRatio)];
      segs, ratios := segs + [start], ratios + [partRatio];
    }
    PlacedComplete(source, targetCount, sqrt, result, segs, ratios, start);
    result := result + [source[|source| - 1]];
    segs, ratios := segs + [start], ratios + [0.0];
  }

  // -----------------------------------------------------------------------
  // Unpacking gmsh's arrays
  // -----------------------------------------------------------------------

  predicate StrictlyIncreasing(s: seq<nat>)
  {
    forall i, j :: 0 <= i < j < |s| ==> s[i] < s[j]
  }

  /** A gmsh tag as a zero-based index. */
  function ToIndex(t: Tag): (i: nat)
    ensures i + 1 == t
  {
    t as int - 1
  }

  /** Tags turned into zero-based indices. */
  function Indices(tags: seq<Tag>): (idx: seq<nat>)
    ensures |idx| == |tags| && forall i :: 0 <= i < |tags| ==> idx[i] + 1 == tags[i]
  {
    seq(|tags|, i requires 0 <= i < |tags| => ToIndex(tags[i]))
  }

  /** The node indices loop of `generate_mesh`. */
  method NodeIndices(nodeTags: seq<Tag>) returns (idx: seq<nat>)
    ensures idx == Indices(nodeTags)
  {
    idx := [];
    for i := 0 to |nodeTags|
      invariant idx == Indices(nodeTags[..i])
    {
      assert nodeTags[..i + 1] == nodeTags[..i] + [nodeTags[i]];
      idx := idx + [ToIndex(nodeTags[i])];
    }
    assert nodeTags[..|nodeTags|] == nodeTags;
  }

  /** The node coordinates loop of `generate_mesh`: x, y, z triples; a
      length that is not a multiple of three fails the bounds check. */
  method NodeCoords(flat: seq<real>) returns (r: Result<seq<Point>>)
    ensures r.Ok? <==> |flat| % TriangleNodes == 0
    ensures r.Fail? ==> r.error == OutOfRange
    ensures r.Ok? ==> TriangleNodes * |r.value| == |flat| && forall k :: 0 <= k < |r.value| ==>
      r.value[k] == Point(flat[3 * k], flat[3 * k + 1], flat[3 * k + 2])
  {
    var pts: seq<Point> := [];
    var i := 0;
    while i < |flat|
      invariant i == 3 * |pts| <= |flat|
      invariant forall k :: 0 <= k < |pts| ==> pts[k] == Point(flat[3 * k], flat[3 * k + 1], flat[3 * k + 2])
      decreases |flat| - i
    {
      if |flat| <= i + 2 {
        return Fail(OutOfRange);
      }
      pts := pts + [Point(flat[i], flat[i + 1], flat[i + 2])];
      i := i + TriangleNodes;
    }
    return Ok(pts);
  }

  /** The last position of id in s, or 0 when id does not occur. */
  function LastIndexOf(s: seq<int>, id: int): (k: nat)
    ensures id in s ==> k < |s| && s[k] == id && forall j :: k < j < |s| ==> s[j] != id
    ensures id !in s ==> k == 0
  {
    if |s| == 0 then 0
    else if s[|s| - 1] == id then |s| - 1
    else LastIndexOf(s[..|s| - 1], id)
  }

  /** The loop of `generate_mesh` that finds the triangle and the line
      blocks among the element types: the last of each kind, else 0. */
  method ElementBlocks(types: seq<int>) returns (triangleIndex: nat, lineIndex: nat)
    ensures triangleIndex == LastIndexOf(types, Triangle2DId)
    ensures lineIndex == LastIndexOf(types, LineId)
  {
    triangleIndex, lineIndex := 0, 0;
    for i := 0 to |types|
      invariant triangleIndex == LastIndexOf(types[..i], Triangle2DId)
      invariant lineIndex == LastIndexOf(types[..i], LineId)
    {
      assert types[..i + 1][..i] == types[..i];
      if types[i] == Triangle2DId { triangleIndex := i; }
      if types[i] == LineId { lineIndex := i; }
    }
    assert types[..|types|] == types;
  }

  /** The boundary line loop of `generate_mesh`: one line element per pair
      of node tags and both its node indices; an odd count fails the
      bounds check. */
  method LineElements(tags: seq<Tag>) returns (r: Result<(seq<LineElement>, seq<nat>)>)
    ensures r.Ok? <==> |tags| % LineNodes == 0
    ensures r.Fail? ==> r.error == OutOfRange
    ensures r.Ok? ==> var (lines, idx) := r.value;
      && LineNodes * |lines| == |tags| && idx == Indices(tags)
      && forall k :: 0 <= k < |lines| ==> lines[k] == LineElement(ToIndex(tags[2 * k]), ToIndex(tags[2 * k + 1]))
  {
    var lines: seq<LineElement> := [];
    var idx: seq<nat> := [];
    var i := 0;
    while i < |tags|
      invariant i == 2 * |lines| <= |tags|
      invariant idx == Indices(tags[..i])
      invariant forall k :: 0 <= k < |lines| ==> lines[k] == LineElement(ToIndex(tags[2 * k]), ToIndex(tags[2 * k + 1]))
      decreases |tags| - i
    {
      if |tags| <= i + 1 {
        return Fail(OutOfRange);
      }
      var line := LineElement(ToIndex(tags[i]), ToIndex(tags[i + 1]));
      assert tags[..i + 2] == tags[..i] + [tags[i], tags[i + 1]];
      idx := idx + [ToIndex(tags[i]), ToIndex(tags[i + 1])];
      lines := lines + [line];
      i := i + LineNodes;
    }
    assert tags[..|tags|] == tags;
    return Ok((lines, idx));
  }

  /** The triangle loop of `generate_mesh`: one element per triple of node
      tags and its three node indices; a count that is not a multiple of
      three fails the bounds check. */
  method TriangleElements(tags: seq<Tag>) returns (r: Result<(seq<Triangular2DElement>, seq<nat>)>)
    ensures r.Ok? <==> |tags| % TriangleNodes == 0
    ensures r.Fail? ==> r.error == OutOfRange
    ensures r.Ok? ==> var (elems, idx) := r.value;
      && TriangleNodes * |elems| == |tags| && idx == Indices(tags)
      && forall k :: 0 <= k < |elems| ==>
           elems[k] == Triangular2DElement(ToIndex(tags[3 * k]), ToIndex(tags[3 * k + 1]), ToIndex(tags[3 * k + 2]))
  {
    var elems: seq<Triangular2DElement> := [];
    var idx: seq<nat> := [];
    var i := 0;
    while i < |tags|
      invariant i == 3 * |elems| <= |tags|
      invariant idx == Indices(tags[..i])
      invariant forall k :: 0 <= k < |elems| ==>
        elems[k] == Triangular2DElement(ToIndex(tags[3 * k]), ToIndex(tags[3 * k + 1]), ToIndex(tags[3 * k + 2]))
      decreases |tags| - i
    {
      if |tags| <= i + 2 {
        return Fail(OutOfRange);
      }
      var elem := Triangular2DElement(ToIndex(tags[i]), ToIndex(tags[i + 1]), ToIndex(tags[i + 2]));
      assert tags[..i + 3] == tags[..i] + [tags[i], tags[i + 1], tags[i + 2]];
      idx := idx + [ToIndex(tags[i]), ToIndex(tags[i + 1]), ToIndex(tags[i + 2])];
      elems := elems + [elem];
      i := i + TriangleNodes;
    }
    assert tags[..|tags|] == tags;
    return Ok((elems, idx));
  }

  /** A value below the head of a strictly increasing sequence extends it
      at the front. */
  lemma PrependIncreasing(a: nat, s: seq<nat>)
    requires StrictlyIncreasing(s) && (|s| > 0 ==> a < s[0])
    ensures StrictlyIncreasing([a] + s)
  {
    var t := [a] + s;
    forall i, j | 0 <= i < j < |t|
      ensures t[i] < t[j]
    {
      assert t[j] == s[j - 1] && s[0] <= s[j - 1];
      if i > 0 {
        assert t[i] == s[i - 1];
      }
    }
  }

  /** x put in its place in a strictly increasing sequence, unless it is
      there already. */
  function InsertUnique(r: seq<nat>, x: nat): (t: seq<nat>)
    requires StrictlyIncreasing(r)
    ensures StrictlyIncreasing(t)
    ensures forall y :: y in t <==> y in r || y == x
  {
    if |r| == 0 then [x]
    else if x < r[0] then
      PrependIncreasing(x, r);
      [x] + r
    else if x == r[0] then r
    else
      var rest := InsertUnique(r[1..], x);
      assert rest[0] in rest && r == [r[0]] + r[1..];
      PrependIncreasing(r[0], rest);
      [r[0]] + rest
  }

  /** `std::sort` followed by `std::unique` and the `resize` to the unique
      range: the distinct values in increasing order. */
  function SortUnique(s: seq<nat>): (r: seq<nat>)
    ensures StrictlyIncreasing(r)
    ensures forall y :: y in r <==> y in s
  {
    if |s| == 0 then []
    else
      var r := InsertUnique(SortUnique(s[..|s| - 1]), s[|s| - 1]);
      assert s == s[..|s| - 1] + [s[|s| - 1]];
      r
  }

  /** Two sequences with the same values are both empty or both not. */
  lemma SameValuesSameEmptiness(a: seq<nat>, b: seq<nat>)
    requires forall y :: y in a <==> y in b
    ensures |a| == 0 <==> |b| == 0
  {
    if |a| > 0 {
      assert a[0] in b;
    }
    if |b| > 0 {
      assert b[0] in a;
    }
  }

  /** A strictly increasing sequence is fixed by its set of values: any
      other sort-and-dedupe of the same values gives the same list. */
  lemma {:induction false} StrictlyIncreasingUnique(a: seq<nat>, b: seq<nat>)
    requires StrictlyIncreasing(a) && StrictlyIncreasing(b)
    requires forall y :: y in a <==> y in b
    ensures a == b
  {
    SameValuesSameEmptiness(a, b);
    if |a| > 0 {
      assert a[0] == b[0] by {
        assert a[0] in b && b[0] in a;
      }
      forall y
        ensures y in a[1..] <==> y in b[1..]
      {
        if y in a[1..] {
          assert y in b && y != b[0];
        }
        if y in b[1..] {
          assert y in a && y != a[0];
        }
      }
      StrictlyIncreasingUnique(a[1..], b[1..]);
      assert a == [a[0]] + a[1..] && b == [b[0]] + b[1..];
    }
  }

  /** `erase(remove(begin, end, x), end)`: every copy of x taken out, the
      order of the rest kept. */
  function Without(s: seq<nat>, x: nat): (r: seq<nat>)
    ensures forall y :: y in r <==> y in s && y != x
    ensures |r| <= |s|
  {
    if |s| == 0 then []
    else (if s[0] == x then [] else [s[0]]) + Without(s[1..], x)
  }

  /** Removing values keeps a strictly increasing sequence so. */
  lemma {:induction false} WithoutIncreasing(s: seq<nat>, x: nat)
    requires StrictlyIncreasing(s)
    ensures StrictlyIncreasing(Without(s, x))
  {
    if |s| > 0 {
      WithoutIncreasing(s[1..], x);
      var w, r := Without(s[1..], x), Without(s, x);
      if s[0] != x {
        assert r == [s[0]] + w;
        forall i, j | 0 <= i < j < |r|
          ensures r[i] < r[j]
        {
          assert r[j] == w[j - 1] && r[j] in s[1..];
          if i > 0 {
            assert r[i] == w[i - 1];
          }
        }
      } else {
        assert r == w;
      }
    }
  }

  /** The loop of `generate_mesh` that takes the boundary indices out of
      the inner ones. */
  method RemoveBoundary(inner: seq<nat>, bound: seq<nat>) returns (r: seq<nat>)
    ensures forall y :: y in r <==> y in inner && y !in bound
    ensures StrictlyIncreasing(inner) ==> StrictlyIncreasing(r)
  {
    r := inner;
    for i := 0 to |bound|
      invariant forall y :: y in r <==> y in inner && y !in bound[..i]
      invariant StrictlyIncreasing(inner) ==> StrictlyIncreasing(r)
    {
      if StrictlyIncreasing(r) {
        WithoutIncreasing(r, bound[i]);
      }
      assert bound[..i + 1] == bound[..i] + [bound[i]];
      r := Without(r, bound[i]);
    }
    assert bound[..|bound|] == bound;
  }

  /** gmsh's arrays can be read without a bounds failure: whole coordinate
      triples, a line block and a triangle block that exist, whole node
      pairs and whole node triples. */
  predicate Unpackable(g: GmshOutput)
  {
    var t, l := LastIndexOf(g.elementTypes, Triangle2DId), LastIndexOf(g.elementTypes, LineId);
    && |g.nodeCoords| % TriangleNodes == 0
    && l < |g.elementNodeTags| && |g.elementNodeTags[l]| % LineNodes == 0
    && t < |g.elementTags| && t < |g.elementNodeTags| && |g.elementNodeTags[t]| % TriangleNodes == 0
  }

  /** The unpacking part of `generate_mesh`, on gmsh's arrays: nodes,
      boundary lines, triangles, and the sorted duplicate-free boundary and
      inner index lists, the inner one without boundary indices. */
  method UnpackMesh(g: GmshOutput) returns (r: Result<Triangular2DMesh>)
    ensures r.Ok? <==> Unpackable(g)
    ensures r.Fail? ==> r.error == OutOfRange
    ensures r.Ok? ==> var m := r.value;
      var t, l := LastIndexOf(g.elementTypes, Triangle2DId), LastIndexOf(g.elementTypes, LineId);
      && t < |g.elementTags| && t < |g.elementNodeTags| && l < |g.elementNodeTags|
      && m.nodesNum == |g.nodeTags| && m.nodeIndices == Indices(g.nodeTags)
      && TriangleNodes * |m.nodeCoords| == |g.nodeCoords|
      && m.elementTags == g.elementTags[t] && m.elementsNum == |g.elementTags[t]|
      && LineNodes * |m.boundElements| == |g.elementNodeTags[l]|
      && TriangleNodes * |m.elements| == |g.elementNodeTags[t]|
      && StrictlyIncreasing(m.boundNodesIndices)
      && (forall y :: y in m.boundNodesIndices <==> y in Indices(g.elementNodeTags[l]))
      && StrictlyIncreasing(m.innerNodesIndices)
      && (forall y :: y in m.innerNodesIndices <==>
            y in Indices(g.elementNodeTags[t]) && y !in m.boundNodesIndices)
    ensures r.Ok? ==> forall k :: 0 <= k < |r.value.nodeCoords| ==>
      r.value.nodeCoords[k] == Point(g.nodeCoords[3 * k], g.nodeCoords[3 * k + 1], g.nodeCoords[3 * k + 2])
    ensures r.Ok? ==> var l := LastIndexOf(g.elementTypes, LineId);
      forall k :: 0 <= k < |r.value.boundElements| ==>
        r.value.boundElements[k] == LineElement(ToIndex(g.elementNodeTags[l][2 * k]), ToIndex(g.elementNodeTags[l][2 * k + 1]))
    ensures r.Ok? ==> var t := LastIndexOf(g.elementTypes, Triangle2DId);
      forall k :: 0 <= k < |r.value.elements| ==>
        r.value.elements[k] == Triangular2DElement(ToIndex(g.elementNodeTags[t][3 * k]),
          ToIndex(g.elementNodeTags[t][3 * k + 1]), ToIndex(g.elementNodeTags[t][3 * k + 2]))
  {
    var nodeIndices := NodeIndices(g.nodeTags);
    var coords := NodeCoords(g.nodeCoords);
    if coords.Fail? {
      return Fail(coords.error);
    }
    var triangleIndex, lineIndex := ElementBlocks(g.elementTypes);
    if |g.elementNodeTags| <= lineIndex {
      return Fail(OutOfRange);
    }
    var lines := LineElements(g.elementNodeTags[lineIndex]);
    if lines.Fail? {
      return Fail(lines.error);
    }
    var boundIndices := SortUnique(lines.value.1);
    if |g.elementTags| <= triangleIndex || |g.elementNodeTags| <= triangleIndex {
      return Fail(OutOfRange);
    }
    var triangles := TriangleElements(g.elementNodeTags[triangleIndex]);
    if triangles.Fail? {
      return Fail(triangles.error);
    }
    var innerIndices := SortUnique(triangles.value.1);
    innerIndices := RemoveBoundary(innerIndices, boundIndices);
    r := Ok(Triangular2DMesh(
      |g.nodeTags|, nodeIndices, coords.value,
      |g.elementTags[triangleIndex]|, g.elementTags[triangleIndex],
      triangles.value.0, lines.value.0, innerIndices, boundIndices));
  }

  // -----------------------------------------------------------------------
  // Boundary and inner points
  // -----------------------------------------------------------------------

  /** The node coordinates at the listed indices, in list order; an index
      past the nodes fails the bounds check. */
  method PointsAt(coords: seq<Point>, idx: seq<nat>) returns (r: Result<seq<Point>>)
    ensures r.Ok? <==> forall i :: 0 <= i < |idx| ==> idx[i] < |coords|
    ensures r.Fail? ==> r.error == OutOfRange
    ensures r.Ok? ==> |r.value| == |idx| && forall i :: 0 <= i < |idx| ==> r.value[i] == coords[idx[i]]
  {
    var pc: seq<Point> := [];
    for i := 0 to |idx|
      invariant |pc| == i
      invariant forall k :: 0 <= k < i ==> idx[k] < |coords| && pc[k] == coords[idx[k]]
    {
      if |coords| <= idx[i] {
        return Fail(OutOfRange);
      }
      pc := pc + [coords[idx[i]]];
    }
    return Ok(pc);
  }

  /** `get_boundary_points`: the boundary nodes, in index-list order. */
  method GetBoundaryPoints(mesh: Triangular2DMesh) returns (r: Result<seq<Point>>)
    ensures r.Ok? <==> forall i :: 0 <= i < |mesh.boundNodesIndices| ==> mesh.boundNodesIndices[i] < |mesh.nodeCoords|
    ensures r.Fail? ==> r.error == OutOfRange
    ensures r.Ok? ==> |r.value| == |mesh.boundNodesIndices| && forall i :: 0 <= i < |r.value| ==>
      r.value[i] == mesh.nodeCoords[mesh.boundNodesIndices[i]]
  {
    r := PointsAt(mesh.nodeCoords, mesh.boundNodesIndices);
  }

  /** `get_inner_points`: the inner nodes, in index-list order. */
  method GetInnerPoints(mesh: Triangular2DMesh) returns (r: Result<seq<Point>>)
    ensures r.Ok? <==> forall i :: 0 <= i < |mesh.innerNodesIndices| ==> mesh.innerNodesIndices[i] < |mesh.nodeCoords|
    ensures r.Fail? ==> r.error == OutOfRange
    ensures r.Ok? ==> |r.value| == |mesh.innerNodesIndices| && forall i :: 0 <= i < |r.value| ==>
      r.value[i] == mesh.nodeCoords[mesh.innerNodesIndices[i]]
  {
    r := PointsAt(mesh.nodeCoords, mesh.innerNodesIndices);
  }
}
