/** The RPIM orchestrator (src/rpim2D.cpp, include/rpim2D.h): it builds the
    field-node mesh, the point loads and the quadrature cloud, moves the
    field nodes and their cloud entries by a displacement vector q̄, and
    evaluates the deformed mesh and the deformed positions of points of
    interest. */
module Rpim2D {
  import opened Geom
  import opened Meshes
  import opened Errors
  import opened LinAlg
  import opened Boundaries
  import opened Pointcloud
  import PL = PointLoads
  import opened SupportDomain
  import opened ShapeFunctions
  import opened GeometryModels
  import GQTriangle
  import GQLine

  // -----------------------------------------------------------------------
  // Moving nodes
  // -----------------------------------------------------------------------

  /** The points with each of the first n put at its initial position plus
      (q̄[2i], q̄[2i+1]), keeping its current z; the others are unchanged. */
  function Moved(current: seq<Point>, initial: seq<Point>, qBar: Vector, n: nat): (m: seq<Point>)
    requires n <= |current| && n <= |initial| && 2 * n <= |qBar|
    ensures |m| == |current|
  {
    seq(|current|, i requires 0 <= i < |current| =>
      if i < n then Point(initial[i].x + qBar[2 * i], initial[i].y + qBar[2 * i + 1], current[i].z)
      else current[i])
  }

  /** Moving one more node is a single point update. */
  lemma MovedStep(current: seq<Point>, initial: seq<Point>, qBar: Vector, n: nat)
    requires n < |current| && n < |initial| && 2 * n + 2 <= |qBar|
    ensures Moved(current, initial, qBar, n + 1) ==
            Moved(current, initial, qBar, n)[n := Point(initial[n].x + qBar[2 * n], initial[n].y + qBar[2 * n + 1], current[n].z)]
  {
  }

  /** The displacements (x, y) of the first n points from their initial
      positions, interleaved as in q̄. */
  function NodeDisplacements(moved: seq<Point>, initial: seq<Point>, n: nat): (d: Vector)
    requires n <= |moved| && n <= |initial|
    ensures |d| == 2 * n
    ensures forall i :: 0 <= i < n ==>
      d[2 * i] == moved[i].x - initial[i].x && d[2 * i + 1] == moved[i].y - initial[i].y
  {
    if n == 0 then []
    else
      NodeDisplacements(moved, initial, n - 1) +
        [moved[n - 1].x - initial[n - 1].x, moved[n - 1].y - initial[n - 1].y]
  }

  /** Moving recovers q̄: the displacements of the first k ≤ n moved points
      are the first 2k entries of q̄. */
  lemma {:induction false} MovedDisplacements(current: seq<Point>, initial: seq<Point>, qBar: Vector, n: nat, k: nat)
    requires n <= |current| && n <= |initial| && 2 * n <= |qBar| && k <= n
    ensures NodeDisplacements(Moved(current, initial, qBar, n), initial, k) == qBar[..2 * k]
  {
    if k > 0 {
      MovedDisplacements(current, initial, qBar, n, k - 1);
      assert qBar[..2 * k] == qBar[..2 * (k - 1)] + [qBar[2 * k - 2], qBar[2 * k - 1]];
    }
  }

  /** Moving twice by the same q̄ is moving once: positions are recomputed
      from the initial ones, displacements do not accumulate. */
  lemma MovedIdempotent(current: seq<Point>, initial: seq<Point>, qBar: Vector, n: nat)
    requires n <= |current| && n <= |initial| && 2 * n <= |qBar|
    ensures Moved(Moved(current, initial, qBar, n), initial, qBar, n) == Moved(current, initial, qBar, n)
  {
    var once := Moved(current, initial, qBar, n);
    assert forall i :: 0 <= i < |current| ==> Moved(once, initial, qBar, n)[i] == once[i];
  }

  /** The displaced position of a point of interest, z unchanged. */
  function Shifted(p: Point, u: Vector): (s: Point)
    requires |u| >= 2
    ensures s.z == p.z && s.x - p.x == u[0] && s.y - p.y == u[1]
  {
    Point(p.x + u[0], p.y + u[1], p.z + 0.0)
  }

  // -----------------------------------------------------------------------
  // Deformed state of points of interest
  // -----------------------------------------------------------------------

  /** The support domains of the points of interest among the field nodes:
      the entries of the cloud `field ++ inter` after the field nodes. */
  function StateDomains(field: seq<Point>, inter: seq<Point>, params: RPIMParameters,
                        sqrt: real -> real, search: (nat, real) -> seq<int>): (sd: seq<SupportDomainPoint>)
    ensures |sd| == |inter|
  {
    SupportDomains(field, field + inter, Matches(search, SearchRadius(params, sqrt), |field|), |field|)
  }

  /** A shape function built from the search parameters, as `update` of the
      geometry model builds them. */
  predicate FromSearchParams(sf: ShapeFunction, params: RPIMParameters)
  {
    sf.ac == params.alphaS && sf.dc == params.dc && sf.q == params.q && sf.ms == 0
  }

  /** The first n entries have support and yield a displacement with the
      shape functions sfs. */
  ghost predicate Displaced(sfs: seq<ShapeFunction>, sd: seq<SupportDomainPoint>, qBar: Vector,
                            pow: (real, real) -> real, inv: Matrix -> Result<Matrix>, n: nat)
    requires n <= |sfs| && n <= |sd| && InverseKeepsShape(inv)
  {
    forall k :: 0 <= k < n ==> WellFormedEntry(sd[k]) && Displacement(sfs[k], sd[k], qBar, pow, inv).Ok?
  }

  /** The first n points of interest moved by the displacements of their
      evaluations. */
  ghost predicate ShiftedPrefix(pts: seq<Point>, interPc: seq<Point>, sfs: seq<ShapeFunction>,
                                sd: seq<SupportDomainPoint>, qBar: Vector,
                                pow: (real, real) -> real, inv: Matrix -> Result<Matrix>, n: nat)
    requires n <= |pts| && n <= |interPc| && n <= |sfs| && n <= |sd| && InverseKeepsShape(inv)
    requires Displaced(sfs, sd, qBar, pow, inv, n)
  {
    forall k :: 0 <= k < n ==> pts[k] == Shifted(interPc[k], Displacement(sfs[k], sd[k], qBar, pow, inv).value)
  }

  /** An entry as `generate` leaves it: a 2-vector point with paired
      supports, or untouched, with no point coordinates and no supports. */
  predicate GeneratedEntry(sd: SupportDomainPoint)
  {
    WellFormedEntry(sd) || (sd.pointCoords == [] && sd.supportIndices == [] && sd.supportCoords == [])
  }

  /** Every entry of `generate`'s result is a generated entry: a reached
      point records its (x, y) and supports that are field nodes' (x, y). */
  lemma GeneratedEntries(field: seq<Point>, data: seq<Point>, ms: seq<seq<int>>)
    requires |field| <= |data| && |ms| == |field|
    ensures forall k :: 0 <= k < |data| - |field| ==> GeneratedEntry(SupportDomains(field, data, ms, |field|)[k])
  {
    forall k | 0 <= k < |data| - |field|
      ensures GeneratedEntry(SupportDomains(field, data, ms, |field|)[k])
    {
      var e := SupportDomains(field, data, ms, |field|)[k];
      EntryMeaning(field, data, ms, k);
      forall j | 0 <= j < |e.supportCoords|
        ensures |e.supportCoords[j]| == 2
      {
        var qq, i := EntrySupportSource(field, data, ms, k, j);
      }
    }
  }

  /** At a reached entry whose support dofs lie in q̄, `calculate` fails
      exactly when the displacement does, and then with Singular. */
  lemma OutcomeIsDisplacement(sf: ShapeFunction, sd: SupportDomainPoint, qBar: Vector,
                              pow: (real, real) -> real, inv: Matrix -> Result<Matrix>)
    requires WellFormedEntry(sd) && SlotsFit(sd.supportIndices, |qBar|) && InverseKeepsShape(inv)
    ensures var o := sf.Outcome(sd.pointCoords, sd.supportCoords, pow, inv);
      (o.Fail? <==> Displacement(sf, sd, qBar, pow, inv).Fail?) && (o.Fail? ==> o == Fail(Singular))
  {
  }

  /** With no polynomial terms an entry without supports can be evaluated
      at any point: the moment matrix is empty, and so is its inverse. */
  lemma UntouchedEntryEvaluates(sf: ShapeFunction, pow: (real, real) -> real, inv: Matrix -> Result<Matrix>)
    requires sf.ms == 0 && InverseKeepsShape(inv)
    ensures forall x: Vector :: sf.BasesReadable(x, 0)
    ensures inv(sf.MomentMatrix([], pow)) == Ok([])
  {
    assert sf.MomentMatrix([], pow) == [];
  }

  /** An entry without support or with a support dof past the end of q̄
      stops the evaluation with OutOfRange. */
  predicate Unusable(sd: SupportDomainPoint, qBar: Vector)
  {
    !WellFormedEntry(sd) || !SlotsFit(sd.supportIndices, |qBar|)
  }

  // -----------------------------------------------------------------------
  // The orchestrator
  // -----------------------------------------------------------------------

  class RPIM2D {
    var fieldNodesMesh: Mesh2D
    var fieldNodesMeshInitial: Mesh2D
    var fieldNodesNum: nat
    const dofsPerNode: nat := 2
    var dofsNum: nat
    var boundariesNum: nat
    var thickness: real
    const pointLoad: PL.PointLoads
    const pcRpim: PointcloudRPIM
    var cloud: seq<Point>
    var cloudInitial: seq<Point>
    var searchParams: RPIMParameters
    var animationFlag: bool
    /** The quadratic triangle rule. */
    const volumeQuadrInterp: nat := 1
    var volumeCellProps: seq<GQTriangle.CellProperties>
    var volumeCellQuadrWeights: seq<real>
    const surfaceQuadrInterp: nat := 3
    var surfaceCellProps: seq<GQLine.CellProperties>
    var surfaceCellQuadrWeights: seq<real>

    /** The quadrature handles hold their tables, the current and the
        initial mesh have one node per field node, and there are two dofs
        per field node. */
    ghost predicate Valid()
      reads this`fieldNodesMesh, this`fieldNodesMeshInitial, this`fieldNodesNum, this`dofsNum, this`boundariesNum
      reads pcRpim, pcRpim.volumeGq, pcRpim.surfaceGq
    {
      && pcRpim.Valid()
      && |fieldNodesMesh.nodeCoords| == fieldNodesNum == |fieldNodesMeshInitial.nodeCoords|
      && dofsNum == 2 * fieldNodesNum
      && boundariesNum <= fieldNodesNum
    }

    /** The cloud and its initial copy hold the field nodes first. */
    ghost predicate CloudReady()
      reads this`fieldNodesNum, this`cloud, this`cloudInitial
    {
      fieldNodesNum <= |cloud| == |cloudInitial|
    }

    /** The field-node mesh renumbers the raw nodes with the boundary
        nodes first; its initial copy is the same; 2 dofs per node. */
    ghost predicate FieldNodesFrom(meshRaw: Mesh2D)
      requires |meshRaw.nodeCoords| > 0
      reads this`fieldNodesMesh, this`fieldNodesMeshInitial, this`fieldNodesNum, this`dofsNum, this`boundariesNum
    {
      && fieldNodesMesh == FieldNodes(meshRaw)
      && fieldNodesMeshInitial == fieldNodesMesh
      && boundariesNum == |BoundaryNodes(meshRaw)|
      && fieldNodesNum == |meshRaw.nodeCoords| && dofsNum == 2 * fieldNodesNum
    }

    /** The cloud, its initial copy and the quadrature cells are those the
        point-cloud handler built; the cloud is the field nodes followed by
        the points of the quadratic triangle rule and of the 3-point line
        rule over the field-node mesh. */
    ghost predicate CloudLoaded()
      reads this`fieldNodesMesh, this`cloud, this`cloudInitial, this`volumeCellProps, this`volumeCellQuadrWeights
      reads this`surfaceCellProps, this`surfaceCellQuadrWeights, pcRpim
    {
      && GQTriangle.ValidTriangles(fieldNodesMesh) && GQLine.ValidLines(fieldNodesMesh)
      && SurfaceEvalsAccepted(fieldNodesMesh, surfaceQuadrInterp)
      && cloud == BuiltCloud(fieldNodesMesh, volumeQuadrInterp, surfaceQuadrInterp)
      && cloud == pcRpim.cloud && cloudInitial == cloud
      && volumeCellProps == pcRpim.volumeCellProps && volumeCellQuadrWeights == pcRpim.volumeCellQuadrWeights
      && surfaceCellProps == pcRpim.surfaceCellsProps && surfaceCellQuadrWeights == pcRpim.surfaceCellQuadrWeights
    }

    constructor ()
      ensures Valid() && fresh(pointLoad) && fresh(pcRpim) && fresh(pcRpim.volumeGq) && fresh(pcRpim.surfaceGq)
      ensures fieldNodesNum == 0 && dofsNum == 0 && boundariesNum == 0 && cloud == [] && cloudInitial == []
      ensures pointLoad.selectedNodesId == []
    {
      fieldNodesMesh := Mesh2D([], [], [], []);
      fieldNodesMeshInitial := Mesh2D([], [], [], []);
      fieldNodesNum, dofsNum, boundariesNum := 0, 0, 0;
      thickness := 0.0;
      pointLoad := new PL.PointLoads();
      pcRpim := new PointcloudRPIM();
      cloud, cloudInitial := [], [];
      searchParams := RPIMParameters(0.0, 0.0, 0.0, 0.0, 0.0);
      animationFlag := false;
      volumeCellProps, volumeCellQuadrWeights := [], [];
      surfaceCellProps, surfaceCellQuadrWeights := [], [];
    }

    /** `initialize`: the field-node mesh renumbers the raw nodes with the
        boundary nodes first, there are 2F dofs for F field nodes, node 28
        is loaded, and the cloud is the field nodes followed by the
        quadrature points of the quadratic triangle rule and the 3-point
        line rule.  A rule choice outside the tables fails the look-up. */
    method Initialize(meshRaw: Mesh2D, thickness: real, params: RPIMParameters, animate: bool, sqrt: real -> real)
        returns (r: Result<Coverage>)
      requires Valid()
      requires |meshRaw.nodeCoords| > 0 && ValidMesh(meshRaw)
      modifies this`searchParams, this`animationFlag, this`thickness
      modifies this`fieldNodesMesh, this`fieldNodesMeshInitial, this`boundariesNum, this`fieldNodesNum, this`dofsNum
      modifies this`cloud, this`cloudInitial, this`volumeCellProps, this`volumeCellQuadrWeights
      modifies this`surfaceCellProps, this`surfaceCellQuadrWeights
      modifies pointLoad, pcRpim, pcRpim.volumeGq, pcRpim.surfaceGq
      ensures Valid()
      ensures searchParams == params && animationFlag == animate && this.thickness == thickness
      ensures FieldNodesFrom(meshRaw)
      ensures pointLoad.selectedNodesId == old(pointLoad.selectedNodesId) + [28]
      ensures r.Ok? <==> VolumeOrderAccepted(volumeQuadrInterp) && SurfaceEvalsAccepted(fieldNodesMesh, surfaceQuadrInterp)
      ensures r.Fail? ==> r.error == OutOfRange
      ensures r.Ok? ==> CloudLoaded() && CloudReady()
    {
      Configure(meshRaw, thickness, params, animate);
      r := LoadCloud(sqrt);
    }

    /** The steps of `initialize` before the cloud is built: the parameters,
        the field-node mesh and the point load. */
    method Configure(meshRaw: Mesh2D, thickness: real, params: RPIMParameters, animate: bool)
      requires |meshRaw.nodeCoords| > 0 && ValidMesh(meshRaw)
      modifies this`searchParams, this`animationFlag, this`thickness
      modifies this`fieldNodesMesh, this`fieldNodesMeshInitial, this`boundariesNum, this`fieldNodesNum, this`dofsNum
      modifies pointLoad
      ensures searchParams == params && animationFlag == animate && this.thickness == thickness
      ensures FieldNodesFrom(meshRaw)
      ensures fieldNodesNum == |fieldNodesMesh.nodeCoords| && boundariesNum <= fieldNodesNum
      ensures GQTriangle.ValidTriangles(fieldNodesMesh) && GQLine.ValidLines(fieldNodesMesh)
      ensures pointLoad.selectedNodesId == old(pointLoad.selectedNodesId) + [28]
    {
      searchParams := params;
      animationFlag := animate;
      SetFieldNodes(meshRaw);
      this.thickness := thickness;
      pointLoad.Initialize(fieldNodesMeshInitial);
    }

    /** The steps of `initialize` that renumber the raw mesh: boundary
        nodes first, then the free ones; 2 dofs per field node. */
    method SetFieldNodes(meshRaw: Mesh2D)
      requires |meshRaw.nodeCoords| > 0 && ValidMesh(meshRaw)
      modifies this`fieldNodesMesh, this`fieldNodesMeshInitial, this`boundariesNum, this`fieldNodesNum, this`dofsNum
      ensures FieldNodesFrom(meshRaw)
      ensures fieldNodesNum == |fieldNodesMesh.nodeCoords|
      ensures boundariesNum <= fieldNodesNum
      ensures GQTriangle.ValidTriangles(fieldNodesMesh) && GQLine.ValidLines(fieldNodesMesh)
    {
      var bc := new BoundaryConditions(meshRaw);
      FieldMeshValid(meshRaw);
      fieldNodesMesh := bc.mesh;
      fieldNodesMeshInitial := fieldNodesMesh;
      boundariesNum := bc.boundariesNum;
      fieldNodesNum := |fieldNodesMesh.nodeCoords|;
      assert dofsPerNode == 2;
      dofsNum := dofsPerNode * fieldNodesNum;
    }

    /** The steps of `initialize` that build the cloud over the field-node
        mesh and copy it and the quadrature cells out of the handler. */
    method LoadCloud(sqrt: real -> real) returns (r: Result<Coverage>)
      requires Valid()
      requires GQTriangle.ValidTriangles(fieldNodesMesh) && GQLine.ValidLines(fieldNodesMesh)
      modifies pcRpim, pcRpim.volumeGq, pcRpim.surfaceGq
      modifies this`cloud, this`cloudInitial, this`volumeCellProps, this`volumeCellQuadrWeights
      modifies this`surfaceCellProps, this`surfaceCellQuadrWeights
      ensures Valid()
      ensures r.Ok? <==> VolumeOrderAccepted(volumeQuadrInterp) && SurfaceEvalsAccepted(fieldNodesMesh, surfaceQuadrInterp)
      ensures r.Fail? ==> r.error == OutOfRange
      ensures r.Ok? ==> CloudLoaded() && CloudReady()
    {
      r := InitializeHandler(sqrt);
      if r.Ok? {
        CopyCloud();
      }
    }

    /** The handler call of `initialize`: the point-cloud handler builds its
        cloud over the field-node mesh with the stored rule choices. */
    method InitializeHandler(sqrt: real -> real) returns (r: Result<Coverage>)
      requires pcRpim.Valid()
      requires GQTriangle.ValidTriangles(fieldNodesMesh) && GQLine.ValidLines(fieldNodesMesh)
      modifies pcRpim, pcRpim.volumeGq, pcRpim.surfaceGq
      ensures pcRpim.Valid()
      ensures r.Ok? <==> VolumeOrderAccepted(volumeQuadrInterp) && SurfaceEvalsAccepted(fieldNodesMesh, surfaceQuadrInterp)
      ensures r.Fail? ==> r.error == OutOfRange
      ensures r.Ok? ==> pcRpim.cloud == BuiltCloud(fieldNodesMesh, volumeQuadrInterp, surfaceQuadrInterp)
    {
      r := pcRpim.Initialize(fieldNodesMesh, volumeQuadrInterp, surfaceQuadrInterp, sqrt);
    }

    /** The steps of `initialize` that copy the cloud and the quadrature
        cells out of the handler once it has built them. */
    method CopyCloud()
      requires GQTriangle.ValidTriangles(fieldNodesMesh) && GQLine.ValidLines(fieldNodesMesh)
      requires SurfaceEvalsAccepted(fieldNodesMesh, surfaceQuadrInterp)
      requires pcRpim.cloud == BuiltCloud(fieldNodesMesh, volumeQuadrInterp, surfaceQuadrInterp)
      modifies this`cloud, this`cloudInitial, this`volumeCellProps, this`volumeCellQuadrWeights
      modifies this`surfaceCellProps, this`surfaceCellQuadrWeights
      ensures CloudLoaded()
    {
      cloud := pcRpim.GetCloud();
      cloudInitial := cloud;
      volumeCellProps := pcRpim.GetQuadratureVolumeCellsProperties();
      volumeCellQuadrWeights := pcRpim.GetQuadratureVolumeCellsWeights();
      surfaceCellProps := pcRpim.GetQuadratureSurfaceCellsProperties();
      surfaceCellQuadrWeights := pcRpim.GetQuadratureSurfaceCellsWeights();
    }

    /** The field-node mesh of a valid raw mesh is valid and has one node
        per raw node. */
    static lemma FieldMeshValid(raw: Mesh2D)
      requires |raw.nodeCoords| > 0 && ValidMesh(raw)
      ensures |FieldNodes(raw).nodeCoords| == |raw.nodeCoords|
      ensures GQTriangle.ValidTriangles(FieldNodes(raw)) && GQLine.ValidLines(FieldNodes(raw))
    {
      var n := |raw.nodeCoords|;
      var t := BoundaryThreshold(raw.nodeCoords);
      var bs := Below(raw.nodeCoords, t, n);
      BelowAscending(raw.nodeCoords, t, n);
      BelowCorrect(raw.nodeCoords, t, n);
      assert forall j :: 0 <= j < |bs| ==> bs[j] < n by {
        forall j | 0 <= j < |bs| ensures bs[j] < n {
          assert bs[j] in bs;
        }
      }
      StateFormatBijection(bs, n);
      FieldNodesMeshValid(raw, bs + NotIn(bs, n));
    }

    /** `update_field_nodes_mesh_and_cloud`: field node i and cloud point i,
        for every field node, are put at their initial position plus
        (q̄[2i], q̄[2i+1]); the quadrature points of the cloud stay. */
    method UpdateFieldNodesMeshAndCloud(qBar: Vector)
      requires Valid() && CloudReady() && 2 * fieldNodesNum <= |qBar|
      modifies this`fieldNodesMesh, this`cloud
      ensures Valid() && CloudReady()
      ensures fieldNodesMesh == old(fieldNodesMesh).(nodeCoords :=
        Moved(old(fieldNodesMesh.nodeCoords), fieldNodesMeshInitial.nodeCoords, qBar, fieldNodesNum))
      ensures cloud == Moved(old(cloud), cloudInitial, qBar, fieldNodesNum)
    {
      var mesh := fieldNodesMesh;
      var nodes, pts := fieldNodesMesh.nodeCoords, cloud;
      var nodes0, pts0 := fieldNodesMeshInitial.nodeCoords, cloudInitial;
      for i := 0 to fieldNodesNum
        invariant |nodes| == |nodes0| == fieldNodesNum && |pts| == |pts0|
        invariant nodes == Moved(old(fieldNodesMesh.nodeCoords), nodes0, qBar, i)
        invariant pts == Moved(old(cloud), pts0, qBar, i)
      {
        MovedStep(old(fieldNodesMesh.nodeCoords), nodes0, qBar, i);
        MovedStep(old(cloud), pts0, qBar, i);
        nodes := nodes[i := nodes[i].(x := nodes0[i].x + qBar[2 * i], y := nodes0[i].y + qBar[2 * i + 1])];
        pts := pts[i := pts[i].(x := pts0[i].x + qBar[2 * i], y := pts0[i].y + qBar[2 * i + 1])];
      }
      fieldNodesMesh := mesh.(nodeCoords := nodes);
      cloud := pts;
    }

    /** `update`: move the field nodes and their cloud entries, then build
        the support domains of the moved cloud (the result is not kept). */
    method Update(qBar: Vector, sqrt: real -> real, search: (nat, real) -> seq<int>)
      requires Valid() && CloudReady() && 2 * fieldNodesNum <= |qBar|
      requires SearchInRange(search, fieldNodesNum, |cloud|)
      modifies this`fieldNodesMesh, this`cloud
      ensures Valid() && CloudReady()
      ensures fieldNodesMesh == old(fieldNodesMesh).(nodeCoords :=
        Moved(old(fieldNodesMesh.nodeCoords), fieldNodesMeshInitial.nodeCoords, qBar, fieldNodesNum))
      ensures cloud == Moved(old(cloud), cloudInitial, qBar, fieldNodesNum)
    {
      UpdateFieldNodesMeshAndCloud(qBar);
      var supDomainPts := Generate(fieldNodesMesh.nodeCoords, cloud, searchParams, sqrt, search);
    }

    /** `get_boundary_state_vector`: the first 2B entries of q̄, the dofs of
        the B boundary nodes.  With no boundary node the last row index
        2B - 1 wraps around, and a q̄ shorter than 2B has no such rows:
        both fail the bounds check. */
    function GetBoundaryStateVector(qBar: Vector): (r: Result<Vector>)
      reads this`boundariesNum
      ensures r.Ok? <==> 1 <= boundariesNum && 2 * boundariesNum <= |qBar|
      ensures r.Fail? ==> r.error == OutOfRange
      ensures r.Ok? ==> |r.value| == 2 * boundariesNum && r.value + qBar[2 * boundariesNum..] == qBar
    {
      if boundariesNum == 0 || 2 * boundariesNum > |qBar| then Fail(OutOfRange)
      else Ok(qBar[..2 * boundariesNum])
    }

    /** The boundary state vector is the displacement that an update by q̄
        gives the boundary nodes, which are the first field nodes. */
    lemma BoundaryStateIsBoundaryDisplacement(qBar: Vector)
      requires Valid() && 2 * fieldNodesNum <= |qBar| && GetBoundaryStateVector(qBar).Ok?
      ensures var moved := Moved(fieldNodesMesh.nodeCoords, fieldNodesMeshInitial.nodeCoords, qBar, fieldNodesNum);
        GetBoundaryStateVector(qBar).value == NodeDisplacements(moved, fieldNodesMeshInitial.nodeCoords, boundariesNum)
    {
      MovedDisplacements(fieldNodesMesh.nodeCoords, fieldNodesMeshInitial.nodeCoords, qBar, fieldNodesNum, boundariesNum);
    }

    /** `get_deformed_mesh`: the initial field-node mesh with node i moved
        by (q̄[2i], q̄[2i+1]); the elements are kept. */
    method GetDeformedMesh(qBar: Vector) returns (deformed: Mesh2D)
      requires Valid() && 2 * fieldNodesNum <= |qBar|
      ensures deformed == fieldNodesMeshInitial.(nodeCoords :=
        Moved(fieldNodesMeshInitial.nodeCoords, fieldNodesMeshInitial.nodeCoords, qBar, fieldNodesNum))
    {
      deformed := fieldNodesMeshInitial;
      ghost var initial := fieldNodesMeshInitial.nodeCoords;
      for i := 0 to |deformed.nodeCoords|
        invariant |deformed.nodeCoords| == fieldNodesNum
        invariant deformed == fieldNodesMeshInitial.(nodeCoords := Moved(initial, initial, qBar, i))
      {
        MovedStep(initial, initial, qBar, i);
        var node := deformed.nodeCoords[i];
        deformed := deformed.(nodeCoords := deformed.nodeCoords[i :=
          Point(node.x + qBar[2 * i], node.y + qBar[2 * i + 1], node.z + 0.0)]);
      }
    }

    /** The deformed mesh moves every field node by exactly its dofs of q̄. */
    lemma DeformedMeshDisplacements(qBar: Vector)
      requires Valid() && 2 * fieldNodesNum <= |qBar|
      ensures var initial := fieldNodesMeshInitial.nodeCoords;
        NodeDisplacements(Moved(initial, initial, qBar, fieldNodesNum), initial, fieldNodesNum) == qBar[..2 * fieldNodesNum]
    {
      var initial := fieldNodesMeshInitial.nodeCoords;
      MovedDisplacements(initial, initial, qBar, fieldNodesNum, fieldNodesNum);
    }

    /** `get_deformed_state`: the support domains of the points of interest
        among the initial field nodes, then for each point in order an
        evaluation of the geometry model and the point moved by the
        evaluated displacement, z unchanged.  The shape functions of the
        evaluations are returned as ghosts. */
    method GetDeformedState(interPc: seq<Point>, qBar: Vector, sqrt: real -> real, search: (nat, real) -> seq<int>,
                            pow: (real, real) -> real, inv: Matrix -> Result<Matrix>)
        returns (r: Result<seq<Point>>, ghost sfs: seq<ShapeFunction>)
      requires SearchInRange(search, |fieldNodesMeshInitial.nodeCoords|, |fieldNodesMeshInitial.nodeCoords| + |interPc|)
      requires InverseKeepsShape(inv)
      ensures StateOutcome(r, sfs, StateDomains(fieldNodesMeshInitial.nodeCoords, interPc, searchParams, sqrt, search),
                           interPc, searchParams, qBar, pow, inv)
      ensures r.Ok? ==> |r.value| == |interPc| && forall k :: 0 <= k < |interPc| ==> r.value[k].z == interPc[k].z
    {
      var fieldNodes := fieldNodesMeshInitial.nodeCoords;
      var cloudData := fieldNodes + interPc;
      var supDomainPts := Generate(fieldNodes, cloudData, searchParams, sqrt, search);
      GeneratedEntries(fieldNodes, cloudData, Matches(search, SearchRadius(searchParams, sqrt), |fieldNodes|));
      var geomModel := new GeometryModel(supDomainPts, searchParams);
      r, sfs := DeformPoints(geomModel, interPc, qBar, pow, inv);
    }
  }

  /** The outcome of deforming the points of interest with support domains
      sd: on success one point per point of interest, in order, moved by
      the displacement of its evaluation.  The evaluation stops at the first
      point without support or with a support dof past q̄ (OutOfRange), or
      with a singular moment matrix (Singular). */
  ghost predicate StateOutcome(r: Result<seq<Point>>, sfs: seq<ShapeFunction>, sd: seq<SupportDomainPoint>,
                               interPc: seq<Point>, params: RPIMParameters, qBar: Vector,
                               pow: (real, real) -> real, inv: Matrix -> Result<Matrix>)
    requires |sd| == |interPc| && InverseKeepsShape(inv)
  {
    && |sfs| <= |interPc|
    && (forall k :: 0 <= k < |sfs| ==> FromSearchParams(sfs[k], params))
    && (r.Ok? ==> |sfs| == |interPc| && Displaced(sfs, sd, qBar, pow, inv, |interPc|))
    && (r.Ok? ==> |r.value| == |interPc| && ShiftedPrefix(r.value, interPc, sfs, sd, qBar, pow, inv, |interPc|))
    && (r.Fail? ==>
         || (r.error == OutOfRange && |sfs| < |interPc| && Displaced(sfs, sd, qBar, pow, inv, |sfs|)
             && Unusable(sd[|sfs|], qBar))
         || (r.error == Singular && 0 < |sfs| && Displaced(sfs, sd, qBar, pow, inv, |sfs| - 1)
             && WellFormedEntry(sd[|sfs| - 1]) && Displacement(sfs[|sfs| - 1], sd[|sfs| - 1], qBar, pow, inv).Fail?))
  }

  /** One evaluation of the loop of `get_deformed_state`: the geometry
      model updated at entry i, and the two entries of its displacement.  A
      support dof past q̄ fails the update with OutOfRange.  An entry no
      field node reached updates to an empty displacement, whose first
      entry cannot be read: OutOfRange again.  Otherwise the shape function
      of the evaluation is returned as a ghost. */
  method EvaluatePoint(geomModel: GeometryModel, i: nat, qBar: Vector,
                       pow: (real, real) -> real, inv: Matrix -> Result<Matrix>)
      returns (r: Result<Vector>, ghost sf: ShapeFunction?)
    requires i < |geomModel.sdPts| && GeneratedEntry(geomModel.sdPts[i]) && InverseKeepsShape(inv)
    modifies geomModel
    ensures r == Fail(OutOfRange) <==> Unusable(geomModel.sdPts[i], qBar)
    ensures r != Fail(OutOfRange) ==>
      && WellFormedEntry(geomModel.sdPts[i])
      && sf != null && FromSearchParams(sf, geomModel.searchParams)
      && (r.Fail? ==> r.error == Singular)
      && (r.Fail? <==> Displacement(sf, geomModel.sdPts[i], qBar, pow, inv).Fail?)
      && (r.Ok? ==> r == Displacement(sf, geomModel.sdPts[i], qBar, pow, inv))
  {
    ghost var sd := geomModel.sdPts[i];
    var updated := geomModel.Update(i, qBar, 0.00001, pow, inv);
    sf := geomModel.shapeFunction;
    if !WellFormedEntry(geomModel.sdPts[i]) {
      // An untouched entry updates to an empty u, whose first entry the
      // loop then fails to read.
      UntouchedEntryEvaluates(sf, pow, inv);
      assert updated.Ok? && |geomModel.deformation| == 0;
      return Fail(OutOfRange), sf;
    }
    if SlotsFit(sd.supportIndices, |qBar|) {
      OutcomeIsDisplacement(sf, sd, qBar, pow, inv);
    }
    if updated.Fail? {
      return Fail(updated.error), sf;
    }
    geomModel.EvaluatedDisplacement(i, qBar, pow, inv);
    var u := geomModel.deformation;
    assert |u| == 2 && u[..2] == u;
    r := Ok(u[..2]);
  }

  /** The first |sfs| points of interest have been evaluated with the
      shape functions sfs, built from the search parameters, and moved into
      pts. */
  ghost predicate Deformed(pts: seq<Point>, sfs: seq<ShapeFunction>, sd: seq<SupportDomainPoint>,
                           interPc: seq<Point>, params: RPIMParameters, qBar: Vector,
                           pow: (real, real) -> real, inv: Matrix -> Result<Matrix>)
    requires |sd| == |interPc| && InverseKeepsShape(inv)
  {
    && |pts| == |sfs| <= |interPc|
    && (forall k :: 0 <= k < |sfs| ==> FromSearchParams(sfs[k], params))
    && Displaced(sfs, sd, qBar, pow, inv, |sfs|)
    && ShiftedPrefix(pts, interPc, sfs, sd, qBar, pow, inv, |sfs|)
  }

  /** Extending the evaluated prefix by one displaced entry. */
  lemma DisplacedStep(sfs: seq<ShapeFunction>, sf: ShapeFunction, sd: seq<SupportDomainPoint>, qBar: Vector,
                      pow: (real, real) -> real, inv: Matrix -> Result<Matrix>)
    requires |sfs| < |sd| && InverseKeepsShape(inv)
    requires Displaced(sfs, sd, qBar, pow, inv, |sfs|)
    requires WellFormedEntry(sd[|sfs|]) && Displacement(sf, sd[|sfs|], qBar, pow, inv).Ok?
    ensures Displaced(sfs + [sf], sd, qBar, pow, inv, |sfs| + 1)
    ensures Displaced(sfs + [sf], sd, qBar, pow, inv, |sfs|)
  {
    var ext := sfs + [sf];
    assert forall k :: 0 <= k < |sfs| ==> ext[k] == sfs[k];
  }

  /** Extending the moved prefix by the next moved point. */
  lemma ShiftedStep(pts: seq<Point>, u: Vector, interPc: seq<Point>, sfs: seq<ShapeFunction>, sf: ShapeFunction,
                    sd: seq<SupportDomainPoint>, qBar: Vector,
                    pow: (real, real) -> real, inv: Matrix -> Result<Matrix>)
    requires |pts| == |sfs| < |interPc| && |sfs| < |sd| && InverseKeepsShape(inv)
    requires Displaced(sfs + [sf], sd, qBar, pow, inv, |sfs| + 1)
    requires Displaced(sfs, sd, qBar, pow, inv, |sfs|)
    requires ShiftedPrefix(pts, interPc, sfs, sd, qBar, pow, inv, |sfs|)
    requires Displacement(sf, sd[|sfs|], qBar, pow, inv) == Ok(u)
    ensures ShiftedPrefix(pts + [Shifted(interPc[|sfs|], u)], interPc, sfs + [sf], sd, qBar, pow, inv, |sfs| + 1)
  {
    var pts', sfs' := pts + [Shifted(interPc[|sfs|], u)], sfs + [sf];
    assert forall k :: 0 <= k < |sfs| ==> pts'[k] == pts[k] && sfs'[k] == sfs[k];
  }

  /** Extending the deformed prefix by the next point of interest, moved
      by the displacement u of its evaluation with sf. */
  lemma DeformedStep(pts: seq<Point>, sfs: seq<ShapeFunction>, sf: ShapeFunction, u: Vector,
                     sd: seq<SupportDomainPoint>, interPc: seq<Point>, params: RPIMParameters, qBar: Vector,
                     pow: (real, real) -> real, inv: Matrix -> Result<Matrix>)
    requires |sd| == |interPc| && |sfs| < |interPc| && InverseKeepsShape(inv)
    requires Deformed(pts, sfs, sd, interPc, params, qBar, pow, inv)
    requires FromSearchParams(sf, params)
    requires WellFormedEntry(sd[|sfs|]) && Displacement(sf, sd[|sfs|], qBar, pow, inv) == Ok(u)
    ensures Deformed(pts + [Shifted(interPc[|sfs|], u)], sfs + [sf], sd, interPc, params, qBar, pow, inv)
  {
    DisplacedStep(sfs, sf, sd, qBar, pow, inv);
    ShiftedStep(pts, u, interPc, sfs, sf, sd, qBar, pow, inv);
    var sfs' := sfs + [sf];
    assert forall k :: 0 <= k < |sfs| ==> sfs'[k] == sfs[k];
  }

  /** The loop ran to the end: every point of interest was moved. */
  lemma CompletedOutcome(pts: seq<Point>, sfs: seq<ShapeFunction>, sd: seq<SupportDomainPoint>,
                         interPc: seq<Point>, params: RPIMParameters, qBar: Vector,
                         pow: (real, real) -> real, inv: Matrix -> Result<Matrix>)
    requires |sd| == |interPc| == |sfs| && InverseKeepsShape(inv)
    requires Deformed(pts, sfs, sd, interPc, params, qBar, pow, inv)
    ensures StateOutcome(Ok(pts), sfs, sd, interPc, params, qBar, pow, inv)
  {
  }

  /** The loop stopped at entry |sfs|: OutOfRange when the entry cannot
      be evaluated, Singular when the shape function sf built for it has a
      moment matrix without inverse. */
  lemma StoppedOutcome(pts: seq<Point>, sfs: seq<ShapeFunction>, sf: ShapeFunction?, err: Error,
                       sd: seq<SupportDomainPoint>, interPc: seq<Point>, params: RPIMParameters, qBar: Vector,
                       pow: (real, real) -> real, inv: Matrix -> Result<Matrix>)
    requires |sd| == |interPc| && |sfs| < |interPc| && InverseKeepsShape(inv)
    requires Deformed(pts, sfs, sd, interPc, params, qBar, pow, inv)
    requires err == OutOfRange ==> Unusable(sd[|sfs|], qBar)
    requires err != OutOfRange ==>
      && err == Singular && sf != null && FromSearchParams(sf, params)
      && WellFormedEntry(sd[|sfs|]) && Displacement(sf, sd[|sfs|], qBar, pow, inv).Fail?
    ensures sf != null || err == OutOfRange
    ensures StateOutcome(Fail(err), if err == OutOfRange then sfs else sfs + [sf], sd, interPc, params, qBar, pow, inv)
  {
    if err == OutOfRange {
      UnusableOutcome(sfs, sd, interPc, params, qBar, pow, inv);
    } else {
      SingularOutcome(sfs, sf, sd, interPc, params, qBar, pow, inv);
    }
  }

  lemma UnusableOutcome(sfs: seq<ShapeFunction>, sd: seq<SupportDomainPoint>,
                        interPc: seq<Point>, params: RPIMParameters, qBar: Vector,
                        pow: (real, real) -> real, inv: Matrix -> Result<Matrix>)
    requires |sd| == |interPc| && |sfs| < |interPc| && InverseKeepsShape(inv)
    requires forall k :: 0 <= k < |sfs| ==> FromSearchParams(sfs[k], params)
    requires Displaced(sfs, sd, qBar, pow, inv, |sfs|)
    requires Unusable(sd[|sfs|], qBar)
    ensures StateOutcome(Fail(OutOfRange), sfs, sd, interPc, params, qBar, pow, inv)
  {
  }

  lemma SingularOutcome(sfs: seq<ShapeFunction>, sf: ShapeFunction, sd: seq<SupportDomainPoint>,
                        interPc: seq<Point>, params: RPIMParameters, qBar: Vector,
                        pow: (real, real) -> real, inv: Matrix -> Result<Matrix>)
    requires |sd| == |interPc| && |sfs| < |interPc| && InverseKeepsShape(inv)
    requires forall k :: 0 <= k < |sfs| ==> FromSearchParams(sfs[k], params)
    requires FromSearchParams(sf, params)
    requires Displaced(sfs, sd, qBar, pow, inv, |sfs|)
    requires WellFormedEntry(sd[|sfs|]) && Displacement(sf, sd[|sfs|], qBar, pow, inv).Fail?
    ensures StateOutcome(Fail(Singular), sfs + [sf], sd, interPc, params, qBar, pow, inv)
  {
    var ext := sfs + [sf];
    assert forall k :: 0 <= k < |sfs| ==> ext[k] == sfs[k];
  }

  /** The loop of `get_deformed_state` over the points of interest, with a
      geometry model over their support domains. */
  method DeformPoints(geomModel: GeometryModel, interPc: seq<Point>, qBar: Vector,
                      pow: (real, real) -> real, inv: Matrix -> Result<Matrix>)
      returns (r: Result<seq<Point>>, ghost sfs: seq<ShapeFunction>)
    requires |geomModel.sdPts| == |interPc| && InverseKeepsShape(inv)
    requires forall k :: 0 <= k < |interPc| ==> GeneratedEntry(geomModel.sdPts[k])
    modifies geomModel
    ensures StateOutcome(r, sfs, geomModel.sdPts, interPc, geomModel.searchParams, qBar, pow, inv)
  {
    var finalInterPc: seq<Point> := [];
    sfs := [];
    ghost var sd := geomModel.sdPts;
    for i := 0 to |interPc|
      invariant |sfs| == i
      invariant Deformed(finalInterPc, sfs, sd, interPc, geomModel.searchParams, qBar, pow, inv)
    {
      var deformation, sf := EvaluatePoint(geomModel, i, qBar, pow, inv);
      if deformation.Fail? {
        StoppedOutcome(finalInterPc, sfs, sf, deformation.error, sd, interPc, geomModel.searchParams, qBar, pow, inv);
        return Fail(deformation.error), if deformation.error == OutOfRange then sfs else sfs + [sf];
      }
      DeformedStep(finalInterPc, sfs, sf, deformation.value, sd, interPc, geomModel.searchParams, qBar, pow, inv);
      finalInterPc := finalInterPc + [Shifted(interPc[i], deformation.value)];
      sfs := sfs + [sf];
    }
    CompletedOutcome(finalInterPc, sfs, sd, interPc, geomModel.searchParams, qBar, pow, inv);
    r := Ok(finalInterPc);
  }
}
