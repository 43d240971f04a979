/** `PointcloudRPIM` (src/pointcloud_rpim.cpp): the global point cloud of
    the method, made of the field nodes followed by the quadrature points of
    the background triangles and then those of the boundary segments. */
module Pointcloud {
  import opened Geom
  import opened Meshes
  import opened Errors
  import opened SeqUtils
  import GQTriangle
  import GQLine

  /** The verdict `quadrature_points_check` prints. */
  datatype Coverage = CoverageOk | CoverageWarning

  /** `quadrature_points_check`: the ratio (V + S) / F computed in double
      precision against 3.0.  With F = 0 the ratio is +inf when V + S > 0
      and NaN (every comparison false) when V + S = 0. */
  function QuadraturePointsCheck(f: nat, v: nat, s: nat): (c: Coverage)
    ensures c == CoverageOk <==> v + s >= 3 * f && v + s > 0
  {
    if f == 0 then (if v + s > 0 then CoverageOk else CoverageWarning)
    else
      RatioAtLeastThree(v + s, f);
      if (v + s) as real / f as real >= 3.0 then CoverageOk
      else CoverageWarning
  }

  /** In exact arithmetic the ratio of the counts against 3.0 decides the
      same as the integer comparison q >= 3 f.  (A rounded double quotient
      can differ when q is just below 3 f and the counts are large.) */
  lemma RatioAtLeastThree(q: nat, f: nat)
    requires f > 0
    ensures q as real / f as real >= 3.0 <==> q >= 3 * f
  {
    DivAtLeast(q as real, f as real, 3.0);
  }

  lemma DivAtLeast(a: real, b: real, c: real)
    requires b > 0.0
    ensures a / b >= c <==> a >= c * b
  {
    var r := a / b;
    assert r * b == a;
    if r >= c {
      MulMonoReal(c, r, b);
    } else {
      MulMonoReal(r, c, b);
      assert r * b != c * b;
    }
  }

  lemma MulMonoReal(x: real, y: real, b: real)
    requires b > 0.0 && x <= y
    ensures x * b <= y * b
  {
  }

  /** The cloud layout: field nodes, then volume points, then surface
      points. */
  function DataPoints(field: seq<Point>, volume: seq<Point>, surface: seq<Point>): (c: seq<Point>)
    ensures |c| == |field| + |volume| + |surface|
  {
    field + volume + surface
  }

  /** Field node k sits at k, volume point j at F + j and surface point j at
      F + V + j; nothing else is in the cloud. */
  lemma DataPointsOffsets(field: seq<Point>, volume: seq<Point>, surface: seq<Point>)
    ensures forall k :: 0 <= k < |field| ==> DataPoints(field, volume, surface)[k] == field[k]
    ensures forall j :: 0 <= j < |volume| ==> DataPoints(field, volume, surface)[|field| + j] == volume[j]
    ensures forall j :: 0 <= j < |surface| ==>
      DataPoints(field, volume, surface)[|field| + |volume| + j] == surface[j]
    ensures forall p :: p in DataPoints(field, volume, surface) <==> p in field || p in volume || p in surface
  {
  }

  /** The triangle rules exist for orders 0..3. */
  predicate VolumeOrderAccepted(order: nat)
  {
    order < 4
  }

  /** The line tables are found for evals 1..9, and for 10 and 11 only
      when there is no segment to map. */
  predicate SurfaceEvalsAccepted(mesh: Mesh2D, evals: nat)
  {
    1 <= evals <= 9 || (10 <= evals <= 11 && |mesh.boundElements| == 0)
  }

  /** The volume points one call of the triangle generator returns. */
  function VolumePoints(mesh: Mesh2D, order: nat): seq<Point>
    requires GQTriangle.ValidTriangles(mesh) && VolumeOrderAccepted(order)
  {
    Flatten(GQTriangle.AllPoints(mesh, GQTriangle.StandardRules()[order], |mesh.volumeElements|))
  }

  /** The cell records one call of the triangle generator appends. */
  function VolumeCells(mesh: Mesh2D, order: nat): seq<GQTriangle.CellProperties>
    requires GQTriangle.ValidTriangles(mesh) && VolumeOrderAccepted(order)
  {
    GQTriangle.AllCells(mesh, GQTriangle.StandardRules()[order], |mesh.volumeElements|)
  }

  /** The surface points one call of the line generator returns. */
  function SurfacePoints(mesh: Mesh2D, evals: nat): seq<Point>
    requires GQLine.ValidLines(mesh) && SurfaceEvalsAccepted(mesh, evals)
  {
    if evals <= 9 then Flatten(GQLine.AllPoints(mesh, GQLine.Abscissas(evals), |mesh.boundElements|)) else []
  }

  /** The cell records one call of the line generator appends. */
  function SurfaceCells(mesh: Mesh2D, evals: nat, sqrt: real -> real): seq<GQLine.CellProperties>
    requires GQLine.ValidLines(mesh) && SurfaceEvalsAccepted(mesh, evals)
  {
    if evals <= 9 then GQLine.AllCells(mesh, sqrt, evals, |mesh.boundElements|) else []
  }

  /** The cloud `initialize` builds over a mesh for the given rule
      choices: the field nodes, then the volume and the surface points. */
  function BuiltCloud(mesh: Mesh2D, order: nat, evals: nat): seq<Point>
    requires GQTriangle.ValidTriangles(mesh) && GQLine.ValidLines(mesh)
    requires VolumeOrderAccepted(order) && SurfaceEvalsAccepted(mesh, evals)
  {
    DataPoints(mesh.nodeCoords, VolumePoints(mesh, order), SurfacePoints(mesh, evals))
  }

  class PointcloudRPIM {
    var fieldNodesMesh: Mesh2D
    var fieldNodesNum: nat
    var cloud: seq<Point>
    var volumeGqPts: seq<Point>
    var volumeGqPtsNum: nat
    const volumeGq: GQTriangle.GQTriangleRPIM
    var volumeQuadrInterp: nat
    var volumeCellProps: seq<GQTriangle.CellProperties>
    var volumeCellQuadrWeights: seq<real>
    var surfaceGqPts: seq<Point>
    var surfaceGqPtsNum: nat
    const surfaceGq: GQLine.GQLineRPIM
    var surfaceQuadrInterp: nat
    var surfaceCellsProps: seq<GQLine.CellProperties>
    var surfaceCellQuadrWeights: seq<real>

    /** Both quadrature handles hold their tables. */
    predicate Valid()
      reads volumeGq, surfaceGq
    {
      volumeGq.Valid() && surfaceGq.Valid()
    }

    /** The volume block and its cell records are those of the stored mesh
        and order; the handle's cell list has grown by exactly those cells,
        and its weight list by the rule's weights (both accumulate over
        calls). */
    predicate VolumeGenerated(cellsBefore: seq<GQTriangle.CellProperties>, weightsBefore: seq<real>)
      reads this`fieldNodesMesh, this`volumeQuadrInterp, this`volumeGqPts, this`volumeCellProps
      reads this`volumeCellQuadrWeights, volumeGq
    {
      && VolumeOrderAccepted(volumeQuadrInterp)
      && GQTriangle.ValidTriangles(fieldNodesMesh)
      && volumeGqPts == VolumePoints(fieldNodesMesh, volumeQuadrInterp)
      && volumeCellProps == volumeGq.cellProperties
      && volumeCellProps == cellsBefore + VolumeCells(fieldNodesMesh, volumeQuadrInterp)
      && volumeCellQuadrWeights == volumeGq.weights
      && volumeCellQuadrWeights == weightsBefore + GQTriangle.StandardRules()[volumeQuadrInterp].weight
    }

    /** The surface block, its cell records and its weights are those of the
        stored mesh and number of evaluation points: the handle's cell list
        has grown by the segments' cells, and its weight list is replaced by
        the table for that number of points. */
    predicate SurfaceGenerated(cellsBefore: seq<GQLine.CellProperties>, sqrt: real -> real)
      reads this`fieldNodesMesh, this`surfaceQuadrInterp, this`surfaceGqPts, this`surfaceCellsProps
      reads this`surfaceCellQuadrWeights, surfaceGq
    {
      && GQLine.ValidLines(fieldNodesMesh)
      && SurfaceEvalsAccepted(fieldNodesMesh, surfaceQuadrInterp)
      && surfaceGqPts == SurfacePoints(fieldNodesMesh, surfaceQuadrInterp)
      && surfaceCellsProps == surfaceGq.cellProperties
      && surfaceCellsProps == cellsBefore + SurfaceCells(fieldNodesMesh, surfaceQuadrInterp, sqrt)
      && surfaceCellQuadrWeights == surfaceGq.weights
      && surfaceCellQuadrWeights == GQLine.WeightsContainer()[surfaceQuadrInterp - 1]
    }

    /** Both blocks are generated, their counts recorded, and the cloud is
        the field nodes followed by the volume and then the surface points. */
    predicate CloudBuilt(volumeCellsBefore: seq<GQTriangle.CellProperties>, volumeWeightsBefore: seq<real>,
                         surfaceCellsBefore: seq<GQLine.CellProperties>, sqrt: real -> real)
      reads this`fieldNodesMesh, this`volumeQuadrInterp, this`volumeGqPts, this`volumeCellProps
      reads this`volumeCellQuadrWeights, volumeGq
      reads this`surfaceQuadrInterp, this`surfaceGqPts, this`surfaceCellsProps
      reads this`surfaceCellQuadrWeights, surfaceGq
      reads this`volumeGqPtsNum, this`surfaceGqPtsNum, this`cloud
    {
      && VolumeGenerated(volumeCellsBefore, volumeWeightsBefore)
      && SurfaceGenerated(surfaceCellsBefore, sqrt)
      && volumeGqPtsNum == |volumeGqPts| && surfaceGqPtsNum == |surfaceGqPts|
      && cloud == DataPoints(fieldNodesMesh.nodeCoords, volumeGqPts, surfaceGqPts)
    }

    /** Default construction: empty containers and fresh quadrature
        handles. */
    constructor ()
      ensures Valid() && fresh(volumeGq) && fresh(surfaceGq)
      ensures cloud == [] && volumeCellProps == [] && surfaceCellsProps == []
      ensures volumeGq.cellProperties == [] && surfaceGq.cellProperties == []
      ensures volumeGq.weights == [] && surfaceGq.weights == []
    {
      fieldNodesMesh := Mesh2D([], [], [], []);
      fieldNodesNum := 0;
      cloud := [];
      volumeGqPts := [];
      volumeGqPtsNum := 0;
      volumeQuadrInterp := 0;
      volumeCellProps := [];
      volumeCellQuadrWeights := [];
      surfaceGqPts := [];
      surfaceGqPtsNum := 0;
      surfaceQuadrInterp := 0;
      surfaceCellsProps := [];
      surfaceCellQuadrWeights := [];
      volumeGq := new GQTriangle.GQTriangleRPIM();
      surfaceGq := new GQLine.GQLineRPIM();
    }

    /** `initialize`: store the mesh and the rule choices, generate the
        volume points and then the surface points (either may fail the
        bounds-checked table look-up, which ends the call), record their
        counts and build the cloud.  The coverage verdict is returned instead
        of printed. */
    method Initialize(mesh: Mesh2D, volumeQuadrInterp: nat, surfaceQuadrInterp: nat, sqrt: real -> real)
        returns (r: Result<Coverage>)
      requires Valid()
      requires GQTriangle.ValidTriangles(mesh) && GQLine.ValidLines(mesh)
      modifies this, volumeGq, surfaceGq
      ensures Valid()
      ensures fieldNodesMesh == mesh && fieldNodesNum == |mesh.nodeCoords|
      ensures r.Ok? <==> VolumeOrderAccepted(volumeQuadrInterp) && SurfaceEvalsAccepted(mesh, surfaceQuadrInterp)
      ensures r.Fail? ==> r.error == OutOfRange && cloud == old(cloud)
      ensures r.Ok? ==> this.volumeQuadrInterp == volumeQuadrInterp && this.surfaceQuadrInterp == surfaceQuadrInterp
      ensures r.Ok? ==> CloudBuilt(old(volumeGq.cellProperties), old(volumeGq.weights), old(surfaceGq.cellProperties), sqrt)
      ensures r.Ok? ==> cloud == BuiltCloud(mesh, volumeQuadrInterp, surfaceQuadrInterp)
      ensures r.Ok? ==> r.value == QuadraturePointsCheck(fieldNodesNum, volumeGqPtsNum, surfaceGqPtsNum)
    {
      fieldNodesMesh := mesh;
      fieldNodesNum := |mesh.nodeCoords|;
      this.volumeQuadrInterp := volumeQuadrInterp;
      this.surfaceQuadrInterp := surfaceQuadrInterp;
      r := BuildCloud(sqrt);
    }

    /** The steps of `initialize` after the mesh and the rule choices are
        stored: volume points, then surface points (a failed look-up ends
        the sequence), their counts, and the cloud. */
    method BuildCloud(sqrt: real -> real) returns (r: Result<Coverage>)
      requires Valid()
      requires GQTriangle.ValidTriangles(fieldNodesMesh) && GQLine.ValidLines(fieldNodesMesh)
      modifies this`volumeGqPts, this`volumeCellProps, this`volumeCellQuadrWeights, volumeGq
      modifies this`surfaceGqPts, this`surfaceCellsProps, this`surfaceCellQuadrWeights, surfaceGq
      modifies this`volumeGqPtsNum, this`surfaceGqPtsNum, this`cloud
      ensures Valid()
      ensures r.Ok? <==> VolumeOrderAccepted(volumeQuadrInterp) && SurfaceEvalsAccepted(fieldNodesMesh, surfaceQuadrInterp)
      ensures r.Fail? ==> r.error == OutOfRange && cloud == old(cloud)
      ensures r.Ok? ==> CloudBuilt(old(volumeGq.cellProperties), old(volumeGq.weights), old(surfaceGq.cellProperties), sqrt)
      ensures r.Ok? ==> r.value == QuadraturePointsCheck(fieldNodesNum, volumeGqPtsNum, surfaceGqPtsNum)
    {
      var ok := GenerateQuadrature(sqrt);
      if !ok {
        return Fail(OutOfRange);
      }
      ghost var vb, wb, sb := old(volumeGq.cellProperties), old(volumeGq.weights), old(surfaceGq.cellProperties);
      assert VolumeGenerated(vb, wb) && SurfaceGenerated(sb, sqrt);
      volumeGqPtsNum := |volumeGqPts|;
      surfaceGqPtsNum := |surfaceGqPts|;
      var c := GenerateDataPoints();
      assert VolumeGenerated(vb, wb) && SurfaceGenerated(sb, sqrt);
      r := Ok(c);
    }

    /** The two generation steps, volume first; a failed volume look-up
        ends the sequence before the surface step. */
    method GenerateQuadrature(sqrt: real -> real) returns (ok: bool)
      requires Valid()
      requires GQTriangle.ValidTriangles(fieldNodesMesh) && GQLine.ValidLines(fieldNodesMesh)
      modifies this`volumeGqPts, this`volumeCellProps, this`volumeCellQuadrWeights, volumeGq
      modifies this`surfaceGqPts, this`surfaceCellsProps, this`surfaceCellQuadrWeights, surfaceGq
      ensures Valid()
      ensures ok <==> VolumeOrderAccepted(volumeQuadrInterp) && SurfaceEvalsAccepted(fieldNodesMesh, surfaceQuadrInterp)
      ensures ok ==> VolumeGenerated(old(volumeGq.cellProperties), old(volumeGq.weights))
      ensures ok ==> SurfaceGenerated(old(surfaceGq.cellProperties), sqrt)
    {
      ok := GenerateVolumeQuadraturePoints();
      if !ok {
        return;
      }
      ghost var cellsBefore, weightsBefore := old(volumeGq.cellProperties), old(volumeGq.weights);
      ok := GenerateSurfaceQuadraturePoints(sqrt);
      assert ok ==> VolumeGenerated(cellsBefore, weightsBefore);
    }

    /** `generate_volume_quadrature_points`; false when the triangle rule
        look-up fails. */
    method GenerateVolumeQuadraturePoints() returns (ok: bool)
      requires Valid()
      requires GQTriangle.ValidTriangles(fieldNodesMesh)
      modifies this`volumeGqPts, this`volumeCellProps, this`volumeCellQuadrWeights, volumeGq
      ensures Valid()
      ensures ok <==> VolumeOrderAccepted(volumeQuadrInterp)
      ensures ok ==> VolumeGenerated(old(volumeGq.cellProperties), old(volumeGq.weights))
    {
      var r := volumeGq.GenerateQuadraturePoints(fieldNodesMesh, volumeQuadrInterp);
      if r.Fail? {
        return false;
      }
      volumeGqPts := r.value;
      volumeCellProps := volumeGq.GetIntegrationCellsProperties();
      volumeCellQuadrWeights := volumeGq.GetQuadratureWeights();
      ok := true;
    }

    /** `generate_surface_quadrature_points`; false when the line table
        look-up fails. */
    method GenerateSurfaceQuadraturePoints(sqrt: real -> real) returns (ok: bool)
      requires Valid()
      requires GQLine.ValidLines(fieldNodesMesh)
      modifies this`surfaceGqPts, this`surfaceCellsProps, this`surfaceCellQuadrWeights, surfaceGq
      ensures Valid()
      ensures ok <==> SurfaceEvalsAccepted(fieldNodesMesh, surfaceQuadrInterp)
      ensures ok ==> SurfaceGenerated(old(surfaceGq.cellProperties), sqrt)
    {
      var r := surfaceGq.GenerateQuadraturePoints(fieldNodesMesh, surfaceQuadrInterp, sqrt);
      if r.Fail? {
        return false;
      }
      surfaceGqPts := r.value;
      surfaceCellsProps := surfaceGq.GetIntegrationCellsProperties();
      surfaceCellQuadrWeights := surfaceGq.GetQuadratureWeights();
      ok := true;
    }

    /** `generate_data_points`: check the coverage, clear the cloud and
        insert the three blocks in order.  Whatever the cloud held before is
        gone. */
    method GenerateDataPoints() returns (c: Coverage)
      modifies this`cloud
      ensures cloud == DataPoints(fieldNodesMesh.nodeCoords, volumeGqPts, surfaceGqPts)
      ensures c == QuadraturePointsCheck(fieldNodesNum, volumeGqPtsNum, surfaceGqPtsNum)
    {
      c := QuadraturePointsCheck(fieldNodesNum, volumeGqPtsNum, surfaceGqPtsNum);
      cloud := [];
      cloud := cloud + fieldNodesMesh.nodeCoords;
      cloud := cloud + volumeGqPts;
      cloud := cloud + surfaceGqPts;
    }

    /** `get_cloud` */
    function GetCloud(): (c: seq<Point>)
      reads this
      ensures c == cloud
    {
      cloud
    }

    /** `get_number_of_volume_quadrature_points` */
    function GetNumberOfVolumeQuadraturePoints(): (n: nat)
      reads this
      ensures n == volumeGqPtsNum
    {
      volumeGqPtsNum
    }

    /** `get_volume_cells_number` */
    function GetVolumeCellsNumber(): (n: nat)
      reads this
      ensures n == |volumeCellProps|
    {
      |volumeCellProps|
    }

    /** `get_quadrature_volume_cells_properties` */
    function GetQuadratureVolumeCellsProperties(): (c: seq<GQTriangle.CellProperties>)
      reads this
      ensures c == volumeCellProps
    {
      volumeCellProps
    }

    /** `get_quadrature_volume_cells_weights` */
    function GetQuadratureVolumeCellsWeights(): (w: seq<real>)
      reads this
      ensures w == volumeCellQuadrWeights
    {
      volumeCellQuadrWeights
    }

    /** `get_surface_cells_number` */
    function GetSurfaceCellsNumber(): (n: nat)
      reads this
      ensures n == |surfaceCellsProps|
    {
      |surfaceCellsProps|
    }

    /** `get_quadrature_surface_cells_properties` */
    function GetQuadratureSurfaceCellsProperties(): (c: seq<GQLine.CellProperties>)
      reads this
      ensures c == surfaceCellsProps
    {
      surfaceCellsProps
    }

    /** `get_quadrature_surface_cells_weights` */
    function GetQuadratureSurfaceCellsWeights(): (w: seq<real>)
      reads this
      ensures w == surfaceCellQuadrWeights
    {
      surfaceCellQuadrWeights
    }
  }
}
