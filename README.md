# RPIM 2D meshfree elasticity — a Dafny model of the core

This project models the core of a two-dimensional meshfree solver for linear
elasticity. The solver uses the Radial Point Interpolation Method (RPIM). The
model follows the program's pipeline:

- A boundary curve is resampled to a target density. Its Gmsh output is
  unpacked into nodes, triangles, boundary lines, and inner and boundary node
  lists (`Geometry2DMesh`).
- The clamped strip of nodes at the smallest x is found. The mesh is
  renumbered so that those nodes come first (`Boundaries`).
- Gaussian quadrature points are generated over the triangles
  (`GQTriangle`) and over the boundary segments (`GQLine`).
- Support domains are found from the field nodes outward. The search radius
  is fixed at sqrt((as·dc_x/2)² + (as·dc_y/2)²). Each field node runs one
  radius query (an L1 ball) against the whole cloud. Every quadrature point
  it reaches records that field node in its support (`SupportDomain`).
- Multiquadric radial basis functions give the shape functions and their x/y
  derivatives (`ShapeFunctions`). The optional linear polynomial basis is
  modelled too, but the pipeline builds its shape functions with `ms = 0`.
- Those feed the strain-displacement matrices (`Strains`), the plane-stress
  constitutive matrix (`Material`) and the body-force and traction load
  vectors (`LoadingConditions`, `PointLoads`).
- The geometry model maps generalized coordinates to field-node slots and
  evaluates the element quantities (`GeometryModels`, `DynamicsMath`).
- The top-level object ties it together and moves a point cloud with the
  field displacements (`Rpim2D`).

Each C++ class whose methods update its members is a Dafny `class` with those
members as fields. Pure helpers are functions. Loops are methods with
invariants, proved against specification functions; lemmas state what those
functions mean.

Floating-point arithmetic is modelled as exact `real` arithmetic. The library
numerics are passed in as function-typed parameters: square root, `pow`,
matrix inverse, the nanoflann radius search and the Euclidean distance.
Ghost predicates state the laws these parameters obey where a proof needs
them. A thrown `std::out_of_range` (from `std::vector::at`), a failed bounds
check of Armadillo's `operator()` or of its spans, or an Armadillo size error
becomes a `Result` failure (`Errors.Error`), wherever valid input can reach it.
Armadillo's `.at()` checks nothing; where the code reads or writes through it
out of bounds, the model's failure stands for undefined behaviour.

## Model

| member | source | states |
|---|---|---|
| Boundaries.IndexOf | src/boundary_conditions.cpp:133-144 | result is -1 exactly when the value is absent; otherwise it is the first position holding the value |
| Boundaries.BelowAscending | src/boundary_conditions.cpp:33-40 | the boundary scan yields indices in strictly ascending order |
| Boundaries.BelowCorrect | src/boundary_conditions.cpp:28-40 | j is a boundary index iff j is a node and its x lies strictly below the threshold |
| Boundaries.NotInCorrect | src/boundary_conditions.cpp:45-58 | the free list is ascending and holds exactly the nodes not in the boundary list |
| Boundaries.NotInSize | src/boundary_conditions.cpp:43-58 | free count plus the number of boundary entries below n equals n |
| Boundaries.CountInAscending | src/boundary_conditions.cpp:43 | for an ascending in-range list, the counted entries are the whole list |
| Boundaries.EraseStep | src/boundary_conditions.cpp:51-55 | erasing at offset b[i]-i removes exactly node b[i] from the running free list |
| Boundaries.StateFormatBijection | src/boundary_conditions.cpp:69-73 | boundary list followed by free list is a permutation of 0..n-1 |
| Boundaries.IndexOfInverts | src/boundary_conditions.cpp:92-102 | on such a permutation the index search always finds the node, and it inverts the state format |
| Boundaries.FieldNodesMeshValid | src/boundary_conditions.cpp:63-130 | the renumbered mesh is valid and every remapped element has the same vertex coordinates as before |
| Boundaries.FlatCloudHasNoBoundary | src/boundary_conditions.cpp:28-40 | when all nodes share one x the strict threshold selects no boundary node |
| Boundaries.BoundaryConditions.constructor | src/boundary_conditions.cpp:3-16 | classifies, renumbers, stores the initial mesh and relabels the blocks as 0..b-1 and b..n-1: the stored mesh is the raw mesh renumbered with the nodes strictly left of the x-threshold first and the rest after them in ascending order |
| Boundaries.BoundaryConditions.SetBoundaryPtsIndices | src/boundary_conditions.cpp:19-59 | boundary list is the threshold scan, free list its complement, counts are the list lengths |
| Boundaries.BoundaryConditions.CollectBoundaryPts | src/boundary_conditions.cpp:33-40 | the scan loop builds exactly the below-threshold list |
| Boundaries.BoundaryConditions.SetFreePtsIndices | src/boundary_conditions.cpp:45-58 | the erase loop leaves exactly the complement of the boundary list |
| Boundaries.BoundaryConditions.GenerateFieldNodesMesh | src/boundary_conditions.cpp:63-130 | mesh and initial mesh become the raw mesh renumbered by the state format |
| Boundaries.BoundaryConditions.AppendFieldNodeCoords | src/boundary_conditions.cpp:75-80 | appends the node coordinates in state-format order |
| Boundaries.BoundaryConditions.AppendRemappedTriangles | src/boundary_conditions.cpp:82-106 | appends every triangle with its node ids mapped through the state format |
| Boundaries.BoundaryConditions.AppendRemappedLines | src/boundary_conditions.cpp:108-126 | appends every boundary line with its node ids mapped through the state format |
| Boundaries.BoundaryConditions.UpdateBoundaries | src/boundary_conditions.cpp:148-160 | relabels the blocks as consecutive ranges and keeps their sizes |
| DynamicsMath.LocatorMatrix | src/dynamics_math.cpp:4-15 | succeeds iff every location is a column; row i is one-hot at loc[i]; otherwise OutOfRange |
| DynamicsMath.LocatorGathers | src/dynamics_math.cpp:4-15 | the locator matrix times v picks v[loc[i]] into row i |
| DynamicsMath.Skew | src/dynamics_math.cpp:18-21 | a 3 x 3 matrix when r has at least three entries; fails with OutOfRange exactly when r has fewer |
| DynamicsMath.SkewIsCross | src/dynamics_math.cpp:18-21 | the skew matrix of a times b is the cross product a x b |
| DynamicsMath.SkewAntisymmetric | src/dynamics_math.cpp:18-21 | the skew matrix is antisymmetric |
| DynamicsMath.SkewAnnihilates | src/dynamics_math.cpp:18-21 | the skew matrix of r maps r to zero |
| Geom.ConvPcToPcVec | include/geom.h:37-51 | the three coordinate vectors hold the cloud's x, y and z in order |
| Geom.ConvPcToPcVecRoundTrip | include/geom.h:37-51 | zipping the coordinate vectors back gives the original cloud |
| Geom.SortedIndicesCorrect | include/geom.h:88-103 | the index permutation is a permutation of 0..n-1 that orders the values, ties by index (stable sort) |
| GpUtils.FindVectorRange | include/gp_utils.h:18-27 | min and max are elements of the vector and bound all elements; val is max - min and non-negative |
| GpUtils.FindVectorRangeConstant | include/gp_utils.h:18-27 | a constant vector has range (c, c, 0) |
| GQLine.LowOrderWeightSums | src/gq_line_rpim.cpp:98-115 | the one-, two- and three-point weights sum to 2, the length of [-1, 1] |
| GQLine.TwoPointAbscissasSymmetric | src/gq_line_rpim.cpp:104-108 | the two-point abscissas lie in [-1, 1] and come in +/- pairs |
| GQLine.ThreePointAbscissasSymmetric | src/gq_line_rpim.cpp:110-115 | the three-point abscissas lie in [-1, 1] and come in +/- pairs |
| GQLine.ContainersMisaligned | src/gq_line_rpim.cpp:117-123 | the four-point abscissas go into the weights table: 11 weight tables against 9 point tables, shifted from five points on |
| GQLine.LinePointEnds | src/gq_line_rpim.cpp:58-59 | abscissas -1, 0 and 1 map to the first end, the midpoint and the second end |
| GQLine.HalfLengthSquared | src/gq_line_rpim.cpp:46-48 | with an exact square root the stored length is half the segment length |
| GQLine.CellOwnsItsPoints | src/gq_line_rpim.cpp:24-83 | the cloud has segments x evals points; cell i's k-th index points at segment i's k-th mapped point |
| GQLine.MapSegment | src/gq_line_rpim.cpp:53-76 | the inner loop maps every abscissa of segment i and hands out consecutive indices |
| GQLine.GQLineRPIM.constructor | src/gq_line_rpim.cpp:4-8 | fills the tables and starts with no weights, points or cells |
| GQLine.GQLineRPIM.WeightPointGeneration | src/gq_line_rpim.cpp:96-186 | appends the tables in source order, misplaced push included |
| GQLine.GQLineRPIM.PushLowOrders | src/gq_line_rpim.cpp:98-123 | appends the one- to four-point tables |
| GQLine.GQLineRPIM.PushHighOrders | src/gq_line_rpim.cpp:125-186 | appends the five- to ten-point tables |
| GQLine.GQLineRPIM.GetIntegrationCellsProperties | src/gq_line_rpim.cpp:88-93 | returns the stored cells |
| GQLine.GQLineRPIM.GetQuadratureWeights | include/gq_line_rpim.h:39 | returns the stored weights |
| GQLine.GQLineRPIM.GenerateQuadraturePoints | src/gq_line_rpim.cpp:11-86 | fails with OutOfRange exactly when a table lookup throws; otherwise returns every segment's mapped points in cell-major order and appends the cells and point vectors |
| GQTriangle.RuleSizes | src/gq_triangle_rpim.cpp:111-250 | the four rules have 1, 3, 4 and 7 points, one weight each |
| GQTriangle.RuleWeightSums | src/gq_triangle_rpim.cpp:111-250 | linear, quadratic and cubic weights sum to exactly 1; quintic to within 1e-9 |
| GQTriangle.RulePointsAreBarycentric | src/gq_triangle_rpim.cpp:111-250 | every tabulated point's area coordinates sum to 1 (quintic within rounding) |
| GQTriangle.TriangleArea | src/gq_triangle_rpim.cpp:58-61 | the area is non-negative and twice it equals the absolute determinant |
| GQTriangle.Det3IsEdgeJacobianDet | src/gq_triangle_rpim.cpp:59-65 | the 3x3 area determinant equals the determinant of the edge Jacobian |
| GQTriangle.MapPointIsBarycentric | src/gq_triangle_rpim.cpp:63-82 | the mapped point is u*v1 + v*v2 + (1-u-v)*v3 in the plane, with z = 0 |
| GQTriangle.LinearRuleHitsCentroid | src/gq_triangle_rpim.cpp:113-127 | the one-point rule lands on the triangle's centroid |
| GQTriangle.CellOwnsItsPoints | src/gq_triangle_rpim.cpp:31-97 | the cloud has triangles x rule-size points; cell i's k-th index points at triangle i's k-th mapped point |
| GQTriangle.MapTriangle | src/gq_triangle_rpim.cpp:70-90 | the inner loop maps every rule point of triangle i and hands out consecutive indices |
| GQTriangle.GQTriangleRPIM.constructor | src/gq_triangle_rpim.cpp:4-8 | fills the rule tables and starts with no weights, points or cells |
| GQTriangle.GQTriangleRPIM.WeightPointGeneration | src/gq_triangle_rpim.cpp:111-250 | appends the linear, quadratic, cubic and quintic rules in order |
| GQTriangle.GQTriangleRPIM.GetIntegrationCellsProperties | src/gq_triangle_rpim.cpp:102-107 | returns the stored cells |
| GQTriangle.GQTriangleRPIM.GetQuadratureWeights | include/gq_triangle_rpim.h:46 | returns the stored weights |
| GQTriangle.GQTriangleRPIM.GenerateQuadraturePoints | src/gq_triangle_rpim.cpp:12-100 | fails with OutOfRange exactly for an order outside 0..3; otherwise appends the rule's weights and returns every triangle's mapped points in cell-major order |
| Meshes.TriangleCentroid | src/mesh2D.cpp:23-25 | the centroid's offsets to the three vertices sum to zero in every coordinate |
| Meshes.SegmentMidpoint | src/mesh2D.cpp:53-55 | the midpoint is equidistant from both ends, coordinate by coordinate |
| Meshes.VolumeElementsCentroids | src/mesh2D.cpp:4-31 | succeeds iff every triangle refers to existing nodes (else OutOfRange); one centroid per triangle, in order |
| Meshes.SurfaceElementsCentroids | src/mesh2D.cpp:35-62 | succeeds iff every segment refers to existing nodes (else OutOfRange); one midpoint per segment, in order |
| Material.ElasticityMatrix | src/material.cpp:3-19 | the matrix is symmetric with the plane-stress entries E/(1-v^2), vE/(1-v^2) and E/(2(1+v)), zero shear coupling and a positive diagonal |
| LoadingConditions.ExternalForceFunction | src/loading_conditions.cpp:4-10 | the body force is zero everywhere |
| LoadingConditions.ExternalTractionFunction | src/loading_conditions.cpp:13-30 | x-traction is zero; y-traction is zero left of x = 47.8 and the parabolic shear profile from there on; it needs x0, and x1 only on the loaded end |
| LoadingConditions.ShearTractionClosedForm | src/loading_conditions.cpp:19-26 | with d = 12 the second moment is 144 and the traction is 0.5 (p/I)(36 - y^2) |
| LoadingConditions.ShearTractionProfile | src/loading_conditions.cpp:19-26 | the profile is even in y, vanishes at y = +/-6 and peaks at -62500 on the axis |
| PointLoads.PointLoadFunction | src/point_loads.cpp:37-46 | the point load has two components |
| PointLoads.LoadVectorStep | src/point_loads.cpp:17-32 | writing the two slots of node n is loading one more node |
| PointLoads.PointLoadsAreZero | src/point_loads.cpp:11-46 | with the zero point load the whole load vector is zero |
| PointLoads.NodesNearMembership | src/point_loads.cpp:70-84 | a node is listed iff it lies within tol of the target |
| PointLoads.NodesNearAscending | src/point_loads.cpp:70-84 | the listed node ids are strictly ascending |
| PointLoads.NodeSelection | src/point_loads.cpp:49-87 | the loop returns the nodes within tol of the middle of the bounding box's right edge |
| PointLoads.NodeSelectionMeaning | src/point_loads.cpp:49-87 | a node is selected iff it is within tol of that target, and the selection is ascending |
| PointLoads.PointLoads.constructor | include/point_loads.h:14 | starts with no selected nodes |
| PointLoads.PointLoads.Initialize | src/point_loads.cpp:3-8 | appends node 28 to the selection |
| PointLoads.PointLoads.GetPointLoads | src/point_loads.cpp:11-34 | succeeds iff both slots of every selected node are in range (else OutOfRange); the result is the load vector of the selection |
| Pointcloud.QuadraturePointsCheck | src/pointcloud_rpim.cpp:95-115 | the check reports OK exactly when there are at least three quadrature points per field node (0/0 is NaN and reports a warning) |
| Pointcloud.RatioAtLeastThree | src/pointcloud_rpim.cpp:98-107 | the real ratio test is the same as the integer test q >= 3f |
| Pointcloud.DataPoints | src/pointcloud_rpim.cpp:35-63 | the cloud has as many points as field nodes, volume points and surface points together |
| Pointcloud.DataPointsOffsets | src/pointcloud_rpim.cpp:51-62 | field nodes come first, then volume points, then surface points, each at its offset, and nothing else is in the cloud |
| Pointcloud.PointcloudRPIM.constructor | include/pointcloud_rpim.h:17 | starts with an empty cloud and fresh quadrature generators whose cell and weight lists are empty |
| Pointcloud.PointcloudRPIM.Initialize | src/pointcloud_rpim.cpp:3-32 | stores the mesh and the orders; fails with OutOfRange exactly when a generator rejects its order; otherwise the cloud is the field nodes, the volume points and the surface points in that order, the triangle generator's cells and weights have grown by this mesh's cells and the rule's weights, the line generator's cells have grown by this mesh's segment cells and its weights are the table row, and the check result is returned |
| Pointcloud.PointcloudRPIM.BuildCloud | src/pointcloud_rpim.cpp:18-31 | generates both point sets, counts them and assembles the cloud, with the same failure cases and the same cells, weights and cloud as Initialize |
| Pointcloud.PointcloudRPIM.GenerateQuadrature | src/pointcloud_rpim.cpp:18-22 | succeeds iff both orders are accepted, and then both point sets, the accumulated cells and the weights are stored |
| Pointcloud.PointcloudRPIM.GenerateVolumeQuadraturePoints | src/pointcloud_rpim.cpp:67-78 | succeeds iff the order is accepted; then stores the triangle points, the generator's cells (the earlier ones plus this mesh's) and its weights (the earlier ones plus the rule's) |
| Pointcloud.PointcloudRPIM.GenerateSurfaceQuadraturePoints | src/pointcloud_rpim.cpp:81-92 | succeeds iff the evaluation count is accepted; then stores the segment points, the generator's cells (the earlier ones plus this mesh's) and the weight table row for that count |
| Pointcloud.PointcloudRPIM.GenerateDataPoints | src/pointcloud_rpim.cpp:35-63 | the cloud is field nodes, then volume points, then surface points; returns the coverage check |
| Pointcloud.PointcloudRPIM.GetCloud | include/pointcloud_rpim.h:24 | returns the cloud |
| Pointcloud.PointcloudRPIM.GetNumberOfVolumeQuadraturePoints | include/pointcloud_rpim.h:27 | returns the volume point count |
| Pointcloud.PointcloudRPIM.GetVolumeCellsNumber | include/pointcloud_rpim.h:31 | returns the number of volume cells |
| Pointcloud.PointcloudRPIM.GetQuadratureVolumeCellsProperties | src/pointcloud_rpim.cpp:118-122 | returns the volume cells |
| Pointcloud.PointcloudRPIM.GetQuadratureVolumeCellsWeights | src/pointcloud_rpim.cpp:125-128 | returns the volume weights |
| Pointcloud.PointcloudRPIM.GetSurfaceCellsNumber | include/pointcloud_rpim.h:43 | returns the number of surface cells |
| Pointcloud.PointcloudRPIM.GetQuadratureSurfaceCellsProperties | src/pointcloud_rpim.cpp:131-135 | returns the surface cells |
| Pointcloud.PointcloudRPIM.GetQuadratureSurfaceCellsWeights | src/pointcloud_rpim.cpp:138-141 | returns the surface weights |
| SupportDomain.HitsSound | src/support_domain.cpp:44-51 | every recorded position is a match position naming the target |
| SupportDomain.HitsComplete | src/support_domain.cpp:44-51 | every match position naming the target is recorded |
| SupportDomain.Generate | src/support_domain.cpp:4-81 | the loops produce exactly the specified support domains for the half-diagonal search radius |
| SupportDomain.AddQueryMatches | src/support_domain.cpp:43-71 | the inner loop over one query's matches takes the domains from q to q+1 queries |
| SupportDomain.SupportsAreMatches | src/support_domain.cpp:51-69 | every stored support is a match of some field node, stored with that node's (x, y) |
| SupportDomain.MatchesAreSupports | src/support_domain.cpp:51-69 | every match of a field node is stored as a support, with that node's (x, y) |
| SupportDomain.EntryMeaning | src/support_domain.cpp:14-69 | an entry is non-empty iff some field node found its point; then it records that point's index and (x, y); both support lists have equal length |
| SupportDomain.EntrySupportSource | src/support_domain.cpp:51-69 | each stored support names the match position i in field node qq's match list, with qq's (x, y) |
| SupportDomain.EntryRecordsMatch | src/support_domain.cpp:51-69 | each match of field node qq for the point is stored at some position j of the entry |
| SupportDomain.SupportsWithinRadius | src/support_domain.cpp:18-69 | with a radius search, every support node lies within the radius of the quadrature point |
| SupportDomain.NearNodesAreSupports | src/support_domain.cpp:18-69 | with a radius search, every field node strictly inside the radius is a support |
| SupportDomain.SupportIndexIsMatchPosition | src/support_domain.cpp:66 | the stored support index is the match position, not the field node: two nodes finding the point at position 1 both store 1 |
| SupportDomain.RectangleShape | src/support_domain.cpp:178-202 | the outline is closed, has the given width and height, and its corners average to the centre |
| SupportDomain.GetEqualIdx | src/support_domain.cpp:206-225 | returns the last point coinciding with p within tol, or 0 when none does |
| ShapeFunctions.PhiMatrixUpdate | src/shape_function.cpp:64-65 | writing phi_i into columns 2i and 2i+1 as phi_i times I2 changes only those two columns |
| ShapeFunctions.ColumnSumSplit | src/shape_function.cpp:41-61 | the radial sum over the support points plus the polynomial sum over the basis is one sum over the whole inverse column |
| ShapeFunctions.WeightedColumnSums | src/shape_function.cpp:45-58 | one pass of the inner loops yields the weighted column sums of a basis and of its two gradient columns |
| ShapeFunctions.Combine | src/shape_function.cpp:39-66 | the outer loop yields exactly the specified values, Jacobian and Phi matrix |
| ShapeFunctions.ShapeFunction.constructor | src/shape_function.cpp:4-8 | stores the shape parameters |
| ShapeFunctions.ShapeFunction.DistanceTermPositive | src/shape_function.cpp:137 | D_i is strictly positive when ac*dc is not zero |
| ShapeFunctions.ShapeFunction.DistanceTermSymmetric | src/shape_function.cpp:131-137 | D_i does not depend on the order of the two points |
| ShapeFunctions.ShapeFunction.RbfGradientAtNode | src/shape_function.cpp:143-144 | at a support point itself the radial gradient is zero |
| ShapeFunctions.ShapeFunction.RbfMq | src/shape_function.cpp:110-148 | the loop yields D_i^q in entry i and 2q D_i^(q-1) (d1, d2) in Jacobian row i for every support point |
| ShapeFunctions.ShapeFunction.Polynomial2DBasis | src/shape_function.cpp:151-167 | the basis has ms entries and an ms x 2 Jacobian |
| ShapeFunctions.ShapeFunction.PolynomialBasisLinear | src/shape_function.cpp:156-160 | the linear basis reproduces c0 + c1 x + c2 y and its Jacobian gives the gradient (c1, c2) |
| ShapeFunctions.ShapeFunction.MomentMatrixSymmetric | src/shape_function.cpp:102-106 | the moment matrix [[R, P], [P^T, 0]] is symmetric |
| ShapeFunctions.ShapeFunction.GsMatrix | src/shape_function.cpp:72-107 | the loop and the joins build exactly the moment matrix |
| ShapeFunctions.ShapeFunction.Calculate | src/shape_function.cpp:12-69 | a point the bases cannot read fails first (OutOfRange for a missing coordinate, SizeMismatch for a Jacobian row of the wrong width); then fails with Singular iff the inverse fails; otherwise, at a 2-vector, returns the shape-function values, Jacobian and Phi matrix built from that inverse, and at any other point (only without support points) the empty measures with a Phi of one row per coordinate |
| ShapeFunctions.ShapeFunction.KroneckerDelta | src/shape_function.cpp:12-69 | with a true inverse, shape function i is 1 at support point i and 0 at the others |
| Strains.ReadableRowsMeaning | src/strain.cpp:23-26 | the Ds loop reaches the end iff every Jacobian row has two gradient entries |
| Strains.DsColumns | src/strain.cpp:28-31 | columns 2i and 2i+1 of Ds are (dphi/dx, 0, dphi/dy) and (0, dphi/dy, dphi/dx) |
| Strains.StrainComponents | src/strain.cpp:34 | Ds times es is (sum dphi_i/dx u_i, sum dphi_i/dy v_i, sum dphi_i/dy u_i + dphi_i/dx v_i) |
| Strains.StrainLinear | src/strain.cpp:34 | the strain is linear in the displacements |
| Strains.StrainOfZero | src/strain.cpp:34 | zero displacements give zero strain |
| Strains.Strain.constructor | include/strain.h:12 | starts with no shape function, no Ds and no strain |
| Strains.Strain.SetShapeFunction | src/strain.cpp:4-11 | stores the measures and takes ns from the value vector |
| Strains.Strain.Update | src/strain.cpp:14-35 | Ds holds the blocks up to the first unreadable Jacobian row; succeeds iff all rows are readable and es has 2ns entries; then the strain is Ds es, else it is unchanged and the error says which check failed |
| GeometryModels.DofSlots | src/geometry_model.cpp:102-109 | support node i owns rows 2i and 2i+1, which point at its dofs 2 idx and 2 idx + 1 |
| GeometryModels.MappingMatrix | src/geometry_model.cpp:90-112 | succeeds iff every support node's two dofs fit in q-bar (else OutOfRange); the result is a (2 ns) x q matrix |
| GeometryModels.MappingIsLocator | src/geometry_model.cpp:90-112 | Ls is the locator matrix of the dof slots |
| GeometryModels.LocalDisplacements | src/geometry_model.cpp:28 | es = Ls q-bar holds the two dofs of every support node, in support order |
| GeometryModels.AllBlocksWritten | src/geometry_model.cpp:102-109 | once every node's 2x2 identity block is written, the matrix is Ls |
| GeometryModels.GlobalToLocalMappingMatrix | src/geometry_model.cpp:90-112 | the loop builds exactly Ls, and fails where a support dof lies past q-bar |
| GeometryModels.Displacement | src/geometry_model.cpp:18-60 | the displacement at the point of interest exists iff Ls can be built and the moment matrix inverts; it has two components |
| GeometryModels.DisplacementInterpolates | src/geometry_model.cpp:28-43 | Phi Ls q-bar is the pair (sum phi_i u_i, sum phi_i v_i) over the support nodes |
| GeometryModels.DisplacementIsInterpolation | src/geometry_model.cpp:18-60 | the evaluated displacement is the shape-function interpolation of the support nodes' displacements |
| GeometryModels.StiffnessFromJacobian | src/geometry_model.cpp:84-87 | Ls^T Ds^T C Ds Ls equals J^T C J with J = Ds Ls |
| GeometryModels.StiffnessSymmetric | src/geometry_model.cpp:84-87 | the element stiffness is symmetric whenever C is |
| GeometryModels.ElasticForceIsStiffness | src/geometry_model.cpp:63-87 | with the strain J q-bar, the internal force -J^T C eps equals -K q-bar |
| GeometryModels.GeometryModel.constructor | src/geometry_model.cpp:3-15 | stores the support domains and the parameters and takes C from the material |
| GeometryModels.GeometryModel.StoreMeasures | src/geometry_model.cpp:43-59 | stores u = Phi es, J_u = Phi Ls, Ds, eps and J = Ds Ls, and the Jacobians map q-bar to u and eps |
| GeometryModels.GeometryModel.Evaluate | src/geometry_model.cpp:32-59 | builds a fresh shape function; fails exactly as `calculate` does, leaving the stored quantities unchanged; otherwise stores them, and at an entry whose point is not a 2-vector the displacement is that many zeros and the strain is zero |
| GeometryModels.GeometryModel.Update | src/geometry_model.cpp:18-60 | fails with OutOfRange for a missing entry or a support dof past q-bar, and otherwise exactly as `calculate` does at the entry; on success the stored Jacobians map q-bar to the stored displacement and strain, and an entry no field node reached leaves an empty displacement and a zero strain |
| GeometryModels.GeometryModel.FEl | src/geometry_model.cpp:63-67 | succeeds iff the strain and its Jacobian have matching sizes (else SizeMismatch); one entry per dof |
| GeometryModels.GeometryModel.KEl | src/geometry_model.cpp:84-87 | succeeds iff Ls and Ds have matching sizes (else SizeMismatch); the stiffness is symmetric |
| GeometryModels.GeometryModel.FBex | src/geometry_model.cpp:70-74 | the body force carried to the dofs is zero |
| GeometryModels.GeometryModel.FTex | src/geometry_model.cpp:77-81 | the traction carried to the dofs is J_u^T t(x): zero left of x = 47.8, the y-column times the shear profile from there on; fails exactly when x has no x0, or no x1 on the loaded end, or J_u is not 2-row |
| GeometryModels.GeometryModel.EmptyMeasuresStore | src/geometry_model.cpp:40-58 | the empty measures of a d-entry point store a displacement of d zeros and a zero strain |
| GeometryModels.GeometryModel.ForceBalance | src/geometry_model.cpp:63-87 | after an evaluation, f_el = -K_el q-bar |
| GeometryModels.GeometryModel.EvaluatedDisplacement | src/geometry_model.cpp:18-60 | after an evaluation the stored displacement is the displacement of that entry |
| Rpim2D.MovedStep | src/rpim2D.cpp:70-83 | moving one more node is a single point update |
| Rpim2D.NodeDisplacements | src/rpim2D.cpp:70-83 | entries 2i and 2i+1 are node i's x and y displacement from its initial position |
| Rpim2D.MovedDisplacements | src/rpim2D.cpp:67-84 | the displacements of the moved nodes are the first entries of q-bar (moving inverts reading displacements) |
| Rpim2D.MovedIdempotent | src/rpim2D.cpp:67-84 | moving twice by the same q-bar is moving once, since positions are taken from the initial ones |
| Rpim2D.Shifted | src/rpim2D.cpp:138-141 | the point moves by (u0, u1) and keeps its z |
| Rpim2D.StateDomains | src/rpim2D.cpp:101-123 | one support domain per point of interest |
| Rpim2D.EvaluatePoint | src/rpim2D.cpp:131-141 | updates the model at the entry; fails with OutOfRange iff the entry was not reached (its displacement is empty) or has a support dof past q-bar; otherwise returns the displacement of that entry, or Singular exactly when that displacement does not exist |
| Rpim2D.GeneratedEntries | src/support_domain.cpp:14-69 | every entry of the support domains is either reached (a 2-vector point with paired 2-vector supports) or untouched and empty |
| Rpim2D.UntouchedEntryEvaluates | src/shape_function.cpp:12-69 | without polynomial terms and support points every point can be read and the moment matrix is empty, with the empty inverse |
| Rpim2D.DeformPoints | src/rpim2D.cpp:128-147 | the loop deforms every point of interest in order, or stops at the first unusable or singular entry |
| Rpim2D.DeformedStep | src/rpim2D.cpp:129-145 | one more evaluated and shifted point keeps the loop invariant |
| Rpim2D.CompletedOutcome | src/rpim2D.cpp:128-147 | a finished loop yields one shifted point per point of interest |
| Rpim2D.StoppedOutcome | src/rpim2D.cpp:128-147 | a stopped loop reports the entry and the reason it stopped |
| Rpim2D.RPIM2D.constructor | include/rpim2D.h:29 | starts with no nodes, no cloud and no selected point loads |
| Rpim2D.RPIM2D.Initialize | src/rpim2D.cpp:3-53 | stores the parameters, renumbers the raw mesh with the boundary nodes first, loads node 28 and builds the cloud, which is the field nodes followed by the quadratic-triangle and 3-point line points over the renumbered mesh; fails with OutOfRange iff a quadrature table rejects its order |
| Rpim2D.RPIM2D.Configure | src/rpim2D.cpp:6-32 | the field-node mesh comes from the boundary conditions, its initial copy too, with F nodes and at most F boundary nodes |
| Rpim2D.RPIM2D.SetFieldNodes | src/rpim2D.cpp:12-29 | the field-node mesh is the renumbered raw mesh; it is valid for both quadratures |
| Rpim2D.RPIM2D.FieldMeshValid | src/rpim2D.cpp:12-26 | renumbering a valid raw mesh keeps one field node per raw node |
| Rpim2D.RPIM2D.LoadCloud | src/rpim2D.cpp:34-53 | builds the cloud (field nodes, volume points, surface points over the field-node mesh) and copies it and the handler's cells and weights, with the same failure case |
| Rpim2D.RPIM2D.InitializeHandler | src/rpim2D.cpp:33-35 | the handler accepts the rule choices exactly when both tables have them (otherwise OutOfRange), and its cloud is then the field nodes, the volume points and the surface points over the field-node mesh |
| Rpim2D.RPIM2D.CopyCloud | src/rpim2D.cpp:38-52 | the cloud and its initial copy are the point cloud's, the cell data too |
| Rpim2D.RPIM2D.UpdateFieldNodesMeshAndCloud | src/rpim2D.cpp:67-84 | every field node and the first F cloud points move to their initial position plus their dofs of q-bar |
| Rpim2D.RPIM2D.Update | src/rpim2D.cpp:56-64 | moves the nodes and the cloud as above; the support domains it builds are discarded |
| Rpim2D.RPIM2D.GetBoundaryStateVector | src/rpim2D.cpp:87-90 | succeeds iff there is a boundary node and its dofs fit in q-bar (else OutOfRange); the result is the prefix of q-bar with 2b entries |
| Rpim2D.RPIM2D.BoundaryStateIsBoundaryDisplacement | src/rpim2D.cpp:87-90 | the boundary state vector is the displacement an update gives the boundary nodes |
| Rpim2D.RPIM2D.GetDeformedMesh | src/rpim2D.cpp:151-162 | the initial mesh with node i moved by (q[2i], q[2i+1]) |
| Rpim2D.RPIM2D.DeformedMeshDisplacements | src/rpim2D.cpp:151-162 | the deformed mesh moves every field node by exactly its dofs of q-bar |
| Rpim2D.RPIM2D.GetDeformedState | src/rpim2D.cpp:93-148 | support domains among the initial field nodes, then every point of interest moved by its interpolated displacement, or the first failure; on success one point per point of interest, in order, with z unchanged |
| Geometry2DMesh.GenerateInputPoints | src/geometry2D_mesh.cpp:22-44 | succeeds iff the y and z columns are at least as long as x (else OutOfRange); point i is (x[i], y[i], z[i]), one per entry of x |
| Geometry2DMesh.DistanceNonNegative | src/geometry2D_mesh.cpp:157-164 | the planar distance between two points is never negative |
| Geometry2DMesh.ArcLengthMonotone | src/geometry2D_mesh.cpp:141-154 | the distance along the polyline to point j is non-negative and at most the distance to any later point k |
| Geometry2DMesh.CurveLengthAppend | src/geometry2D_mesh.cpp:141-154 | appending a point lengthens the polyline by exactly its last segment |
| Geometry2DMesh.ArcLengthPrefix | src/geometry2D_mesh.cpp:141-154 | the distance along the polyline to point k does not depend on the points after k |
| Geometry2DMesh.LinearCurveLength | src/geometry2D_mesh.cpp:141-154 | the start/finish walk returns the length of the whole polyline (0 for no point or one point) |
| Geometry2DMesh.CurveLengthNonNegative | src/geometry2D_mesh.cpp:141-154 | a polyline is never shorter than 0 |
| Geometry2DMesh.Lerp | src/geometry2D_mesh.cpp:122-126 | the interpolated point lies in the plane z = 0, at the start for ratio 0 and at the finish for ratio 1 |
| Geometry2DMesh.MultipleIsProduct | src/geometry2D_mesh.cpp:98 | i segments laid end to end measure segment_length * i |
| Geometry2DMesh.MultipleMonotone | src/geometry2D_mesh.cpp:92-98 | the offsets of later resampled points are never smaller |
| Geometry2DMesh.OffsetBounds | src/geometry2D_mesh.cpp:73-98 | each inner offset i * L/(n-1) lies in (0, L] and is strictly below the next one |
| Geometry2DMesh.RatioInUnit | src/geometry2D_mesh.cpp:110-117 | the ratio of the part offset to the segment length lies in [0, 1] and scales back to the part offset |
| Geometry2DMesh.WalkToOffset | src/geometry2D_mesh.cpp:103-107 | the inner while loop stops on a source segment whose span contains the offset sought, with its arc-length offset and its length |
| Geometry2DMesh.InnerPoint | src/geometry2D_mesh.cpp:110-126 | the segment reached is not degenerate, the part ratio is in [0, 1] and the pushed point sits at arc length i * L/(n-1) |
| Geometry2DMesh.PlacedStep | src/geometry2D_mesh.cpp:92-127 | pushing one more inner point keeps every point placed so far on its arc length, on segments that never go back |
| Geometry2DMesh.PlacedComplete | src/geometry2D_mesh.cpp:129-135 | appending the last source point completes a resampling of the curve |
| Geometry2DMesh.BoundaryDensityAdjustment | src/geometry2D_mesh.cpp:48-138 | no points for fewer than two source points or a target below two; otherwise exactly target points: the first and last source points and, between them, points on the source polyline at equally spaced arc lengths, reached without going back |
| Geometry2DMesh.ToIndex | src/geometry2D_mesh.cpp:230 | a gmsh tag less one: the zero-based index whose successor is the tag |
| Geometry2DMesh.Indices | src/geometry2D_mesh.cpp:228-231 | one index per tag, each one less than its tag |
| Geometry2DMesh.NodeIndices | src/geometry2D_mesh.cpp:228-231 | the node-index loop gives every node tag less one, in order |
| Geometry2DMesh.NodeCoords | src/geometry2D_mesh.cpp:234-244 | succeeds iff the coordinate count is a multiple of three (else OutOfRange); point k is the k-th (x, y, z) triple |
| Geometry2DMesh.LastIndexOf | src/geometry2D_mesh.cpp:256-262 | the last position holding the id, with no later one; 0 when the id is absent |
| Geometry2DMesh.ElementBlocks | src/geometry2D_mesh.cpp:256-262 | the triangle and line block indices are the last positions of their element types, else 0 |
| Geometry2DMesh.LineElements | src/geometry2D_mesh.cpp:266-279 | succeeds iff the node tags come in whole pairs (else OutOfRange); line k joins the nodes of pair k, and the boundary index list is every tag less one |
| Geometry2DMesh.TriangleElements | src/geometry2D_mesh.cpp:294-312 | succeeds iff the node tags come in whole triples (else OutOfRange); triangle k has the nodes of triple k, and the index list is every tag less one |
| Geometry2DMesh.InsertUnique | src/geometry2D_mesh.cpp:282-284 | inserting into a strictly increasing list keeps it strictly increasing and adds exactly the new value |
| Geometry2DMesh.SortUnique | src/geometry2D_mesh.cpp:282-284 | sort, unique and resize give a strictly increasing list holding exactly the input's values |
| Geometry2DMesh.StrictlyIncreasingUnique | src/geometry2D_mesh.cpp:315-317 | two strictly increasing lists with the same values are equal, so the sorted unique list is determined by the values alone |
| Geometry2DMesh.Without | src/geometry2D_mesh.cpp:322-324 | erase-remove keeps exactly the values other than x and never lengthens the list |
| Geometry2DMesh.WithoutIncreasing | src/geometry2D_mesh.cpp:322-324 | erase-remove keeps a strictly increasing list strictly increasing |
| Geometry2DMesh.RemoveBoundary | src/geometry2D_mesh.cpp:320-325 | the inner list keeps exactly its values that are not boundary indices, and stays strictly increasing |
| Geometry2DMesh.UnpackMesh | src/geometry2D_mesh.cpp:215-326 | succeeds iff gmsh's arrays can be read without a bounds failure (else OutOfRange); node count, indices and coordinate triples, the last line and triangle blocks' elements, the triangle element tags, a sorted duplicate-free boundary index list of exactly the line nodes, and a sorted duplicate-free inner list of exactly the triangle nodes that are not on the boundary |
| Geometry2DMesh.PointsAt | src/geometry2D_mesh.cpp:335-350 | succeeds iff every listed index is a node (else OutOfRange); the points at the listed indices, in list order |
| Geometry2DMesh.GetBoundaryPoints | src/geometry2D_mesh.cpp:329-353 | succeeds iff every boundary index is a node; the coordinates of the boundary nodes, in index-list order |
| Geometry2DMesh.GetInnerPoints | src/geometry2D_mesh.cpp:356-379 | succeeds iff every inner index is a node; the coordinates of the inner nodes, in index-list order |

## Left out

- Floating point: every `double` is an exact `real`. Rounding, NaN and infinity are not modelled, so the order-3 triangle rule sums and the area coordinates are stated as within 1e-9 of 1, as the decimal tables are written.
- Library numerics: `std::sqrt`, non-integer `pow`, `arma::inv` and `arma::norm` are function-typed parameters. Only the laws a proof needs are assumed of them, as ghost predicates on those parameters: a non-negative square root, the square laws of `pow`, and an inverse that keeps the matrix shape and inverts the empty matrix to itself.
- The nanoflann radius search (`kd_trees.cpp`) is a parameter `search(query, radius)`. Its results are assumed to be in range, and in the lemmas to match the L1 ball of `include/kd_trees.h`. Whether the radius boundary is strict or not is left open.
- Gmsh: the geometry and meshing calls of `generate_mesh` (`src/geometry2D_mesh.cpp:172-210`, 221-222 and 253) are not modelled. Their output arrays are the input of `UnpackMesh`.
- Geometry2DMesh class: its constructor reads a CSV file with Armadillo and chains input points, resampling and meshing. It is not modelled as a class. `generate_mesh` runs once, on an empty `m_mesh`, so the model builds the mesh as a value, and `get_triangular2D_mesh` is that value.
- Geometry2DMesh.UnpackMesh: gmsh tags are typed as naturals of at least 1, as gmsh numbers them. A tag 0, whose `- 1` would wrap around in `size_t`, is not modelled. Indices stored in the `int` fields of the element structs are assumed to fit. The unused `max_index` (`src/geometry2D_mesh.cpp:291-303`) is left out. On a bounds failure the source leaves `m_mesh` partly filled; the model returns only the failure.
- Geometry2DMesh.BoundaryDensityAdjustment: requires a positive curve length when three or more points are asked for. For a curve of length 0 the source divides 0 by 0, which gives NaN points.
- Geometry2DMesh.EuclideanDistance: the square root is a parameter, so the distance is stated only as non-negative.
- Boundaries.IndexOf: returns -1 for a missing value. The source returns -1 converted to `size_t`, the largest index. The remapping only looks up values that are present.
- Boundaries.BoundaryConditions.constructor: requires a non-empty raw mesh. `find_vector_range` on an empty vector dereferences `end()`, which is undefined behaviour. The same holds for GpUtils.FindVectorRange and PointLoads.NodeSelection.
- Boundaries.BoundaryConditions.SetBoundaryPtsIndices: requires empty index lists. The constructor is its only caller, and it starts with empty lists.
- PointLoads.PointLoads.GetPointLoads: the source writes the loads through Armadillo's unchecked `.at()`. For a selected node without both slots its behaviour is undefined. The model's OutOfRange marks that input and promises nothing of what the source does there.
- Strains.Strain.Update: the source reads the Jacobian through Armadillo's unchecked `.at()`. For a Jacobian with a missing row or entry its behaviour is undefined. The model's stop at the first such row, and its OutOfRange, mark that input. They promise nothing of what the source does there.
- Geometry2DMesh.GenerateInputPoints: the source reads the columns through Armadillo's unchecked `.at()`. For a y or z column shorter than x its behaviour is undefined. The model's OutOfRange marks that input. The pipeline passes three columns of one matrix, which always have the same length.
- GQTriangle.GQTriangleRPIM.GenerateQuadraturePoints: requires every triangle's node indices to be nodes, where the source would throw from `.at()`. The unknown-order failure is modelled as a `Result`.
- GQLine.GQLineRPIM.GenerateQuadraturePoints: requires every line's node indices to be nodes, where the source would throw from `.at()`. The unknown-evals failure is modelled as a `Result`.
- Pointcloud.PointcloudRPIM.Initialize: requires a mesh with valid element node indices, for the same reason.
- Rpim2D.RPIM2D.Initialize: requires a non-empty raw mesh with valid element node indices, as the boundary partition and the quadrature do.
- Rpim2D.RPIM2D.UpdateFieldNodesMeshAndCloud: the loop moves the points in local copies of the node and cloud lists, which are stored back once it ends; the final state is the same as the source's in-place updates.
- Rpim2D.RPIM2D.UpdateFieldNodesMeshAndCloud: requires at least 2F entries in q-bar. Armadillo's bounds check would throw otherwise. The same holds for Rpim2D.RPIM2D.Update and Rpim2D.RPIM2D.GetDeformedMesh.
- Rpim2D.RPIM2D.constructor: the source's `RPIM2D() {}` default-initialises the members. Its scalars (`m_field_nodes_num`, `m_dofs_num`, `m_boundaries_num`, `m_thickness`, `m_animation_flag`) are left indeterminate. The model starts them at zero or false and the containers empty.
- Rpim2D: `get_full_state_vector` is declared but never defined. The force and stiffness getters (`m_fex_a`, `m_fex_c`, `m_kfcc`, `m_kfca`, `m_kfaa`) return members that no code assigns. Neither is modelled.
- GeometryModels.GeometryModel.Update: the `tol` argument is unused by the source and is ignored. The entry's supports must be 2-vectors, one per support index, as `generate` records them (Rpim2D.GeneratedEntries). Supports of another width, or index and coordinate lists of different lengths, are not modelled. The same holds for GeometryModels.GeometryModel.Evaluate.
- ShapeFunctions.ShapeFunction.constructor: `ms` is limited to 0 or 3, the two sizes `polynomial2D_basis` knows. For any other `ms` the source fails: `gs_matrix` fails a row assignment when there is a support point, and `arma::inv` meets a zero moment matrix when there is none. Those failures are not modelled. The pipeline always passes 0.
- Rpim2D.DeformPoints: takes support domains in the form `generate` leaves them (Rpim2D.GeneratedEntries), as its only caller does. The same holds for Rpim2D.EvaluatePoint.
- GeometryModels.GeometryModel: the shape function is always built with `ms = 0`, as in the source, so the polynomial block is empty. The getters (`get_strain`, `get_deformation` and the rest) are the class's fields.
- Strains.Strain: the getters `get_strain_vector` and `get_ds_matrix` are the class's fields.
- ShapeFunctions.ShapeFunction.KroneckerDelta: holds only for an inverse that is a right inverse of the moment matrix. Partition of unity is not stated.
- SupportDomain: the CGAL conversion `conv_pc_to_gpc` and `animate_support_domain` are not modelled. The prints and the `sleep_for` are I/O.
- Pointcloud.QuadraturePointsCheck: only the OK/Warning verdict is modelled. The message it prints is not.
- GQLine.GQLineRPIM.GenerateQuadraturePoints: the default argument evals = 4 (include/gq_line_rpim.h:19-20) is not modelled; every caller passes an explicit count.
- GQTriangle.GQTriangleRPIM.GenerateQuadraturePoints: the default argument order = LINEAR (include/gq_triangle_rpim.h:26-27) is not modelled; every caller passes an explicit order.
- Rpim2D.RPIM2D.Initialize: the copied cell records and weights are stated equal to the point-cloud handler's; their contents are stated on Pointcloud.PointcloudRPIM.Initialize.
- Plotting and animation (`post_processing.cpp`, `support_domain_plot.hpp`, the `plot_range` formatting of `gp_utils.h`) are not part of this model.
- `structured2D_mesh.cpp`, `euler_rotations.cpp`, `model.cpp` and `main.cpp` are not part of this model. They are gmsh wrappers, trigonometry outside the pipeline, code built on templates defined outside the modelled files, and driver glue.
- The `PARALLELISE` comments describe no concurrency. The loops are modelled as sequential, as written.
