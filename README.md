# raynet ray tracer core, in Dafny

This project models the core of the raynet ray tracer (the `raylib` library) and proves
properties of it. Coordinates and colours are exact reals. Square root, cosine, sine and
`Math.Pow` are function-typed parameters.

Modules, one per part of the library:

- `Vectors`, `Colors`, `Boxes`, `Hits`, `Limits`, `Wrappers`: the value types. These are
  `PosVector`, `ColorVector`, `BoundingBox` with its `Bound`, `Ray` and `IntersectionInfo`,
  the IEEE constants the source compares against, and Option/Result.
- `Materials`: solid and chessboard materials, including the chessboard's coordinate
  wrapping with C#'s truncating `%`.
- `Spheres`, `Planes`, `Triangles`, `Shapes`: the three shapes' intersection tests and
  bounds, and the shape wrapper that carries an Id and a bounding box.
- `KdTrees`: the tree. This covers the twelve-candidate plane search, box splitting,
  partitioning the shapes between the two sides, the recursive build, and the nearest-hit
  query.
- `Dictionaries`, `Scenes`: scene assembly with dense 1-based Ids and `TryGetShape`.
- `RenderConfig`, `RayTracers`, `RayTracersEx`: the render settings and the two tracers.
- `Rendering`, `Renderers`, `PerLineRenderers`: the pixel array, the row queue, the row
  workers, and the consumer that drains finished rows and reports progress. The threads are
  made sequential: the order in which rows finish is a parameter, and any order is allowed.
- `NffParsers`: the Neutral File Format reader. It is a state machine over lines that have
  already been split into tokens, and it ends with the polygon fan triangulation.

Some defects of the source are stated as lemmas about the code as written. They are:

- the sphere's bound is reversed, so a lone sphere's tree misses every ray;
- the triangle's maximum bound can fall below the largest vertex;
- the YZ candidates are spaced by the y extent;
- Blend weighs both colours by 1 - w;
- the single-threaded pass never reports 100%, and the multi-threaded pass still runs after it;
- the specular term is always black.

## Model

| member | source | states |
|---|---|---|
| Vectors.Cross | raylib/PosVector.cs:83-86 | the cross product is orthogonal to both operands |
| Vectors.AddScaled | raylib/PosVector.cs:78-81 | AddScaled(b, s) is the sum of the vector and b scaled by s |
| Vectors.MagnitudeSquared | raylib/PosVector.cs:53-56 | the squared length is the vector's dot product with itself and is never negative |
| Vectors.ZeroLengthIffOrigin | raylib/PosVector.cs:53-56 | the squared length is zero exactly for the origin |
| Vectors.Normalize | raylib/PosVector.cs:43-51 | with a non-zero magnitude, scaling the result back by the magnitude gives the vector |
| Vectors.DotCommutative | raylib/PosVector.cs:88-91 | the dot product is symmetric |
| Vectors.DotLinearLeft | raylib/PosVector.cs:88-91 | the dot product is linear in its first operand (sums and scalings) |
| Vectors.DotLinearRight | raylib/PosVector.cs:88-91 | the dot product is linear in its second operand |
| Vectors.CrossAntiCommutative | raylib/PosVector.cs:83-86 | swapping the operands negates the cross product |
| Vectors.CrossSelfIsZero | raylib/PosVector.cs:83-86 | a vector crossed with itself is the origin |
| Vectors.AddSubCancel | raylib/PosVector.cs:58-66 | subtracting what was added gives the vector back |
| Vectors.DivScaleCancel | raylib/PosVector.cs:68-76 | dividing by a non-zero scalar and multiplying by it gives the vector back |
| Vectors.UnitVectors | raylib/PosVector.cs:23-36 | NewUnitX/Y/Z have length one, are pairwise orthogonal and form a right-handed frame |
| Vectors.DotWithUnitAxes | raylib/PosVector.cs:88-91 | dotting with a unit axis reads off that coordinate |
| Vectors.CrossWithUnitAxes | raylib/PosVector.cs:83-86 | the cross products of the unit axes with any vector, written out |
| Colors.ClampValue | raylib/ColorVector.cs:46-54 | the result lies in [0, 1]; negatives give 0, values above 1 give 1, values in range are kept |
| Colors.Clamp | raylib/ColorVector.cs:21-24 | every component of the result lies in [0, 1], and an in-range colour is unchanged |
| Colors.ClampIdempotent | raylib/ColorVector.cs:21-24 | clamping twice is clamping once |
| Colors.Blend | raylib/ColorVector.cs:41-44 | Blend is the sum of both colours scaled by 1 - weight (both operands get the same weight) |
| Colors.BlendExtremes | raylib/ColorVector.cs:41-44 | weight 1 gives black and weight 0 the plain sum, so Blend never interpolates between its operands |
| Colors.BlendSymmetric | raylib/ColorVector.cs:41-44 | Blend does not depend on which colour is the receiver |
| Colors.AddCommutativeAssociative | raylib/ColorVector.cs:31-34 | colour addition is commutative and associative |
| Colors.MulCommutativeAssociative | raylib/ColorVector.cs:36-39 | the componentwise colour product is commutative and associative |
| Colors.ScaleByOneAndZero | raylib/ColorVector.cs:26-29 | scaling by 1 keeps a colour, scaling by 0 gives black |
| Boxes.FromBounds | raylib/BoundingBox.cs:20-23 | the corners take the bounds' Min and Max ends unreordered; the box is empty exactly when some bound has Max below Min |
| Boxes.Enclose | raylib/BoundingBox.cs:43-50 | each corner coordinate is one of the two boxes' coordinates, the min corner dominated by both and the max corner dominating both |
| Boxes.EncloseLaws | raylib/BoundingBox.cs:43-50 | enclosing is commutative, associative and idempotent |
| Boxes.DefaultBoxIsEmptyIdentity | raylib/BoundingBox.cs:25-28 | the parameterless box is empty and is an identity for enclosing any box within the double range |
| Boxes.WellFormedIffNotEmpty | raylib/BoundingBox.cs:59-67 | IsWellFormed and IsEmpty are exact opposites |
| Boxes.PointInsideIsStrict | raylib/BoundingBox.cs:52-57 | a point on a face is never inside, and a box flat or reversed on some axis contains no point |
| Boxes.InClosedBox | raylib/BoundingBox.cs:52-57 | closed containment, the faces included |
| Boxes.IsPointInside | raylib/BoundingBox.cs:52-57 | an inside point lies in the closed box, and a box with an inside point is not empty and has positive extent on every axis |
| Boxes.IsWellFormed | raylib/BoundingBox.cs:59-62 | well formed exactly when the box holds both of its corners |
| Boxes.IsEmpty | raylib/BoundingBox.cs:64-67 | an empty box holds no point, not even on a face; any other box holds its own min corner |
| Boxes.SurfaceArea | raylib/BoundingBox.cs:69-73 | the area is non-negative on a well-formed box and zero on a point box |
| Boxes.CalcSign | raylib/BoundingBox.cs:75-88 | Negative exactly for negative values, Zero exactly for [0, 1e-5), Positive exactly from 1e-5 on |
| Hits.NoHitFacts | raylib/IntersectionInfo.cs:9-13 | the parameterless record is not a hit, has element 0 and is beaten by every distance below double.MaxValue |
| Hits.ConstructorStores | raylib/IntersectionInfo.cs:15-27 | the full constructor stores its arguments and IsHit depends only on the element id being non-zero |
| Hits.IsHit | raylib/IntersectionInfo.cs:27 | a hit exactly when the Id differs from the no-hit record's; the no-hit record is never a hit |
| Hits.Better | raylib/RayTracer.cs:51-55 | one scan step keeps the old record unless the candidate is a hit in front of the origin and strictly nearer; the distance never grows |
| Hits.Nearest | raylib/RayTracer.cs:45-59 | the scan result is the no-hit record or a qualifying member of the candidates, never farther than double.MaxValue |
| Hits.NearestIsFirstMinimum | raylib/RayTracer.cs:45-59 | the scan keeps the first qualifying record of least distance, or reports no hit when none is nearer than double.MaxValue |
| Hits.NearestNoFartherThanQualifying | raylib/RayTracer.cs:45-59 | the scan result is never farther than any qualifying candidate |
| Materials.NewSolid | raylib/SolidMaterial.cs:5-18 | the four coefficients are stored unchanged; the material is untextured and shows its colour at every (u, v) |
| Materials.NewChessboard | raylib/ChessboardMaterial.cs:9-23 | the base receives the coefficients by name; the material is textured and shows only its two colours |
| Materials.Trunc | raylib/ChessboardMaterial.cs:27 | truncation toward zero lies within one of its argument on the zero side |
| Materials.TruncRem | raylib/ChessboardMaterial.cs:27 | the floating-point remainder takes the dividend's sign and is smaller than the divisor in magnitude |
| Materials.RemainderBounds | raylib/ChessboardMaterial.cs:27 | the remainder's bounds follow from the quotient and its truncation |
| Materials.WrapUpScale | raylib/ChessboardMaterial.cs:25-39 | no value for a zero scale (the division is undefined); for a positive scale the result lies in [-scale/2, scale/2) |
| Materials.WrapUpScaleShift | raylib/ChessboardMaterial.cs:25-39 | the wrapped coordinate differs from the input by a whole number of scales |
| Materials.GetColor | raylib/SolidMaterial.cs:15-18 | a solid material shows its colour; a chessboard one of its two colours |
| Materials.HasTexture | raylib/SolidMaterial.cs:13 | an untextured material shows the same colour at every (u, v) |
| Materials.ChessboardChoice | raylib/ChessboardMaterial.cs:19-23 | the even colour is shown exactly when both wrapped coordinates exist and their product is negative |
| Materials.ChessboardOriginIsOdd | raylib/ChessboardMaterial.cs:19-39 | the texture origin always shows the odd colour |
| Dictionaries.Keys | raylib/Scene.cs:29-53 | the dictionary's keys in insertion order |
| Dictionaries.Values | raylib/Scene.cs:25-27 | the dictionary's values in insertion order, as Shapes and Lights enumerate them |
| Dictionaries.TryGetValue | raylib/Scene.cs:55-58 | a value exactly when the key is present, and then one stored under that key |
| Dictionaries.Set | raylib/Scene.cs:39 | the key then maps to the new value, every other key keeps its lookup, and a new key is appended |
| Dictionaries.TryGetValueAt | raylib/Scene.cs:55-58 | with distinct keys the lookup of an entry's key returns that entry's value |
| Shapes.Position | raylib/Shape.cs:5-11 | the position a shape is built with: a sphere's centre, a plane's normal, a triangle's first vertex |
| Shapes.BoxOf | raylib/Scene.cs:38 | the box the scene stores agrees with BoundingBox.FromShape for spheres and triangles and is the fixed box for planes |
| Shapes.Intersect | raylib/Shape.cs:16 | dispatches to the geometry's own Intersect with the shape's Id; the result is no-hit or carries that Id |
| Shapes.GetMaterial | raylib/Shape.cs:17 | a sphere's and a plane's material, a triangle's front material |
| Shapes.UnregisteredNeverHits | raylib/IntersectionInfo.cs:27 | a shape still carrying Id 0 never reports a hit |
| Spheres.Intersect | raylib/SphereShape.cs:17-37 | no hit unless b^2 - c is positive; otherwise distance -b - sqrt(d), the point along the ray at that distance, the normalised offset from the centre, the material colour at (0, 0) and the sphere's Id |
| Spheres.HitLiesOnSphere | raylib/SphereShape.cs:17-37 | for a unit direction and an exact square root the reported point lies on the sphere |
| Spheres.InsideOriginGivesNegativeDistance | raylib/SphereShape.cs:24-33 | from inside the sphere the hit is still reported, with a negative distance (no sign check) |
| Spheres.CalculateBoundingPlanes | raylib/SphereShape.cs:44-48 | Min exceeds Max by the diameter: the centre's projection plus the radius is stored as Min, minus it as Max |
| Spheres.PositiveRadiusBoxIsEmpty | raylib/SphereShape.cs:44-48 | every sphere of positive radius gets an empty, reversed bounding box |
| Spheres.BoundingBox | raylib/BoundingBox.cs:33-40 | the sphere's box is centred on the sphere, with every min corner coordinate 2R above the max one |
| Spheres.CorrectedBoundingBox | raylib/SphereShape.cs:44-48 | the box with Min and Max the right way round: 2R wide on every axis, centred on the sphere, well formed and holding the centre inside for a positive radius |
| Planes.TextureCoordinates | raylib/PlaneShape.cs:32-41 | (0, 0) for an untextured material |
| Planes.Intersect | raylib/PlaneShape.cs:14-46 | rays facing away or parallel miss; a non-positive t misses; otherwise a hit at t along the ray with the plane's normal and Id; every hit has positive distance |
| Planes.HitLiesOnPlane | raylib/PlaneShape.cs:14-46 | every reported point satisfies normal . p + dval = 0 |
| Planes.BoundingBox | raylib/PlaneShape.cs:53-65 | the fixed box is well formed, not empty and contains the origin |
| Triangles.RawNormal | raylib/TriangleShape.cs:20 | AB x BC when AB . BC < BC . CA, else BC x CA |
| Triangles.MakeBasis | raylib/TriangleShape.cs:29-39 | no basis exactly when the denominator a c - b^2 is zero |
| Triangles.NewTriangle | raylib/TriangleShape.cs:8-40 | stores the vertices, materials and edges; the normal is divided by its magnitude only when that is positive; the plane coefficient is normal . VA; the basis is missing exactly for a zero denominator |
| Triangles.NormalCandidatesAgree | raylib/TriangleShape.cs:20 | the two candidate normals are the same vector whichever branch is taken |
| Triangles.RawNormalLength | raylib/TriangleShape.cs:20-32 | the raw normal's squared length equals the basis denominator |
| Triangles.DegenerateTriangleMissesEveryRay | raylib/TriangleShape.cs:20-32 | without a basis the normal is the zero vector and the plane test rejects every ray |
| Triangles.BasisIsDual | raylib/TriangleShape.cs:29-39 | Ubeta and Ugamma are dual to AB and AC: they read off the barycentric coefficients |
| Triangles.GetMaterial | raylib/TriangleShape.cs:118-121 | always the front material |
| Triangles.IsWellFormed | raylib/TriangleShape.cs:55-58 | well formed exactly when the stored normal is not the zero vector |
| Triangles.IsBackfaceCulled | raylib/TriangleShape.cs:60-63 | no triangle is ever back-face culled |
| Triangles.PlanePassNotParallel | raylib/TriangleShape.cs:70-88 | a ray that passes the plane test is not parallel to the plane and starts on the side it faces |
| Triangles.Intersect | raylib/TriangleShape.cs:66-116 | no hit on the plane test or outside the barycentric triangle; otherwise the plane point, distance, normal and Id, coloured by the front or back material at (vCoord, wCoord) |
| Triangles.HitLiesOnPlane | raylib/TriangleShape.cs:66-116 | a reported point lies on the triangle's plane, at positive distance |
| Triangles.CalculateBoundingPlanes | raylib/TriangleShape.cs:123-147 | Min is the least projection of the three vertices; Max is at least Min and VC's projection |
| Triangles.BoundMaxIsLargestIff | raylib/TriangleShape.cs:136-144 | Max is the largest projection exactly when VC's projection is not between VA's and VB's |
| Triangles.BoundMaxMissesLargestVertex | raylib/TriangleShape.cs:136-144 | the triangle (0,0,0), (2,0,0), (1,0,0) gets the x-bound [0, 1], missing its vertex at 2 |
| RenderConfig.NewRenderData | raylib/RenderData.cs:5-17 | the five arguments are kept and every effect is switched on |
| Scenes.TryGetShape | raylib/Scene.cs:55-58 | a shape exactly when the Id is a key, and then one of the scene's shapes |
| Scenes.ShapesOf | raylib/Scene.cs:25 | one shape per dictionary entry, in entry order |
| Scenes.LightsOf | raylib/Scene.cs:27 | one light per dictionary entry, in entry order |
| Scenes.NewScene | raylib/Scene.cs:29-53 | the background as given, one registered shape per input shape, one light per input light, and the tree over the registered shapes |
| Scenes.Register | raylib/Scene.cs:37-38 | the shape gets the Id handed out and the box from its min and max points, its geometry untouched |
| Scenes.ShapeEntries | raylib/Scene.cs:35-41 | after the shape loop the k-th shape sits under key k + 1 |
| Scenes.LightEntries | raylib/Scene.cs:44-50 | after the light loop the k-th light sits under key k + 1 |
| Scenes.Create | raylib/Scene.cs:29-53 | the scene equals NewScene over the inputs: dictionaries from both loops and the tree built over the registered shapes |
| Scenes.ShapeEntriesStep | raylib/Scene.cs:37-40 | registering the next shape under the next Id appends its entry |
| Scenes.LightEntriesStep | raylib/Scene.cs:47-49 | registering the next light under the next Id appends its entry |
| Scenes.ShapesNumberedInOrder | raylib/Scene.cs:25-41 | Shapes enumerates every input shape once, in order, with Id k + 1, its box set and geometry kept |
| Scenes.LightsNumberedInOrder | raylib/Scene.cs:27-50 | Lights enumerates every input light once, in order, with Id k + 1 and position and colour kept |
| Scenes.TryGetShapeIffRegistered | raylib/Scene.cs:55-58 | the lookup succeeds exactly for Ids 1..n and returns the shape with that Id; Id 0 never resolves |
| Scenes.TreeHoldsRegisteredShapes | raylib/Scene.cs:52 | the tree's leaves hold exactly the registered shapes and its box encloses them all |
| RayTracers.PixelToViewport | raylib/RayTracer.cs:21-29 | pixels of the image map into [-1, 1) across and (-1, 1] upwards |
| RayTracers.PixelToViewportMonotone | raylib/RayTracer.cs:21-29 | x increases to the right, and y decreases downwards because pixel rows grow down |
| RayTracers.GetReflectionRay | raylib/RayTracer.cs:31-35 | the ray starts at p along v + n * 2 * -(n . v) |
| RayTracers.ReflectIsMirror | raylib/RayTracer.cs:31-35 | for a unit normal the reflected direction flips its normal component and keeps its length |
| RayTracers.GetRefractionRay | raylib/RayTracer.cs:37-43 | the ray starts at the hit point |
| RayTracers.Unexcluded | raylib/RayTracer.cs:49 | exactly the shapes whose Id differs from excludeId |
| RayTracers.BasicHitIsNearestUnexcluded | raylib/RayTracer.cs:45-59 | the scan answers no-hit or the hit of a non-excluded shape in front of the origin, no farther than any other such hit |
| RayTracers.TestIntersectionBasic | raylib/RayTracer.cs:45-59 | the loop computes the scan over the non-excluded shapes |
| RayTracers.TestIntersection | raylib/RayTracer.cs:61-69 | the tree query when UseKdTree is set, the scan otherwise |
| RayTracers.TreeQueryIgnoresExclusion | raylib/RayTracer.cs:61-64 | with the tree the excluded Id makes no difference |
| RayTracers.DiffuseOnlyAdds | raylib/RayTracer.cs:71-84 | with non-negative colours the diffuse term never darkens any component |
| RayTracers.RenderDiffuse | raylib/RayTracer.cs:71-84 | the colour is unchanged when diffuse is off or the light is behind the surface; otherwise it gains hitColour * lightColour times the light's cosine |
| RayTracers.RenderHighlights | raylib/RayTracer.cs:148-161 | the highlight term adds the light colour times a gloss weight of 0, so the colour never changes |
| RayTracers.ShadowOnlyScales | raylib/RayTracer.cs:163-194 | the shadow step keeps the colour or scales it by a registered shape's shadow factor |
| RayTracers.RenderShadowAndHighlights | raylib/RayTracer.cs:163-194 | nothing changes when shadows are off or the hit's Id names no shape |
| RayTracers.RenderReflection | raylib/RayTracer.cs:86-107 | nothing changes when reflection is off, the hit's Id names no shape or the material does not reflect |
| RayTracers.ReflectionMissShowsBackground | raylib/RayTracer.cs:86-107 | a mirrored ray that finds nothing in front blends in the background by the reflection coefficient |
| RayTracers.RenderRefraction | raylib/RayTracer.cs:109-146 | nothing changes when refraction is off, the hit's Id names no shape or the material is opaque |
| RayTracers.RefractionMissShowsBackground | raylib/RayTracer.cs:109-146 | a refracted ray that misses the shape blends in the background by the transparency |
| RayTracers.Shade | raylib/RayTracer.cs:197-214 | at or beyond RayTraceDepth, or with reflection, refraction and shadows off, the colour after the lights is ambient plus diffuse terms only |
| RayTracers.RayTraceColor | raylib/RayTracer.cs:197-214 | a scene without lights gives hitColour * ambience; at or beyond RayTraceDepth only ambient and diffuse terms remain |
| RayTracers.DiffuseOffLeavesAmbient | raylib/RayTracer.cs:197-214 | with diffuse also off, nothing but hitColour * ambience remains |
| RayTracers.RayTrace | raylib/RayTracer.cs:197-214 | the loop over the lights computes the ambient-then-per-light colour |
| RayTracers.CalculateColor | raylib/RayTracer.cs:216-220 | the background colour when the primary ray hits nothing, the traced colour otherwise |
| RayTracers.GetPixelColor | raylib/RayTracer.cs:21-29 | the pixel shows the background exactly where the camera ray through its viewport point hits nothing, and the traced colour of the hit otherwise |
| KdTrees.GetVectorPlaneIntersection | raylib/KdTree.cs:237-286 | a point exactly when the direction is not parallel and the plane is not behind the origin, and then the point lies on the plane |
| KdTrees.PlanePointOnRay | raylib/KdTree.cs:237-286 | the reported point lies on the ray at a parameter k >= 0 |
| KdTrees.BoxIntersectionSound | raylib/KdTree.cs:189-235 | on a well-formed box a positive answer means the origin is strictly inside or the ray reaches the closed box |
| KdTrees.FaceHitInClosedBox | raylib/KdTree.cs:198-232 | a face hit on a face of a well-formed box is a point of the ray inside the closed box |
| KdTrees.IsBoundingBoxIntersection | raylib/KdTree.cs:189-235 | an origin strictly inside always counts as crossing; a box with no extent on any axis is never reported as crossed |
| KdTrees.SplitBoundingBox | raylib/KdTree.cs:343-388 | the left box keeps the min corner and the right box the max corner; they meet at coord's coordinate across the plane |
| KdTrees.SplitHalvesCoverParent | raylib/KdTree.cs:343-388 | for a coordinate inside the parent's range the halves enclose back to the parent and cover every point of it |
| KdTrees.SplitReadsAcrossOnly | raylib/KdTree.cs:343-388 | the split reads only the coordinate across the plane |
| KdTrees.OverlapIsNotContainment | raylib/KdTree.cs:331-341 | a shape box reaching beyond the box counts as in it: the test is overlap, not containment |
| KdTrees.IsShapeInBoundingBox | raylib/KdTree.cs:331-341 | a shape box sharing a point with the box counts as in it; for well-formed boxes an overlap means their joint min corner lies in both |
| KdTrees.CountIn | raylib/KdTree.cs:524-537 | the number of overlapping shapes never exceeds the number of shapes |
| KdTrees.CountIsLeftLength | raylib/KdTree.cs:524-537 | the count equals the number of shapes the filter sends left |
| KdTrees.NumShapesInBoundingBox | raylib/KdTree.cs:524-537 | the loop computes the count of overlapping shapes |
| KdTrees.Partition | raylib/KdTree.cs:308-329 | the two lists together are the input multiset; every left shape overlaps the left box and no right shape does |
| KdTrees.PartitionConcat | raylib/KdTree.cs:316-326 | partitioning a concatenation partitions each part in turn, so both lists keep input order |
| KdTrees.FilterOverlappedObjects | raylib/KdTree.cs:308-329 | the loop computes the partition against the left box; the right box is never consulted |
| KdTrees.Search | raylib/KdTree.cs:405-413 | no plane at depth 20 or beyond or with at most one shape |
| KdTrees.SweepIsFirstMinimum | raylib/KdTree.cs:449-469 | one sweep keeps the best so far unless a candidate is strictly cheaper, and then takes the first cheapest candidate, splitting at that candidate's coordinate bbox.min + (j + 1)/5 of the extent |
| KdTrees.SearchIsCheapest | raylib/KdTree.cs:405-522 | the chosen plane costs no more than any of the twelve candidates; no plane exactly when none is cheaper than the leaf; a chosen plane splits at the coordinate of the first cheapest candidate of its axis |
| KdTrees.ChainIsCheapest | raylib/KdTree.cs:438-521 | the three sweeps in a row give the cheapest candidate, earliest on ties, at that candidate's split coordinate |
| KdTrees.FirstMin | raylib/KdTree.cs:449-469 | the index of the first least cost: no cost is lower and every earlier one is strictly higher |
| KdTrees.YZCandidateUsesHeight | raylib/KdTree.cs:505 | with the box (0,0,0)-(1,10,1) the first YZ candidate is at x = 2, outside the box, because it is spaced by the y extent |
| KdTrees.FindPlane | raylib/KdTree.cs:405-522 | the method's three loops compute the plane search |
| KdTrees.SweepAxis | raylib/KdTree.cs:449-469 | one loop computes one sweep over that axis's candidate costs |
| KdTrees.SearchStopsAtMaxDepth | raylib/KdTree.cs:410-413 | the plane search never splits at depth 20 or beyond |
| KdTrees.BuildKeepsShapes | raylib/KdTree.cs:288-306 | the leaves together hold exactly the input shapes, as a multiset |
| KdTrees.BuildHeight | raylib/KdTree.cs:288-306 | the tree is never deeper than 20 - depth |
| KdTrees.Build | raylib/KdTree.cs:288-306 | a leaf holding all the shapes exactly when the search finds no plane, always at depth 20 or beyond; otherwise a node at the chosen axis and coordinate |
| KdTrees.RecursiveBuild | raylib/KdTree.cs:288-306 | the method computes the build over FindPlane's search |
| KdTrees.EncloseAllContains | raylib/KdTree.cs:57-61 | the root box's corners dominate every shape box's corners |
| KdTrees.EncloseAll | raylib/KdTree.cs:57-61 | the default box for no shapes; otherwise no larger than needed: each corner coordinate is the default box's or some shape's |
| KdTrees.Create | raylib/KdTree.cs:53-66 | the tree is the build over the shapes in the box enclosing them all |
| KdTrees.TreeHit | raylib/KdTree.cs:68-78 | no hit unless the ray crosses the root box |
| KdTrees.SplitPlane | raylib/KdTree.cs:149-187 | the two split halves in front/back order; for a plane above the box's min the left half is in front exactly when the origin lies below the plane, so the front half holds an origin inside the box |
| KdTrees.NodeHit | raylib/KdTree.cs:80-147 | the answer is a hit or the canonical no-hit record; a leaf answers one of its shapes' records |
| KdTrees.NodeHitFrontFirst | raylib/KdTree.cs:116-145 | an internal node answers nothing unless the ray crosses the front box, the front child's hit when it has one, and only then the back child's answer when the ray crosses the back box |
| KdTrees.NodeHitIsLeafHit | raylib/KdTree.cs:80-147 | a node's answer is no-hit or a qualifying hit of one of its leaves' shapes |
| KdTrees.TreeNeverNearerThanScan | raylib/KdTree.cs:68-147 | the tree's answer is never nearer than the brute-force scan over the same shapes |
| KdTrees.LoneSphereTreeMissesEveryRay | raylib/KdTree.cs:53-78 | a scene of one sphere of positive radius gets a reversed root box, so the tree reports no hit for every ray |
| KdTrees.LoneCorrectedSphereTreeFindsHit | raylib/KdTree.cs:53-78 | with the corrected sphere box, a ray crossing that box, or starting at the centre, gets the sphere's own hit when it lies in front |
| KdTrees.FindIntersectionNode | raylib/KdTree.cs:80-147 | the method computes the node query: the leaf scan, then front child, then back child |
| KdTrees.FindIntersectionTree | raylib/KdTree.cs:68-78 | the method computes the tree query |
| RayTracersEx.ReflectRay | raylib/RayTracerEx.cs:182-187 | the reflected ray starts where the source ray starts |
| RayTracersEx.ReflectRayIsMirror | raylib/RayTracerEx.cs:182-187 | for a unit normal the reflected direction has the opposite normal component and the same length |
| RayTracersEx.EmptySceneViewsEverything | raylib/RayTracerEx.cs:64-78 | in a scene without shapes every target is viewable from every point |
| RayTracersEx.IsViewable | raylib/RayTracerEx.cs:64-78 | the target is viewable exactly when the tree reports no hit at or before the target's distance |
| RayTracersEx.LightingNonNegative | raylib/RayTracerEx.cs:47-62 | lighting from lights of non-negative colour is non-negative, and black when no light is viewable |
| RayTracersEx.GetLightingColor | raylib/RayTracerEx.cs:47-62 | the loop accumulates the lighting sum over the scene's lights |
| RayTracersEx.Specular | raylib/RayTracerEx.cs:161-180 | the specular sum is black whatever the lights, because the black accumulator is only ever scaled by p |
| RayTracersEx.GetSpecularColor | raylib/RayTracerEx.cs:161-180 | the loop computes the specular sum over the scene's lights |
| RayTracersEx.Reflected | raylib/RayTracerEx.cs:128-143 | below the intensity threshold or at depth 10 the reflected colour is the background |
| RayTracersEx.SpecularColor | raylib/RayTracerEx.cs:116-126 | black when the scene has lights, the background colour otherwise |
| RayTracersEx.ColorOf | raylib/RayTracerEx.cs:80-82 | a miss, or a hit on an Id the scene does not know, shows the background colour |
| RayTracersEx.Compose | raylib/RayTracerEx.cs:99-151 | with all four coefficients at most double.Epsilon the colour is black, or the background scaled by the fog density when the scene has fog |
| RayTracersEx.HitIsComposed | raylib/RayTracerEx.cs:80-154 | a hit on a known shape is shaded from that shape's material, with the reflected term only when KReflection exceeds double.Epsilon |
| RayTracersEx.NestingBounded | raylib/RayTracerEx.cs:132-138 | a call at depth d makes at most 10 - d nested traces, and none at depth 10 or at intensity not above 10 |
| RayTracersEx.TraceRecursive | raylib/RayTracerEx.cs:42-45 | the colour for the tree query's answer along the ray |
| RayTracersEx.GetPixelColor | raylib/RayTracerEx.cs:31-40 | the pixel shows the background when the tree finds no known shape along the camera ray through its viewport point |
| RayTracersEx.CalculateColor | raylib/RayTracerEx.cs:80-159 | the method's step-by-step accumulation equals the composed colour of the hit, or the background |
| RayTracersEx.ShadeSurface | raylib/RayTracerEx.cs:99-126 | ambient, diffuse and specular terms applied in order from black |
| RayTracersEx.ReflectedTerm | raylib/RayTracerEx.cs:128-143 | the reflected colour, traced one level deeper at intensity rayIntensity * KReflection * (1 - fog) |
| RayTracersEx.FinishColor | raylib/RayTracerEx.cs:145-151 | the reflected colour blended by KReflection, then the fog blend |
| Rendering.PixelArray.constructor | raylib/PixelArray.cs:10-15 | a fresh Width x Height grid, every pixel black |
| Rendering.PixelArray.SetPixelColor | raylib/PixelArray.cs:26-30 | pixel (x, y) becomes the colour and no other pixel changes |
| Rendering.Rows | raylib/Renderer.cs:84-87 | the queued rows are 0 .. Height - 1 in order, none for a height not above 0 |
| Rendering.AllRows | raylib/Renderer.cs:126-130 | the set holds exactly the rows 0 .. Height - 1 |
| Rendering.FillRowQueue | raylib/Renderer.cs:84-87 | the loop enqueues exactly the rows 0 .. Height - 1 in order |
| Rendering.RowQueueAscendingOnce | raylib/Renderer.cs:84-87 | the queue is strictly ascending and a schedule: every row once |
| Rendering.RowOf | raylib/Renderer.cs:110-114 | a row of Width pixels, pixel x being the tracer's colour for (x, y) |
| Rendering.RenderRow | raylib/Renderer.cs:110-114 | the loop builds that row |
| Rendering.RenderFunc | raylib/Renderer.cs:101-119 | one result per queued row, the k-th result being the row that finishes k-th, with that row's pixels |
| Rendering.LastFor | raylib/Renderer.cs:136-144 | the index of the last result for row y, or none when no result is for y |
| Rendering.DrainState | raylib/Renderer.cs:126-153 | one reported percentage per drained result |
| Rendering.WriteRow | raylib/Renderer.cs:139-142 | row y gets the result's pixels and every other row is unchanged |
| Rendering.AllIncomplete | raylib/Renderer.cs:126-130 | the loop builds the set of all rows |
| Rendering.DrainResult | raylib/Renderer.cs:139-153 | one drained result writes its row, removes it from the incomplete rows and reports the new percentage |
| Rendering.ResultFunc | raylib/Renderer.cs:121-156 | every pixel shows the last result for its row, or keeps its colour; the percentages are the drain's reports |
| Rendering.DrainedStep | raylib/Renderer.cs:136-142 | draining one more result changes only that result's row |
| Rendering.LastForStep | raylib/Renderer.cs:136-144 | one more result is the last one for its own row and changes no other row's last |
| Rendering.ReportedPercents | raylib/Renderer.cs:144-148 | the k-th report is the share of complete rows after result k, and later results never change it |
| Rendering.IncompleteShrinks | raylib/Renderer.cs:144 | rows completed stay complete |
| Rendering.PercentNonDecreasing | raylib/Renderer.cs:144-148 | the reported percentages never decrease |
| Rendering.StillIncomplete | raylib/Renderer.cs:126-144 | a row with no result yet is still incomplete |
| Rendering.NoLongerIncomplete | raylib/Renderer.cs:144 | a row with a drained result is no longer incomplete |
| Rendering.ScheduleIncomplete | raylib/Renderer.cs:126-144 | when each row finishes once, k results leave Height - k rows incomplete |
| Rendering.ScheduledPercents | raylib/Renderer.cs:146-153 | the k-th report is (k + 1) / Height * 100: only the last is 100 |
| Rendering.ScheduledProgress | raylib/Renderer.cs:146-153 | one report per row |
| Rendering.ScheduledProgressReported | raylib/Renderer.cs:121-156 | for any finishing order the reports are (k + 1) / Height * 100, ending at 100 |
| Rendering.ScheduledPercent | raylib/Renderer.cs:146-148 | report k of a schedule is (k + 1) / Height * 100 |
| Rendering.DrainedSchedule | raylib/Renderer.cs:75-156 | for any finishing order every pixel of the image ends up the tracer's colour for it |
| Renderers.TracerPixel | raylib/Renderer.cs:38-43 | each tracer kind answers with its own GetPixelColor |
| Renderers.SingleThreadedProgress | raylib/Renderer.cs:69-71 | one report per row |
| Renderers.RowProgress | raylib/Renderer.cs:69-71 | 0 after the first row and in [0, 100) for every row of the image |
| Renderers.SingleThreadedProgressBelow100 | raylib/Renderer.cs:61-72 | the reports start at 0, strictly increase and end at (Height - 1) * 100 / Height, never 100 |
| Renderers.Renderer.constructor | raylib/Renderer.cs:30-34 | the renderer keeps its settings and has raised no progress |
| Renderers.Renderer.CreateRayTracer | raylib/Renderer.cs:38-43 | a RayTracerEx exactly when built with useEx, over the renderer's settings either way |
| Renderers.Renderer.Render | raylib/Renderer.cs:45-55 | every pixel is the tracer's colour; progress is 0, then the single-threaded reports when NumThreads <= 1, then the multi-threaded ones |
| Renderers.Renderer.RenderSingleThreaded | raylib/Renderer.cs:57-73 | every pixel is the tracer's colour; one report per row |
| Renderers.Renderer.RenderSingleRow | raylib/Renderer.cs:63-67 | row y gets the tracer's colours and no other row changes |
| Renderers.Renderer.RenderMultiThreaded | raylib/Renderer.cs:75-99 | for any finishing order every pixel is the tracer's colour and the reports end at 100 |
| PerLineRenderers.Render | raylib/PerLineThreadedRenderer.cs:24-97 | a fresh Width x Height image of the tracer's colours for any finishing order; the printed percentages are (k + 1) / Height * 100 |
| NffParsers.Fan | raylib/NffParser.cs:144-157 | no triangle for fewer than three vertices, otherwise one triangle per vertex after the second |
| NffParsers.FanTriangles | raylib/NffParser.cs:144-157 | the triangle for vertex i is (v0, v[i - 1], v[i]) with the current material on both faces |
| NffParsers.AddFan | raylib/NffParser.cs:144-157 | the loop appends exactly the fan over the polygon's vertices to the shapes |
| NffParsers.Run | raylib/NffParser.cs:53-202 | a failure names a line of the file, at or after the starting line |
| NffParsers.Step | raylib/NffParser.cs:57-200 | a line never takes a shape or light away; only instruction, polygon and from/at/up lines can fail |
| NffParsers.InstructionStep | raylib/NffParser.cs:59-133 | never removes a shape or light; only "v" and "p" change the mode and only "b" the background; unknown instructions change nothing |
| NffParsers.PolygonStep | raylib/NffParser.cs:134-162 | never removes a shape and never touches the lights; it fails only on an unreadable vertex while the counter is positive; a zero counter returns to instruction mode |
| NffParsers.RunOnlyAdds | raylib/NffParser.cs:53-202 | a successful run keeps every shape and light it started with, in order |
| NffParsers.Parse | raylib/NffParser.cs:34-207 | a failure names a line of the file |
| NffParsers.ParseFile | raylib/NffParser.cs:34-207 | the method's line loop computes the parse |
| NffParsers.ParseLine | raylib/NffParser.cs:55-201 | one line moves the locals by the step for the current mode |
| NffParsers.ParseInstruction | raylib/NffParser.cs:59-133 | one instruction line moves the locals by the instruction step |
| NffParsers.ParsePolygonLine | raylib/NffParser.cs:134-162 | one polygon-mode line moves the locals by the polygon step |
| NffParsers.ParseResult | raylib/NffParser.cs:204-206 | a successful parse has the given resolution, depth and threads, every effect on, field of view 50, and the scene of the shapes and lights read |
| NffParsers.EmptyFile | raylib/NffParser.cs:37-49 | an empty file gives a black background, no shapes or lights and the camera vectors at the origin |
| NffParsers.OtherInstructions | raylib/NffParser.cs:63-74 | "b" sets the background with ambience 0, "v" starts the viewpoint, "#", "c", "pp" and unknown instructions change nothing |
| NffParsers.LightLine | raylib/NffParser.cs:75-84 | "l" adds a light at split[1..3], coloured split[4..6] only on a seven-token line and white otherwise; fails exactly when a needed number is missing |
| NffParsers.MaterialLine | raylib/NffParser.cs:85-103 | "f" replaces the current material: gloss split[6], reflection split[5], refraction split[8], transparency split[7], colour split[1..3] |
| NffParsers.SphereLine | raylib/NffParser.cs:108-116 | "s" appends a sphere at split[1..3] of radius split[4] with the current material |
| NffParsers.PolygonLine | raylib/NffParser.cs:117-123 | "p n" sets the counter, clears the vertices and enters polygon mode; fails exactly when split[1] is not an integer |
| NffParsers.VertexLine | raylib/NffParser.cs:136-160 | a vertex line adds the vertex; the last one also adds the fan and returns to instruction mode |
| NffParsers.PolygonVertices | raylib/NffParser.cs:134-162 | n vertex lines collect the n vertices and then add their fan |
| NffParsers.PolygonTriangulated | raylib/NffParser.cs:117-162 | a "p n" line followed by n vertex lines appends exactly the fan over those vertices |
| NffParsers.EmptyPolygonSwallowsLine | raylib/NffParser.cs:136-160 | after "p 0" the next line is swallowed whatever it holds and no shape is added |
| NffParsers.NegativeCountSwallowsRest | raylib/NffParser.cs:136-160 | after a negative count every remaining line is swallowed and the parse ends with nothing more added |
| NffParsers.ViewpointLines | raylib/NffParser.cs:163-200 | from, at and up lines fail exactly when split[1..3] do not parse; angle, hither and resolution lines are never read |
| NffParsers.ViewpointSequence | raylib/NffParser.cs:70-200 | a "v" line and the six after it set from, at and up and change nothing else |

## Left out

- Floating point. Arithmetic is exact over the reals, so rounding, NaN and infinities are not modelled. `double.MaxValue`, `double.MinValue` and `double.Epsilon` are exact constants.
- Square root, `Math.Pow`, cosine and sine are parameters. raylib/Camera.cs is not part of this model: a camera is its position plus its GetRay function, and the parser's camera record holds only the constructor's arguments.
- Divisions the source performs before its reject tests become guards in the model:
  - a triangle with a zero basis denominator has no basis and misses;
  - a ray parallel to a split plane gives no point;
  - a box whose three face areas sum to zero gets no split plane.
- IsWithinX, IsWithinY and IsWithinZ are not defined by any file of the model. They are read as KdTree's strict `Within`.
- The BoundingBox a shape has before the scene registers it (null in the source) is not a value of the model. An unregistered shape is its geometry, and Scenes.Create builds the registered shape as a new value.
- Scenes.Create: the source writes Id and BoundingBox into the shape objects in place, and the model returns new values. Aliasing of shape objects is therefore not modelled.
- ChessboardMaterial calls a seven-argument base constructor that BaseMaterial does not have. The model maps the coefficients by name.
- Spheres and triangles get GetMinPoint/GetMaxPoint from their per-axis bounds on the unit axes.
- RayTracerEx uses members that no file of the model defines, and they are fields of `Extras`:
  - ColorVector.Mix;
  - KAmbient, KDiffuse, KSpecular and KReflection;
  - Scene.HasFogDensity, Scene.GetFogDensity and Scene.HasLights;
  - PosVector.CosVectors.
- RayTracers.GetRefractionRay: states only that the refracted ray starts at the hit point. Its direction goes through the square-root parameter and Normalize.
- Threads: ThreadPool, Task.Run, Task.WaitAll, ConcurrentQueue and AutoResetEvent are not modelled. The workers' finishing order is the parameter `order`, a permutation of the queued rows. The consumer drains the results in that order.
- Renderers.Renderer.Render, Renderers.Renderer.RenderMultiThreaded and PerLineRenderers.Render require at least one worker thread. With none, the source's consumer waits forever.
- Rendering.Drained: a result row shorter than the image is left out. ResultFunc requires full-width rows, and the source would index past the end of such a row.
- Console output and LogTimer are left out. PerLineThreadedRenderer's percentages are only printed, so the model returns them as `printed`.
- PixelArray stores colours as they are. Clamping, the conversion to bytes and the ImageSharp image are not modelled, and neither are Dispose and SaveAsFile.
- NffParser:
  - File.ReadAllLines and String.Split are left out, and the input is the lines' token lists;
  - double.Parse and int.Parse are parameters that return None where the source throws;
  - FormatException and IndexOutOfRangeException both end the parse as a Failure carrying the line index.
- Dictionaries.Keys, Dictionaries.Values, Scenes.ShapesOf and Scenes.LightsOf enumerate the scene's dictionaries in insertion order. .NET documents no enumeration order for `Dictionary<TKey, TValue>`; a dictionary that is only ever added to enumerates in insertion order in practice, and the model assumes that order. It decides which of two equally near hits the brute-force scan keeps, and the order of the shapes the KD-tree is built from.
- SceneFactory.cs, the WPF, console and web front ends, and the commented-out code in RayTracerEx.cs are not part of this model.

## Findings

| source | as written | input that shows it | evidently intended | confidence | as-written member | corrected member |
|---|---|---|---|---|---|---|
| raylib/SphereShape.cs:47 | the sphere's bound stores the centre's projection plus the radius as Min and minus the radius as Max, so the box is reversed on every axis | a scene holding only a sphere of radius 1 at the origin: its box runs from (1, 1, 1) down to (-1, -1, -1), and the KD-tree query misses every ray, even one starting at the centre | Min is the projection minus the radius and Max the projection plus it | not executed | KdTrees.LoneSphereTreeMissesEveryRay | KdTrees.LoneCorrectedSphereTreeFindsHit |

Spheres.CorrectedBoundingBox is the bound with its ends the right way round. The scene and
the tracers keep the source's bound (Shapes.BoxOf uses Spheres.BoundingBox), so that the
KD-tree path is modelled as the source behaves. The corrected lemma shows that a lone
sphere with the corrected box is found by the tree, where the as-written lemma shows it
never is.
