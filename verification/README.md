# A verified model of the core of a CPU ray tracer

This project is a Dafny model of the core of a small C++ ray tracer in the style of
"Ray Tracing in One Weekend". The ray tracer renders an image by splitting it into
tiles, one per worker thread. Each worker fires rays into a scene of rectangles,
triangles, moving spheres and transformed objects, scatters them off materials and
stores the pixel colours in a shared frame buffer.

Everything is modelled over Dafny's `real`, not IEEE doubles. `sqrt`, `sin`, `cos`,
`reflect` and `refract` are function parameters. Each lemma assumes only what it
needs of them, for example `s * s == x && s >= 0` for a square root at one argument,
or `sin^2 + cos^2 == 1` at one angle. Random draws are parameters too, assumed to
lie in `[0, 1)` where that matters.

The modules follow the source files:

- `Tiles` (tiles.dfy) covers the tile partition of the multi-threaded renderer, the
  frame-buffer index each worker writes, the single-threaded scan and the join loop
  (renderer.h and the same code in main.cpp).
- `MainProgram` (main_program.dfy) covers the fixed 400 x 225 image, the 4 x 4 split
  into a 16-slot thread array, and the PPM header together with a reader for it
  (main.cpp).
- `Integrator` (integrator.dfy) covers the two `ray_color` integrators: the
  renderer's, with emission and a background colour, and main.cpp's, with a sky
  gradient.
- `Aabb` (aabb.dfy) covers the slab test and `surrounding_box`.
- `AaRect` (aa_rect.dfy) covers the three axis-aligned rectangles as one rectangle
  type over a plane.
- `Hittable` (hittable.dfy) covers `set_face_normal`, `translate`, `rotate_y` and
  `flip_face`.
- `Triangle` (triangle.dfy) covers the Cramer's-rule hit, the padded box,
  `pdf_value` and `random`.
- `MovingSphere` (moving_sphere.dfy) covers the interpolated centre and the root
  selection of the hit.
- `Material` (material.dfy) covers the base material, `lambertian`, `metal`,
  `dielectric`, `diffuse_light` and `isotropic`.
- `Pdf` (pdf.dfy) covers the cosine, hittable and mixture densities.
- `Onb` (onb.dfy) covers `build_from_w` and the two `local` overloads.
- `Mesh` (mesh.dfy) covers the OBJ reader over pre-split lines, the smooth vertex
  normals and the triangle list.
- `RtWeekend` (rtweekend.dfy) covers `clamp`, `random_double(min, max)` and
  `degrees_to_radians`.
- `Texture` (texture.dfy) covers the solid and checker textures.
- `CosineDirection` (cosine_direction.dfy) covers `random_cosine_direction` of
  test.cpp.
- `TransformFindings` (findings.dfy) and `DielectricFinding`
  (dielectric_finding.dfy) hold the concrete inputs behind the findings below.
- `Vec` (vec.dfy) supplies the vector arithmetic and `Wrappers` (wrappers.dfy) an
  option type; neither has a counterpart among the modelled files.

A `hit` function fills an in/out record and returns a flag. The model passes the
prior record in and returns an `Outcome` with the flag and the record as left. This
is how "a miss leaves the record untouched" can be stated.

Schlick's formula as coded gives reflectance `(1 - cos)^5` at index 1, which
reaches 1 at grazing incidence (`Material.UnitIndexReflects`).

## Model

| member | source | states |
|---|---|---|
| Tiles.Stride | renderer.h:103-104 | the tile extent is the least `s` with `s * batch >= size`, so it is at least 1 for a non-empty side and 0 for an empty one |
| Tiles.StripsAtMost | renderer.h:107-109 | a loop stepping by `s` runs at most `q` times when `q` steps of `s` reach the end |
| Tiles.RowTiles | renderer.h:109-115 | the inner loop makes one tile per column strip, each clamped to the image width and to the band's rows |
| Tiles.GridTiles | renderer.h:107-118 | every tile the nested loops create is a non-empty rectangle inside the image |
| Tiles.RowTilesOrdered | renderer.h:109-112 | within a band the tiles run left to right and do not overlap |
| Tiles.GridTilesOrdered | renderer.h:107-114 | every tile comes before every later one: lower band first, then left to right |
| Tiles.GridTilesCount | renderer.h:107-118 | the loops create (row strips) x (column strips) tiles |
| Tiles.PartitionTilesPlaced | renderer.h:103-114 | each tile spans `[i, min(i + stride_x, w)) x [j, min(j + stride_y, h))` inside the image, and the strides are positive for non-empty sides |
| Tiles.GridTilesExtents | renderer.h:111-114 | each tile's far edges are its near edges plus the stride, clamped to the image |
| Tiles.RowTilesCover | renderer.h:109-112 | a band covers every column from its first tile to the right edge |
| Tiles.GridTilesCover | renderer.h:107-114 | the bands cover every pixel of the image at or above their first row |
| Tiles.BeforeDisjoint | renderer.h:107-114 | tiles in scheduling order share no pixel |
| Tiles.PartitionExactlyOnce | renderer.h:107-118 | every pixel of the image lies in exactly one tile |
| Tiles.TileCount | renderer.h:103-118 | there are `ceil(w / stride_x) * ceil(h / stride_y)` tiles, never more than `batch_x * batch_y` |
| Tiles.StripsWithin | renderer.h:103-109 | cutting a side at its stride gives at most `batch` strips |
| Tiles.PixelIndex | renderer.h:79 | the frame-buffer index of a pixel of the image lies in `[0, w * h)` |
| Tiles.PixelAt | renderer.h:79 | every frame-buffer index belongs to a pixel of the image, which `PixelIndex` maps back to it |
| Tiles.PixelIndexInjective | renderer.h:79 | distinct pixels get distinct frame-buffer indices |
| Tiles.RowWrites | renderer.h:79-94 | a worker row stores each pixel of the row, left to right, at consecutive indices starting from the row's first |
| Tiles.TileWritesLength | renderer.h:76-96 | a worker makes exactly one store per pixel of its tile |
| Tiles.TileWritesSound | renderer.h:76-94 | every store a worker makes is of a pixel of its tile, at that pixel's own index |
| Tiles.TileWritesComplete | renderer.h:76-94 | every pixel of the tile is stored by its worker |
| Tiles.RenderRow | renderer.h:79-96 | the `m++` counter loop makes exactly the stores of one worker row |
| Tiles.RenderTile | renderer.h:74-101 | the worker stores each pixel of its tile exactly at that pixel's index and touches no other pixel |
| Tiles.SingleThreadScan | renderer.h:152-168 | the single-threaded scan stores, at counter `m`, the pixel whose index is `m`, top row first |
| Tiles.WorkerAgreesWithScan | renderer.h:152-166 | a worker, whose index formula is `(h - 1 - j) * w + i`, stores each pixel at the same index as the single-threaded scan does |
| Tiles.FrameBufferWrittenOnce | renderer.h:71-118 | every frame-buffer slot is written by exactly one tile, for exactly one pixel |
| Tiles.JoinSlotsAsWritten | renderer.h:120-123 | the join loop visits `batch_x * batch_y` slots whatever the number of tiles |
| Tiles.JoinOverrunsFiveColumnsFourWays | renderer.h:103-123 | a 5 x 1 image split 4 ways has 3 tiles, yet slot 3 is joined |
| Tiles.JoinSlots | renderer.h:116-123 | the corrected join visits each created worker exactly once and nothing else |
| Tiles.JoinAsWrittenValidIff | renderer.h:103-123 | the join loop as written is safe if and only if there are exactly `batch_x * batch_y` tiles |
| MainProgram.ImageHeight | main.cpp:110-112 | `static_cast<int>(400 / (16.0 / 9.0))` is 225 |
| MainProgram.SixteenTiles | main.cpp:183-207 | the 400 x 225 image split 4 x 4 has strides 100 and 57 and exactly 16 tiles, so joining all 16 slots is safe |
| MainProgram.ThreadIndexInRange | main.cpp:185-199 | a 4 x 4 split never makes more than 16 tiles, so `render_threads[index]` stays in bounds for every image size |
| MainProgram.Decimal | main.cpp:147-148 | the decimal text of a number is a non-empty run of digits |
| MainProgram.DecimalRoundTrip | main.cpp:147-148 | reading back the decimal text of a number gives the number |
| MainProgram.HeaderRoundTrip | main.cpp:147-148 | the header reader recovers the width and height from every header the program writes |
| MainProgram.HeaderInjective | main.cpp:147-148 | different image sizes give different headers |
| MainProgram.MainHeader | main.cpp:110-148 | the program writes the header `P3\n400 225\n255\n` |
| Integrator.RayColor | renderer.h:26-44 | black when no depth is left; the background on a miss; only the emission when the material does not scatter |
| Integrator.QueriesAtMostDepth | renderer.h:26-44 | one call queries the world at least once and at most `depth` times: every recursion lowers the depth by one |
| Integrator.RayColorBounded | renderer.h:26-44 | with attenuation in `[0, 1]`, emission at most `e` and background at most `b`, the colour is at most `b + depth * e` per channel |
| Integrator.Trace | renderer.h:26-44 | an iterative loop that carries the product of attenuations computes the same colour as the recursion |
| Integrator.DarkSceneIsBlack | renderer.h:26-44 | a scene that emits nothing, under a black background, renders black |
| Integrator.SkyRayColor | main.cpp:24-48 | black when no depth is left; the sky gradient on a miss; black on a hit that does not scatter |
| Integrator.UnitY | main.cpp:45-46 | the y component of a unit vector lies in `[-1, 1]` |
| Integrator.SkyBlend | main.cpp:45-47 | the sky parameter lies in `[0, 1]`, so the miss colour lies between white and (0.5, 0.7, 1.0), reaching each at the poles |
| Integrator.GradientBlend | main.cpp:47 | the gradient is a convex blend: white at 0, (0.5, 0.7, 1.0) at 1 and between them otherwise |
| Integrator.SkyRayColorInUnitCube | main.cpp:24-48 | with attenuations in `[0, 1]` every colour the integrator returns lies in the unit cube |
| Integrator.TraceSky | main.cpp:24-48 | an iterative loop computes the same colour as the recursion |
| Aabb.CrossingsBetween | aabb.h:38-44 | for a non-zero direction, `t` lies strictly between the slab's two crossings if and only if the point at `t` lies strictly inside the slab |
| Aabb.SlabShrinks | aabb.h:45-49 | one slab step only narrows the interval, and a surviving interval is non-empty |
| Aabb.SlabSound | aabb.h:38-49 | every `t` in the interval after a slab step puts the ray inside that slab |
| Aabb.SlabComplete | aabb.h:38-49 | a `t` that puts the ray strictly inside the slab survives the slab step |
| Aabb.SlabMonotone | aabb.h:38-49 | a bigger slab and a wider interval keep a surviving interval and enclose it |
| Aabb.HitSound | aabb.h:34-53 | if `hit` says yes, some `t` in `(t_min, t_max)` puts the ray inside the box |
| Aabb.HitComplete | aabb.h:34-53 | if some `t` in `(t_min, t_max)` puts the ray strictly inside the box, `hit` says yes |
| Aabb.HitMonotone | aabb.h:34-53 | a hit on a box and an interval remains a hit on every enclosing box and interval |
| Aabb.Hit | aabb.h:34-53 | `hit` says no whenever `t_max <= t_min`, whatever the box and the ray |
| Aabb.FlatBoxMisses | aabb.h:38-49 | a box of zero thickness along an axis the ray is not parallel to is never hit: the entry and exit parameters coincide, so the window closes |
| Aabb.SurroundingBox | aabb.h:63-74 | the surrounding box encloses both boxes |
| Aabb.SurroundingBoxLeast | aabb.h:63-74 | a box encloses the surrounding box if and only if it encloses both boxes |
| Aabb.SurroundingBoxContains | aabb.h:63-74 | a point in either box is in the surrounding box |
| Aabb.SurroundingBoxCommutative | aabb.h:63-74 | the order of the two boxes does not matter |
| Aabb.SurroundingBoxAssociative | aabb.h:63-74 | merging three boxes does not depend on the grouping |
| Aabb.SurroundingBoxIdempotent | aabb.h:63-74 | merging a box with itself gives the box |
| AaRect.RectHit | aa_rect.h:82-140 | on a miss the record is returned untouched |
| AaRect.CrossingOnPlane | aa_rect.h:82-140 | when the ray is not parallel to the plane, the point at `t` lies on the plane if and only if `t` is the computed crossing |
| AaRect.RectHitSound | aa_rect.h:84-99 | on a hit `t` lies in `[t_min, t_max]`, `p` is the ray at `t` and lies on the rectangle, the material is the rectangle's and `u`, `v` lie in `[0, 1]` for proper ranges |
| AaRect.RectHitNormal | aa_rect.h:96-97 | on a hit the normal is plus or minus the axis, facing against the ray, and the front face is hit if and only if the ray runs against the axis |
| AaRect.RectHitComplete | aa_rect.h:84-99 | a non-parallel ray whose point at some `t` in range lies on the rectangle hits it at that `t` |
| AaRect.RectHitParallel | aa_rect.h:84-91 | a ray parallel to the plane misses |
| AaRect.RectBox | aa_rect.h:26-74 | the box spans the rectangle's two ranges and the plane constant padded by 0.0001 either side |
| AaRect.RectBoxThick | aa_rect.h:28-30 | the box is 0.0002 thick across the plane |
| AaRect.RectBoxContains | aa_rect.h:26-74 | a point is in the box if and only if it lies in both ranges and within 0.0001 of the plane |
| AaRect.RectHitInBox | aa_rect.h:26-99 | every hit point lies inside the rectangle's own box, the consistency box culling relies on |
| Hittable.SetFaceNormal | hittable.h:31-35 | the front face is hit if and only if the ray runs against the outward normal; the normal is the outward normal on the front and its negation on the back, so it never faces along the ray; nothing else in the record changes |
| Hittable.SetFaceNormalTwice | hittable.h:31-35 | re-orienting an already oriented normal against the same ray keeps the normal and reports the front face, unless the ray grazes the surface |
| Hittable.MovedRay | hittable.h:88-89 | the moved ray keeps the direction and time, and its origin plus the offset is the original origin |
| Hittable.TranslateHitAsWritten | hittable.h:86-100 | as written: hit exactly when the child is hit by the moved ray; on a miss the child's record stands; on a hit the point is moved by the offset, `t`, `u`, `v` and material are the child's, and the face flag is recomputed from the world ray and the child's already oriented normal |
| Hittable.TranslateHit | hittable.h:86-100 | corrected (see Findings): hit exactly when the child is hit by the moved ray; on a miss the child's record stands; on a hit the point is the child's point moved back by the offset, and nothing else differs from the child's record |
| Hittable.TranslateHitOnRay | hittable.h:86-100 | when the child's point lies on the moved ray, the translated point lies on the original ray at the same `t`, both for the code as written and for the corrected version |
| Hittable.TranslateAsWrittenForcesFront | hittable.h:96-97 | as written, every hit whose normal faces against the ray is reported as a front-face hit, whatever the child said |
| Hittable.TranslateBox | hittable.h:102-112 | a translated object has a box exactly when the child has one |
| Hittable.TranslateBoxContains | hittable.h:102-112 | a point is in the translated box if and only if the point moved back by the offset is in the child's box |
| Hittable.RotationInverse | hittable.h:161-179 | for `sin^2 + cos^2 = 1` the object-space and world-space rotations undo each other, leaving `y` alone |
| Hittable.WorldKeepsDot | hittable.h:175-179 | the world-space rotation keeps dot products |
| Hittable.ObjectKeepsDot | hittable.h:161-165 | the object-space rotation keeps dot products |
| Hittable.ToWorldAt | hittable.h:175-176 | rotating the point at `t` of a ray gives the point at `t` of the rotated origin and direction |
| Hittable.RotatedRayBack | hittable.h:158-167 | rotating the object-space ray back to the world gives the original origin and direction |
| Hittable.RotateYHitAsWritten | hittable.h:156-185 | as written: hit exactly when the child is hit by the rotated ray, at the child's `t`, with the point carried to the world frame; the normal is the child's normal carried to the world frame or its negation, oriented against the object-space ray, with the face flag set to match; every other field is the child's |
| Hittable.RotateYHit | hittable.h:156-185 | corrected (see Findings): hit exactly when the child is hit by the rotated ray; on a miss the child's record stands; on a hit the point and the normal are the child's carried to the world frame, and every other field, the face flag and `t` included, is the child's |
| Hittable.RotateYHitOriented | hittable.h:156-185 | corrected (see Findings): the world ray meets the world normal at the same angle at which the rotated ray meets the child's normal, and the world point lies on the world ray at the child's `t` |
| Hittable.RotateYAsWrittenFlips | hittable.h:178-182 | as written, a world normal that faces along the object-space ray is negated, whatever the child reported |
| Hittable.Envelope | hittable.h:126-153 | the running minimum and maximum form a box that holds every point they visited |
| Hittable.MakeRotateY | hittable.h:117-124 | the rotated object has a box exactly when the child has one |
| Hittable.CornersWithinX | hittable.h:129-153 | a box holding all eight rotated corners bounds the world `x` of each of them |
| Hittable.CornersWithinZ | hittable.h:129-153 | a box holding all eight rotated corners bounds the world `z` of each of them |
| Hittable.RotatedXWithin | hittable.h:124-153 | the world `x` of every rotated point of the child's box lies within the precomputed box |
| Hittable.RotatedZWithin | hittable.h:124-153 | the world `z` of every rotated point of the child's box lies within the precomputed box |
| Hittable.RotatedYWithin | hittable.h:124-153 | the `y` of every point of the child's box lies within the precomputed box |
| Hittable.RotateYBoundsContain | hittable.h:117-153 | the precomputed box contains the world-space rotation of every point of the child's box |
| Hittable.CornerIn | hittable.h:129-142 | each of the eight corners, rotated to the world, is among the points the constructor visits |
| Hittable.RotateYBox | hittable.h:187-191 | the rotated object reports a box exactly when the constructor found one, whatever time interval is asked |
| Hittable.Flip | hittable.h:211-220 | a flipped hit has the child's record with only the face flag negated; a miss is the child's miss |
| Hittable.FlipFaceInvolution | hittable.h:211-220 | flipping twice gives back the child's outcome |
| Hittable.FlipFaceHit | hittable.h:211-220 | a flipped object is hit exactly when the child is; a hit is the child's record with only the face flag negated, a miss is the child's outcome |
| Hittable.FlipFaceBox | hittable.h:222-225 | the box is the child's box, unchanged |
| TransformFindings.BackOfSquare | aa_rect.h:82-102 | a ray running along `+z` through the square hits its back face, with normal `(0, 0, -1)` |
| TransformFindings.SquareBackHitAlongZ | aa_rect.h:82-102 | the square at `z = 0` is hit from behind by the ray from `(0, 0, -1)` along `+z`, with a normal facing against the ray |
| TransformFindings.TranslateReportsBackFaceAsFront | hittable.h:86-100 | as written, translating that square by zero turns its back-face hit into a front-face hit |
| TransformFindings.TranslateKeepsBackFace | hittable.h:86-100 | the corrected translation keeps the back-face hit |
| TransformFindings.RotatedAlongX | hittable.h:158-167 | with `sin = 0.8` and `cos = -0.6` the ray along `+x` becomes the object-space ray along `(-0.6, 0, 0.8)` |
| TransformFindings.BackNormalInWorld | hittable.h:175-179 | the object-space normal `(0, 0, -1)` becomes `(-0.8, 0, 0.6)` in the world, facing along the object-space ray |
| TransformFindings.RotateYAsWrittenOnX | hittable.h:156-185 | as written, a child hit with normal `(0, 0, -1)` yields the world normal `(0.8, 0, -0.6)`, which faces along the world ray |
| TransformFindings.RotateYCorrectedOnX | hittable.h:156-185 | the corrected rotation yields `(-0.8, 0, 0.6)`, which faces against the world ray |
| TransformFindings.RotateYNormalFacesAway | hittable.h:156-185 | for a square child placed on that ray, the normal as written faces along the ray and the corrected one faces against it |
| MovingSphere.Center | moving_sphere.h:26-30 | the centre is `center0` at `time0` and `center1` at `time1` |
| MovingSphere.CenterAffine | moving_sphere.h:26-30 | the centre moves along the segment in proportion to elapsed time |
| MovingSphere.SphereHit | moving_sphere.h:32-60 | on a miss the record is returned untouched |
| MovingSphere.NegativeDiscriminantMisses | moving_sphere.h:39-41 | a negative discriminant means a miss with the record untouched |
| MovingSphere.SphereHitSound | moving_sphere.h:44-57 | a reported `t` lies in `[t_min, t_max]`, the point is the ray at `t`, the material is the sphere's and the normal faces against the ray, with the front face exactly when the ray runs against the outward normal |
| MovingSphere.SphereRootChoice | moving_sphere.h:44-53 | the smaller root is taken whenever it is in range, and the larger one only otherwise |
| MovingSphere.DistanceIsQuadratic | moving_sphere.h:34-39 | the squared distance from the centre, less `radius^2`, is the quadratic with coefficients `a`, `half_b` and `c` |
| MovingSphere.RootsAreZeros | moving_sphere.h:42-48 | with an exact square root both computed roots are zeros of the quadratic |
| MovingSphere.ZerosAreRoots | moving_sphere.h:42-48 | every zero of the quadratic is one of the two computed roots |
| MovingSphere.NearBelowFar | moving_sphere.h:45-48 | the root tried first is never the larger one |
| MovingSphere.OnSphereIffZero | moving_sphere.h:34-39 | the point at `t` lies on the sphere at the ray's time if and only if `t` is a zero of the quadratic |
| MovingSphere.SphereHitOnSurface | moving_sphere.h:34-54 | with an exact square root the hit point lies on the sphere at the ray's time |
| MovingSphere.SphereHitNearest | moving_sphere.h:32-60 | if any `t` in range puts the ray on the sphere, the sphere is hit at that `t` or earlier |
| MovingSphere.FirstRootInRange | moving_sphere.h:44-53 | when one of the two roots is in range the sphere is hit no later than that root |
| Triangle.MakeTriangle | triangle.h:18-24 | the edges are `v1 - v0` and `v2 - v0`, and the stored normal is a multiple of their cross product; for a non-degenerate triangle and an exact square root it is a unit vector on the same side as `e1 x e2`, so the vertex winding fixes the front face |
| Triangle.Solve | triangle.h:37-51 | when `dot(s1, e1)` is non-zero, the point of the ray at the computed `t` is `v0 + u e1 + v e2` for the computed `u` and `v` |
| Triangle.SolveUnique | triangle.h:37-51 | when `dot(s1, e1)` is non-zero, any `t`, `u`, `v` that put the ray on the plane point `v0 + u e1 + v e2` are the computed ones |
| Triangle.TriangleHit | triangle.h:35-63 | on a miss the record is returned untouched |
| Triangle.TriangleHitSound | triangle.h:43-60 | on a hit `t` lies in `[t_min, t_max]`, `u >= 0`, `v >= 0`, `u + v <= 1`, the point is the ray at `t` and also `v0 + u e1 + v e2`, the material is the triangle's and the normal faces against the ray |
| Triangle.TriangleHitComplete | triangle.h:43-60 | a non-parallel ray that meets the triangle at some `t` in range is hit there, with that `t`, `u` and `v` |
| Triangle.Pad | triangle.h:74-88 | a padded extent contains the unpadded one, is at least 0.0001 wide, and a wide enough extent is left alone |
| Triangle.TriangleBoxThick | triangle.h:74-90 | every axis of the triangle's box is at least 0.0001 wide |
| Triangle.TriangleBox | triangle.h:65-92 | on each axis the box spans at least the vertices' range, and exactly that range when it is at least 0.0001 wide |
| Triangle.TriangleBoxBounds | triangle.h:67-90 | each coordinate of each vertex lies between the box's bounds |
| Triangle.TriangleBoxContainsVertices | triangle.h:67-90 | the box contains `v0`, `v1` and `v2` |
| Triangle.TriangleBoxContains | triangle.h:67-90 | the box contains every point of the triangle |
| Triangle.TriangleHitInBox | triangle.h:35-90 | every hit point lies in the triangle's own box |
| Triangle.PdfValue | triangle.h:94-100 | a direction along which the triangle is missed has density 0 |
| Triangle.PdfValueNonNegative | triangle.h:94-107 | the density is never negative |
| Triangle.RandomWeights | triangle.h:109-112 | with both draws in `[0, 1)` the weights are non-negative and sum to less than 1 |
| Triangle.RandomAsWritten | triangle.h:109-114 | as written, the direction leads from `v0`, not from the given origin, to the sampled point `v0 + random_u e1 + random_v e2` |
| Triangle.RandomAsWrittenParallel | triangle.h:109-114 | as written, the direction `ru e1 + rv e2` is parallel to the triangle's plane, so a ray from any origin along it misses and has density 0 |
| Triangle.RandomToward | triangle.h:109-114 | the corrected direction leads from the origin to the triangle point with the drawn weights |
| Triangle.RandomTowardHits | triangle.h:109-114 | from an origin off the triangle's plane the corrected direction hits the triangle at `t = 1`, at the drawn weights |
| Material.LambertianColor | material.h:44 | a Lambertian built from a colour samples a solid texture of that colour |
| Material.RefractionRatio | material.h:97 | the ratio is `1 / ir` on the front face and `ir` on the back, and positive for a positive index |
| Material.NormalReflectanceBounds | material.h:127-128 | for a positive index, `r0 = ((1 - n) / (1 + n))^2` lies in `[0, 1)` |
| Material.Reflectance | material.h:124-130 | for a positive index and a cosine in `[0, 1]` Schlick's reflectance lies in `[r0, 1]`, and it is `r0` at normal incidence |
| Material.CosTheta | material.h:100 | the cosine is clamped to at most 1 |
| Material.DielectricDirection | material.h:103-113 | the ray reflects when it cannot refract or when the reflectance exceeds the draw, and refracts otherwise |
| Material.DielectricFrom | material.h:94-118 | a dielectric always scatters, with attenuation (1, 1, 1), from the hit point at the incoming ray's time |
| Material.DielectricAsWritten | material.h:94-118 | as written: always scatters, white, from the hit point; with the cosine taken against the ray's direction as given, it reflects when it cannot refract or the reflectance exceeds the draw, and refracts otherwise |
| Material.DielectricScatter | material.h:94-118 | corrected (see Findings): the same rule with the cosine taken against the normalised direction |
| Material.Scatter | material.h:25-177 | the base material and the light never scatter and leave the outputs untouched; Lambertian, isotropic and dielectric materials always scatter; its dielectric case is the corrected `DielectricScatter` |
| Material.ScatteringPdf | material.h:30-64 | the density is never negative, is 0 for every material but the Lambertian, and for it is positive exactly when the scattered direction lies above the surface |
| Material.Emitted | material.h:35-155 | only a diffuse light emits, and only on its front face |
| Material.ScatteredFromHitPoint | material.h:47-177 | every scattering material sends the new ray from the hit point at the incoming ray's time |
| Material.DiffuseLightEmits | material.h:145-155 | a diffuse light emits its texture's sample on the front face and black on the back |
| Material.LambertianAlbedo | material.h:47-58 | the Lambertian attenuation is its texture's sample at the hit |
| Material.LambertianPdfIsCosineDensity | material.h:47-58 | a positive density the Lambertian reports for its sample is the cosine density about the normal |
| Material.LambertianMatchesCosinePdf | material.h:60-64 | the Lambertian scattering density is the cosine density about the normal |
| Material.MetalAbsorbsBelow | material.h:75-82 | the metal's attenuation is always its albedo, and it scatters exactly when the scattered direction lies above the surface |
| Material.PolishedMetalScatters | material.h:75-82 | a metal without fuzz scatters every ray that arrives against its unit normal |
| Material.DielectricAlwaysScatters | material.h:94-118 | a dielectric always scatters, with attenuation (1, 1, 1), from the hit point |
| Material.TotalInternalReflection | material.h:103-109 | when `ratio * sin_theta > 1` the dielectric reflects, whatever the draw: as written, with the cosine against the direction as given, and in `Scatter`, against the normalised direction |
| Material.DielectricDrawDecides | material.h:103-113 | when refraction is possible the draw decides, reflecting when the reflectance exceeds it and refracting otherwise, both as written and in `Scatter` |
| Material.UnitIndexReflects | material.h:124-130 | with index 1 the reflectance is `(1 - cos)^5`, so at grazing incidence the ray always reflects |
| DielectricFinding.GlassNumbers | material.h:97-130 | for glass (`ir = 1.5`) hit on the front, the ratio is 2/3, `r0` is 0.04 and the reflectance at cosine 0.5 is 0.07 |
| DielectricFinding.AsWrittenDirection | material.h:99-113 | as written, the direction is chosen from the unnormalised ray direction |
| DielectricFinding.AsWrittenLongRayRefracts | material.h:99-113 | as written, the glass is hit head-on by the direction (1, 0, -1): its clamped cosine is 1, and with draw 0.05 it refracts |
| DielectricFinding.AsWrittenShortRayReflects | material.h:99-113 | as written, the same ray with direction (0.5, 0, -0.5) has cosine 0.5, and with the same draw it reflects |
| DielectricFinding.UnitVectorScaleInvariant | material.h:99 | normalising a positively scaled direction gives the same unit vector |
| DielectricFinding.CorrectedIgnoresLength | material.h:94-118 | the corrected dielectric gives the same outcome for every positive rescaling of the ray direction |
| Onb.HelperAxis | onb.h:39 | the helper axis is `(0, 1, 0)` or `(1, 0, 0)` |
| Onb.BuildFromW | onb.h:35-42 | the three axes are pairwise orthogonal whatever the square root; with a square root exact where it is taken, a non-zero `n` gives three unit axes |
| Onb.HelperNotParallel | onb.h:37-40 | for a unit `w` the helper axis is never parallel to `w`: their cross product has squared length at least 0.19 |
| Onb.LocalOverloadsAgree | onb.h:19-27 | the two `local` overloads agree |
| Onb.LocalAdditive | onb.h:24-27 | `local` maps sums to sums |
| Onb.LocalHomogeneous | onb.h:24-27 | `local` commutes with scaling |
| Onb.LocalAxes | onb.h:19-22 | `local` maps the three unit axes to `u`, `v` and `w` |
| Onb.LocalAlongW | onb.h:24-27 | for an orthonormal basis the `w` part of `local(a)` is `a.z` |
| Onb.ThirdAxis | onb.h:40-41 | for unit orthogonal `w` and `v`, `u = w x v` is a unit vector and `u x v = -w` |
| Onb.BuildOrthonormal | onb.h:35-42 | with exact square roots the built axes are unit vectors and `u x v = -w`: the basis is orthonormal and left-handed |
| Pdf.CosinePdf | pdf.h:26 | the cosine density's `w` axis is the unit normal it was built from |
| Pdf.Sample | pdf.h:28-32 | the cosine density is never negative, is positive exactly when the direction has a positive cosine with `w`, and is then that cosine over pi |
| Pdf.Generate | pdf.h:34-87 | a cosine density takes one hemisphere sample; an object density is its object's `random`; a mixture generates what one of its two parts generates after one draw |
| Pdf.SampleNonNegative | pdf.h:28-76 | every density built from non-negative parts is non-negative, mixtures included |
| Pdf.MixtureBetween | pdf.h:73-76 | a mixture's density lies between its two parts' densities |
| Pdf.MixtureSymmetric | pdf.h:73-76 | swapping the two parts leaves the mixture's density unchanged |
| Pdf.MixtureOfSelf | pdf.h:73-76 | a mixture of a density with itself is that density |
| Pdf.MixtureGeneratePicks | pdf.h:78-88 | a mixture generates from its first part when the draw is below 0.5 and from its second part otherwise |
| Pdf.MixtureGenerateOfSelf | pdf.h:78-88 | a mixture of a density with itself generates what that density generates |
| Pdf.CosineGenerateAlongW | pdf.h:34-37 | the generated direction's component along `w` is the hemisphere sample's `z` |
| Pdf.CosineGeneratePositive | pdf.h:28-37 | a direction generated from an upper-hemisphere sample has positive density |
| Pdf.CosinePdfGeneratePositive | pdf.h:26-37 | the same holds for a cosine density built from any non-zero normal |
| Pdf.TrianglePdf | pdf.h:47-50 | the hittable density keeps the origin it was given |
| Pdf.TriangleRandom | pdf.h:57-60 | corrected (see Findings): generation takes two draws and gives the direction from the stored origin to the point of the triangle they select |
| Pdf.TriangleRandomAsWritten | pdf.h:57-60 | as written: generation takes two draws and gives a direction from `v0` to the sampled point, whose density under the triangle's own `pdf_value` is 0 |
| Pdf.TrianglePdfMiss | pdf.h:52-55 | a direction that misses the triangle from the stored origin has density 0 |
| Pdf.TrianglePdfNonNegative | pdf.h:52-55 | the triangle's hittable density is never negative |
| Pdf.TrianglePdfGenerateHits | pdf.h:52-60 | with the corrected `random`, every generated direction hits the triangle from the stored origin |
| RtWeekend.DegreesToRadians | rtweekend.h:22-25 | 180 degrees is pi and 0 degrees is 0 |
| RtWeekend.DegreesToRadiansLinear | rtweekend.h:22-25 | the conversion is linear |
| RtWeekend.Clamp | rtweekend.h:27-34 | for `min <= max` the result lies in `[min, max]`; an in-range value is kept, a value below `min` becomes `min` and, for `min <= max`, a value above `max` becomes `max` |
| RtWeekend.ClampIdempotent | rtweekend.h:27-34 | clamping twice is clamping once |
| RtWeekend.ClampMonotone | rtweekend.h:27-34 | clamping keeps order |
| RtWeekend.RandomDouble | rtweekend.h:46-52 | with the generator in `[0, 1)` and `min < max` the result lies in `[min, max)`, and is `min` for a zero draw |
| Texture.SolidRgb | texture.h:16 | the three-channel constructor makes a solid texture of that colour |
| Texture.CheckerColors | texture.h:36-37 | the colour constructor wires `c1` to `even` and `c2` to `odd` |
| Texture.SolidIsConstant | texture.h:19-22 | a solid texture gives its colour whatever `u`, `v` and `p` |
| Texture.CheckerPicks | texture.h:39-47 | the checker gives the odd sample when the sine product is negative and the even sample otherwise |
| Texture.CheckerIsOneOf | texture.h:39-47 | the checker always gives one of its two sub-texture samples |
| Texture.CheckerOfEqualHalves | texture.h:39-47 | a checker with equal halves is that texture |
| Texture.CheckerColorsSample | texture.h:36-47 | a checker built from two colours gives `c2` where the sine product is negative and `c1` elsewhere |
| Texture.Palette | texture.h:12-52 | every texture has at least one colour it can give |
| Texture.Sample | texture.h:19-47 | every sample is one of the texture's solid colours |
| CosineDirection.RandomCosineDirection | test.cpp:7-18 | for draws in `[0, 1)`, with `sin^2 + cos^2 = 1` and exact square roots, the direction is a unit vector whose height lies in `(0, 1]` |
| CosineDirection.DirectionFacts | test.cpp:9-15 | under the same assumptions the horizontal part has squared length `r2` and the height is in `(0, 1]` with square `1 - r2` |
| CosineDirection.IsUnit | test.cpp:7-26 | with `sqrt(1) = 1` exact as well, the length the program prints is 1 |
| CosineDirection.CosineFromDraw | test.cpp:11 | `z = sqrt(1 - r2)` is non-negative and `z^2 = 1 - r2` |
| Mesh.StoredIndex | mesh.h:53-57 | a face index `i` in `[1, 2^32]` is stored as `i - 1`, and 0 wraps round to `2^32 - 1` in the unsigned vector |
| Mesh.ReadObj | mesh.h:31-59 | positions are the `v` lines scaled, uvs are the `vt` lines with `z = 0`, indices are three per `f` line less one, in order, and other lines are ignored |
| Mesh.ReadLineKeeps | mesh.h:34-58 | reading one more line keeps the positions, uvs and indices in step with the lines read so far |
| Mesh.SmoothNormals | mesh.h:61-82 | there is one normal per position, and it is the normalised sum of the face normals of the faces that use that vertex |
| Mesh.UnusedVertexSum | mesh.h:66-78 | a vertex no face uses gets a zero normal sum |
| Mesh.SingleFaceSum | mesh.h:66-78 | a vertex used once by a single face gets exactly that face's normal |
| Mesh.BuildTriangles | mesh.h:84-111 | there is one triangle per face, in face order, built from that face's positions, normals and uvs |
| Mesh.LoadModel | mesh.h:14-112 | an unopenable file gives no triangles; otherwise there is one triangle per `f` line, whose corners are the scaled positions the line names, with the uvs of the same-numbered `vt` lines and, as normal, the unit vector of the sum of the face normals of every face that uses the vertex |
| Mesh.ReadIndicesValid | mesh.h:51-72 | when every face names existing vertices, every stored index is in range |
| Mesh.TriangleFromLines | mesh.h:88-108 | the triangle built for face `f` has as corners the scaled `v` lines the `f`-th face line names, with the uvs of the same-numbered `vt` lines or `(0, 0, 0)` where there are too few, and the smooth normals of those vertices |
| Mesh.CornerNormal | mesh.h:61-82 | the normal the normal loops leave at the vertex a face line numbers is the unit sum, over the faces, of each face normal times the face's corners at that vertex, read straight from the lines |
| Mesh.ReadDetermined | mesh.h:31-59 | what the reading loop establishes fixes its result: the positions and indices are those the lines give |

## Left out

- bvh.h, sphere.h, vec3.h, ray.h, hittable_list.h, camera.h and color.h are not part of this model. Vector arithmetic is defined directly over reals in `Vec`. `unit_vector` goes through the square-root parameter. `reflect`, `refract`, `random_in_unit_sphere` and `random_in_hemisphere` are parameters.
- `mesh::hit` and `mesh::bounding_box` forward to a BVH built by bvh.h, which is not part of this model. Only the triangle list the constructor loads is modelled.
- Threads, the mutex, `update_progress` and the unsynchronised `progress++` (renderer.h:46-49, 73-101, 125; main.cpp:17-22, 175-179) are left out because they are concurrency and console output. A tile stands for the arguments one worker receives.
- Camera rays, the per-pixel sample loop and `write_color` depend on camera.h and color.h, which are not part of this model. Frame-buffer writes are modelled by index and pixel, not by colour.
- IEEE arithmetic is not modelled: `float` truncation (triangle.h:41-51 and 67-88, moving_sphere.h:28, aabb.h:38), NaN and infinities.
  - A zero direction component of the slab test is modelled by the outcome IEEE infinities give.
  - A zero denominator is modelled as a miss: a ray parallel to a rectangle or a triangle, and a zero direction for the moving sphere (`a == 0`). For the sphere the source computes NaN roots. NaN fails neither range test, so the source reports a hit with a NaN parameter.
  - Other divisions by zero go through `Ratio`, which returns 0. These are `time1 == time0` in the sphere centre, zero-width `u`/`v` ranges of a rectangle, `ir == 0` in `refraction_ratio`, and a zero-length direction in `pdf_value`. They also include a zero radius in the moving sphere's outward normal (moving_sphere.h:55), where `MovingSphere.OutwardNormal` gives the zero vector, and `1 + ref_idx == 0` in Schlick's `r0` (material.h:127), where `Material.NormalReflectance` gives 0.
  - `unit_vector` of the zero vector divides by a zero length, and the source gets NaN components. `Vec.UnitVector` returns the zero vector itself. One case is a mesh vertex whose face normals sum to zero, or that no face uses (mesh.h:79-82): the model gives it the zero normal.
- File opening and the `>>` extraction of numbers in mesh.h:16-37 and 41-54 are left out because they are I/O. The file is an optional sequence of lines already split into a leading token and numbers.
- The Mersenne Twister behind `random_double()` is left out because it is randomness. Every draw is a parameter. In `ray_color` the draws of one bounce are folded into the world's answer for that depth, so one call is one sample path.
- main.cpp's single-threaded branch (main.cpp:217-237) streams each pixel to standard output as it is computed. Only its visiting order is modelled, by the same scan as renderer.h's single-threaded path. The colour it writes depends on camera.h and color.h.
- `scene_generator.h` and `random_scene` in main.cpp only build scene lists, so they are left out.
- The `emitted`/`scatter` arities differ between material.h and the two `ray_color`s. The integrators therefore take the world-and-material answer as a parameter and do not call `Material` directly.
- Statistical claims are left out: that samples follow the cosine distribution, and render convergence.
- Hittable.RotateYBox: states only that a box is reported exactly when the constructor found one. What the box contains is stated by `Hittable.RotateYBoundsContain`.
- Mesh.LoadModel: requires every face number of an opened file to name one of its `v` lines (`FacesNameVertices`). The source does not check face numbers: `f 0 ...`, OBJ's negative relative indices and numbers above the vertex count index `positions` and `normals` out of range (mesh.h:70-72, 75-77 and 92-98), which is undefined behaviour in C++. The model does not describe what such a file produces.
- Triangle.PdfValue: states the miss case only. The value on a hit, `distance^2 / (cosine * area)`, is computed but not given a closed form, because it rests on the `float` area and the abstract square root. Non-negativity is `Triangle.PdfValueNonNegative`.
- Material.CosTheta: states only the cap at 1. The cosine itself is the dot product of the (unnormalised, as written) direction with the normal.
- A zero `batch_x` or `batch_y` divides by zero in the stride computation (renderer.h:103-104). The tile members require `batch >= 1` and do not model that case.
- The frame-buffer index `(h - 1 - j) * w + i` (renderer.h:79) is a 32-bit `int` product in the source and overflows beyond 2^31 pixels. The model's integers are unbounded, so `Tiles.PixelIndex` and the lemmas over it hold only for images below that size.
- Material.Scatter: its dielectric case is the corrected `Material.DielectricScatter`, which normalises the ray's direction. material.h:99 does not normalise it. The code as written is `Material.DielectricAsWritten`; the fifth finding below shows where the two differ. `Material.TotalInternalReflection` and `Material.DielectricDrawDecides` state their rule for both versions.
- Hittable.TranslateHit: models the corrected wrapper, which keeps the child's face flag and normal. The code as written re-orients them at hittable.h:97; that is `Hittable.TranslateHitAsWritten` (second finding).
- Hittable.RotateYHit: models the corrected wrapper, which keeps the child's face flag. hittable.h:182 re-orients the world normal against the object-space ray; that is `Hittable.RotateYHitAsWritten` (third finding).
- Hittable.RotateYHitOriented: holds of the corrected `Hittable.RotateYHit` only. As written, the world normal can face along the world ray (`TransformFindings.RotateYAsWrittenOnX`).
- Pdf.TriangleRandom: forwards to the corrected `Triangle.RandomToward`. pdf.h:59 calls triangle.h's `random`, which ignores the origin; that is `Pdf.TriangleRandomAsWritten` (fourth finding).
- Pdf.TrianglePdf: states only that the origin is kept. Its density and generation are stated by `Pdf.TrianglePdfMiss`, `Pdf.TrianglePdfNonNegative` and `Pdf.TrianglePdfGenerateHits`.

## Findings

| source | as written | input that shows it | evidently intended | confidence | as-written member | corrected member |
|---|---|---|---|---|---|---|
| renderer.h:120-123 | the join loop joins `batch_x * batch_y` slots of the thread vector whatever the number of tiles created | image 5 x 1, batch 4 x 1: stride `ceil(5 / 4) = 2` gives 3 tiles, yet slot 3 is joined, past the end of the vector | join each created thread, `render_threads.size()` of them | high, not executed | `Tiles.JoinOverrunsFiveColumnsFourWays` (over `Tiles.JoinSlotsAsWritten`) | `Tiles.JoinSlots`, with `Tiles.JoinAsWrittenValidIff` |
| hittable.h:96-97 | `translate::hit` re-runs `set_face_normal` on the already oriented normal, so `front_face` comes out true for every non-grazing hit | unit square at `z = 0`, translated by zero, ray from `(0, 0, -1)` along `+z`: the child reports a back-face hit, the wrapper a front-face hit | keep the child's `front_face` and normal, moving only the point | high, not executed | `TransformFindings.TranslateReportsBackFaceAsFront` (over `Hittable.TranslateHitAsWritten`) | `Hittable.TranslateHit`, with `TransformFindings.TranslateKeepsBackFace` |
| hittable.h:178-182 | `rotate_y::hit` orients the world-space normal against the object-space ray | `sin = 0.8`, `cos = -0.6`, ray from the origin along `+x`, child hit with normal `(0, 0, -1)`: the result is `(0.8, 0, -0.6)`, which faces along the world ray | carry the child's oriented normal to world space and keep its `front_face` | high, not executed | `TransformFindings.RotateYAsWrittenOnX` (over `Hittable.RotateYHitAsWritten`, `Hittable.RotateYAsWrittenFlips`) | `Hittable.RotateYHit`, with `TransformFindings.RotateYCorrectedOnX` and `Hittable.RotateYHitOriented` |
| triangle.h:109-114 | `random(origin)` returns `random_u e1 + random_v e2`, ignoring the origin | any triangle, origin and draws: the direction lies in the triangle's plane, so the ray from `origin` along it is parallel to the triangle and `pdf_value` of it is 0 | the direction from `origin` to the sampled point `v0 + random_u e1 + random_v e2` | medium (over the reals; rounding may make the ray graze instead), not executed | `Triangle.RandomAsWrittenParallel` | `Triangle.RandomToward`, with `Triangle.RandomTowardHits` |
| material.h:99-100 | `dielectric::scatter` uses `r.direction()` unnormalised as `unit_direction`, so `cos_theta` is scaled by the ray's length | glass `ir = 1.5` hit on the front face with normal `(0, 0, 1)` and draw 0.05: direction `(1, 0, -1)` refracts, while the same direction halved, `(0.5, 0, -0.5)`, reflects | normalise the direction first, so the outcome depends on the direction only | high, not executed | `DielectricFinding.AsWrittenLongRayRefracts`, `DielectricFinding.AsWrittenShortRayReflects` | `DielectricFinding.CorrectedIgnoresLength` (the model's `Material.Scatter` normalises) |
