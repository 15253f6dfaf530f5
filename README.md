# Mesh adjacency and demo generators, modelled in Dafny

The repository is a collection of small OpenGL demos and the scripts that
publish them. This project models the integer and combinatorial parts of
those demos and proves what they promise.

**The half-edge adjacency builder, `ComputeAdjacency`** (module `Adjacency`).
- It reads a flat list of 16-bit triangle indices and builds three half-edges per face, C→A, A→B and B→C, linked into a `Next` 3-cycle.
- It stores every half-edge in a table under its directed key.
- It aborts unless the table holds exactly `3 * faceCount` keys.
- It finds twins by looking up the swapped key and counts the edges that have none.
- It writes six indices per face in the triangles-with-adjacency layout of section 2.6.1 of the OpenGL 3.2 Core Profile specification.
- The pointer arena becomes an array of records whose links are indices. The associative table becomes a Dafny `map`.

**The triangle-list generators that feed the builder:**
- `closed_surface`, `open_surface` and `surface` of the parametric-surface script (`Parametric`);
- the cylinder mesh of `CreateCylinder` (`Cylinder`);
- the Möbius index buffers of the two model viewers (`MobiusGrid`, `Viewer`, `CtmViewer`).

Each is proved to produce what its loops write. For the closed surface and the cylinder, the output is composed with the builder: the closed surface is watertight, and the cylinder has exactly `2 * slices` boundary edges.

**The Hilbert-curve turtle and the curve vertex buffers:**
- `Turtle::Move`, `HilbertU/D/C/A` and `CreateHilbertCurve` (`Curve`, `HilbertBuffer`);
- `CreateCircle` and `CreateSuperellipse` (`CurveBuffers`).

**Texture loading:**
- the DDS header parse and S3TC mip-chain walk (`Dds`);
- the PNG asset-path resolution and bytes-per-pixel format table (`PngTexture`).

**The noise tables** (`Noise`):
- the Fisher–Yates shuffle of the permutation table and `randhash`;
- `hash_index`, `get_barycentric`, `smooth_step` and `ramp`.

**The L-system evaluator of the generative-art script:**
- rule choice by weight, `pick_rule` (`LSystem`);
- transform-string parsing, `parse_xform` (`LSystemXform`);
- the depth-limited stack loop, `Evaluate` (`LSystem`).

**`formatColumns` of the blog-publishing script** (`Columns`): equal-width text columns.

Floats are modelled as `real`. `cos`, `sin`, `pow`, `normalize` and the text-to-number conversions are function parameters. The random draws of the L-system are a stream indexed by a draw counter. Graphics-library calls are left out; the buffers they would receive are the methods' results.

## Model

| member | source | states |
|---|---|---|
| `Adjacency.PackedKeys` | p54/Adjacency.c:42-70 | Two edges pack to the same word exactly when they are the same edge, and swapping the halves of a packed key gives the packed key of the reversed edge |
| `Adjacency.NextInFace` | p54/Adjacency.c:44-56 | `Next` and its inverse stay inside the half-edge's own face, never fix it, and cycle 3i→3i+1→3i+2→3i |
| `Adjacency.FaceKeys` | p54/Adjacency.c:37-57 | The three half-edges of face (A, B, C) are C→A, A→B and B→C, and their successors form the face's 3-cycle |
| `Adjacency.FaceInsert` | p54/Adjacency.c:41-57 | The first loop inserts a face's three keys in the order C→A, A→B, B→C, a later insertion under a present key replacing the earlier entry |
| `Adjacency.TableEntries` | p54/Adjacency.c:35-58 | After the first loop every half-edge's key is in the table, every entry is a half-edge stored under its own key, and there are at most `3 * faceCount` entries |
| `Adjacency.CountDetectsDuplicates` | p54/Adjacency.c:61-62 | The table count equals the number of half-edges if and only if no directed key repeats, so the count check rejects exactly the meshes with a duplicated edge or inconsistent winding |
| `Adjacency.TableInverse` | p54/Adjacency.c:61-71 | On a mesh that passed the check, looking up a half-edge's own key gives that half-edge back |
| `Adjacency.Lookup` | p54/Adjacency.c:71 | A lookup finds an entry exactly when the key is present, and then returns that entry |
| `Adjacency.Twin` | p54/Adjacency.c:70-76 | A found twin is a half-edge whose key is the reversed key; no twin means no half-edge runs the other way |
| `Adjacency.LinkedArena` | p54/Adjacency.c:25-82 | The arena has `3 * faceCount` records whose `Next` and `Twin` links all point into it |
| `Adjacency.InsertFace` | p54/Adjacency.c:41-57 | One pass of the first loop inserts the face's three keys into the table and writes its three half-edges, touching no other half-edge |
| `Adjacency.ComputeAdjacency` | p54/Adjacency.c:22-118 | The build fails exactly when a directed key repeats, leaving `dest` untouched; otherwise it returns the number of boundary keys, writes the `6 * faceCount` indices of `Records` and leaves the rest of `dest` as it was |
| `Adjacency.BuildHalfEdges` | p54/Adjacency.c:33-58 | Half-edge e gets head `source[e]`, no twin and successor `Next(e)`, and the table is the one built by inserting the keys in order |
| `Adjacency.LinkTwins` | p54/Adjacency.c:64-82 | Visiting the keys in any order sets each half-edge's twin to the entry under its reversed key, and the count is the set of visited keys without a reverse |
| `Adjacency.CountStep` | p54/Adjacency.c:72-80 | Visiting one key raises the boundary count by one exactly when its reversed key is absent |
| `Adjacency.ArenaIsLinked` | p54/Adjacency.c:64-82 | The arena the twin loop leaves is `LinkedArena`, whatever order the keys were visited in |
| `Adjacency.EmitWithFallback` | p54/Adjacency.c:85-100 | The guarded loop writes every face's six-slot record in order and nothing past them |
| `Adjacency.EmitFaceWithFallback` | p54/Adjacency.c:93-98 | One pass writes face f's record into slots `6f .. 6f+5` and changes no other slot |
| `Adjacency.EmitWatertight` | p54/Adjacency.c:101-114 | When every half-edge has a twin, the unguarded loop writes the same records as the guarded one |
| `Adjacency.EmitFaceWatertight` | p54/Adjacency.c:107-112 | One unguarded pass writes face f's record and changes no other slot |
| `Adjacency.FaceRecordAt` | p54/Adjacency.c:93-98 | Slots 0, 2 and 4 hold C, A and B; slot 2k+1 holds `Twin->Next->Vert` when there is a twin, else a copy of slot k |
| `Adjacency.CountedIsBoundary` | p54/Adjacency.c:67-81 | What the twin loop counts is exactly the set of keys whose reverse is absent |
| `Adjacency.WatertightArena` | p54/Adjacency.c:101-112 | With no boundary key every half-edge of the linked arena has a twin, so the unguarded loop never dereferences a missing one |
| `Adjacency.BoundaryIsUntwinned` | p54/Adjacency.c:67-80 | The counted keys are exactly the keys of the half-edges without a twin |
| `Adjacency.BoundaryFree` | p54/Adjacency.c:67-85 | The boundary count is 0 if and only if every half-edge has a twin |
| `Adjacency.TwinSymmetric` | p54/Adjacency.c:72-76 | On a mesh that passed the check, the twin of a half-edge's twin is the half-edge itself |
| `Adjacency.OppositeCorner` | p54/Adjacency.c:94-98 | The vertex written across an edge is the third corner of the neighbouring face, which also holds the edge's two ends |
| `Adjacency.FarIsOpposite` | p54/Adjacency.c:94 | Reading `Twin->Next->Vert` in the linked arena gives the opposite vertex of the mesh |
| `Adjacency.LinkedFaceRecord` | p54/Adjacency.c:93-98 | Face (A, B, C)'s record is C, far(C→A) or C, A, far(A→B) or slot 1, B, far(B→C) or A |
| `Adjacency.RecordLayout` | p54/Adjacency.c:37-98 | The same layout, read off the output buffer: the face's winding is kept in slots 0, 2 and 4 |
| `Adjacency.WatertightRecords` | p54/Adjacency.c:101-113 | On a watertight mesh every odd slot is the far vertex across its edge |
| `Adjacency.RecordsInRange` | p54/Adjacency.c:84-114 | Every emitted index is one of the mesh's own indices, so it is below any bound they share |
| `AdjacencyExamples.LoneTriangle` | p54/Adjacency.c:93-98 | A lone triangle (0, 1, 2) gives the record [2, 2, 0, 2, 1, 0] and 3 boundary edges |
| `AdjacencyExamples.PairTwins` | p54/Adjacency.c:70-76 | Faces (0, 1, 2) and (1, 0, 3) share edge 0–1: its two half-edges see 3 and 2 across it, and the other four keys are boundary |
| `AdjacencyExamples.TwoTriangles` | p54/Adjacency.c:93-98 | Those two faces give slot 3 values of 3 and 2 and a boundary count of 4 |
| `AdjacencyExamples.SameWindingRejected` | p54/Adjacency.c:61-62 | Two faces that both contain the directed edge 0→1 fail the duplicate check |
| `Grid.SuccMod` | p44/parametric.py:53 | The wrapping successor is `(x + 1) % n` |
| `Grid.RowStartProduct` | p44/parametric.py:56 | The running base after i rows of `width` vertices is `i * width` |
| `Parametric.SampleRows` | p44/parametric.py:41-47 | The vertex loop samples grid position (i, j) as vertex `i * stacks + j`, row by row |
| `Parametric.AppendBand` | p44/parametric.py:52-55 | The inner loop appends the two triangles of every cell of one row to the faces so far |
| `Parametric.ClosedSurface` | p44/parametric.py:40-62 | `closed_surface` returns the sampled grid and the faces of every row, with the last row joined back to row 0 |
| `Parametric.OpenSurface` | p44/parametric.py:64-82 | `open_surface` fails exactly when `slices` is 0 (the division by `slices` in the first row); otherwise it returns `slices + 1` sampled rows and `slices` rows of cells |
| `Parametric.Surface` | p44/parametric.py:84-85 | `surface` gives the same result as `open_surface` |
| `Parametric.BandStep` | p44/parametric.py:53-55 | One more cell adds `(v+j, v+next, w+j)` and `(v+next, w+next, w+j)` with `next = (j + 1) % stacks` |
| `Parametric.SampleAt` | p44/parametric.py:41-47 | There are `rows * stacks` samples, and the sample at (i, j) is vertex `i * stacks + j` |
| `Parametric.ClosedFaceAt` | p44/parametric.py:49-60 | Face `2 * (i * stacks + j) + h` of `closed_surface` is half h of cell (i, j), joined to the next row, which wraps after the last |
| `Parametric.OpenFaceAt` | p44/parametric.py:73-80 | Face `2 * (i * stacks + j) + h` of `open_surface` is half h of cell (i, j), joined to row i + 1 |
| `Parametric.ClosedCounts` | p44/parametric.py:40-62 | `closed_surface` gives `slices * stacks` vertices and `2 * slices * stacks` faces, and every index is below `slices * stacks` |
| `Parametric.ClosedWithoutSlices` | p44/parametric.py:51-60 | With no slices, `closed_surface` still emits a wrap-around row of `2 * stacks` faces over vertices it never sampled |
| `Parametric.OpenCounts` | p44/parametric.py:64-82 | `open_surface` gives `(slices + 1) * stacks` vertices and `2 * slices * stacks` faces, every index below the vertex count |
| `Parametric.ClosedSharedDiagonal` | p44/parametric.py:54-55 | The two triangles of a cell run along their shared edge in opposite directions |
| `Parametric.OpenSharedDiagonal` | p44/parametric.py:78-79 | The same for `open_surface` |
| `Parametric.ClosedKeyInjective` | p44/parametric.py:49-60 | With at least three slices and stacks, no directed edge of `closed_surface` is emitted twice |
| `Parametric.ClosedHasTwin` | p44/parametric.py:49-60 | Every half-edge of `closed_surface` has its reverse among the half-edges |
| `Parametric.ClosedWatertight` | p44/parametric.py:49-60 | `closed_surface` passes the builder's duplicate check and has no boundary edge |
| `Parametric.ClosedSurfaceAdjacency` | p44/parametric.py:40-62 | Feeding `closed_surface` to `ComputeAdjacency` succeeds with a boundary count of 0 |
| `Cylinder.WriteRing` | p56/demo/CreateCylinder.c:72-83 | The inner loop writes the six indices of every cell of one ring at the pointer and nothing else |
| `Cylinder.CreateFaces` | p56/demo/CreateCylinder.c:65-85 | The connectivity loop fills a buffer of `3 * faceCount` indices with the `stacks - 1` rings of cells |
| `Cylinder.FaceBufferSize` | p56/demo/CreateCylinder.c:66-67 | `3 * faceCount` indices exactly fill the `stacks - 1` rings of six-index cells |
| `Cylinder.TubeAt` | p56/demo/CreateCylinder.c:70-84 | Index `3 * f + s` of the buffer is corner s of triangle f, the grid point that triangle's corner names |
| `Cylinder.TubeFacesInRange` | p56/demo/CreateCylinder.c:24-83 | Every face index is below `vertCount = slices * stacks` |
| `Cylinder.RingWraps` | p56/demo/CreateCylinder.c:75-76 | The last cell of a ring reaches back to slice 0 on both of its rings |
| `Cylinder.SharedDiagonal` | p56/demo/CreateCylinder.c:77-82 | A cell's two triangles run along their shared diagonal a–c in opposite directions |
| `Cylinder.TubeTwin` | p56/demo/CreateCylinder.c:69-84 | A half-edge of the tube has no twin exactly when it lies on the rim of an open end |
| `Cylinder.TubeDistinct` | p56/demo/CreateCylinder.c:69-84 | With at least three slices no directed edge is emitted twice |
| `Cylinder.TubeBoundary` | p56/demo/CreateCylinder.c:69-84 | The boundary keys are exactly the rim edges of the two ends, `2 * slices` of them |
| `Cylinder.CylinderAdjacency` | p56/demo/CreateCylinder.c:65-85 | Feeding the tube to `ComputeAdjacency` passes the duplicate check and gives `2 * slices` boundary edges, or 0 with a single stack |
| `Cylinder.FullTurn` | p56/demo/CreateCylinder.c:14-20 | `slices` steps of `dtheta` make one full turn of `2 * Pi` |
| `Cylinder.SweepCircle` | p56/demo/CreateCylinder.c:11-21 | The circle loop writes point i as `(cos theta_i, sin theta_i)`, the angle advancing by `dtheta` |
| `Cylinder.ScaleCircle` | p56/demo/CreateCylinder.c:38-45 | The in-place loop multiplies every coordinate of the circle by `radius` |
| `Cylinder.ScalePoint` | p56/demo/CreateCylinder.c:41-44 | One pass multiplies both coordinates of one circle point by `radius` and changes nothing else |
| `Cylinder.WriteStack` | p56/demo/CreateCylinder.c:28-34 | One pass of a stack loop writes that stack's ring after the rings already written, so the buffer so far is the sweep of one more stack |
| `Cylinder.WriteVertexRing` | p56/demo/CreateCylinder.c:30-34 | The inner loop writes one ring of three-float vertices at the pointer and nothing else |
| `Cylinder.CreateNormals` | p56/demo/CreateCylinder.c:23-36 | The normal buffer has `3 * vertCount` floats: every stack repeats the unscaled circle after a 0 |
| `Cylinder.CreatePositions` | p56/demo/CreateCylinder.c:47-61 | The position buffer has `3 * vertCount` floats: stack i is the scaled circle at `x` advanced i times by `dx` |
| `Cylinder.VertexBufferSize` | p56/demo/CreateCylinder.c:24-48 | `3 * vertCount` floats exactly fill `stacks` rings of vertices |
| `Cylinder.NormalAt` | p56/demo/CreateCylinder.c:26-35 | Vertex (stack, slice)'s normal is `(0, cos theta, sin theta)` for its slice's angle |
| `Cylinder.PositionAt` | p56/demo/CreateCylinder.c:49-60 | Vertex (stack, slice)'s position is `(x_stack, radius cos theta, radius sin theta)` |
| `Cylinder.SpineEnds` | p56/demo/CreateCylinder.c:50-53 | With two or more stacks the rings run from `0.5 - height/2` to `0.5 + height/2` |
| `Cylinder.VertexOnTube` | p56/demo/CreateCylinder.c:11-61 | Where cos and sin lie on the unit circle, every normal is a unit vector perpendicular to the X axis and every position lies on the cylinder of radius `radius` |
| `Cylinder.CreateCylinder` | p56/demo/CreateCylinder.c:9-110 | The mesh has `faceCount` and `vertCount` as the source computes them, buffers of exactly those sizes, and the normals, positions and faces above |
| `MobiusGrid.GridAt` | p33/Viewer/Viewer.cpp:158-171 | Entry `6 * (i * Stacks + j) + s` is slot s of cell (i, j), whose base is `n = i * Stacks` |
| `MobiusGrid.IndexCount` | p33/Viewer/Viewer.cpp:173-174 | The loops write `IndexCount = 6 * Slices * Stacks` indices |
| `MobiusGrid.SharedEdge` | p33/Viewer/Viewer.cpp:162-168 | A cell's two triangles run along their shared edge `(n+J, n+j+Stacks)` in opposite directions |
| `MobiusGrid.StackWrap` | p33/Viewer/Viewer.cpp:163-168 | The neighbour `(j + 1) % Stacks` of the last stack is stack 0 of the same slice |
| `MobiusGrid.GridBound` | p33/Viewer/Viewer.cpp:158-171 | Before any reduction every index is below `VertexCount + Stacks` |
| `Viewer.WriteSlice` | p33/Viewer/Viewer.cpp:160-169 | The inner loop writes the six indices of every cell of one slice at the pointer and nothing else |
| `Viewer.WriteCell` | p33/Viewer/Viewer.cpp:162-168 | One pass writes the six unreduced indices of one cell |
| `Viewer.CreateIndexBuffer` | p33/Viewer/Viewer.cpp:152-174 | The buffer is the unreduced grid, and both tessellation checks (`n == VertexCount`, `IndexCount` written) hold |
| `Viewer.IndexPastVertexBuffer` | p33/Viewer/Viewer.cpp:162-168 | The last slice names vertex `VertexCount` although only `VertexCount` vertices exist |
| `CtmViewer.WriteSlice` | p35/CtmViewer.cpp:181-189 | The inner loop writes one slice's indices, each taken `% VertexCount`, and nothing else |
| `CtmViewer.WriteCell` | p35/CtmViewer.cpp:183-188 | One pass writes the six reduced indices of one cell |
| `CtmViewer.CreateIndexBuffer` | p35/CtmViewer.cpp:173-194 | The buffer is the grid with every index reduced `% VertexCount`, and both tessellation checks hold |
| `CtmViewer.IndicesInRange` | p35/CtmViewer.cpp:183-188 | Every index names one of the `VertexCount` vertices |
| `CtmViewer.SliceStitch` | p35/CtmViewer.cpp:183-190 | The reduction changes nothing before the last slice, and stitches the last slice's far corners to stacks j and `(j + 1) % Stacks` of slice 0 |
| `Curve.Turtle.constructor` | p61/Curve.cpp:27-31 | The static turtle starts zeroed: at the origin, on face 0, with an empty path |
| `Curve.Turtle.Move` | p61/Curve.cpp:13-26 | A move bumps the face first when asked, moves by that face's image of (dx, dy) and appends exactly the new position |
| `Curve.Turtle.HilbertU` | p61/Curve.cpp:38-45 | Drawing a U curve keeps the face and records the walk of the U curve's moves |
| `Curve.Turtle.HilbertD` | p61/Curve.cpp:47-54 | The same for the D curve |
| `Curve.Turtle.HilbertC` | p61/Curve.cpp:56-63 | The same for the C curve |
| `Curve.Turtle.HilbertA` | p61/Curve.cpp:65-72 | The same for the A curve |
| `Curve.Turtle.Leg` | p61/Curve.cpp:149-154 | One step of the drawing moves onto the next face and draws the requested curve there, recording the move and then the curve |
| `Curve.Turtle.Draw` | p61/Curve.cpp:145-154 | The drawing clears the path, advances the face by 5 and records the six face-by-face curves |
| `Curve.Turtle.DrawFromFirstFace` | p61/Curve.cpp:145-154 | With the face reset to 0, every drawing records `6 * (4^level - 1) + 5` points forming one connected path |
| `Curve.SketchIsWalk` | p61/Curve.cpp:38-72 | The mutually recursive drawing routines record exactly the walk of the curve's list of moves |
| `Curve.DrawingIsPath` | p61/Curve.cpp:145-154 | A drawing records the joined walks of its six faces |
| `Curve.MovesCount` | p61/Curve.cpp:38-72 | A curve of level n makes `4^n - 1` moves, none at level 0 |
| `Curve.MovesUnit` | p61/Curve.cpp:38-72 | Every move of a Hilbert curve is one segment length along one axis |
| `Curve.DisplacementUnit` | p61/Curve.cpp:15-23 | On each of faces 0..5 a unit move stays a unit move along an axis |
| `Curve.WalkStill` | p61/Curve.cpp:16-25 | Off faces 0..5 the switch moves nothing: every recorded point is the start point and the turtle ends where it began |
| `Curve.DisplacementSum` | p61/Curve.cpp:16-23 | Each face maps moves linearly: two moves in a row displace the turtle by the face's image of their sum |
| `Curve.WalkConnected` | p61/Curve.cpp:13-26 | On a cube face, a walk of unit moves is a connected path of lattice neighbours |
| `Curve.ReachIsNet` | p61/Curve.cpp:16-23 | The turtle ends displaced by the face's image of the sum of its moves |
| `Curve.NetDisplacement` | p61/Curve.cpp:38-72 | A curve of level n ends `2^n - 1` segments away along one axis: +x for U, -y for D, +y for C, -x for A |
| `Curve.DrawingCount` | p61/Curve.cpp:145-154 | A drawing records `6 * (4^level - 1) + 5` points |
| `Curve.LodCount` | p61/Curve.cpp:147-154 | At level 3 a drawing records 383 points |
| `Curve.FirstDrawingConnected` | p61/Curve.cpp:145-154 | Drawn from face 0, the path crosses faces 0 to 5 and each point is one segment from the one before |
| `Curve.SecondDrawingStalls` | p61/Curve.cpp:13-31 | Drawn from face 5, where a first drawing leaves the turtle, only the first curve moves and every later point repeats its end |
| `CurveBuffers.RecordsAt` | p61/Curve.cpp:84-98 | Float `7n + i` of the buffer is attribute i of record n |
| `CurveBuffers.PathCoords` | p61/Curve.cpp:96-97 | The path coordinate of record n is `n / Count`, increasing with n and within [0, 1) |
| `CurveBuffers.WriteRecord` | p61/Curve.cpp:86-97 | One pass appends the seven floats of one record and keeps the floats before it |
| `CurveBuffers.AngleLinear` | p61/Curve.cpp:82-84 | n steps of `theta += dtheta` reach `start + n * dtheta` |
| `CurveBuffers.FullTurn` | p61/Curve.cpp:81-84 | `slices - 1` steps of `dtheta` make exactly one turn |
| `CurveBuffers.Sweep` | p61/Curve.cpp:81-98 | The loop writes `Count` records of the shape's point at the running angle |
| `CurveBuffers.CreateSweep` | p61/Curve.cpp:77-98 | `Count` is `slices + 2` with adjacency and `slices` without, and the buffer holds a record for each |
| `CurveBuffers.CreateCircle` | p61/Curve.cpp:74-105 | The circle's `Count` and records, sampled from the unit circle |
| `CurveBuffers.CreateSuperellipse` | p61/Curve.cpp:107-141 | The superellipse's `Count` and records, sampled from `pow(abs(c), 2/n) * a * sign(c)` |
| `CurveBuffers.PeriodicShapes` | p61/Curve.cpp:119-124 | Both shapes repeat after a full turn when cos and sin do |
| `CurveBuffers.Seam` | p61/Curve.cpp:77-84 | Without adjacency the last vertex repeats the first; with it, the extra end vertices repeat the neighbours across the seam |
| `CurveBuffers.SuperellipseIsCircle` | p61/Curve.cpp:107-134 | The superellipse of exponent 2 with unit semi-axes writes the circle's records |
| `HilbertBuffer.InsideBox` | p61/Curve.cpp:156-161 | Every point lies inside the box of minimum and maximum corners |
| `HilbertBuffer.BoxIsTight` | p61/Curve.cpp:156-161 | Each coordinate of each corner is that coordinate of some point |
| `HilbertBuffer.Corners` | p61/Curve.cpp:156-161 | The corner loop computes the minimum and maximum corners of the whole path |
| `HilbertBuffer.Centred` | p61/Curve.cpp:162-164 | Moved by the box's centre, every point lies within half the box's extent of the origin |
| `HilbertBuffer.Recentre` | p61/Curve.cpp:163-166 | The loop moves every point by the offset, normalises it and scales it to 1.25 |
| `HilbertBuffer.OnSphere` | p61/Curve.cpp:163-166 | Where `normalize` gives unit vectors, every recentred point lies on the sphere of radius 1.25 |
| `HilbertBuffer.Extend` | p61/Curve.cpp:168-177 | The four insertions give the extended path |
| `HilbertBuffer.ExtendedSpacing` | p61/Curve.cpp:168-177 | The extended path holds the original in its middle, and its first and last three segments repeat the original's first and last segment |
| `HilbertBuffer.Trace` | p61/Curve.cpp:186-203 | The fill loop writes one record per point, with the point's direction as its normal |
| `HilbertBuffer.Build` | p61/Curve.cpp:156-203 | `Count` is the path length, plus 4 with adjacency, and the buffer holds the records of the processed points |
| `HilbertBuffer.CreateHilbertCurve` | p61/Curve.cpp:143-210 | The shared turtle records 383 points and moves 5 faces on; `Count` is 383, or 387 with adjacency |
| `Dds.FourCC` | p61/Texture.cpp:8-10 | A FourCC fits in 32 bits |
| `Dds.FourCCBytes` | p61/Texture.cpp:8-10 | ch0 is the low byte up to ch3 the high byte, little-endian |
| `Dds.FourCCInjective` | p61/Texture.cpp:13-17 | Different character codes give different FourCCs, so the five DXT codes are distinct |
| `Dds.WordSpells` | p61/Texture.cpp:105-107 | The word read at an offset equals a FourCC exactly when the four bytes there spell it |
| `Dds.Signed` | p61/Texture.cpp:155-157 | An unsigned header word stored into an `int` keeps its value modulo 2^32 and lies in the `int` range |
| `Dds.AcceptedCodes` | p61/Texture.cpp:131-150 | DXT1, DXT3 and DXT5 are accepted; DXT2 and DXT4 are not |
| `Dds.BufferSize` | p61/Texture.cpp:152 | The buffer size, in unsigned 32-bit arithmetic, is below 2^32 |
| `Dds.PixelBytes` | p61/Texture.cpp:160-161 | The pixel read gets the bytes from offset 128 on, at most the buffer size of them |
| `Dds.ReadCompressedTexture` | p61/Texture.cpp:93-165 | An unopened file or a wrong magic fails; an unknown FourCC fails; otherwise the header fields come from their fixed offsets, components are 3 for DXT1 else 4, and the size is `linearSize * factor` when there are mip levels |
| `Dds.UploadLevels` | p61/Texture.cpp:70-79 | The mip loop makes one upload per level, a count below 2 meaning one level |
| `Dds.BackToBack` | p61/Texture.cpp:70-79 | Level 0 starts at offset 0, each level starts where the previous one ends, and the dimensions halve, truncating as C does |
| `Dds.HalvedIsDivision` | p61/Texture.cpp:77-78 | For a non-negative dimension, k halvings divide by 2^k |
| `Dds.LevelsGrow` | p61/Texture.cpp:70-79 | For non-negative dimensions every level lies within what all the levels need together |
| `Dds.LoadTexture` | p61/Texture.cpp:38-91 | The load fails exactly when the read fails, and otherwise uploads every level from its offset, with no check against the buffer |
| `Dds.ShortBuffer` | p61/Texture.cpp:72-74 | A 4x4 DXT1 image with linear size 8 and 3 mip levels gets 16 bytes but its levels read 24 |
| `Dds.LoadTextureChecked` | p61/Texture.cpp:70-74 | With the missing check, the load succeeds exactly when the levels fit in the pixels read, and then every upload lies inside the buffer |
| `Dds.LastEnd` | p61/Texture.cpp:70-74 | The last level ends exactly where the bytes of all the levels end |
| `Dds.AllInside` | p61/Texture.cpp:70-79 | When the buffer holds what all the levels need, each upload lies inside it |
| `PngTexture.ResolvePath` | p63/Texture.cpp:15-26 | An absolute path is kept; otherwise the result starts with the folder, has a '/' after it exactly when the folder ends in no separator, and ends with the path |
| `PngTexture.ResolveIdempotent` | p63/Texture.cpp:16-25 | With an absolute assets folder, resolving an already resolved path changes nothing |
| `PngTexture.FormatFor` | p63/Texture.cpp:38-61 | bpp 1..4 gives a format, any other bpp is fatal; the internal format always equals the format, and the type is `GL_UNSIGNED_BYTE` |
| `PngTexture.FormatKeepsBpp` | p63/Texture.cpp:40-58 | The chosen format has as many one-byte channels as the image has bytes per pixel |
| `PngTexture.Load` | p63/Texture.cpp:28-61 | An unreadable file is fatal; otherwise the texture has the image's size and the format for its bpp, or fails on an unknown bpp |
| `PngTexture.TextureLoader.constructor` | p63/Texture.cpp:9 | The loader starts with the first-call flag set and no initialisation done |
| `PngTexture.TextureLoader.LoadTexture` | p63/Texture.cpp:7-61 | After any load the library has been initialised exactly once, and the result is `Load` of the resolved path |
| `Noise.RandhashValues` | p67/noise.h:54-61 | The wrapping 32-bit hash maps seeds 0, 1, 2 to 155489619, 548517411 and 1909112175, and maps the seed 12345391 (its xor constant) to 0 |
| `Noise.Identity` | p63/noise.cpp:87-90 | Before the shuffle, entry i of the table is i |
| `Noise.SwapPermutes` | p63/noise.cpp:99 | A swap keeps the table's entries |
| `Noise.SeedNext` | p63/noise.cpp:98 | Consecutive positions hash consecutive seeds, wrapping at 2^32 |
| `Noise.Draw` | p63/noise.cpp:98 | The swap partner `w % (i + 1)` is never past position i |
| `Noise.SwapStep` | p63/noise.cpp:97-100 | One more step of the shuffle swaps position i with its draw |
| `Noise.ShufflePermutes` | p63/noise.cpp:97-100 | The shuffle only rearranges: it keeps the multiset of entries |
| `Noise.ShuffleLeavesTail` | p63/noise.cpp:97-100 | Positions not yet reached still hold their entries |
| `Noise.ShuffleUsesWords` | p63/noise.cpp:97-100 | The shuffle reads only the hashes of its `n - 1` seeds: hashes that agree on those give the same table |
| `Noise.ShuffleKeepsPermutation` | p63/noise.cpp:94-101 | Reshuffling a permutation of 0..n-1 from any seed gives a permutation |
| `Noise.Noise3.constructor` | p63/noise.cpp:84-92 | The table is the shuffle of 0..n-1, so it is a permutation |
| `Noise.Noise3.Reinitialize` | p63/noise.cpp:94-101 | `reinitialize` takes a permutation table to its shuffle from the seed, which is again a permutation table |
| `Noise.Noise3.ShuffleTable` | p63/noise.cpp:97-100 | The loop swaps position i, from 1 up, with the position its hashed seed draws |
| `Noise.Noise3.SwapWithDraw` | p63/noise.cpp:98-99 | One pass swaps position i with `w % (i + 1)` |
| `Noise.UnsignedModN` | p67/noise.h:37-38 | Converting an `int` to unsigned does not change it modulo 128 |
| `Noise.Noise3.HashIndex` | p67/noise.h:37-38 | `hash_index` reads the table only at positions in [0, 128) and returns a value in [0, 128) for any i, j, k whose sums fit in an `int` |
| `Noise.Noise3.HashIndexMod` | p67/noise.h:37-38 | Its lookups are at the mathematical `mod 128` of each sum, negative operands included |
| `Noise.Barycentric` | p63/noise.cpp:8-22 | The cell is clamped to `[i_low, i_high - 2]`; below the range f is 0, inside it `i + f = x` with f in [0, 1) |
| `Noise.BarycentricAbove` | p63/noise.cpp:16-18 | Above the range the cell is `i_high - 2` and f is 1 |
| `Noise.LerpBetween` | p63/noise.cpp:24-26 | `lerp` meets both ends at 0 and 1 and stays between them for f in [0, 1] |
| `Noise.SmoothStepRange` | p67/noise.h:6-12 | `smooth_step` is 0 at 0 and 1 at 1 and never leaves [0, 1] |
| `Noise.RampRange` | p67/noise.h:20-23 | `ramp` is -1 below -1, 1 above 1, and stays within [-1, 1] |
| `LSystemXform.JoinSplit` | p72/GenerativeArt.py:128 | Splitting on single spaces loses nothing: joining the pieces gives the string back |
| `LSystemXform.SplitJoin` | p72/GenerativeArt.py:128 | Space-free tokens come back from splitting their join |
| `LSystemXform.Arity` | p72/GenerativeArt.py:130-178 | Every known command takes one to three numbers |
| `LSystemXform.ParseXform` | p72/GenerativeArt.py:126-184 | The command loop computes `Xform` of the string, errors included |
| `LSystemXform.ReadNumbers` | p72/GenerativeArt.py:135-177 | Reading k numbers after position t gives the first k tokens there as numbers, or the error of the first missing or unreadable one |
| `LSystemXform.NumbersReadEach` | p72/GenerativeArt.py:135-177 | A successful read holds, in order, the numbers the tokens read as |
| `LSystemXform.ReadFails` | p72/GenerativeArt.py:135-177 | A wanted number that is missing or does not read fails the whole parse with that error |
| `LSystemXform.ParseStep` | p72/GenerativeArt.py:130-178 | A known command whose numbers read contributes its matrix, and parsing resumes after its numbers |
| `LSystemXform.ParseCommands` | p72/GenerativeArt.py:130-182 | Well-formed commands parse to their matrices in order, followed by whatever comes after them |
| `LSystemXform.ParseWritten` | p72/GenerativeArt.py:126-184 | Commands written out with single spaces parse back to their matrices; a trailing lone token is ignored and an empty string is the identity |
| `LSystemXform.UnknownAborts` | p72/GenerativeArt.py:180-182 | An unknown command aborts the parse, whatever came before it |
| `LSystem.Candidates` | p72/GenerativeArt.py:104-108 | The candidates are exactly the rules with the requested name |
| `LSystem.Choose` | p72/GenerativeArt.py:120-124 | The weight loop always ends on one of the candidates |
| `LSystem.RandInt` | p72/GenerativeArt.py:119 | A draw from `randint(0, hi)` is at most `hi` |
| `LSystem.Pick` | p72/GenerativeArt.py:102-124 | `pick_rule` aborts when no rule has the name; it succeeds exactly when there is a candidate and the weights sum to at least 1, and then returns a rule of that name after one draw |
| `LSystem.ChooseWeighted` | p72/GenerativeArt.py:114-124 | With non-negative weights and a draw n below the total, candidate k is chosen exactly when n falls in k's share `[before(k), before(k) + w_k)` |
| `LSystem.PickRule` | p72/GenerativeArt.py:102-124 | The three loops compute `Pick` |
| `LSystem.Collect` | p72/GenerativeArt.py:104-108 | The first loop collects the candidates in document order |
| `LSystem.SumWeights` | p72/GenerativeArt.py:114-118 | The second loop sums the weights, 1 for a rule that gives none |
| `LSystem.Walk` | p72/GenerativeArt.py:120-124 | The third loop stops at the candidate `Choose` names |
| `LSystem.ExpandEntry` | p72/GenerativeArt.py:202-233 | Popping an entry computes `Expand`: discard, successor or statement loops |
| `LSystem.RunStatement` | p72/GenerativeArt.py:221-233 | The count loop repeats one statement `count` times, default 1 |
| `LSystem.Evaluate` | p72/GenerativeArt.py:186-236 | The stack loop computes `Evaluation`: the entry rule at depth 0, run until the stack is empty |
| `LSystem.RepeatCalls` | p72/GenerativeArt.py:221-226 | A `call` repeated k times multiplies its transform in k times, makes k draws and pushes k copies of the matrix one level deeper, each as it stood after its own repetition |
| `LSystem.RepeatInstances` | p72/GenerativeArt.py:221-230 | An `instance` repeated k times multiplies its transform in k times and appends k shapes, pushing and drawing nothing |
| `LSystem.ExpandSharesMatrix` | p72/GenerativeArt.py:222-230 | As written, all k shapes of an `instance` rule hold the matrix after the last repetition |
| `LSystem.ExpandCopiedPlacesEach` | p72/GenerativeArt.py:222-230 | With a copy per shape, shape i holds the matrix after i + 1 repetitions |
| `LSystem.ScaleByTwo` | p72/GenerativeArt.py:170-173 | "sa 2" is one uniform scale by 2 |
| `LSystem.SharedMatrixExample` | p72/GenerativeArt.py:218-230 | As written, `count="2" transforms="sa 2"` scales both boxes by 4 |
| `LSystem.CopiedMatrixExample` | p72/GenerativeArt.py:218-230 | With copies, the first box is scaled by 2 and the second by 4 |
| `LSystem.StatementsPushes` | p72/GenerativeArt.py:218-226 | The statement loops keep the stack below and push only entries one level deeper with rules of the document |
| `LSystem.ExpandKeepsDepths` | p72/GenerativeArt.py:204-226 | The depth limits keep every pushed entry between depth 0 and the largest limit |
| `LSystem.RunExtends` | p72/GenerativeArt.py:196-230 | Shapes are only ever appended |
| `LSystem.RunDiscards` | p72/GenerativeArt.py:202-209 | An entry popped while `max_depth` or more entries remain below it is thrown away |
| `LSystem.RunAtLimit` | p72/GenerativeArt.py:211-216 | At its rule's depth limit an entry is replaced by its successor at depth 0 with the same matrix, or dropped when there is none |
| `Columns.StrideAt` | p35/deploy/UpdateBlog.py:63-64 | Entry i of `items[c::step]` is item `c + i * step` |
| `Columns.StrideLength` | p35/deploy/UpdateBlog.py:63-64 | The slice holds exactly the positions `c + i * step` inside the list |
| `Columns.RowsBounds` | p35/deploy/UpdateBlog.py:67-80 | `Rows = ceil(n / columns)` rows hold n items, and one fewer does not |
| `Columns.ColumnLength` | p35/deploy/UpdateBlog.py:63-67 | Every column is `Rows` or `Rows - 1` long, the first `Rows` |
| `Columns.Longest` | p35/deploy/UpdateBlog.py:67 | The result bounds every element's length and is attained by one |
| `Columns.Shortest` | p35/deploy/UpdateBlog.py:79 | The result is at most every element's length and is attained by one |
| `Columns.LongestOf` | p35/deploy/UpdateBlog.py:67 | The loop behind `max(map(len, ...))` finds `Longest` |
| `Columns.LongestColumn` | p35/deploy/UpdateBlog.py:63-67 | The longest column has `Rows` items |
| `Columns.PaddedEven` | p35/deploy/UpdateBlog.py:67-72 | Since lengths differ by at most one, a single padding string makes every column exactly `Rows` long |
| `Columns.CellEntry` | p35/deploy/UpdateBlog.py:63-72 | The cell in row r of column c is item `c + r * columns`, or the padding string past the end |
| `Columns.ItemPlaced` | p35/deploy/UpdateBlog.py:63-64 | Item k lands in row `k // columns` of column `k % columns` |
| `Columns.LeftJustify` | p35/deploy/UpdateBlog.py:75-76 | `%-ws` keeps the string whole and pads it with spaces to width w |
| `Columns.LayoutLines` | p35/deploy/UpdateBlog.py:52-80 | No items give no lines; otherwise the layout fails exactly when there are no columns, and has `ceil(n / columns)` lines |
| `Columns.JoinLength` | p35/deploy/UpdateBlog.py:75-77 | A joined line is as long as its parts and the separators between them |
| `Columns.CellsWidth` | p35/deploy/UpdateBlog.py:75-80 | Every cell is exactly as wide as its column's widest entry and starts with that entry |
| `Columns.LineLength` | p35/deploy/UpdateBlog.py:75-80 | Every line has the same length: the column widths plus the separators |
| `Columns.FormatLine` | p35/deploy/UpdateBlog.py:79-80 | One line is the row's cells joined by the separator |
| `Columns.MakeSublists` | p35/deploy/UpdateBlog.py:63-64 | The first loop makes column c `items[c::columns]`, and none without columns |
| `Columns.PadColumns` | p35/deploy/UpdateBlog.py:70-72 | The padding loop appends one empty string to each column shorter than the longest |
| `Columns.ColumnWidths` | p35/deploy/UpdateBlog.py:75-77 | The width loop finds each column's widest entry |
| `Columns.EmitLines` | p35/deploy/UpdateBlog.py:79-80 | The `zip` loop yields one line per row until the shortest column runs out |
| `Columns.FormatColumns` | p35/deploy/UpdateBlog.py:52-80 | Running the generator to its end gives `Layout`: nothing for no items, an error for no columns, else the lines |

## Left out

- Graphics-library calls (buffer and texture uploads, filtering state, draw calls), windowing and the demos' render and update code are not modelled. The buffers they would receive are the methods' results.
- Floating point is modelled as exact `real` arithmetic, so rounding and the loop bounds tweaked against rounding are not captured. `cos`, `sin`, `pow`, `normalize` and `lerp`'s vector arithmetic are parameters or exact real formulas.
- The Möbius, torus and Klein evaluators, all vertex positions and normals of the Möbius viewers and parametric surfaces, and the `FlowNoise3` rotation are left out. So are `sample_sphere`, the noise basis and the noise evaluation (p63/noise.cpp:71-82, 103-163).
- Adjacency.ComputeAdjacency: the edge table is a `map` from the (tail, head) pair. The source's `A << 16` is computed as a signed `int` and sign-extended for heads of 0x8000 and up, which breaks its half swap; the model does not reproduce this. The unused `vertCount` parameter is dropped, and the caller's bound `vertexCount < 2^16` is `RecordsInRange`'s bound instead.
- Adjacency.ComputeAdjacency: a failed duplicate check is a fatal error in the source; the model returns `Err` and leaves `dest` as it was. The Judy array's iteration order is left open: the twin loop visits the keys in any order.
- Cylinder.CreateCylinder: requires at least one stack. With none, the source allocates a negative size.
- Parametric.OpenSurface: the division by `slices` when there are none is returned as an error rather than raised.
- Viewer.CreateIndexBuffer and CtmViewer.CreateIndexBuffer take `Slices` and `Stacks` as parameters where the source fixes them (512 and 256 in p33/Viewer/Viewer.cpp:7-8, 128 and 64 in p35/CtmViewer.cpp:17-18); the vertex-buffer loops are not modelled.
- CurveBuffers.CreateSweep: `slices == 1`, where `dtheta` divides by zero, is excluded. So is a superellipse exponent of 0.
- HilbertBuffer.CreateHilbertCurve: the unused `slices` argument and the angle the fill loop advances but never reads are dropped.
- Dds.ReadCompressedTexture: requires the file to reach offset 88, the last header word it reads. For shorter files the source reads whatever the unfilled variables hold. An allocation failure and the leaks on the early returns are not modelled.
- Dds.LoadTexture: the pixels are the bytes read; bytes of the buffer beyond the end of the file stay uninitialised in the source and are not modelled.
- Dds.LoadTexture: `iSize` and `iOffset` are `int` in the source, and the level size `((w + 3) / 4) * ((h + 3) / 4) * blockSize`, the `w + 3` and the running offset overflow for large header dimensions (one 65536x65536 DXT5 level is 2^32 bytes). That signed overflow is undefined behaviour in C; the model computes level sizes and offsets as unbounded integers, so `Dds.BackToBack`, `Dds.LevelsGrow`, `Dds.LastEnd` and `Dds.AllInside` describe the mathematical sizes only.
- Dds.LoadTextureChecked: its fit test compares the unbounded total of the levels with the buffer; a corrected loader in C would also have to keep that total within `int`.
- PngTexture.TextureLoader.LoadTexture: `png_init` is a counter. Decoding is a parameter from the full path to the image header. Pixel data and the texture upload are left out.
- Noise.Noise3.constructor: takes the seed as it is after sampling the basis. The sampling's rejection loop consumes a number of seeds that depends on float results.
- LSystem.Evaluate: the XML arrives already parsed into rules and statements with typed attributes.
- LSystem.Evaluate: `random.seed`/`randint` are a stream of draws, and `int()`/`float()` text conversion is the parameter `number`.
- LSystem.Evaluate: the loop runs on `fuel`, one unit per popped entry, because a rule system with a cycle and no depth limit never ends in the source.
- LSystem.Evaluate: progress printing and the error messages' text are left out. A matrix is the list of its factors, never multiplied out.
- LSystem.Evaluate: the vector library `euclid` is not part of this model; whether `*=` updates the matrix in place is an assumption, see Findings.
- Columns.FormatColumns: the generator is modelled by the full list of lines it yields. A `%` in the separator, which the source would read as a format directive, is treated as text.
- A 16-bit index (`unsigned short`) is the type `VertexId`, an integer below 2^16. The viewers' 32-bit `GLuint` indices are unbounded integers, and a wrap past 2^32 is not modelled.
- Noise.Noise3.HashIndex: requires `i`, `j + 128` and `k + 128` to fit in an `int`. The source's signed overflow beyond that is undefined behaviour and is not modelled.
- The header comment of `CreateCylinder` says the tube is centred at (0.5, 0.5, 0.5); its Y and Z coordinates are `radius * cos` and `radius * sin` around 0. The model follows the code.

## Findings

| source | as written | input that shows it | evidently intended | confidence | as-written member | corrected member |
|---|---|---|---|---|---|---|
| p61/Texture.cpp:70-74 | the mip loop uploads each level from `Pixels + iOffset` without comparing the levels' total size with the buffer read | a 4x4 DXT1 file with linear size 8 and 3 mip levels: 16 bytes are read, the levels need 24 | reject (or clamp) a mip chain that does not fit in the pixel buffer | not executed; the overrun follows from the arithmetic alone | `Dds.ShortBuffer` | `Dds.LoadTextureChecked` |
| p33/Viewer/Viewer.cpp:162-168 | indices are not reduced, so the last slice names vertices `VertexCount .. VertexCount + Stacks - 1` while the vertex buffer holds `VertexCount` vertices | any `Slices, Stacks >= 1`: the third index of the last slice's first cell is `VertexCount` | stitch the last slice to slice 0, as p35/CtmViewer.cpp:183-188 does with `% VertexCount` | not executed | `Viewer.IndexPastVertexBuffer` | `CtmViewer.IndicesInRange` |
| p61/Curve.cpp:145-154 | `HilbertPath.clear()` does not reset the turtle's face, so a second `CreateHilbertCurve` starts on face 5 and every face number after it matches no case of the switch | two calls of `CreateHilbertCurve`: the second records 383 points of which all after the first 63 repeat one point | reset `Face` to 0 with the path | not executed | `Curve.SecondDrawingStalls` | `Curve.Turtle.DrawFromFirstFace` |
| p72/GenerativeArt.py:222-229 | `instance` appends the live `matrix` object, which the next repetition's `*=` goes on changing | `<instance count="2" transforms="sa 2" shape="box"/>`: both boxes end up scaled by 4 | one copy per shape, as `call` makes at line 225: the boxes scaled by 2 and 4 | not executed; depends on `euclid`'s `*=` updating the matrix in place | `LSystem.SharedMatrixExample` | `LSystem.CopiedMatrixExample` |
