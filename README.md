# tiny-renderer rasterization core in Dafny

This project models the core of `tiny-renderer`, a small software rasterizer
written in C. It covers two parts.

- The rasterizer in `Source/main.c`. It owns an RGB byte colour buffer of
  `3 * WIDTH * HEIGHT` bytes (`WIDTH = HEIGHT = 2048`). It clears the buffer to
  one colour and writes single pixels with `setPixel`. It maps normalized
  device coordinates (NDC) to pixels with `setViewPort` and tests them with
  `isInNDC`. It draws lines with integer Bresenham (`drawLine`). It draws
  triangles either as a bounding-box scan with a barycentric inside test
  (`Barycentric`) or as three lines (`drawTriangle`).
- In `Source/loader.c`: `get_dirname`, and the face loop of `LoadObjAndConvert`.
  That loop turns the OBJ parser's attribute record into the global
  `vertexArray` (three points per face, first two coordinates exchanged) and
  the interleaved vertex buffer `vb`. Each `vb` record holds a position, a
  normal, a colour derived from the normal, and a material colour.

Modules, one per component:

- `Common` (`common.dfy`): constants, `Point`/`PointF`, the `byte` type, and
  C's `int` to `unsigned char` conversion.
- `FrameBuffer` (`framebuffer.dfy`): `createBuffer`, `clearColor`, `setPixel`,
  and the buffer a sequence of pixel writes produces (`PaintAll`).
- `Ndc` (`ndc.dfy`): `setViewPort`, `isInNDC`.
- `BarycentricEval` (`barycentric.dfy`): `Barycentric`.
- `Line` (`line.dfy`): `drawLine`.
- `Triangle` (`triangle.dfy`): `drawTriangle`.
- `Dirname` (`dirname.dfy`): `get_dirname` and the `strrchr` it calls.
- `Blocks` (`blocks.dfy`): sequences cut into fixed-size blocks. This is the
  layout of `vertexArray` and `vb`.
- `ObjLoader` (`objloader.dfy`): the face loop and the return values of
  `LoadObjAndConvert`.

The colour buffer is an `array<byte>`. Every routine that writes it is a
`method` with `modifies data`. Each such method is proved against a
specification function: `ClearColor` leaves `Cleared(c)`; `SetPixel` leaves
`Painted(old, q, c)`; `DrawLine` and `DrawTriangle` leave
`PaintAll(old, pixels, c)` for an explicit, ordered list of pixels. The lemmas
state what those lists contain. `vertexArray` and `vb` are arrays filled by
nested loops, proved against `Points`/`Records`, which give their final
contents face by face.

Facts of the code that shape the model:

- `Barycentric` divides by `denom` without a check, so the model requires
  `denom != 0`.
- The bounding box of `drawTriangle` is not clamped to the raster; the
  model scans the same unclamped box.
- `setPixel(x, y)` addresses slot `x * WIDTH + y`.
- `drawLine` draws nothing unless both endpoints pass `isInNDC`.
- `LoadObjAndConvert` returns the face count when the parse succeeds with
  faces, and 1 when it succeeds with none.

## Model

| member | source | states |
|---|---|---|
| `Common.ToByte` | Source/main.c:33-35 | storing an `int` into an `unsigned char` keeps values 0..255 and otherwise reduces modulo 256 |
| `FrameBuffer.CreateBuffer` | Source/main.c:17-20 | a fresh buffer of `3 * width * height` bytes, all zero |
| `FrameBuffer.ClearColor` | Source/main.c:29-37 | the buffer afterwards is `Cleared(colour)`: byte `j` is channel `j % 3` of the colour |
| `FrameBuffer.ClearedPixels` | Source/main.c:29-37 | every pixel `i < WIDTH*HEIGHT` of a cleared buffer reads back as (r, g, b) at bytes `3i, 3i+1, 3i+2` |
| `FrameBuffer.SetPixel` | Source/main.c:79-84 | writes bytes `(x*WIDTH + y)*3 .. +2` with the colour; the caller keeps that index inside the buffer |
| `FrameBuffer.PaintedEffect` | Source/main.c:79-84 | one pixel write changes exactly the three bytes of its slot, to the colour, and leaves every other byte unchanged |
| `FrameBuffer.PaintAllEffect` | Source/main.c:79-84 | a sequence of pixel writes sets exactly the bytes of the written slots to the colour; all other bytes are unchanged |
| `FrameBuffer.PaintAllColours` | Source/main.c:79-84 | every written pixel holds the colour afterwards |
| `FrameBuffer.RasterPixelsInBuffer` | Source/main.c:79-84 | with WIDTH == HEIGHT, every `(x, y)` with `0 <= x, y < WIDTH` lies in the buffer, and distinct such pixels have distinct slots |
| `FrameBuffer.ColumnOverflowAliases` | Source/main.c:81 | the unchecked addressing lets column WIDTH of row x alias column 0 of row x+1, still inside the buffer |
| `Ndc.Trunc` | Source/main.c:41-42 | float-to-int conversion truncates toward zero: the result lies within one unit of the argument, on the side of 0 |
| `Ndc.IsInNDCIgnoresZ` | Source/main.c:45-51 | `isInNDC` never consults z: two points that differ only in z are both accepted or both rejected |
| `Ndc.ViewCoordInRange` | Source/main.c:39-43 | for c in [-1, 1), `trunc((c+1)*dim/2)` is a pixel index in [0, dim) |
| `Ndc.ViewCoordAtUpperBound` | Source/main.c:39-43 | for every `dim`, c = 1.0 maps to `dim`, one past the last pixel |
| `Ndc.ViewCoordMonotone` | Source/main.c:39-43 | the viewport map is monotone non-decreasing in c |
| `Ndc.ViewCoordRoundTrip` | Source/main.c:39-43 | NDC to pixel and back via `2*px/dim - 1` lands within one pixel width below the original coordinate |
| `Ndc.UpperCornerLeavesRaster` | Source/main.c:45-51 | the point (1, 1) passes `isInNDC` but maps to pixel (WIDTH, HEIGHT), outside the raster |
| `Ndc.InRasterNDCViewPort` | Source/main.c:39-51 | the half-open test [-1, 1) keeps the viewport pixel inside the raster; the points `isInNDC` adds map onto column WIDTH or row HEIGHT |
| `BarycentricEval.Barycentric` | Source/main.c:55-77 | with `denom != 0`, the weights u, v, w sum to 1 |
| `BarycentricEval.DenomIsSquaredArea` | Source/main.c:65-70 | `denom = d00*d11 - d01*d01` equals the square of the edges' cross product |
| `BarycentricEval.DenomSign` | Source/main.c:70 | `denom >= 0`, and `denom == 0` iff a, b, c are collinear |
| `BarycentricEval.BarycentricIsAreaRatio` | Source/main.c:55-77 | the Gram formula agrees with the edge-function definition: u, v, w are the signed sub-areas [pbc], [apc], [abp] over [abc] |
| `BarycentricEval.BarycentricAtVertices` | Source/main.c:55-77 | p = a, b, c gives (1,0,0), (0,1,0), (0,0,1) |
| `BarycentricEval.BarycentricReconstructs` | Source/main.c:55-77 | `u*a + v*b + w*c == p` in both coordinates |
| `BarycentricEval.BarycentricUnique` | Source/main.c:55-77 | any affine weights that reproduce p are the ones computed |
| `BarycentricEval.CoveredIffSameOrientation` | Source/main.c:162-165 | the "no weight negative" test equals an exact integer test: the three sub-areas each have the orientation of [abc] or vanish |
| `BarycentricEval.CoveredInBoundingBox` | Source/main.c:153-165 | every pixel the inside test accepts lies in the vertices' bounding box |
| `Line.Normalize` | Source/main.c:94-107 | after the steep and order swaps: `sx <= ex`, `0 <= abs(dy) <= dx`, `dx` is the larger coordinate distance, and the endpoints are the original ones, possibly exchanged |
| `Line.MinorStepsRange` | Source/main.c:108-126 | the loop's error term `error2` lies in (-dx, dx] at every pixel |
| `Line.BresenhamStep` | Source/main.c:121-126 | one iteration (`error2 += 2*abs(dy)`, then a step and `-= 2*dx` when it passes dx) yields exactly the step count and error of the next pixel |
| `Line.MinorStepsStep` | Source/main.c:121-126 | the minor coordinate moves by 0 or 1 per pixel |
| `Line.MinorStepsEnds` | Source/main.c:110-126 | no steps are taken before the first pixel, and exactly `abs(dy)` steps by the last |
| `Line.MinorStepsBounds` | Source/main.c:110-126 | the minor coordinate stays between its endpoint values |
| `Line.SpanEndpoints` | Source/main.c:111-127 | the first pixel written is the start and the last is the end |
| `Line.SpanInRaster` | Source/main.c:111-127 | a span whose endpoints are raster pixels writes only raster pixels |
| `Line.LineOutsideNDCIsNoOp` | Source/main.c:88 | unless both endpoints pass `isInNDC`, nothing is written and the buffer is unchanged |
| `Line.CornerLineLeavesBuffer` | Source/main.c:88-127 | a line from (1, 1) to itself passes the guard and writes pixel (WIDTH, HEIGHT), which is outside the buffer |
| `Line.LinePixelsInRaster` | Source/main.c:88-127 | with endpoints in the half-open NDC square, every written pixel is a raster pixel |
| `Line.LineEndpointsAndCount` | Source/main.c:106-127 | exactly `max(abs(dx), abs(dy)) + 1` pixels are written; the first and the last are the two viewport endpoints |
| `Line.LineConnected` | Source/main.c:111-127 | consecutive pixels advance the major axis by exactly 1 and the minor axis by at most 1, toward the end |
| `Line.LineNearIdeal` | Source/main.c:111-127 | each pixel is within half a pixel of the exact segment, along the minor axis |
| `Line.DrawSpan` | Source/main.c:106-127 | the Bresenham loop writes the span's pixels in order, undoing the steep swap at each write, and nothing else |
| `Line.DrawLine` | Source/main.c:86-129 | the buffer afterwards is the old buffer with `LinePixels(start, end)` written in order |
| `Triangle.ColumnHitsMembers` | Source/main.c:160-166 | the inner scan writes exactly the covered pixels of its column range |
| `Triangle.BoxHitsMembers` | Source/main.c:158-167 | the nested scan writes exactly the covered pixels of the box |
| `Triangle.FilledPixelsExact` | Source/main.c:134-168 | a pixel is filled iff all three points pass `isInNDC` and its three weights are all >= 0; the bounding box loses no covered pixel |
| `Triangle.FilledPixelsHaveVertices` | Source/main.c:134-168 | for a non-degenerate accepted triangle, each vertex pixel is written |
| `Triangle.FilledVerticesColoured` | Source/main.c:134-168 | afterwards each vertex pixel holds the triangle's colour |
| `Triangle.FilledKeepsUncovered` | Source/main.c:134-168 | a raster pixel the triangle does not cover keeps its old colour |
| `Triangle.FilledPixelsInRaster` | Source/main.c:134-168 | with vertices in the half-open NDC square, every filled pixel is a raster pixel |
| `Triangle.BoxInRaster` | Source/main.c:153-157 | with vertices in the half-open NDC square, the unclamped bounding box lies in the raster |
| `Triangle.FilledOutsideNDCIsNoOp` | Source/main.c:136 | a filled triangle with a vertex outside NDC writes nothing |
| `Triangle.WirePixelsProperties` | Source/main.c:170-175 | wireframe pixels stay in the raster under the half-open test, and all three viewport vertices are drawn |
| `Triangle.DrawTriangle` | Source/main.c:131-176 | the buffer afterwards is the old one with the filled pixels written in scan order, or with `drawLine` on edges (1,2), (2,3), (3,1) in turn |
| `Triangle.FillTriangle` | Source/main.c:134-169 | the filled branch writes `FilledPixels` and nothing else |
| `Triangle.FillBox` | Source/main.c:158-167 | the x loop writes the covered pixels of columns minX..maxX |
| `Triangle.FillColumn` | Source/main.c:160-166 | the y loop writes a pixel iff none of its weights is negative |
| `Dirname.LastIndexOf` | Source/loader.c:150 | the result is the last position holding the character, or None when it does not occur |
| `Dirname.Dirname` | Source/loader.c:150-161 | without '/' the path is returned whole; otherwise the result is the prefix before a '/' after which no '/' occurs |
| `Dirname.CutCString` | Source/loader.c:159 | writing NUL over a byte of the string cuts the C string there |
| `Dirname.StrRChr` | Source/loader.c:150 | finds the last '/' before the terminating NUL, or -1 |
| `Dirname.GetDirname` | Source/loader.c:139-162 | NULL returns NULL; the same pointer is always returned; a path without '/' is unchanged; otherwise only the byte at the last '/' becomes NUL, so the string reads as its directory part |
| `ObjLoader.FaceInFaces` | Source/loader.c:213-237 | `face_offset` at face i is the sum of `face_num_verts[0..i)`, it advances by `face_num_verts[i]`, and the face's corners lie inside `faces` |
| `ObjLoader.TriangulatedOffset` | Source/loader.c:346 | when every face has 3 corners, face i starts at corner 3i |
| `ObjLoader.TriangulatedVertex` | Source/loader.c:239-258 | when every face has 3 corners, `vertexArray[3i+k]` has x from component 1 and y from component 0 of vertex `faces[3i+k].v_idx` |
| `ObjLoader.TriangulatedRecordPosition` | Source/loader.c:299-303 | when every face has 3 corners, `vb` record 3i+k starts with that vertex's three components, unswapped |
| `ObjLoader.PointsAt` | Source/loader.c:224-258 | `vertexArray[3i+j]` is corner j of the last triangle of face i, or the allocated value when the face has none |
| `ObjLoader.RecordsAt` | Source/loader.c:299-341 | slot s of `vb` record 3i+k is slot s of the final record of corner k of face i |
| `ObjLoader.RecordMaterialColour` | Source/loader.c:326-340 | slots 9..11 of a record are `materials[material_ids[i]].diffuse` when the id is >= 0, and otherwise a copy of slots 6..8 |
| `ObjLoader.ShadeInUnitRange` | Source/loader.c:308-324 | with an exact square root, the normal-derived colour of a non-zero normal lies in [0, 1] |
| `ObjLoader.ShadeDirection` | Source/loader.c:308-324 | with an exact square root, the colour of a non-zero normal maps back by `2c - 1` to a vector of length 1 that is the normal divided by its (positive) length; the zero normal gives (0.5, 0.5, 0.5) |
| `ObjLoader.RecordColoursInUnitRange` | Source/loader.c:308-324 | slots 6..8 of every final record with a non-zero normal lie in [0, 1] |
| `ObjLoader.GeometricNormalPerpendicular` | Source/loader.c:52-76 | `CalcNormal` divides only N[0] and N[1]; multiplied back, the result is the edges' cross product and is perpendicular to both edges |
| `ObjLoader.WriteRecord` | Source/loader.c:299-341 | the twelve stores of a vertex record replace `vb[base..base+12]` by the record and change nothing else |
| `ObjLoader.WriteTriangleRecords` | Source/loader.c:299-342 | the k loop writes the triangle's three records contiguously and nothing else |
| `ObjLoader.ConvertTriangle` | Source/loader.c:227-342 | triangle f of face i overwrites `vertexArray[3i..3i+2]` (inside the `3*num_face_num_verts` allocation) and `vb` records 3i..3i+2, and nothing else |
| `ObjLoader.ConvertFace` | Source/loader.c:227-343 | after the f loop, face i's slots hold its last triangle, or stay as allocated |
| `ObjLoader.ConvertNextFace` | Source/loader.c:224-347 | one pass of the i loop appends face i's slots to the converted prefix |
| `ObjLoader.ConvertFaces` | Source/loader.c:213-347 | the i loop, with `face_offset` advancing by each face's corner count, fills both arrays with the final points and records of every face |
| `ObjLoader.LoadObjAndConvert` | Source/loader.c:186-364 | a failed parse returns 0; otherwise the arrays hold `Points`/`Records` of all faces, and the result is the face count when positive, else 1 |

## Findings

| source | as written | input that shows it | evidently intended | confidence | as-written member | corrected member |
|---|---|---|---|---|---|---|
| Source/main.c:47 | `isInNDC` accepts the closed upper bound 1.0, which `setViewPort` maps to pixel WIDTH | `drawLine` from (1.0, 1.0) to itself: both endpoints pass, and `setPixel(2048, 2048)` writes bytes `3*(2048*2048 + 2048)` onward, past the `3*2048*2048`-byte buffer | accept only [-1, 1), the NDC points whose viewport pixel is inside the raster (over the reals; in C the largest float below 1.0, 1 - 2^-24, rounds `x + 1.0f` to `2.0f` and also lands on pixel 2048, so a robust fix bounds the converted pixel coordinate rather than the NDC value) | high; derived from the code, not executed | `Line.CornerLineLeavesBuffer` | `Ndc.InRasterNDCViewPort` |

The half-open test is `Ndc.InRasterNDC`. The drawing routines take as their
precondition exactly what the C code needs: every pixel they write lies in
the buffer. `Line.LinePixelsInRaster`, `Triangle.FilledPixelsInRaster` and
`Triangle.WirePixelsProperties` prove that the half-open test guarantees this.

## Left out

- Floating point: `float` is modelled as `real`, so IEEE rounding in
  `setViewPort`, `Barycentric` and the loader's arithmetic is not modelled.
  Under IEEE a degenerate triangle gives `0/0 = NaN` weights. No comparison
  with NaN is true, so every pixel of its bounding box would pass the inside
  test. The model instead requires `denom != 0` (see `Triangle.Fillable`).
  Rounding also reaches the finding below: the half-open test keeps every
  pixel inside the raster over the reals only, since in `float` the largest
  value below 1.0 already maps to pixel 2048.
- BarycentricEval.Barycentric: requires `denom != 0`, because the C code
  divides without a guard. The model invents no sentinel.
- FrameBuffer.SetPixel: requires the written slot to lie inside the buffer,
  because a write outside it is undefined behaviour in C.
- Line.DrawLine: requires every written pixel to lie inside the buffer, for
  the same reason; the overflow itself is not modelled.
- Triangle.DrawTriangle: requires every written pixel to lie inside the
  buffer, for the same reason; the overflow itself is not modelled. The
  filled branch also requires `Triangle.Fillable`: when all three vertices
  pass `isInNDC`, their screen triangle must not be degenerate. The C code
  accepts a degenerate triangle and, under IEEE arithmetic, fills its whole
  bounding box; the model does not cover that case.
- Integer width: pixel coordinates, byte indices and `face_offset` are
  unbounded integers. No 32-bit overflow can occur for the 2048 x 2048
  raster. The `size_t` to `int` conversion of `num_triangles` in the return
  value is not modelled.
- `main`, `writeImage` (an image-encoding library), the random triangle
  colours, and the window code in `Source/Window.c`: file output, a foreign
  library, nondeterminism and a foreign graphics API.
- Allocation: `calloc`/`malloc` become fresh arrays. Slots of `vertexArray`
  and `vb` that the loop never writes (a face with fewer than three corners)
  are taken as zero, where C leaves them unspecified. `PointF.z` is never
  assigned in the C code and is 0 in the model. `free` and the leak of `vb`
  on the success path are not modelled.
- `mmap_file`, `get_file_data` and the OBJ parser: OS file mapping and an
  external parser. The parser's outcome (`ParseResult`) is an input.
- `ObjLoader.WellFormed`: what the loop relies on the parser for is a
  precondition. This means non-negative corner counts, enough corners,
  corner indices naming existing entries, and one material id per face,
  naming a loaded material when not negative. Out-of-range indices are
  undefined behaviour in C.
- The square root in `CalcNormal` and in the normal colour is a function
  parameter. The model assumes only that it is positive on positive
  arguments, or exact where a lemma says so.
- The `gDrawObject` bookkeeping after the loop (`o.vb = 0`,
  `o.numTriangles = 0`) has no observable effect on the return value and is
  not modelled. The global `vertexArray` becomes an out-parameter.
- The Windows branch of `get_dirname` (searching for a backslash) is not
  modelled; only the '/' branch is.
