/** The face loop of `LoadObjAndConvert` in loader.c: after the OBJ parser
    has filled an attribute record, every face contributes three projected
    points to the global `vertexArray` and three interleaved vertex records
    (position, normal, normal colour, material colour) to the buffer `vb`. */
module ObjLoader {
  import opened Common
  import opened Blocks

  /** Floats per vertex record, `OBJ_SIZE / sizeof(float)`: position, normal,
      colour from the normal, colour from the material. */
  const STRIDE: int := 12

  /** What `malloc` leaves in slots the loop never writes, taken as zero. */
  const UNSET_POINT: PointF := PointF(0.0, 0.0, 0.0)

  /** A `float[3]`. */
  datatype Vec3 = Vec3(x: real, y: real, z: real)

  /** `tinyobj_vertex_index_t`: the position, texture and normal index of one
      face corner; a missing index is negative. */
  datatype VertexIndex = VertexIndex(vIdx: int, vtIdx: int, vnIdx: int)

  /** The part of `tinyobj_material_t` the loop reads. */
  datatype Material = Material(diffuse: Vec3)

  /** The part of `tinyobj_attrib_t` the loop reads. `vertices` and `normals`
      are flat float arrays, three floats per entry; `faceNumVerts` has one
      entry per face and `materialIds` one material id per face. */
  datatype Attrib = Attrib(
    vertices: seq<real>,
    numNormals: int,
    normals: seq<real>,
    faces: seq<VertexIndex>,
    faceNumVerts: seq<int>,
    materialIds: seq<int>)

  /** The outcome of `tinyobj_parse_obj`. */
  datatype ParseResult = ParseFailure | ParseSuccess(attrib: Attrib, materials: seq<Material>)

  /** The square root the C code calls is a parameter of the model; dividing
      by it needs only that a positive argument has a positive root. */
  ghost predicate PositiveRoot(sqrt: real -> real)
  {
    forall r: real :: r > 0.0 ==> sqrt(r) > 0.0
  }

  /** An exact square root, for the lemmas that measure lengths. */
  ghost predicate ExactRoot(sqrt: real -> real)
  {
    forall r: real :: r >= 0.0 ==> sqrt(r) >= 0.0 && sqrt(r) * sqrt(r) == r
  }

  function Sum(s: seq<int>): (r: int)
    ensures (forall k :: 0 <= k < |s| ==> s[k] >= 0) ==> r >= 0
  {
    if s == [] then 0 else Sum(s[..|s| - 1]) + s[|s| - 1]
  }

  /** `face_offset` when face `i` starts: the corners of all earlier faces. */
  function FaceOffset(a: Attrib, i: int): int
    requires 0 <= i <= |a.faceNumVerts|
  {
    Sum(a.faceNumVerts[..i])
  }

  /** The number of triangles the inner loop takes from face `i`,
      `face_num_verts[i] / 3`. */
  function Triangles(a: Attrib, i: int): int
    requires 0 <= i < |a.faceNumVerts|
  {
    a.faceNumVerts[i] / 3
  }

  /** A corner whose position, and normal when normals are present and it
      names one, exist. */
  predicate IndexInRange(a: Attrib, idx: VertexIndex)
  {
    0 <= idx.vIdx && 3 * idx.vIdx + 2 < |a.vertices| &&
    (a.numNormals > 0 && idx.vnIdx >= 0 ==> 3 * idx.vnIdx + 2 < |a.normals|)
  }

  /** What the loop relies on the parser for: no negative corner count,
      enough corners for all faces, every corner index naming an existing
      entry, and one material id per face. */
  predicate WellFormed(a: Attrib)
  {
    (forall i :: 0 <= i < |a.faceNumVerts| ==> a.faceNumVerts[i] >= 0) &&
    Sum(a.faceNumVerts) <= |a.faces| &&
    (forall t :: 0 <= t < |a.faces| ==> IndexInRange(a, a.faces[t])) &&
    |a.materialIds| >= |a.faceNumVerts|
  }

  /** Every non-negative material id names a loaded material. */
  predicate MaterialIdsInRange(a: Attrib, materials: seq<Material>)
    requires |a.materialIds| >= |a.faceNumVerts|
  {
    forall i :: 0 <= i < |a.faceNumVerts| ==> a.materialIds[i] < |materials|
  }

  /** Everything the loop needs of its inputs together. */
  ghost predicate Loadable(a: Attrib, materials: seq<Material>, sqrt: real -> real)
  {
    WellFormed(a) && MaterialIdsInRange(a, materials) && PositiveRoot(sqrt)
  }

  lemma SumPrefixStep(s: seq<int>, i: int)
    requires 0 <= i < |s|
    ensures Sum(s[..i + 1]) == Sum(s[..i]) + s[i]
  {
    assert s[..i + 1][..i] == s[..i];
  }

  lemma {:induction false} SumPrefixBound(s: seq<int>, i: int)
    requires forall k :: 0 <= k < |s| ==> s[k] >= 0
    requires 0 <= i <= |s|
    ensures 0 <= Sum(s[..i]) <= Sum(s)
    decreases |s| - i
  {
    assert forall k :: 0 <= k < i ==> s[..i][k] >= 0;
    if i < |s| {
      SumPrefixStep(s, i);
      SumPrefixBound(s, i + 1);
    } else {
      assert s[..i] == s;
    }
  }

  /** `face_offset += face_num_verts[i]` keeps the offset equal to the corner
      count of the faces done, and every face's corners lie inside `faces`. */
  lemma FaceInFaces(a: Attrib, i: int)
    requires WellFormed(a)
    requires 0 <= i < |a.faceNumVerts|
    ensures FaceOffset(a, i + 1) == FaceOffset(a, i) + a.faceNumVerts[i]
    ensures 0 <= FaceOffset(a, i) && FaceOffset(a, i + 1) <= |a.faces|
  {
    SumPrefixStep(a.faceNumVerts, i);
    SumPrefixBound(a.faceNumVerts, i);
    SumPrefixBound(a.faceNumVerts, i + 1);
  }

  /** The corners `faces[face_offset + 3 * f + 0 .. 2]` of triangle `f` of
      face `i`. */
  function Corners(a: Attrib, i: int, f: int): (idx: seq<VertexIndex>)
    requires WellFormed(a)
    requires 0 <= i < |a.faceNumVerts| && 0 <= f < Triangles(a, i)
    ensures |idx| == 3
    ensures IndexInRange(a, idx[0]) && IndexInRange(a, idx[1]) && IndexInRange(a, idx[2])
  {
    FaceInFaces(a, i);
    var base := FaceOffset(a, i) + 3 * f;
    [a.faces[base], a.faces[base + 1], a.faces[base + 2]]
  }

  function Position(a: Attrib, idx: VertexIndex): Vec3
    requires IndexInRange(a, idx)
  {
    var b := 3 * idx.vIdx;
    Vec3(a.vertices[b], a.vertices[b + 1], a.vertices[b + 2])
  }

  function NormalAt(a: Attrib, idx: VertexIndex): Vec3
    requires IndexInRange(a, idx) && a.numNormals > 0 && idx.vnIdx >= 0
  {
    var b := 3 * idx.vnIdx;
    Vec3(a.normals[b], a.normals[b + 1], a.normals[b + 2])
  }

  function Sub(u: Vec3, v: Vec3): Vec3
  {
    Vec3(u.x - v.x, u.y - v.y, u.z - v.z)
  }

  function Cross(u: Vec3, v: Vec3): Vec3
  {
    Vec3(u.y * v.z - u.z * v.y, u.z * v.x - u.x * v.z, u.x * v.y - u.y * v.x)
  }

  function Dot(u: Vec3, v: Vec3): real
  {
    u.x * v.x + u.y * v.y + u.z * v.z
  }

  /** `CalcNormal`: the cross product of the edges `v2 - v0` and `v1 - v0`,
      of which only the first two components are divided by its length. */
  function CalcNormal(v0: Vec3, v1: Vec3, v2: Vec3, sqrt: real -> real): Vec3
    requires PositiveRoot(sqrt)
  {
    var n := Cross(Sub(v2, v0), Sub(v1, v0));
    var len2 := Dot(n, n);
    if len2 > 0.0 then
      var len := sqrt(len2);
      Vec3(n.x / len, n.y / len, n.z)
    else n
  }

  /** The colour derived from a normal: the normal divided by its length
      (when not zero), mapped from [-1, 1] to [0, 1]. */
  function Shade(nrm: Vec3, sqrt: real -> real): Vec3
    requires PositiveRoot(sqrt)
  {
    var len2 := Dot(nrm, nrm);
    var c := if len2 > 0.0 then
      var len := sqrt(len2);
      Vec3(nrm.x / len, nrm.y / len, nrm.z / len)
    else nrm;
    Vec3(c.x * 0.5 + 0.5, c.y * 0.5 + 0.5, c.z * 0.5 + 0.5)
  }

  /** The normals of a triangle's corners: the file's normals when there are
      any and all three corners name one, otherwise the geometric normal for
      all three. */
  function Normals(a: Attrib, idx: seq<VertexIndex>, sqrt: real -> real): (ns: seq<Vec3>)
    requires PositiveRoot(sqrt)
    requires |idx| == 3 && IndexInRange(a, idx[0]) && IndexInRange(a, idx[1]) && IndexInRange(a, idx[2])
    ensures |ns| == 3
  {
    if a.numNormals > 0 && idx[0].vnIdx >= 0 && idx[1].vnIdx >= 0 && idx[2].vnIdx >= 0 then
      [NormalAt(a, idx[0]), NormalAt(a, idx[1]), NormalAt(a, idx[2])]
    else
      var n := CalcNormal(Position(a, idx[0]), Position(a, idx[1]), Position(a, idx[2]), sqrt);
      [n, n, n]
  }

  /** A vertex record: position, normal, normal colour, and the material's
      diffuse colour, or the normal colour again for a face without one. */
  function VertexRecord(v: Vec3, nrm: Vec3, matId: int, materials: seq<Material>, sqrt: real -> real): (r: seq<real>)
    requires PositiveRoot(sqrt) && matId < |materials|
    ensures |r| == STRIDE
  {
    var c := Shade(nrm, sqrt);
    var m := if matId >= 0 then materials[matId].diffuse else c;
    [v.x, v.y, v.z, nrm.x, nrm.y, nrm.z, c.x, c.y, c.z, m.x, m.y, m.z]
  }

  /** The point stored for a vertex: `x` from its second coordinate, `y`
      from its first; `z` is never assigned. */
  function Projected(v: Vec3): PointF
  {
    PointF(v.y, v.x, 0.0)
  }

  /** Record `k` of triangle `f` of face `i`, as stored in `vb`. */
  function TriangleRecord(a: Attrib, materials: seq<Material>, sqrt: real -> real, i: int, f: int, k: int): (r: seq<real>)
    requires Loadable(a, materials, sqrt)
    requires 0 <= i < |a.faceNumVerts| && 0 <= f < Triangles(a, i) && 0 <= k < 3
    ensures |r| == STRIDE
  {
    var idx := Corners(a, i, f);
    VertexRecord(Position(a, idx[k]), Normals(a, idx, sqrt)[k], a.materialIds[i], materials, sqrt)
  }

  /** Slot `3 * i + j` of `vertexArray` after the loop: the last triangle of
      face `i` wins, and a face of fewer than three corners leaves the slot
      as allocated. */
  function FinalVertex(a: Attrib, i: int, j: int): PointF
    requires WellFormed(a)
    requires 0 <= i < |a.faceNumVerts| && 0 <= j < 3
  {
    if Triangles(a, i) == 0 then UNSET_POINT else TrianglePoints(a, i, Triangles(a, i) - 1)[j]
  }

  /** Record `3 * i + k` of `vb` after the loop, in the same way. */
  function FinalRecord(a: Attrib, materials: seq<Material>, sqrt: real -> real, i: int, k: int): (r: seq<real>)
    requires Loadable(a, materials, sqrt)
    requires 0 <= i < |a.faceNumVerts| && 0 <= k < 3
    ensures |r| == STRIDE
  {
    if Triangles(a, i) == 0 then Fill(STRIDE, 0.0)
    else TriangleRecord(a, materials, sqrt, i, Triangles(a, i) - 1, k)
  }

  /** The records of corners `vs` with normals `ns`, one after the other,
      as the `k` loop lays them out. */
  function RecordsOf(vs: seq<Vec3>, ns: seq<Vec3>, matId: int, materials: seq<Material>, sqrt: real -> real): (r: seq<real>)
    requires PositiveRoot(sqrt) && matId < |materials|
    requires |vs| == |ns|
    ensures |r| == |vs| * STRIDE
  {
    if |vs| == 0 then []
    else
      var m := |vs| - 1;
      RecordsOf(vs[..m], ns[..m], matId, materials, sqrt) + VertexRecord(vs[m], ns[m], matId, materials, sqrt)
  }

  /** Slot `s` of record `k` of a run of records. */
  lemma {:induction false} RecordsOfAt(vs: seq<Vec3>, ns: seq<Vec3>, matId: int, materials: seq<Material>, sqrt: real -> real, k: int, s: int)
    requires PositiveRoot(sqrt) && matId < |materials|
    requires |vs| == |ns| && 0 <= k < |vs| && 0 <= s < STRIDE
    ensures RecordsOf(vs, ns, matId, materials, sqrt)[k * STRIDE + s] == VertexRecord(vs[k], ns[k], matId, materials, sqrt)[s]
    decreases |vs|
  {
    var m := |vs| - 1;
    var prev := RecordsOf(vs[..m], ns[..m], matId, materials, sqrt);
    assert k * STRIDE + s < |prev| <==> k < m;
    if k < m {
      RecordsOfAt(vs[..m], ns[..m], matId, materials, sqrt, k, s);
    }
  }

  /** The three points triangle `f` of face `i` stores. */
  function TrianglePoints(a: Attrib, i: int, f: int): (ps: seq<PointF>)
    requires WellFormed(a)
    requires 0 <= i < |a.faceNumVerts| && 0 <= f < Triangles(a, i)
    ensures |ps| == 3
  {
    var idx := Corners(a, i, f);
    [Projected(Position(a, idx[0])), Projected(Position(a, idx[1])), Projected(Position(a, idx[2]))]
  }

  /** The three records triangle `f` of face `i` stores. */
  function TriangleRecords(a: Attrib, materials: seq<Material>, sqrt: real -> real, i: int, f: int): (r: seq<real>)
    requires Loadable(a, materials, sqrt)
    requires 0 <= i < |a.faceNumVerts| && 0 <= f < Triangles(a, i)
    ensures |r| == 3 * STRIDE
  {
    var idx := Corners(a, i, f);
    RecordsOf([Position(a, idx[0]), Position(a, idx[1]), Position(a, idx[2])],
              Normals(a, idx, sqrt), a.materialIds[i], materials, sqrt)
  }

  /** The points of triangles `0 .. f - 1` of face `i`, triangle by
      triangle. */
  function FaceTrianglePoints(a: Attrib, i: int, f: int): (ps: seq<seq<PointF>>)
    requires WellFormed(a)
    requires 0 <= i < |a.faceNumVerts| && 0 <= f <= Triangles(a, i)
    ensures |ps| == f && forall g :: 0 <= g < f ==> |ps[g]| == 3
    ensures forall g {:trigger TrianglePoints(a, i, g)} :: 0 <= g < f ==> ps[g] == TrianglePoints(a, i, g)
  {
    seq(f, g requires 0 <= g < f => TrianglePoints(a, i, g))
  }

  /** The records of triangles `0 .. f - 1` of face `i`, triangle by
      triangle. */
  function FaceTriangleRecords(a: Attrib, materials: seq<Material>, sqrt: real -> real, i: int, f: int): (rs: seq<seq<real>>)
    requires Loadable(a, materials, sqrt)
    requires 0 <= i < |a.faceNumVerts| && 0 <= f <= Triangles(a, i)
    ensures |rs| == f && forall g :: 0 <= g < f ==> |rs[g]| == 3 * STRIDE
    ensures forall g {:trigger TriangleRecords(a, materials, sqrt, i, g)} :: 0 <= g < f ==>
      rs[g] == TriangleRecords(a, materials, sqrt, i, g)
  {
    seq(f, g requires 0 <= g < f => TriangleRecords(a, materials, sqrt, i, g))
  }

  /** The points of every triangle of faces `0 .. n - 1`, face by face. */
  function PointTable(a: Attrib, n: int): (t: seq<seq<seq<PointF>>>)
    requires WellFormed(a) && 0 <= n <= |a.faceNumVerts|
    ensures |t| == n
    ensures Widths(t, 3)
  {
    seq(n, i requires 0 <= i < n => FaceTrianglePoints(a, i, Triangles(a, i)))
  }

  /** The records of every triangle of faces `0 .. n - 1`, face by face. */
  function RecordTable(a: Attrib, materials: seq<Material>, sqrt: real -> real, n: int): (t: seq<seq<seq<real>>>)
    requires Loadable(a, materials, sqrt)
    requires 0 <= n <= |a.faceNumVerts|
    ensures |t| == n
    ensures Widths(t, 3 * STRIDE)
  {
    seq(n, i requires 0 <= i < n => FaceTriangleRecords(a, materials, sqrt, i, Triangles(a, i)))
  }

  /** Entry `i` of the point table is face `i`'s points. */
  lemma PointTableAt(a: Attrib, n: int, i: int)
    requires WellFormed(a) && 0 <= i < n <= |a.faceNumVerts|
    ensures PointTable(a, n)[i] == FaceTrianglePoints(a, i, Triangles(a, i))
  {
  }

  /** Entry `i` of the record table is face `i`'s records. */
  lemma RecordTableAt(a: Attrib, materials: seq<Material>, sqrt: real -> real, n: int, i: int)
    requires Loadable(a, materials, sqrt)
    requires 0 <= i < n <= |a.faceNumVerts|
    ensures RecordTable(a, materials, sqrt, n)[i] == FaceTriangleRecords(a, materials, sqrt, i, Triangles(a, i))
  {
  }

  /** `tps` and `trs` list, face by face and triangle by triangle, the points
      and the records every triangle stores. */
  ghost predicate Tables(a: Attrib, materials: seq<Material>, sqrt: real -> real,
                         tps: seq<seq<seq<PointF>>>, trs: seq<seq<seq<real>>>)
    requires Loadable(a, materials, sqrt)
  {
    |tps| == |a.faceNumVerts| && |trs| == |a.faceNumVerts| &&
    (forall i :: 0 <= i < |a.faceNumVerts| ==> |tps[i]| == Triangles(a, i) && |trs[i]| == Triangles(a, i)) &&
    Widths(tps, 3) && Widths(trs, 3 * STRIDE) &&
    (forall i, g {:trigger TrianglePoints(a, i, g)} :: 0 <= i < |a.faceNumVerts| && 0 <= g < Triangles(a, i) ==>
       tps[i][g] == TrianglePoints(a, i, g)) &&
    (forall i, g {:trigger TriangleRecords(a, materials, sqrt, i, g)} :: 0 <= i < |a.faceNumVerts| && 0 <= g < Triangles(a, i) ==>
       trs[i][g] == TriangleRecords(a, materials, sqrt, i, g))
  }

  lemma TablesOf(a: Attrib, materials: seq<Material>, sqrt: real -> real)
    requires Loadable(a, materials, sqrt)
    ensures Tables(a, materials, sqrt, PointTable(a, |a.faceNumVerts|), RecordTable(a, materials, sqrt, |a.faceNumVerts|))
  {
    var n := |a.faceNumVerts|;
    forall i | 0 <= i < n
      ensures PointTable(a, n)[i] == FaceTrianglePoints(a, i, Triangles(a, i))
      ensures RecordTable(a, materials, sqrt, n)[i] == FaceTriangleRecords(a, materials, sqrt, i, Triangles(a, i))
    {
      PointTableAt(a, n, i);
      RecordTableAt(a, materials, sqrt, n, i);
    }
  }

  /** `vertexArray[.. 3 * n]` once the face loop has done faces `0 .. n - 1`:
      each face's slots hold the points of its last triangle, or what the
      allocation left when it has none. */
  function Points(a: Attrib, n: int): (ps: seq<PointF>)
    requires WellFormed(a) && 0 <= n <= |a.faceNumVerts|
    ensures |ps| == 3 * n
  {
    PointBlocks(PointTable(a, n), n);
    assert PointTable(a, n)[..n] == PointTable(a, n);
    Concat(LastBlocks(PointTable(a, n), Fill(3, UNSET_POINT)))
  }

  /** `vb[.. 3 * n * 12]` once the face loop has done faces `0 .. n - 1`,
      in the same way. */
  function Records(a: Attrib, materials: seq<Material>, sqrt: real -> real, n: int): (r: seq<real>)
    requires Loadable(a, materials, sqrt)
    requires 0 <= n <= |a.faceNumVerts|
    ensures |r| == 3 * n * STRIDE
  {
    RecordBlocks(RecordTable(a, materials, sqrt, n), n);
    assert RecordTable(a, materials, sqrt, n)[..n] == RecordTable(a, materials, sqrt, n);
    Concat(LastBlocks(RecordTable(a, materials, sqrt, n), Fill(3 * STRIDE, 0.0)))
  }

  /** Faces `0 .. i - 1` take three points each. */
  lemma PointBlocks(tps: seq<seq<seq<PointF>>>, i: int)
    requires 0 <= i <= |tps| && Widths(tps, 3)
    ensures |Concat(LastBlocks(tps[..i], Fill(3, UNSET_POINT)))| == 3 * i
  {
    BlocksLength(tps, i, Fill(3, UNSET_POINT));
  }

  /** Faces `0 .. i - 1` take three records of twelve floats each. */
  lemma RecordBlocks(trs: seq<seq<seq<real>>>, i: int)
    requires 0 <= i <= |trs| && Widths(trs, 3 * STRIDE)
    ensures |Concat(LastBlocks(trs[..i], Fill(3 * STRIDE, 0.0)))| == 3 * i * STRIDE
  {
    BlocksLength(trs, i, Fill(3 * STRIDE, 0.0));
  }

  /** The allocated records: `n` blocks of 36 zeros. */
  lemma RecordsAllocated(n: nat)
    ensures Concat(Fill(n, Fill(3 * STRIDE, 0.0))) == Fill(3 * n * STRIDE, 0.0)
  {
    ConcatFill(n, 3 * STRIDE, 0.0);
  }

  /** Slot `3 * i + j` of the points the loop leaves is corner `j` of the
      last triangle of face `i`. */
  lemma PointsAt(a: Attrib, n: int, i: int, j: int)
    requires WellFormed(a) && 0 <= i < n <= |a.faceNumVerts| && 0 <= j < 3
    ensures Points(a, n)[3 * i + j] == FinalVertex(a, i, j)
  {
    PointTableAt(a, n, i);
    FaceLastPointAt(a, i, j);
    PointSlot(a, n, i, j);
  }

  /** Slot `3 * i + j` of the points is slot `j` of the block of face `i`. */
  lemma PointSlot(a: Attrib, n: int, i: int, j: int)
    requires WellFormed(a) && 0 <= i < n <= |a.faceNumVerts| && 0 <= j < 3
    requires |LastBlock(PointTable(a, n)[i], Fill(3, UNSET_POINT))| == 3
    ensures Points(a, n)[3 * i + j] == LastBlock(PointTable(a, n)[i], Fill(3, UNSET_POINT))[j]
  {
    PointSlotOf(PointTable(a, n), i, j);
  }



  /** Slot `3 * i + j` of the concatenated last blocks of a point table is
      slot `j` of the block of face `i`. */
  lemma PointSlotOf(tps: seq<seq<seq<PointF>>>, i: int, j: int)
    requires Widths(tps, 3) && 0 <= i < |tps| && 0 <= j < 3
    requires |LastBlock(tps[i], Fill(3, UNSET_POINT))| == 3
    ensures 3 * i + j < |Concat(LastBlocks(tps, Fill(3, UNSET_POINT)))|
    ensures Concat(LastBlocks(tps, Fill(3, UNSET_POINT)))[3 * i + j] == LastBlock(tps[i], Fill(3, UNSET_POINT))[j]
  {
    PointBlocks(tps, i);
    ConcatLastAt(tps, Fill(3, UNSET_POINT), i, j, 3 * i);
  }

  /** Slot `s` of record `k` of face `i` lies `k * 12 + s` past the
      `3 * 12 * i` floats of the faces before it. */
  lemma RecordIndex(i: int, k: int, s: int)
    requires 0 <= k < 3 && 0 <= s < STRIDE
    ensures 0 <= k * STRIDE + s < 3 * STRIDE
    ensures 3 * i * STRIDE + (k * STRIDE + s) == (3 * i + k) * STRIDE + s
  {
  }

  /** Corner `j` of the last triangle of face `i`, or the allocated point. */
  lemma FaceLastPointAt(a: Attrib, i: int, j: int)
    requires WellFormed(a) && 0 <= i < |a.faceNumVerts| && 0 <= j < 3
    ensures |LastBlock(FaceTrianglePoints(a, i, Triangles(a, i)), Fill(3, UNSET_POINT))| == 3
    ensures LastBlock(FaceTrianglePoints(a, i, Triangles(a, i)), Fill(3, UNSET_POINT))[j] == FinalVertex(a, i, j)
  {
  }

  /** Slot `s` of record `k` of a triangle's records. */
  lemma TriangleRecordAt(a: Attrib, materials: seq<Material>, sqrt: real -> real, i: int, f: int, k: int, s: int)
    requires Loadable(a, materials, sqrt)
    requires 0 <= i < |a.faceNumVerts| && 0 <= f < Triangles(a, i) && 0 <= k < 3 && 0 <= s < STRIDE
    ensures TriangleRecords(a, materials, sqrt, i, f)[k * STRIDE + s] == TriangleRecord(a, materials, sqrt, i, f, k)[s]
  {
    var idx := Corners(a, i, f);
    var vs := [Position(a, idx[0]), Position(a, idx[1]), Position(a, idx[2])];
    RecordsOfAt(vs, Normals(a, idx, sqrt), a.materialIds[i], materials, sqrt, k, s);
  }

  /** Slot `s` of record `3 * i + k` of the records the loop leaves is slot
      `s` of record `k` of the last triangle of face `i`. */
  lemma RecordsAt(a: Attrib, materials: seq<Material>, sqrt: real -> real, n: int, i: int, k: int, s: int)
    requires Loadable(a, materials, sqrt)
    requires 0 <= i < n <= |a.faceNumVerts| && 0 <= k < 3 && 0 <= s < STRIDE
    ensures Records(a, materials, sqrt, n)[(3 * i + k) * STRIDE + s] == FinalRecord(a, materials, sqrt, i, k)[s]
  {
    RecordTableAt(a, materials, sqrt, n, i);
    FaceLastRecordAt(a, materials, sqrt, i, k, s);
    RecordsSlot(a, materials, sqrt, n, i, k, s);
  }

  /** Slot `s` of record `3 * i + k` is slot `k * 12 + s` of the block of
      face `i`. */
  lemma RecordsSlot(a: Attrib, materials: seq<Material>, sqrt: real -> real, n: int, i: int, k: int, s: int)
    requires Loadable(a, materials, sqrt)
    requires 0 <= i < n <= |a.faceNumVerts| && 0 <= k < 3 && 0 <= s < STRIDE
    requires |LastBlock(RecordTable(a, materials, sqrt, n)[i], Fill(3 * STRIDE, 0.0))| == 3 * STRIDE
    ensures Records(a, materials, sqrt, n)[(3 * i + k) * STRIDE + s]
         == LastBlock(RecordTable(a, materials, sqrt, n)[i], Fill(3 * STRIDE, 0.0))[k * STRIDE + s]
  {
    RecordSlotOf(RecordTable(a, materials, sqrt, n), i, k, s);
  }

  /** Slot `s` of record `3 * i + k` of the concatenated last blocks of a
      record table is slot `k * 12 + s` of the block of face `i`. */
  lemma RecordSlotOf(trs: seq<seq<seq<real>>>, i: int, k: int, s: int)
    requires Widths(trs, 3 * STRIDE) && 0 <= i < |trs| && 0 <= k < 3 && 0 <= s < STRIDE
    requires |LastBlock(trs[i], Fill(3 * STRIDE, 0.0))| == 3 * STRIDE
    ensures (3 * i + k) * STRIDE + s < |Concat(LastBlocks(trs, Fill(3 * STRIDE, 0.0)))|
    ensures Concat(LastBlocks(trs, Fill(3 * STRIDE, 0.0)))[(3 * i + k) * STRIDE + s]
         == LastBlock(trs[i], Fill(3 * STRIDE, 0.0))[k * STRIDE + s]
  {
    RecordIndex(i, k, s);
    RecordBlocks(trs, i);
    ConcatLastAt(trs, Fill(3 * STRIDE, 0.0), i, k * STRIDE + s, 3 * i * STRIDE);
  }

  /** Slot `s` of record `k` of the last triangle of face `i`, or the
      allocated value. */
  lemma FaceLastRecordAt(a: Attrib, materials: seq<Material>, sqrt: real -> real, i: int, k: int, s: int)
    requires Loadable(a, materials, sqrt)
    requires 0 <= i < |a.faceNumVerts| && 0 <= k < 3 && 0 <= s < STRIDE
    ensures |LastBlock(FaceTriangleRecords(a, materials, sqrt, i, Triangles(a, i)), Fill(3 * STRIDE, 0.0))| == 3 * STRIDE
    ensures LastBlock(FaceTriangleRecords(a, materials, sqrt, i, Triangles(a, i)), Fill(3 * STRIDE, 0.0))[k * STRIDE + s]
            == FinalRecord(a, materials, sqrt, i, k)[s]
  {
    FaceLastRecords(a, materials, sqrt, i);
    RecordIndex(i, k, s);
    if Triangles(a, i) > 0 {
      TriangleRecordAt(a, materials, sqrt, i, Triangles(a, i) - 1, k, s);
    }
  }

  /** The records the last triangle of face `i` leaves, or the allocated
      values. */
  lemma FaceLastRecords(a: Attrib, materials: seq<Material>, sqrt: real -> real, i: int)
    requires Loadable(a, materials, sqrt)
    requires 0 <= i < |a.faceNumVerts|
    ensures LastBlock(FaceTriangleRecords(a, materials, sqrt, i, Triangles(a, i)), Fill(3 * STRIDE, 0.0))
         == if Triangles(a, i) == 0 then Fill(3 * STRIDE, 0.0)
            else TriangleRecords(a, materials, sqrt, i, Triangles(a, i) - 1)
  {
  }


  /** With every face a triangle, as `TINYOBJ_FLAG_TRIANGULATE` requests,
      face `i` starts at corner `3 * i`. */
  lemma {:induction false} TriangulatedOffset(a: Attrib, i: int)
    requires forall k :: 0 <= k < |a.faceNumVerts| ==> a.faceNumVerts[k] == 3
    requires 0 <= i <= |a.faceNumVerts|
    ensures FaceOffset(a, i) == 3 * i
  {
    if i > 0 {
      TriangulatedOffset(a, i - 1);
      SumPrefixStep(a.faceNumVerts, i - 1);
    }
  }

  /** With every face a triangle, slot `3 * i + j` of `vertexArray` holds
      corner `j` of face `i` with its first two coordinates exchanged. */
  lemma TriangulatedVertex(a: Attrib, i: int, j: int)
    requires WellFormed(a)
    requires forall k :: 0 <= k < |a.faceNumVerts| ==> a.faceNumVerts[k] == 3
    requires 0 <= i < |a.faceNumVerts| && 0 <= j < 3
    ensures 3 * i + j < |a.faces|
    ensures var v := a.faces[3 * i + j].vIdx;
      0 <= v && 3 * v + 2 < |a.vertices| &&
      FinalVertex(a, i, j) == PointF(a.vertices[3 * v + 1], a.vertices[3 * v], 0.0)
  {
    TriangulatedOffset(a, i);
    FaceInFaces(a, i);
  }

  /** Record `3 * i + k` lies inside the records of faces `0 .. n - 1`. */
  lemma RecordInside(n: int, i: int, k: int)
    requires 0 <= i < n && 0 <= k < 3
    ensures 0 <= (3 * i + k) * STRIDE && (3 * i + k) * STRIDE + STRIDE <= 3 * n * STRIDE
  {
    assert 3 * i + k + 1 <= 3 * n;
  }

  /** Slots 9..11 of one vertex record: the material's diffuse colour, or a
      copy of slots 6..8. */
  lemma VertexRecordMaterial(v: Vec3, nrm: Vec3, matId: int, materials: seq<Material>, sqrt: real -> real)
    requires PositiveRoot(sqrt) && matId < |materials|
    ensures var r := VertexRecord(v, nrm, matId, materials, sqrt);
      && (matId >= 0 ==> r[9] == materials[matId].diffuse.x && r[10] == materials[matId].diffuse.y
                         && r[11] == materials[matId].diffuse.z)
      && (matId < 0 ==> r[9] == r[6] && r[10] == r[7] && r[11] == r[8])
  {
  }

  /** The material colour of a vertex record (slots 9..11): the diffuse
      colour of the face's material when its id is not negative, otherwise a
      copy of the normal colour in slots 6..8 of the same record. */
  lemma RecordMaterialColour(a: Attrib, materials: seq<Material>, sqrt: real -> real, n: int, i: int, k: int)
    requires Loadable(a, materials, sqrt)
    requires 0 <= i < n <= |a.faceNumVerts| && 0 <= k < 3
    requires Triangles(a, i) > 0
    ensures (3 * i + k) * STRIDE + STRIDE <= |Records(a, materials, sqrt, n)|
    ensures var r, b := Records(a, materials, sqrt, n), (3 * i + k) * STRIDE;
      && (a.materialIds[i] >= 0 ==>
            var d := materials[a.materialIds[i]].diffuse;
            r[b + 9] == d.x && r[b + 10] == d.y && r[b + 11] == d.z)
      && (a.materialIds[i] < 0 ==>
            r[b + 9] == r[b + 6] && r[b + 10] == r[b + 7] && r[b + 11] == r[b + 8])
  {
    RecordInside(n, i, k);
    FinalRecordMaterial(a, materials, sqrt, i, k);
    RecordSlots(a, materials, sqrt, n, i, k);
  }

  /** Record `3 * i + k` of the records the loop leaves is the final record
      of corner `k` of face `i`, slot by slot. */
  lemma RecordSlots(a: Attrib, materials: seq<Material>, sqrt: real -> real, n: int, i: int, k: int)
    requires Loadable(a, materials, sqrt)
    requires 0 <= i < n <= |a.faceNumVerts| && 0 <= k < 3
    ensures (3 * i + k) * STRIDE + STRIDE <= |Records(a, materials, sqrt, n)|
    ensures forall s :: 0 <= s < STRIDE ==>
      Records(a, materials, sqrt, n)[(3 * i + k) * STRIDE + s] == FinalRecord(a, materials, sqrt, i, k)[s]
  {
    RecordInside(n, i, k);
    forall s | 0 <= s < STRIDE
      ensures Records(a, materials, sqrt, n)[(3 * i + k) * STRIDE + s] == FinalRecord(a, materials, sqrt, i, k)[s]
    {
      RecordsAt(a, materials, sqrt, n, i, k, s);
    }
  }

  /** Slots 9..11 of the final record of a face with a triangle. */
  lemma FinalRecordMaterial(a: Attrib, materials: seq<Material>, sqrt: real -> real, i: int, k: int)
    requires Loadable(a, materials, sqrt)
    requires 0 <= i < |a.faceNumVerts| && 0 <= k < 3
    requires Triangles(a, i) > 0
    ensures var r := FinalRecord(a, materials, sqrt, i, k);
      && (a.materialIds[i] >= 0 ==>
            var d := materials[a.materialIds[i]].diffuse;
            r[9] == d.x && r[10] == d.y && r[11] == d.z)
      && (a.materialIds[i] < 0 ==> r[9] == r[6] && r[10] == r[7] && r[11] == r[8])
  {
    var idx := Corners(a, i, Triangles(a, i) - 1);
    FinalRecordOfLast(a, materials, sqrt, i, k);
    VertexRecordMaterial(Position(a, idx[k]), Normals(a, idx, sqrt)[k], a.materialIds[i], materials, sqrt);
  }

  /** With every face a triangle, the last (only) triangle of face `i` has
      corner `k` at `faces[3 * i + k]`. */
  lemma TriangulatedCorner(a: Attrib, i: int, k: int)
    requires WellFormed(a)
    requires forall t :: 0 <= t < |a.faceNumVerts| ==> a.faceNumVerts[t] == 3
    requires 0 <= i < |a.faceNumVerts| && 0 <= k < 3
    ensures Triangles(a, i) == 1
    ensures 3 * i + k < |a.faces| && Corners(a, i, 0)[k] == a.faces[3 * i + k]
  {
    TriangulatedOffset(a, i);
    FaceInFaces(a, i);
  }

  /** With every face a triangle, record `3 * i + k` starts with the
      position of corner `k` of face `i` as read, without the exchange of
      coordinates that `vertexArray` makes. */
  lemma TriangulatedRecordPosition(a: Attrib, materials: seq<Material>, sqrt: real -> real, i: int, k: int)
    requires Loadable(a, materials, sqrt)
    requires forall t :: 0 <= t < |a.faceNumVerts| ==> a.faceNumVerts[t] == 3
    requires 0 <= i < |a.faceNumVerts| && 0 <= k < 3
    ensures 3 * i + k < |a.faces|
    ensures var v, r, b := a.faces[3 * i + k].vIdx, Records(a, materials, sqrt, |a.faceNumVerts|), (3 * i + k) * STRIDE;
      && 0 <= v && 3 * v + 2 < |a.vertices| && 0 <= b && b + 2 < |r|
      && r[b] == a.vertices[3 * v] && r[b + 1] == a.vertices[3 * v + 1] && r[b + 2] == a.vertices[3 * v + 2]
  {
    var n := |a.faceNumVerts|;
    TriangulatedCorner(a, i, k);
    FinalRecordPosition(a, materials, sqrt, i, k);
    RecordSlots(a, materials, sqrt, n, i, k);
  }

  /** Slots 0..2 of the final record of a face with a triangle: the position
      of corner `k` of its last triangle. */
  lemma FinalRecordPosition(a: Attrib, materials: seq<Material>, sqrt: real -> real, i: int, k: int)
    requires Loadable(a, materials, sqrt)
    requires 0 <= i < |a.faceNumVerts| && 0 <= k < 3
    requires Triangles(a, i) > 0
    ensures var r, p := FinalRecord(a, materials, sqrt, i, k), Position(a, Corners(a, i, Triangles(a, i) - 1)[k]);
      r[0] == p.x && r[1] == p.y && r[2] == p.z
  {
    var idx := Corners(a, i, Triangles(a, i) - 1);
    FinalRecordOfLast(a, materials, sqrt, i, k);
    VertexRecordPosition(Position(a, idx[k]), Normals(a, idx, sqrt)[k], a.materialIds[i], materials, sqrt);
  }

  /** The final record of a face with a triangle is the vertex record of
      corner `k` of its last triangle. */
  lemma FinalRecordOfLast(a: Attrib, materials: seq<Material>, sqrt: real -> real, i: int, k: int)
    requires Loadable(a, materials, sqrt)
    requires 0 <= i < |a.faceNumVerts| && 0 <= k < 3
    requires Triangles(a, i) > 0
    ensures var idx := Corners(a, i, Triangles(a, i) - 1);
      FinalRecord(a, materials, sqrt, i, k)
        == VertexRecord(Position(a, idx[k]), Normals(a, idx, sqrt)[k], a.materialIds[i], materials, sqrt)
  {
  }

  /** Slots 0..2 of a vertex record hold the position. */
  lemma VertexRecordPosition(v: Vec3, nrm: Vec3, matId: int, materials: seq<Material>, sqrt: real -> real)
    requires PositiveRoot(sqrt) && matId < |materials|
    ensures var r := VertexRecord(v, nrm, matId, materials, sqrt);
      r[0] == v.x && r[1] == v.y && r[2] == v.z
  {
  }

  lemma SquareNonNeg(x: real)
    ensures x * x >= 0.0
  {
    if x < 0.0 {
      var y := -x;
      MulPos(y, y);
      assert y * y == x * x;
    } else {
      MulNonNeg(x, x);
    }
  }

  /** One component of a vector divided by the vector's length lies in [-1, 1]. */
  lemma ComponentInUnit(c: real, o1: real, o2: real, len: real)
    requires len > 0.0 && len * len == c * c + o1 * o1 + o2 * o2
    ensures -1.0 <= c / len <= 1.0
  {
    SquareBelowSum(c, o1, o2, len * len);
    UnitQuotient(c, len);
  }

  /** One square of a sum of three squares is at most the sum. */
  lemma SquareBelowSum(x: real, y: real, z: real, s: real)
    requires s == x * x + y * y + z * z
    ensures x * x <= s
  {
    SquareNonNeg(y);
    SquareNonNeg(z);
  }

  /** A component divided by a length at least as large lies in [-1, 1]. */
  lemma UnitQuotient(c: real, len: real)
    requires len > 0.0 && c * c <= len * len
    ensures -1.0 <= c / len <= 1.0
  {
    assert (len - c) * (len + c) == len * len - c * c;
    FactorsNonNeg(len - c, len + c);
    QuotientBetween(c, len);
  }

  /** Two numbers with a positive sum and a non-negative product are both
      non-negative. */
  lemma FactorsNonNeg(x: real, y: real)
    requires x * y >= 0.0 && x + y > 0.0
    ensures x >= 0.0 && y >= 0.0
  {
  }

  /** `-len <= c <= len` gives `-1 <= c / len <= 1` for a positive `len`. */
  lemma QuotientBetween(c: real, len: real)
    requires len > 0.0 && -len <= c <= len
    ensures -1.0 <= c / len <= 1.0
  {
  }

  /** An exact root is positive on positive arguments. */
  lemma ExactRootIsPositive(sqrt: real -> real)
    requires ExactRoot(sqrt)
    ensures PositiveRoot(sqrt)
  {
    forall r: real | r > 0.0 ensures sqrt(r) > 0.0 {
      assert sqrt(r) * sqrt(r) == r;
    }
  }

  /** The components of a vector divided by its length lie in [-1, 1]. */
  lemma NormalizedComponents(nrm: Vec3, len: real)
    requires len > 0.0 && len * len == Dot(nrm, nrm)
    ensures -1.0 <= nrm.x / len <= 1.0
    ensures -1.0 <= nrm.y / len <= 1.0
    ensures -1.0 <= nrm.z / len <= 1.0
  {
    ComponentInUnit(nrm.x, nrm.y, nrm.z, len);
    ComponentInUnit(nrm.y, nrm.x, nrm.z, len);
    ComponentInUnit(nrm.z, nrm.x, nrm.y, len);
  }

  /** With an exact root, every channel of the colour derived from a normal
      of positive length lies in [0, 1]. */
  lemma ShadeInUnitRange(nrm: Vec3, sqrt: real -> real)
    requires ExactRoot(sqrt)
    ensures PositiveRoot(sqrt)
    ensures Dot(nrm, nrm) > 0.0 ==>
      var c := Shade(nrm, sqrt);
      0.0 <= c.x <= 1.0 && 0.0 <= c.y <= 1.0 && 0.0 <= c.z <= 1.0
  {
    ExactRootIsPositive(sqrt);
    var len2 := Dot(nrm, nrm);
    if len2 > 0.0 {
      var len := sqrt(len2);
      assert len > 0.0 && len * len == len2;
      NormalizedComponents(nrm, len);
    }
  }

  /** With an exact root, the colour derived from a normal of positive length
      maps back, by `2c - 1`, to a unit vector pointing the same way as the
      normal; a zero normal gives mid-grey. */
  lemma ShadeDirection(nrm: Vec3, sqrt: real -> real)
    requires ExactRoot(sqrt)
    ensures PositiveRoot(sqrt)
    ensures Dot(nrm, nrm) > 0.0 ==>
      var c := Shade(nrm, sqrt);
      var d := Vec3(2.0 * c.x - 1.0, 2.0 * c.y - 1.0, 2.0 * c.z - 1.0);
      var len := sqrt(Dot(nrm, nrm));
      && Dot(d, d) == 1.0
      && len > 0.0 && d.x * len == nrm.x && d.y * len == nrm.y && d.z * len == nrm.z
    ensures nrm == Vec3(0.0, 0.0, 0.0) ==> Shade(nrm, sqrt) == Vec3(0.5, 0.5, 0.5)
  {
    ExactRootIsPositive(sqrt);
    var len2 := Dot(nrm, nrm);
    if len2 > 0.0 {
      var len := sqrt(len2);
      assert len > 0.0 && len * len == len2;
      UnitLength(nrm, len);
    }
  }

  /** A vector divided by its length has length 1. */
  lemma UnitLength(nrm: Vec3, len: real)
    requires Dot(nrm, nrm) > 0.0 && len > 0.0 && len * len == Dot(nrm, nrm)
    ensures var u := Vec3(nrm.x / len, nrm.y / len, nrm.z / len);
      Dot(u, u) == 1.0 && u.x * len == nrm.x && u.y * len == nrm.y && u.z * len == nrm.z
  {
    var u := Vec3(nrm.x / len, nrm.y / len, nrm.z / len);
    assert u.x * len == nrm.x && u.y * len == nrm.y && u.z * len == nrm.z;
    var sq := len * len;
    assert (u.x * u.x) * sq == (u.x * len) * (u.x * len) == nrm.x * nrm.x;
    assert (u.y * u.y) * sq == (u.y * len) * (u.y * len) == nrm.y * nrm.y;
    assert (u.z * u.z) * sq == (u.z * len) * (u.z * len) == nrm.z * nrm.z;
    assert Dot(u, u) * sq == (u.x * u.x) * sq + (u.y * u.y) * sq + (u.z * u.z) * sq;
    assert Dot(u, u) * sq == Dot(nrm, nrm) == sq;
    CancelFactor(Dot(u, u), sq, Dot(nrm, nrm));
  }

  /** A positive factor that a product leaves unchanged multiplies by 1. */
  lemma CancelFactor(a: real, b: real, d: real)
    requires d > 0.0 && b == d && a * b == d
    ensures a == 1.0
  {
    ProductSign(a - 1.0, b);
  }

  /** A positive factor keeps the sign of the other. */
  lemma ProductSign(c: real, b: real)
    requires b > 0.0
    ensures c > 0.0 ==> c * b > 0.0
    ensures c < 0.0 ==> c * b < 0.0
  {
    if c > 0.0 {
      MulPos(c, b);
    } else if c < 0.0 {
      MulPos(-c, b);
    }
  }

  /** With an exact root, the colour channels (slots 6..8) of every record
      of `vb` whose normal (slots 3..5) has positive length lie in [0, 1]. */
  lemma RecordColoursInUnitRange(a: Attrib, materials: seq<Material>, sqrt: real -> real, i: int, k: int)
    requires WellFormed(a) && MaterialIdsInRange(a, materials) && ExactRoot(sqrt)
    requires 0 <= i < |a.faceNumVerts| && 0 <= k < 3
    ensures PositiveRoot(sqrt)
    ensures var r := FinalRecord(a, materials, sqrt, i, k);
      var n := Vec3(r[3], r[4], r[5]);
      Dot(n, n) > 0.0 ==> forall s :: 6 <= s < 9 ==> 0.0 <= r[s] <= 1.0
  {
    ExactRootIsPositive(sqrt);
    if Triangles(a, i) > 0 {
      var idx := Corners(a, i, Triangles(a, i) - 1);
      ShadeInUnitRange(Normals(a, idx, sqrt)[k], sqrt);
    }
  }

  /** The geometric normal is perpendicular to both edges once its first two
      components are multiplied back by the length they were divided by. */
  lemma GeometricNormalPerpendicular(v0: Vec3, v1: Vec3, v2: Vec3, sqrt: real -> real)
    requires PositiveRoot(sqrt)
    ensures var n := CalcNormal(v0, v1, v2, sqrt);
      var cr := Cross(Sub(v2, v0), Sub(v1, v0));
      var s := if Dot(cr, cr) > 0.0 then sqrt(Dot(cr, cr)) else 1.0;
      var m := Vec3(n.x * s, n.y * s, n.z);
      m == cr && Dot(m, Sub(v1, v0)) == 0.0 && Dot(m, Sub(v2, v0)) == 0.0
  {
    NormalRescaled(v0, v1, v2, sqrt);
    CrossPerpendicular(Sub(v2, v0), Sub(v1, v0));
  }

  /** Scaling back the two divided components of `CalcNormal` recovers the
      cross product. */
  lemma NormalRescaled(v0: Vec3, v1: Vec3, v2: Vec3, sqrt: real -> real)
    requires PositiveRoot(sqrt)
    ensures var n := CalcNormal(v0, v1, v2, sqrt);
      var cr := Cross(Sub(v2, v0), Sub(v1, v0));
      var s := if Dot(cr, cr) > 0.0 then sqrt(Dot(cr, cr)) else 1.0;
      Vec3(n.x * s, n.y * s, n.z) == cr
  {
    var cr := Cross(Sub(v2, v0), Sub(v1, v0));
    if Dot(cr, cr) > 0.0 {
      var len := sqrt(Dot(cr, cr));
      DivideThenScale(cr.x, len);
      DivideThenScale(cr.y, len);
    }
  }

  /** Dividing by a non-zero length and multiplying back is the identity. */
  lemma DivideThenScale(c: real, len: real)
    requires len != 0.0
    ensures (c / len) * len == c
  {
  }

  lemma CrossPerpendicular(u: Vec3, v: Vec3)
    ensures Dot(Cross(u, v), u) == 0.0 && Dot(Cross(u, v), v) == 0.0
  {
  }

  /** Three consecutive stores, one `float[3]`. */
  method Store3(vb: array<real>, at: int, x: real, y: real, z: real)
    requires 0 <= at && at + 3 <= vb.Length
    modifies vb
    ensures vb[..] == Splice(old(vb[..]), at, [x, y, z])
  {
    vb[at + 0] := x;
    vb[at + 1] := y;
    vb[at + 2] := z;
  }

  /** The twelve stores of one vertex record at `vb[base .. base + 12]`; a
      face without material copies back the colour just stored in slots
      6..8. */
  method WriteRecord(vb: array<real>, base: int, v: Vec3, nrm: Vec3, matId: int,
                     materials: seq<Material>, sqrt: real -> real)
    requires PositiveRoot(sqrt) && matId < |materials|
    requires 0 <= base && base + STRIDE <= vb.Length
    modifies vb
    ensures vb[..] == Splice(old(vb[..]), base, VertexRecord(v, nrm, matId, materials, sqrt))
  {
    ghost var s0 := vb[..];
    Store3(vb, base + 0, v.x, v.y, v.z);
    Store3(vb, base + 3, nrm.x, nrm.y, nrm.z);
    SpliceAppend(s0, base, [v.x, v.y, v.z], [nrm.x, nrm.y, nrm.z]);
    var col := Shade(nrm, sqrt);
    Store3(vb, base + 6, col.x, col.y, col.z);
    SpliceAppend(s0, base, [v.x, v.y, v.z] + [nrm.x, nrm.y, nrm.z], [col.x, col.y, col.z]);
    ghost var head := [v.x, v.y, v.z] + [nrm.x, nrm.y, nrm.z] + [col.x, col.y, col.z];
    ghost var m := if matId >= 0 then materials[matId].diffuse else col;
    if matId >= 0 {
      Store3(vb, base + 9, materials[matId].diffuse.x, materials[matId].diffuse.y, materials[matId].diffuse.z);
    } else {
      Store3(vb, base + 9, vb[base + 6], vb[base + 7], vb[base + 8]);
    }
    SpliceAppend(s0, base, head, [m.x, m.y, m.z]);
    assert head + [m.x, m.y, m.z] == VertexRecord(v, nrm, matId, materials, sqrt);
  }

  /** One more corner appends its record. */
  lemma RecordsOfStep(vs: seq<Vec3>, ns: seq<Vec3>, matId: int, materials: seq<Material>, sqrt: real -> real, k: int)
    requires PositiveRoot(sqrt) && matId < |materials|
    requires |vs| == |ns| && 0 <= k < |vs|
    ensures RecordsOf(vs[..k + 1], ns[..k + 1], matId, materials, sqrt)
         == RecordsOf(vs[..k], ns[..k], matId, materials, sqrt) + VertexRecord(vs[k], ns[k], matId, materials, sqrt)
  {
    assert vs[..k + 1][..k] == vs[..k] && ns[..k + 1][..k] == ns[..k];
  }

  /** Record `k` of three fits in the triangle's 36 floats. */
  lemma RecordFits(base: int, k: int, len: int)
    requires 0 <= k < 3 && 0 <= base && base + 3 * STRIDE <= len
    ensures 0 <= base + k * STRIDE && base + k * STRIDE + STRIDE <= len
  {
  }

  /** Writing record `k` right after the first `k` extends the run by one. */
  lemma RecordsSpliceStep(s: seq<real>, base: int, vs: seq<Vec3>, ns: seq<Vec3>, matId: int,
                          materials: seq<Material>, sqrt: real -> real, k: int)
    requires PositiveRoot(sqrt) && matId < |materials|
    requires |vs| == 3 && |ns| == 3 && 0 <= k < 3
    requires 0 <= base && base + 3 * STRIDE <= |s|
    ensures Splice(Splice(s, base, RecordsOf(vs[..k], ns[..k], matId, materials, sqrt)), base + k * STRIDE,
                   VertexRecord(vs[k], ns[k], matId, materials, sqrt))
         == Splice(s, base, RecordsOf(vs[..k + 1], ns[..k + 1], matId, materials, sqrt))
  {
    SpliceAppend(s, base, RecordsOf(vs[..k], ns[..k], matId, materials, sqrt),
                 VertexRecord(vs[k], ns[k], matId, materials, sqrt));
    RecordsOfStep(vs, ns, matId, materials, sqrt, k);
  }

  /** The `k` loop: the three records of a triangle with corner positions
      `vs` and normals `ns` at `vb[base .. base + 36]`, and nothing else. */
  method WriteTriangleRecords(vb: array<real>, base: int, vs: seq<Vec3>, ns: seq<Vec3>, matId: int,
                              materials: seq<Material>, sqrt: real -> real)
    requires PositiveRoot(sqrt) && matId < |materials|
    requires |vs| == 3 && |ns| == 3
    requires 0 <= base && base + 3 * STRIDE <= vb.Length
    modifies vb
    ensures vb[..] == Splice(old(vb[..]), base, RecordsOf(vs, ns, matId, materials, sqrt))
  {
    ghost var s0 := vb[..];
    SpliceSame(s0, base, []);
    var k := 0;
    while k < 3
      invariant 0 <= k <= 3
      invariant vb[..] == Splice(s0, base, RecordsOf(vs[..k], ns[..k], matId, materials, sqrt))
    {
      RecordFits(base, k, vb.Length);
      WriteRecord(vb, base + k * STRIDE, vs[k], ns[k], matId, materials, sqrt);
      RecordsSpliceStep(s0, base, vs, ns, matId, materials, sqrt, k);
      k := k + 1;
    }
    assert vs[..3] == vs && ns[..3] == ns;
  }

  /** One pass of the `f` loop: triangle `f` of face `i` overwrites slots
      `3 * i .. 3 * i + 2` of `vertexArray` and records `3 * i .. 3 * i + 2`
      of `vb`, and nothing else. */
  method ConvertTriangle(a: Attrib, materials: seq<Material>, sqrt: real -> real,
                         i: int, faceOffset: int, f: int,
                         ghost tps: seq<seq<seq<PointF>>>, ghost trs: seq<seq<seq<real>>>,
                         vertexArray: array<PointF>, vb: array<real>)
    requires Loadable(a, materials, sqrt) && Tables(a, materials, sqrt, tps, trs)
    requires 0 <= i < |a.faceNumVerts| && 0 <= f < Triangles(a, i)
    requires faceOffset == FaceOffset(a, i)
    requires vertexArray.Length == 3 * |a.faceNumVerts|
    requires vb.Length == 3 * |a.faceNumVerts| * STRIDE
    modifies vertexArray, vb
    ensures vertexArray[..] == Splice(old(vertexArray[..]), 3 * i, tps[i][f])
    ensures vb[..] == Splice(old(vb[..]), 3 * i * STRIDE, trs[i][f])
  {
    FaceInFaces(a, i);
    var idx0 := a.faces[faceOffset + 3 * f + 0];
    var idx1 := a.faces[faceOffset + 3 * f + 1];
    var idx2 := a.faces[faceOffset + 3 * f + 2];
    ghost var idx := Corners(a, i, f);
    assert idx == [idx0, idx1, idx2];

    var v0, v1, v2 := Position(a, idx0), Position(a, idx1), Position(a, idx2);
    var p1 := PointF(v0.y, v0.x, 0.0);
    var p2 := PointF(v1.y, v1.x, 0.0);
    var p3 := PointF(v2.y, v2.x, 0.0);
    vertexArray[0 + i * 3] := p1;
    vertexArray[1 + i * 3] := p2;
    vertexArray[2 + i * 3] := p3;
    assert vertexArray[..] == Splice(old(vertexArray[..]), 3 * i, [p1, p2, p3]);
    assert TrianglePoints(a, i, f) == [p1, p2, p3];

    var n0, n1, n2;
    if a.numNormals > 0 {
      if idx0.vnIdx >= 0 && idx1.vnIdx >= 0 && idx2.vnIdx >= 0 {
        n0, n1, n2 := NormalAt(a, idx0), NormalAt(a, idx1), NormalAt(a, idx2);
      } else {
        n0 := CalcNormal(v0, v1, v2, sqrt);
        n1, n2 := n0, n0;
      }
    } else {
      n0 := CalcNormal(v0, v1, v2, sqrt);
      n1, n2 := n0, n0;
    }
    var vs, ns := [v0, v1, v2], [n0, n1, n2];
    assert ns == Normals(a, idx, sqrt);
    assert RecordsOf(vs, ns, a.materialIds[i], materials, sqrt) == TriangleRecords(a, materials, sqrt, i, f);

    WriteTriangleRecords(vb, 3 * i * STRIDE, vs, ns, a.materialIds[i], materials, sqrt);
  }

  /** The `f` loop over the triangles of face `i`: its slots end up holding
      the last triangle, or stay as allocated when the face has fewer than
      three corners. */
  method ConvertFace(a: Attrib, materials: seq<Material>, sqrt: real -> real,
                     i: int, faceOffset: int,
                     ghost tps: seq<seq<seq<PointF>>>, ghost trs: seq<seq<seq<real>>>,
                     vertexArray: array<PointF>, vb: array<real>)
    requires Loadable(a, materials, sqrt) && Tables(a, materials, sqrt, tps, trs)
    requires 0 <= i < |a.faceNumVerts| && faceOffset == FaceOffset(a, i)
    requires vertexArray.Length == 3 * |a.faceNumVerts|
    requires vb.Length == 3 * |a.faceNumVerts| * STRIDE
    requires vertexArray[3 * i..3 * i + 3] == Fill(3, UNSET_POINT)
    requires vb[3 * i * STRIDE..3 * i * STRIDE + 3 * STRIDE] == Fill(3 * STRIDE, 0.0)
    modifies vertexArray, vb
    ensures vertexArray[..] == Splice(old(vertexArray[..]), 3 * i, LastBlock(tps[i], Fill(3, UNSET_POINT)))
    ensures vb[..] == Splice(old(vb[..]), 3 * i * STRIDE, LastBlock(trs[i], Fill(3 * STRIDE, 0.0)))
  {
    ghost var p0, r0 := vertexArray[..], vb[..];
    ghost var pd, rd := Fill(3, UNSET_POINT), Fill(3 * STRIDE, 0.0);
    SpliceSame(p0, 3 * i, pd);
    SpliceSame(r0, 3 * i * STRIDE, rd);
    var f := 0;
    while f < a.faceNumVerts[i] / 3
      invariant 0 <= f <= Triangles(a, i)
      invariant vertexArray[..] == Splice(p0, 3 * i, LastBlock(tps[i][..f], pd))
      invariant vb[..] == Splice(r0, 3 * i * STRIDE, LastBlock(trs[i][..f], rd))
    {
      ConvertTriangle(a, materials, sqrt, i, faceOffset, f, tps, trs, vertexArray, vb);
      SpliceTwice(p0, 3 * i, LastBlock(tps[i][..f], pd), tps[i][f]);
      SpliceTwice(r0, 3 * i * STRIDE, LastBlock(trs[i][..f], rd), trs[i][f]);
      f := f + 1;
    }
    assert tps[i][..f] == tps[i] && trs[i][..f] == trs[i];
  }

  /** One pass of the `i` loop: face `i` appends its slots to the converted
      prefix of each array, over slots that still hold their allocated
      values. */
  method ConvertNextFace(a: Attrib, materials: seq<Material>, sqrt: real -> real,
                         i: int, faceOffset: int,
                         ghost tps: seq<seq<seq<PointF>>>, ghost trs: seq<seq<seq<real>>>,
                         points: array<PointF>, records: array<real>)
    requires Loadable(a, materials, sqrt) && Tables(a, materials, sqrt, tps, trs)
    requires 0 <= i < |a.faceNumVerts| && faceOffset == FaceOffset(a, i)
    requires points.Length == 3 * |a.faceNumVerts| && records.Length == 3 * |a.faceNumVerts| * STRIDE
    requires points[..] == Progress(tps, i, Fill(3, UNSET_POINT), |a.faceNumVerts|)
    requires records[..] == Progress(trs, i, Fill(3 * STRIDE, 0.0), |a.faceNumVerts|)
    modifies points, records
    ensures points[..] == Progress(tps, i + 1, Fill(3, UNSET_POINT), |a.faceNumVerts|)
    ensures records[..] == Progress(trs, i + 1, Fill(3 * STRIDE, 0.0), |a.faceNumVerts|)
  {
    NextPointSlots(tps, i, |a.faceNumVerts|);
    NextRecordSlots(trs, i, |a.faceNumVerts|);
    ConvertFace(a, materials, sqrt, i, faceOffset, tps, trs, points, records);
  }

  /** Face `i` finds its three points, `3 * i ..`, still as allocated, and
      filling them with its last triangle takes the converted prefix one face
      further. */
  lemma NextPointSlots(tps: seq<seq<seq<PointF>>>, i: int, n: int)
    requires Widths(tps, 3) && |tps| == n && 0 <= i < n
    ensures 3 * i + 3 <= |Progress(tps, i, Fill(3, UNSET_POINT), n)|
    ensures Progress(tps, i, Fill(3, UNSET_POINT), n)[3 * i..3 * i + 3] == Fill(3, UNSET_POINT)
    ensures Progress(tps, i + 1, Fill(3, UNSET_POINT), n)
         == Splice(Progress(tps, i, Fill(3, UNSET_POINT), n), 3 * i, LastBlock(tps[i], Fill(3, UNSET_POINT)))
  {
    var d := Fill(3, UNSET_POINT);
    LastBlockWidth(tps, d, i);
    PointBlocks(tps, i);
    ProgressStep(tps, i, d, n, 3 * i, 3);
  }

  /** The same for face `i`'s three records, `3 * i * 12 ..`. */
  lemma NextRecordSlots(trs: seq<seq<seq<real>>>, i: int, n: int)
    requires Widths(trs, 3 * STRIDE) && |trs| == n && 0 <= i < n
    ensures 3 * i * STRIDE + 3 * STRIDE <= |Progress(trs, i, Fill(3 * STRIDE, 0.0), n)|
    ensures Progress(trs, i, Fill(3 * STRIDE, 0.0), n)[3 * i * STRIDE..3 * i * STRIDE + 3 * STRIDE] == Fill(3 * STRIDE, 0.0)
    ensures Progress(trs, i + 1, Fill(3 * STRIDE, 0.0), n)
         == Splice(Progress(trs, i, Fill(3 * STRIDE, 0.0), n), 3 * i * STRIDE, LastBlock(trs[i], Fill(3 * STRIDE, 0.0)))
  {
    var d := Fill(3 * STRIDE, 0.0);
    LastBlockWidth(trs, d, i);
    RecordBlocks(trs, i);
    ProgressStep(trs, i, d, n, 3 * i * STRIDE, 3 * STRIDE);
  }

  /** The `i` loop over all faces, starting from freshly allocated arrays;
      `face_offset` advances by each face's corner count. */
  method ConvertFaces(a: Attrib, materials: seq<Material>, sqrt: real -> real,
                      ghost tps: seq<seq<seq<PointF>>>, ghost trs: seq<seq<seq<real>>>,
                      points: array<PointF>, records: array<real>)
    requires Loadable(a, materials, sqrt) && Tables(a, materials, sqrt, tps, trs)
    requires points[..] == Fill(3 * |a.faceNumVerts|, UNSET_POINT)
    requires records[..] == Fill(3 * |a.faceNumVerts| * STRIDE, 0.0)
    modifies points, records
    ensures points[..] == Concat(LastBlocks(tps, Fill(3, UNSET_POINT)))
    ensures records[..] == Concat(LastBlocks(trs, Fill(3 * STRIDE, 0.0)))
  {
    var n := |a.faceNumVerts|;
    ConcatFill(n, 3, UNSET_POINT);
    RecordsAllocated(n);
    var faceOffset := 0;
    var i := 0;
    while i < n
      invariant 0 <= i <= n && faceOffset == FaceOffset(a, i)
      invariant points[..] == Progress(tps, i, Fill(3, UNSET_POINT), n)
      invariant records[..] == Progress(trs, i, Fill(3 * STRIDE, 0.0), n)
    {
      ConvertNextFace(a, materials, sqrt, i, faceOffset, tps, trs, points, records);
      FaceInFaces(a, i);
      faceOffset := faceOffset + a.faceNumVerts[i];
      i := i + 1;
    }
    ProgressDone(tps, Fill(3, UNSET_POINT));
    ProgressDone(trs, Fill(3 * STRIDE, 0.0));
  }

  /** `LoadObjAndConvert` from the parser's outcome on: 0 when parsing
      fails; otherwise a vertex array of three points per face and a record
      buffer of three records per face, filled face by face, and the return
      value `num_triangles` (the face count), or 1 when there are no
      faces. */
  method LoadObjAndConvert(parsed: ParseResult, sqrt: real -> real)
    returns (ret: int, vertexArray: array?<PointF>, vb: array?<real>)
    requires parsed.ParseSuccess? ==> Loadable(parsed.attrib, parsed.materials, sqrt)
    ensures parsed.ParseFailure? ==> ret == 0 && vertexArray == null && vb == null
    ensures parsed.ParseSuccess? ==>
      var a, n := parsed.attrib, |parsed.attrib.faceNumVerts|;
      ret == (if n > 0 then n else 1) &&
      vertexArray != null && fresh(vertexArray) && vertexArray[..] == Points(a, n) &&
      vb != null && fresh(vb) && vb[..] == Records(a, parsed.materials, sqrt, n)
  {
    if parsed.ParseFailure? {
      return 0, null, null;
    }
    var a, materials := parsed.attrib, parsed.materials;
    var numTriangles := |a.faceNumVerts|;
    var points := new PointF[numTriangles * 3](_ => UNSET_POINT);
    var records := new real[STRIDE * numTriangles * 3](_ => 0.0);
    assert points[..] == Fill(3 * numTriangles, UNSET_POINT);
    assert records[..] == Fill(3 * numTriangles * STRIDE, 0.0);
    TablesOf(a, materials, sqrt);
    ConvertFaces(a, materials, sqrt, PointTable(a, numTriangles), RecordTable(a, materials, sqrt, numTriangles), points, records);
    vertexArray, vb := points, records;
    if numTriangles > 0 {
      ret := numTriangles;
    } else {
      ret := 1;
    }
  }
}
