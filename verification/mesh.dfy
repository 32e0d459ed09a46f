/**
 * `load_model_from_obj_file` of mesh.h: the OBJ reader, the smooth
 * per-vertex normals and the triangle list it returns.
 *
 * File opening and the `>>` extraction of numbers are not modelled: the
 * file is an optional sequence of lines (`None` when it cannot be
 * opened), each already split into its leading token and numbers. The
 * `vertex` type the triangles are built from is not part of this model;
 * a triangle of the mesh is its three vertices (position, normal, uv)
 * and its material.
 *
 * Face indices are stored as `uint32_t`, so `i - 1` wraps modulo 2^32;
 * the source indexes `positions` without a bounds check, so the model
 * requires every face number to name a vertex.
 */
module Mesh {
  import opened Vec
  import opened Wrappers

  /** One OBJ line, by its leading token. */
  datatype ObjLine =
    | VLine(x: real, y: real, z: real)      // `v x y z`
    | VtLine(u: real, v: real)              // `vt u v`
    | FLine(i0: int, i1: int, i2: int)      // `f i0 i1 i2`, 1-based
    | OtherLine                             // any other token: ignored

  /** The three vertex numbers of an `f` line. */
  datatype Corners = Corners(i0: int, i1: int, i2: int)

  datatype Vertex = Vertex(p: Point3, n: Vec3, uv: Vec3)

  datatype MeshTriangle = MeshTriangle(a: Vertex, b: Vertex, c: Vertex, mat: nat)

  const TwoTo32: int := 0x1_0000_0000

  /** `indices.push_back(i - 1)` into a `uint32_t` vector. */
  function StoredIndex(i: int): (k: nat)
    ensures k < TwoTo32
    ensures 1 <= i <= TwoTo32 ==> k == i - 1
    ensures i == 0 ==> k == TwoTo32 - 1
  {
    (i - 1) % TwoTo32
  }

  // -----------------------------------------------------------------------
  // What the file says, line kind by line kind, in file order

  /** The coordinates of the `v` lines. */
  function VLines(lines: seq<ObjLine>): seq<Vec3> {
    if |lines| == 0 then []
    else
      var last := lines[|lines| - 1];
      VLines(lines[..|lines| - 1]) + (if last.VLine? then [Vec3(last.x, last.y, last.z)] else [])
  }

  /** The `(u, v)` pairs of the `vt` lines. */
  function VtLines(lines: seq<ObjLine>): seq<(real, real)> {
    if |lines| == 0 then []
    else
      var last := lines[|lines| - 1];
      VtLines(lines[..|lines| - 1]) + (if last.VtLine? then [(last.u, last.v)] else [])
  }

  /** The vertex numbers of the `f` lines. */
  function FLines(lines: seq<ObjLine>): seq<Corners> {
    if |lines| == 0 then []
    else
      var last := lines[|lines| - 1];
      FLines(lines[..|lines| - 1]) + (if last.FLine? then [Corners(last.i0, last.i1, last.i2)] else [])
  }

  /** The parsed data of the first loop (mesh.h:25-59). */
  datatype ObjData = ObjData(positions: seq<Point3>, uvs: seq<Vec3>, indices: seq<nat>)

  /** `indices` holds, at `3f + j`, the stored index of corner `j` of face `f`. */
  predicate IndicesOf(indices: seq<nat>, faces: seq<Corners>) {
    && |indices| == 3 * |faces|
    && forall f :: 0 <= f < |faces| ==>
         && indices[3 * f] == StoredIndex(faces[f].i0)
         && indices[3 * f + 1] == StoredIndex(faces[f].i1)
         && indices[3 * f + 2] == StoredIndex(faces[f].i2)
  }

  /**
   * The reading loop: every `v` line adds one position scaled by `scale`,
   * every `vt` line one uv with `z = 0`, every `f` line three indices, and
   * other lines nothing.
   */
  method ReadObj(lines: seq<ObjLine>, scale: real) returns (d: ObjData)
    ensures ReadFrom(lines, scale, d)
  {
    d := ObjData([], [], []);
    var n := 0;
    while n < |lines|
      invariant 0 <= n <= |lines|
      invariant ReadFrom(lines[..n], scale, d)
    {
      ReadLineKeeps(lines, n, scale, d);
      d := ReadLine(d, lines[n], scale);
      n := n + 1;
    }
    assert lines[..n] == lines;
  }

  /** One pass of the reading loop's body: the push the line's token selects. */
  function ReadLine(d: ObjData, line: ObjLine, scale: real): ObjData {
    match line
    case VLine(x, y, z) => d.(positions := d.positions + [Vec3(x * scale, y * scale, z * scale)])
    case VtLine(u, v) => d.(uvs := d.uvs + [Vec3(u, v, 0.0)])
    case FLine(i0, i1, i2) => d.(indices := d.indices + [StoredIndex(i0), StoredIndex(i1), StoredIndex(i2)])
    case OtherLine => d
  }

  /** Reading line `n` extends what the first `n` lines gave to what the first `n + 1` lines give. */
  lemma ReadLineKeeps(lines: seq<ObjLine>, n: int, scale: real, d: ObjData)
    requires 0 <= n < |lines| && ReadFrom(lines[..n], scale, d)
    ensures ReadFrom(lines[..n + 1], scale, ReadLine(d, lines[n], scale))
  {
    PrefixStep(lines, n);
    var vs, ps, fs := VLines(lines[..n]), VtLines(lines[..n]), FLines(lines[..n]);
    match lines[n]
    case VLine(x, y, z) =>
      ScaledPoint(x, y, z, scale);
      PositionsAppend(d.positions, vs, scale, Vec3(x, y, z));
    case VtLine(u, v) =>
      UvsAppend(d.uvs, ps, u, v);
    case FLine(i0, i1, i2) =>
      IndicesAppend(d.indices, fs, Corners(i0, i1, i2));
    case OtherLine =>
  }

  /** `point3(x * scale, y * scale, z * scale)` is the point scaled by `scale`. */
  lemma ScaledPoint(x: real, y: real, z: real, scale: real)
    ensures Vec3(x * scale, y * scale, z * scale) == Scale(scale, Vec3(x, y, z))
  {}

  /** Reading one more line extends each kind's list by that line, if it is of that kind. */
  lemma PrefixStep(lines: seq<ObjLine>, n: int)
    requires 0 <= n < |lines|
    ensures VLines(lines[..n + 1]) == VLines(lines[..n]) + (if lines[n].VLine? then [Vec3(lines[n].x, lines[n].y, lines[n].z)] else [])
    ensures VtLines(lines[..n + 1]) == VtLines(lines[..n]) + (if lines[n].VtLine? then [(lines[n].u, lines[n].v)] else [])
    ensures FLines(lines[..n + 1]) == FLines(lines[..n]) + (if lines[n].FLine? then [Corners(lines[n].i0, lines[n].i1, lines[n].i2)] else [])
  {
    var p := lines[..n + 1];
    assert p[..|p| - 1] == lines[..n];
    assert p[|p| - 1] == lines[n];
  }

  /** `positions` holds, at `k`, the `k`-th `v` line's point scaled by `scale`. */
  predicate PositionsOf(positions: seq<Point3>, vs: seq<Vec3>, scale: real) {
    |positions| == |vs| && forall k :: 0 <= k < |vs| ==> positions[k] == Scale(scale, vs[k])
  }

  /** `uvs` holds, at `k`, the `k`-th `vt` line's pair with `z = 0`. */
  predicate UvsOf(uvs: seq<Vec3>, pairs: seq<(real, real)>) {
    |uvs| == |pairs| && forall k :: 0 <= k < |pairs| ==> uvs[k] == Vec3(pairs[k].0, pairs[k].1, 0.0)
  }

  lemma PositionsAppend(positions: seq<Point3>, vs: seq<Vec3>, scale: real, v: Vec3)
    requires PositionsOf(positions, vs, scale)
    ensures PositionsOf(positions + [Scale(scale, v)], vs + [v], scale)
  {
    var ps, ws := positions + [Scale(scale, v)], vs + [v];
    forall k | 0 <= k < |ws|
      ensures ps[k] == Scale(scale, ws[k])
    {
      if k < |vs| {
        assert ps[k] == positions[k] && ws[k] == vs[k];
      }
    }
  }

  lemma UvsAppend(uvs: seq<Vec3>, pairs: seq<(real, real)>, u: real, v: real)
    requires UvsOf(uvs, pairs)
    ensures UvsOf(uvs + [Vec3(u, v, 0.0)], pairs + [(u, v)])
  {
    var us, ps := uvs + [Vec3(u, v, 0.0)], pairs + [(u, v)];
    forall k | 0 <= k < |ps|
      ensures us[k] == Vec3(ps[k].0, ps[k].1, 0.0)
    {
      if k < |pairs| {
        assert us[k] == uvs[k] && ps[k] == pairs[k];
      }
    }
  }

  /** Pushing a face's three stored indices keeps `IndicesOf` for the longer face list. */
  lemma IndicesAppend(indices: seq<nat>, faces: seq<Corners>, c: Corners)
    requires IndicesOf(indices, faces)
    ensures IndicesOf(indices + [StoredIndex(c.i0), StoredIndex(c.i1), StoredIndex(c.i2)], faces + [c])
  {
    var ix, fs := indices + [StoredIndex(c.i0), StoredIndex(c.i1), StoredIndex(c.i2)], faces + [c];
    forall f | 0 <= f < |fs|
      ensures ix[3 * f] == StoredIndex(fs[f].i0)
      ensures ix[3 * f + 1] == StoredIndex(fs[f].i1)
      ensures ix[3 * f + 2] == StoredIndex(fs[f].i2)
    {
      if f < |faces| {
        assert fs[f] == faces[f];
      }
    }
  }

  // -----------------------------------------------------------------------
  // Smooth normals (mesh.h:61-82)

  /** Every stored index names a position, and the indices come in threes. */
  predicate ValidIndices(positions: seq<Point3>, indices: seq<nat>) {
    |indices| % 3 == 0 && forall k :: 0 <= k < |indices| ==> indices[k] < |positions|
  }

  /** `cross(p1 - p0, p2 - p0)` of face `f`. */
  function FaceNormal(positions: seq<Point3>, indices: seq<nat>, f: nat): Vec3
    requires ValidIndices(positions, indices) && f < |indices| / 3
  {
    var p0, p1, p2 := positions[indices[3 * f]], positions[indices[3 * f + 1]], positions[indices[3 * f + 2]];
    Cross(Sub(p1, p0), Sub(p2, p0))
  }

  /** How many of face `f`'s three corners are vertex `v`. */
  function Uses(indices: seq<nat>, f: nat, v: nat): nat
    requires 3 * f + 2 < |indices|
  {
    (if indices[3 * f] == v then 1 else 0)
    + (if indices[3 * f + 1] == v then 1 else 0)
    + (if indices[3 * f + 2] == v then 1 else 0)
  }

  /** The sum, over the first `f` faces, of each face's normal times the number of its corners at `v`. */
  function NormalSum(positions: seq<Point3>, indices: seq<nat>, f: nat, v: nat): Vec3
    requires ValidIndices(positions, indices) && f <= |indices| / 3
  {
    if f == 0 then Zero
    else Add(NormalSum(positions, indices, f - 1, v), Scale(Uses(indices, f - 1, v) as real, FaceNormal(positions, indices, f - 1)))
  }

  /** Adding `n` at each of the three corners adds `n` times the number of corners at each vertex. */
  lemma AddAtCorners(sums: seq<Vec3>, after: seq<Vec3>, i0: nat, i1: nat, i2: nat, n: Vec3, v: nat)
    requires i0 < |sums| && i1 < |sums| && i2 < |sums| && v < |sums|
    requires after == sums[i0 := Add(sums[i0], n)][i1 := Add(sums[i0 := Add(sums[i0], n)][i1], n)]
      [i2 := Add(sums[i0 := Add(sums[i0], n)][i1 := Add(sums[i0 := Add(sums[i0], n)][i1], n)][i2], n)]
    ensures after[v] == Add(sums[v], Scale(((if i0 == v then 1 else 0) + (if i1 == v then 1 else 0) + (if i2 == v then 1 else 0)) as real, n))
  {}

  /**
   * The normal loops: every position starts at the zero vector, each face
   * adds its normal at its three corners, then every sum is normalised.
   */
  method SmoothNormals(positions: seq<Point3>, indices: seq<nat>, sqrt: real -> real) returns (normals: seq<Vec3>)
    requires ValidIndices(positions, indices)
    ensures |normals| == |positions|
    ensures forall v :: 0 <= v < |normals| ==> normals[v] == UnitVector(NormalSum(positions, indices, |indices| / 3, v), sqrt)
  {
    normals := [];
    var i := 0;
    while i < |positions|
      invariant 0 <= i <= |positions| && |normals| == i
      invariant forall v :: 0 <= v < i ==> normals[v] == Zero
    {
      normals := normals + [Zero];
      i := i + 1;
    }
    var f := 0;
    while f < |indices| / 3
      invariant 0 <= f <= |indices| / 3 && |normals| == |positions|
      invariant forall v :: 0 <= v < |normals| ==> normals[v] == NormalSum(positions, indices, f, v)
    {
      var i0, i1, i2 := indices[3 * f], indices[3 * f + 1], indices[3 * f + 2];
      var p0, p1, p2 := positions[i0], positions[i1], positions[i2];
      var normal := Cross(Sub(p1, p0), Sub(p2, p0));
      var before := normals;
      normals := normals[i0 := Add(normals[i0], normal)];
      normals := normals[i1 := Add(normals[i1], normal)];
      normals := normals[i2 := Add(normals[i2], normal)];
      forall v | 0 <= v < |normals|
        ensures normals[v] == NormalSum(positions, indices, f + 1, v)
      {
        AddAtCorners(before, normals, i0, i1, i2, normal, v);
      }
      f := f + 1;
    }
    var k := 0;
    while k < |normals|
      invariant 0 <= k <= |normals| == |positions|
      invariant forall v :: 0 <= v < k ==> normals[v] == UnitVector(NormalSum(positions, indices, |indices| / 3, v), sqrt)
      invariant forall v :: k <= v < |normals| ==> normals[v] == NormalSum(positions, indices, |indices| / 3, v)
    {
      normals := normals[k := UnitVector(normals[k], sqrt)];
      k := k + 1;
    }
  }

  /** A vertex no face uses keeps the zero vector as its normal. */
  lemma {:induction false} UnusedVertexSum(positions: seq<Point3>, indices: seq<nat>, f: nat, v: nat)
    requires ValidIndices(positions, indices) && f <= |indices| / 3
    requires forall k :: 0 <= k < |indices| ==> indices[k] != v
    ensures NormalSum(positions, indices, f, v) == Zero
  {
    if f > 0 {
      UnusedVertexSum(positions, indices, f - 1, v);
      assert Uses(indices, f - 1, v) == 0;
    }
  }

  /** A vertex used once, by face `g` alone, gets the direction of that face's normal. */
  lemma {:induction false} SingleFaceSum(positions: seq<Point3>, indices: seq<nat>, f: nat, v: nat, g: nat)
    requires ValidIndices(positions, indices) && f <= |indices| / 3 && g < |indices| / 3
    requires forall k :: 0 <= k < |indices| && indices[k] == v ==> k / 3 == g
    requires Uses(indices, g, v) == 1
    ensures NormalSum(positions, indices, f, v) == if g < f then FaceNormal(positions, indices, g) else Zero
  {
    if f > 0 {
      SingleFaceSum(positions, indices, f - 1, v, g);
      if f - 1 != g {
        assert indices[3 * (f - 1)] != v by { assert (3 * (f - 1)) / 3 == f - 1; }
        assert indices[3 * (f - 1) + 1] != v by { assert (3 * (f - 1) + 1) / 3 == f - 1; }
        assert indices[3 * (f - 1) + 2] != v by { assert (3 * (f - 1) + 2) / 3 == f - 1; }
        assert Uses(indices, f - 1, v) == 0;
      }
    }
  }

  // -----------------------------------------------------------------------
  // Building the triangles (mesh.h:84-111)

  /** `i >= uvs.size() ? defaultUV : uvs[i]` */
  function UvAt(uvs: seq<Vec3>, i: nat): Vec3 {
    if i < |uvs| then uvs[i] else Zero
  }

  function VertexAt(positions: seq<Point3>, normals: seq<Vec3>, uvs: seq<Vec3>, i: nat): Vertex
    requires i < |positions| && |normals| == |positions|
  {
    Vertex(positions[i], normals[i], UvAt(uvs, i))
  }

  /** The triangle of face `f`. */
  function FaceTriangle(positions: seq<Point3>, normals: seq<Vec3>, uvs: seq<Vec3>, indices: seq<nat>, f: nat, mat: nat): MeshTriangle
    requires ValidIndices(positions, indices) && |normals| == |positions| && f < |indices| / 3
  {
    MeshTriangle(VertexAt(positions, normals, uvs, indices[3 * f]),
                 VertexAt(positions, normals, uvs, indices[3 * f + 1]),
                 VertexAt(positions, normals, uvs, indices[3 * f + 2]), mat)
  }

  /** The triangle loop: one triangle per face, in face order. */
  method BuildTriangles(positions: seq<Point3>, normals: seq<Vec3>, uvs: seq<Vec3>, indices: seq<nat>, mat: nat)
    returns (triangles: seq<MeshTriangle>)
    requires ValidIndices(positions, indices) && |normals| == |positions|
    ensures |triangles| == |indices| / 3
    ensures forall f :: 0 <= f < |triangles| ==> triangles[f] == FaceTriangle(positions, normals, uvs, indices, f, mat)
  {
    triangles := [];
    var i := 0;
    while i < |indices|
      invariant 0 <= i <= |indices| && i % 3 == 0
      invariant |triangles| == i / 3
      invariant forall f :: 0 <= f < |triangles| ==> triangles[f] == FaceTriangle(positions, normals, uvs, indices, f, mat)
    {
      var i0, i1, i2 := indices[i], indices[i + 1], indices[i + 2];
      assert 3 * (i / 3) == i;
      var v0 := Vertex(positions[i0], normals[i0], if i0 >= |uvs| then Zero else uvs[i0]);
      var v1 := Vertex(positions[i1], normals[i1], if i1 >= |uvs| then Zero else uvs[i1]);
      var v2 := Vertex(positions[i2], normals[i2], if i2 >= |uvs| then Zero else uvs[i2]);
      triangles := triangles + [MeshTriangle(v0, v1, v2, mat)];
      i := i + 3;
    }
  }

  // -----------------------------------------------------------------------
  // The whole loader

  /** `i` names one of `count` vertices, counting from 1, and fits the `uint32_t` index. */
  predicate Names(i: int, count: nat) {
    1 <= i <= count && i <= TwoTo32
  }

  /** Every face number names one of the `v` lines. */
  predicate FacesNameVertices(lines: seq<ObjLine>) {
    forall f :: 0 <= f < |FLines(lines)| ==>
      && Names(FLines(lines)[f].i0, |VLines(lines)|)
      && Names(FLines(lines)[f].i1, |VLines(lines)|)
      && Names(FLines(lines)[f].i2, |VLines(lines)|)
  }

  /**
   * `load_model_from_obj_file(filename, mat, scale)`. A file that cannot
   * be opened gives no triangles. Otherwise there is one triangle per `f`
   * line, in file order, and corner `j` of triangle `f` sits at the
   * position of the `v` line the `f` line numbers, scaled, with the uv of
   * the `vt` line of the same number or `(0, 0, 0)` if there is none,
   * and with the unit vector of the sum of the normals of every face that
   * uses that vertex.
   */
  method LoadModel(file: Option<seq<ObjLine>>, mat: nat, scale: real, sqrt: real -> real)
    returns (triangles: seq<MeshTriangle>)
    requires file.Some? ==> FacesNameVertices(file.value)
    ensures file.None? ==> triangles == []
    ensures file.Some? ==> |triangles| == |FLines(file.value)|
    ensures file.Some? ==> forall f :: 0 <= f < |triangles| ==> CornersFromLines(file.value, scale, triangles[f], f, mat, sqrt)
  {
    if file.None? {
      return [];
    }
    var lines := file.value;
    var d := ReadObj(lines, scale);
    ReadIndicesValid(lines, d.positions, d.indices);
    var normals := SmoothNormals(d.positions, d.indices, sqrt);
    triangles := BuildTriangles(d.positions, normals, d.uvs, d.indices, mat);
    forall f | 0 <= f < |triangles|
      ensures CornersFromLines(lines, scale, triangles[f], f, mat, sqrt)
    {
      TriangleFromLines(lines, scale, d, normals, f, mat, sqrt);
    }
  }

  /** The facts `ReadObj` establishes about `d`. */
  predicate ReadFrom(lines: seq<ObjLine>, scale: real, d: ObjData) {
    && PositionsOf(d.positions, VLines(lines), scale)
    && UvsOf(d.uvs, VtLines(lines))
    && IndicesOf(d.indices, FLines(lines))
  }

  /** With every face number naming a vertex, every stored index is a position's. */
  lemma ReadIndicesValid(lines: seq<ObjLine>, positions: seq<Point3>, indices: seq<nat>)
    requires FacesNameVertices(lines)
    requires |positions| == |VLines(lines)| && IndicesOf(indices, FLines(lines))
    ensures ValidIndices(positions, indices)
  {
    forall k | 0 <= k < |indices|
      ensures indices[k] < |positions|
    {
      var f := k / 3;
      var c := FLines(lines)[f];
      assert Names(c.i0, |VLines(lines)|) && Names(c.i1, |VLines(lines)|) && Names(c.i2, |VLines(lines)|);
      assert k == 3 * f || k == 3 * f + 1 || k == 3 * f + 2;
    }
  }

  /** The positions the `v` lines give, each scaled by `scale`. */
  function Positions(lines: seq<ObjLine>, scale: real): (ps: seq<Point3>)
    ensures PositionsOf(ps, VLines(lines), scale)
  {
    seq(|VLines(lines)|, k requires 0 <= k < |VLines(lines)| => Scale(scale, VLines(lines)[k]))
  }

  /** The stored index of corner `j` of `c`. */
  function CornerIndex(c: Corners, j: nat): nat {
    if j == 0 then StoredIndex(c.i0) else if j == 1 then StoredIndex(c.i1) else StoredIndex(c.i2)
  }

  /** The indices the `f` lines give: three per line, each the line's number less one, as a `uint32_t`. */
  function Indices(lines: seq<ObjLine>): (ix: seq<nat>)
    ensures IndicesOf(ix, FLines(lines))
  {
    var fs := FLines(lines);
    var ix := seq(3 * |fs|, k requires 0 <= k < 3 * |fs| => CornerIndex(fs[k / 3], k % 3));
    assert IndicesOf(ix, fs) by {
      forall f | 0 <= f < |fs|
        ensures ix[3 * f] == StoredIndex(fs[f].i0)
        ensures ix[3 * f + 1] == StoredIndex(fs[f].i1)
        ensures ix[3 * f + 2] == StoredIndex(fs[f].i2)
      {
        assert (3 * f) / 3 == f && (3 * f) % 3 == 0;
        assert (3 * f + 1) / 3 == f && (3 * f + 1) % 3 == 1;
        assert (3 * f + 2) / 3 == f && (3 * f + 2) % 3 == 2;
      }
    }
    ix
  }

  /** What `ReadFrom` states determines the data read: it is the lines' positions, uvs and indices. */
  lemma ReadDetermined(lines: seq<ObjLine>, scale: real, d: ObjData)
    requires ReadFrom(lines, scale, d)
    ensures d.positions == Positions(lines, scale)
    ensures d.indices == Indices(lines)
  {
    var fs, ix := FLines(lines), Indices(lines);
    forall k | 0 <= k < |ix|
      ensures d.indices[k] == ix[k]
    {
      var f := k / 3;
      assert k == 3 * f || k == 3 * f + 1 || k == 3 * f + 2;
    }
  }

  /** With every face number naming a vertex, the lines' indices all name one of the lines' positions. */
  lemma LinesIndicesValid(lines: seq<ObjLine>, scale: real)
    requires FacesNameVertices(lines)
    ensures ValidIndices(Positions(lines, scale), Indices(lines))
    ensures |Indices(lines)| / 3 == |FLines(lines)|
  {
    ReadIndicesValid(lines, Positions(lines, scale), Indices(lines));
  }

  /** The smooth normal of vertex number `i` (counting from 1): the unit sum of the normals of the faces at it. */
  function SmoothNormalOf(lines: seq<ObjLine>, scale: real, i: int, sqrt: real -> real): Vec3
    requires FacesNameVertices(lines) && Names(i, |VLines(lines)|)
  {
    LinesIndicesValid(lines, scale);
    UnitVector(NormalSum(Positions(lines, scale), Indices(lines), |FLines(lines)|, i - 1), sqrt)
  }

  /** Triangle `t` of face `f`, as the lines describe it: its corners' positions, uvs and normals, and its material. */
  predicate CornersFromLines(lines: seq<ObjLine>, scale: real, t: MeshTriangle, f: nat, mat: nat, sqrt: real -> real)
    requires FacesNameVertices(lines) && f < |FLines(lines)|
  {
    PlacedFromLines(lines, scale, t, f, mat) && NormalsFromLines(lines, scale, t, f, sqrt)
  }

  /** The positions, uvs and material of triangle `t` of face `f`, as the lines give them. */
  predicate PlacedFromLines(lines: seq<ObjLine>, scale: real, t: MeshTriangle, f: nat, mat: nat)
    requires FacesNameVertices(lines) && f < |FLines(lines)|
  {
    var vs, uvs, corners := VLines(lines), VtLines(lines), FLines(lines)[f];
    && t.a.p == Scale(scale, vs[corners.i0 - 1])
    && t.b.p == Scale(scale, vs[corners.i1 - 1])
    && t.c.p == Scale(scale, vs[corners.i2 - 1])
    && t.mat == mat
    && t.a.uv == UvOfLine(uvs, corners.i0)
    && t.b.uv == UvOfLine(uvs, corners.i1)
    && t.c.uv == UvOfLine(uvs, corners.i2)
  }

  /** Each corner of triangle `t` of face `f` has the smooth normal of the vertex the face numbers there. */
  predicate NormalsFromLines(lines: seq<ObjLine>, scale: real, t: MeshTriangle, f: nat, sqrt: real -> real)
    requires FacesNameVertices(lines) && f < |FLines(lines)|
  {
    var corners := FLines(lines)[f];
    && t.a.n == SmoothNormalOf(lines, scale, corners.i0, sqrt)
    && t.b.n == SmoothNormalOf(lines, scale, corners.i1, sqrt)
    && t.c.n == SmoothNormalOf(lines, scale, corners.i2, sqrt)
  }

  /** The uv of the `i`-th `vt` line, or `(0, 0, 0)` when there are fewer than `i`. */
  function UvOfLine(uvs: seq<(real, real)>, i: int): Vec3
    requires i >= 1
  {
    if i <= |uvs| then Vec3(uvs[i - 1].0, uvs[i - 1].1, 0.0) else Zero
  }

  lemma TriangleFromLines(lines: seq<ObjLine>, scale: real, d: ObjData, normals: seq<Vec3>, f: nat, mat: nat, sqrt: real -> real)
    requires FacesNameVertices(lines) && ReadFrom(lines, scale, d)
    requires ValidIndices(d.positions, d.indices) && |normals| == |d.positions|
    requires NormalsAre(d, normals, sqrt)
    requires f < |FLines(lines)|
    ensures CornersFromLines(lines, scale, FaceTriangle(d.positions, normals, d.uvs, d.indices, f, mat), f, mat, sqrt)
  {
    TrianglePlaced(lines, scale, d, normals, f, mat);
    TriangleNormals(lines, scale, d, normals, f, mat, sqrt);
  }

  lemma TrianglePlaced(lines: seq<ObjLine>, scale: real, d: ObjData, normals: seq<Vec3>, f: nat, mat: nat)
    requires FacesNameVertices(lines) && ReadFrom(lines, scale, d)
    requires ValidIndices(d.positions, d.indices) && |normals| == |d.positions|
    requires f < |FLines(lines)|
    ensures PlacedFromLines(lines, scale, FaceTriangle(d.positions, normals, d.uvs, d.indices, f, mat), f, mat)
  {
    var c := FLines(lines)[f];
    assert Names(c.i0, |VLines(lines)|) && Names(c.i1, |VLines(lines)|) && Names(c.i2, |VLines(lines)|);
  }

  lemma TriangleNormals(lines: seq<ObjLine>, scale: real, d: ObjData, normals: seq<Vec3>, f: nat, mat: nat, sqrt: real -> real)
    requires FacesNameVertices(lines) && ReadFrom(lines, scale, d)
    requires ValidIndices(d.positions, d.indices) && |normals| == |d.positions|
    requires NormalsAre(d, normals, sqrt)
    requires f < |FLines(lines)|
    ensures NormalsFromLines(lines, scale, FaceTriangle(d.positions, normals, d.uvs, d.indices, f, mat), f, sqrt)
  {
    var c := FLines(lines)[f];
    assert Names(c.i0, |VLines(lines)|) && Names(c.i1, |VLines(lines)|) && Names(c.i2, |VLines(lines)|);
    assert d.indices[3 * f] == StoredIndex(c.i0) && d.indices[3 * f + 1] == StoredIndex(c.i1)
        && d.indices[3 * f + 2] == StoredIndex(c.i2);
    CornerNormal(lines, scale, d, normals, c.i0, sqrt);
    CornerNormal(lines, scale, d, normals, c.i1, sqrt);
    CornerNormal(lines, scale, d, normals, c.i2, sqrt);
  }

  /** `normals` holds, at each vertex, the unit sum of the normals of the faces at it. */
  predicate NormalsAre(d: ObjData, normals: seq<Vec3>, sqrt: real -> real)
    requires ValidIndices(d.positions, d.indices)
  {
    && |normals| == |d.positions|
    && forall v :: 0 <= v < |normals| ==> normals[v] == UnitVector(NormalSum(d.positions, d.indices, |d.indices| / 3, v), sqrt)
  }

  /** The normal `SmoothNormals` computes for the vertex a face number names is that vertex's smooth normal. */
  lemma CornerNormal(lines: seq<ObjLine>, scale: real, d: ObjData, normals: seq<Vec3>, i: int, sqrt: real -> real)
    requires FacesNameVertices(lines) && ReadFrom(lines, scale, d)
    requires ValidIndices(d.positions, d.indices) && |normals| == |d.positions|
    requires NormalsAre(d, normals, sqrt)
    requires Names(i, |VLines(lines)|)
    ensures StoredIndex(i) < |normals|
    ensures normals[StoredIndex(i)] == SmoothNormalOf(lines, scale, i, sqrt)
  {
    var v := StoredIndex(i);
    assert v == i - 1;
    var n := |d.indices| / 3;
    assert n == |FLines(lines)| by {
      assert |d.indices| == 3 * |FLines(lines)|;
    }
    assert normals[v] == UnitVector(NormalSum(d.positions, d.indices, n, v), sqrt);
    ReadDetermined(lines, scale, d);
    LinesIndicesValid(lines, scale);
  }
}
