// Triangle meshes: `TriangleMesh::new` moves the vertex data to world space
// in place and checks the buffer lengths; a `Triangle` is a mesh and an id
// whose three vertices are read through the index buffer.
module Triangle {
  import opened Wrappers
  import opened Geom
  import opened Bounds
  import opened Transform

  // ------------------------------------------------------------ in-place rewriting

  /** A map over a sequence. */
  function Map(f: Vec3 --> Vec3, s: seq<Vec3>): (r: seq<Vec3>)
    requires forall i :: 0 <= i < |s| ==> f.requires(s[i])
    ensures |r| == |s| && forall i :: 0 <= i < |s| ==> r[i] == f(s[i])
  {
    seq(|s|, i requires 0 <= i < |s| => f(s[i]))
  }

  /** `for v in &mut xs { *v = f(*v) }`: every slot rewritten once, the length kept. */
  method MapInPlace(a: array<Vec3>, f: Vec3 --> Vec3)
    requires forall i :: 0 <= i < a.Length ==> f.requires(a[i])
    modifies a
    ensures a[..] == Map(f, old(a[..]))
  {
    ghost var before := a[..];
    for i := 0 to a.Length
      invariant forall j :: 0 <= j < i ==> a[j] == f(before[j])
      invariant forall j :: i <= j < a.Length ==> a[j] == before[j]
    {
      a[i] := f(a[i]);
    }
  }

  /** The projective divide of `transform_point` is defined (w is not zero). */
  predicate PointDefined(m: Mat4, p: Vec3) {
    MulVec(m, Vec4(p.x, p.y, p.z, 1.0)).w != 0.0
  }

  /** `object_to_world.transform` on a `Point3f`. */
  function PointFn(tf: Transform): Vec3 --> Vec3 {
    p requires PointDefined(tf.t, p) => TransformPoint(tf.t, p)
  }

  /** `object_to_world.transform` on a `Normal3`: `transform_normal` as written. */
  function NormalFn(tf: Transform): Vec3 -> Vec3 {
    n => TransformNormalAsWritten(tf, n)
  }

  /** `object_to_world.transform` on a `Vec3f`. */
  function VectorFn(tf: Transform): Vec3 -> Vec3 {
    v => TransformVector(tf.t, v)
  }

  // ------------------------------------------------------------ the mesh

  const U32Limit: int := 0x1_0000_0000

  type U32 = x: nat | x < 0x1_0000_0000

  datatype TriangleMesh = TriangleMesh(
    nTriangles: nat,
    vertexIndices: seq<U32>,
    vertices: seq<Vec3>,
    normals: Option<seq<Vec3>>,
    tangents: Option<seq<Vec3>>,
    texCoords: Option<seq<Vec2>>,
    reverseOrientation: bool,
    objectToWorld: Transform)

  /** The four `assert_eq!`s of `TriangleMesh::new`, in the order they run. */
  datatype MeshError = IndicesNotTriples | NormalCountMismatch | TangentCountMismatch | TexCoordCountMismatch

  /** `vertex_indices.len() as u32 / 3`: the length is truncated to 32 bits first. */
  function NTriangles(len: nat): (n: nat)
    ensures len < U32Limit ==> n == len / 3
    ensures 3 * n <= len
  {
    (len % U32Limit) / 3
  }

  /** An optional buffer has one entry per vertex, or is absent. */
  predicate PerVertex<T>(o: Option<seq<T>>, nVertices: nat) {
    o.None? || |o.value| == nVertices
  }

  /** What `new` establishes about every mesh it builds. */
  predicate MeshInvariant(m: TriangleMesh) {
    |m.vertexIndices| % 3 == 0 && m.nTriangles == NTriangles(|m.vertexIndices|) &&
    PerVertex(m.normals, |m.vertices|) && PerVertex(m.tangents, |m.vertices|) && PerVertex(m.texCoords, |m.vertices|)
  }

  /** The first failing `assert_eq!` of `new`, if any. */
  function FirstError(nIndices: nat, nVertices: nat, normals: Option<seq<Vec3>>, tangents: Option<seq<Vec3>>,
                      texCoords: Option<seq<Vec2>>): (e: Option<MeshError>)
    ensures e.None? <==> nIndices % 3 == 0 && PerVertex(normals, nVertices) && PerVertex(tangents, nVertices) && PerVertex(texCoords, nVertices)
    ensures e == Some(IndicesNotTriples) <==> nIndices % 3 != 0
    ensures e == Some(NormalCountMismatch) <==> nIndices % 3 == 0 && !PerVertex(normals, nVertices)
  {
    if nIndices % 3 != 0 then Some(IndicesNotTriples)
    else if !PerVertex(normals, nVertices) then Some(NormalCountMismatch)
    else if !PerVertex(tangents, nVertices) then Some(TangentCountMismatch)
    else if !PerVertex(texCoords, nVertices) then Some(TexCoordCountMismatch)
    else None
  }

  /** Rewrites a copy of `xs` in place through `f`. */
  method Rewrite(xs: seq<Vec3>, f: Vec3 --> Vec3) returns (r: seq<Vec3>)
    requires forall i :: 0 <= i < |xs| ==> f.requires(xs[i])
    ensures r == Map(f, xs)
  {
    var a := new Vec3[|xs|](i requires 0 <= i < |xs| reads {} => xs[i]);
    assert a[..] == xs;
    MapInPlace(a, f);
    r := a[..];
  }

  /**
   * `TriangleMesh::new`: a panicking `assert_eq!` becomes `Err`. On success
   * the vertices, and the normals and tangents when present, are the inputs
   * moved to world space, one for one; everything else is kept.
   */
  method NewMesh(objectToWorld: Transform, vertexIndices: seq<U32>, vertices: seq<Vec3>,
                 normals: Option<seq<Vec3>>, tangents: Option<seq<Vec3>>, texCoords: Option<seq<Vec2>>,
                 reverseOrientation: bool)
    returns (r: Result<TriangleMesh, MeshError>)
    requires forall i :: 0 <= i < |vertices| ==> PointDefined(objectToWorld.t, vertices[i])
    ensures var e := FirstError(|vertexIndices|, |vertices|, normals, tangents, texCoords);
      (r.Err? <==> e.Some?) && (r.Err? ==> r.error == e.value)
    ensures r.Ok? ==> MeshInvariant(r.value)
    ensures r.Ok? ==> r.value.nTriangles == NTriangles(|vertexIndices|) && r.value.vertexIndices == vertexIndices
    ensures r.Ok? ==> r.value.vertices == Map(PointFn(objectToWorld), vertices)
    ensures r.Ok? ==> r.value.normals == (if normals.None? then None else Some(Map(NormalFn(objectToWorld), normals.value)))
    ensures r.Ok? ==> r.value.tangents == (if tangents.None? then None else Some(Map(VectorFn(objectToWorld), tangents.value)))
    ensures r.Ok? ==> r.value.texCoords == texCoords && r.value.reverseOrientation == reverseOrientation
    ensures r.Ok? ==> r.value.objectToWorld == objectToWorld
  {
    if |vertexIndices| % 3 != 0 {
      return Err(IndicesNotTriples);
    }
    var nTriangles := (|vertexIndices| % U32Limit) / 3;
    var nVertices := |vertices|;
    var vs := Rewrite(vertices, PointFn(objectToWorld));
    var ns := None;
    if normals.Some? {
      if |normals.value| != nVertices {
        return Err(NormalCountMismatch);
      }
      var n := Rewrite(normals.value, NormalFn(objectToWorld));
      ns := Some(n);
    }
    var ts := None;
    if tangents.Some? {
      if |tangents.value| != nVertices {
        return Err(TangentCountMismatch);
      }
      var t := Rewrite(tangents.value, VectorFn(objectToWorld));
      ts := Some(t);
    }
    if texCoords.Some? && |texCoords.value| != nVertices {
      return Err(TexCoordCountMismatch);
    }
    r := Ok(TriangleMesh(nTriangles, vertexIndices, vs, ns, ts, texCoords, reverseOrientation, objectToWorld));
  }

  // ------------------------------------------------------------ triangles

  /** `Triangle { mesh, tri_id }` */
  datatype Triangle = Triangle(mesh: TriangleMesh, triId: nat)

  /** `iter_triangles`: ids `0..n_triangles` in order, all on the same mesh. */
  function IterTriangles(mesh: TriangleMesh): (r: seq<Triangle>)
    ensures |r| == mesh.nTriangles
    ensures forall i :: 0 <= i < |r| ==> r[i].mesh == mesh && r[i].triId == i
  {
    seq(mesh.nTriangles, (i: int) requires 0 <= i => Triangle(mesh, i))
  }

  /** The triangle's three index-buffer slots exist. */
  predicate HasIndices(t: Triangle) {
    3 * t.triId + 2 < |t.mesh.vertexIndices|
  }

  /** Every triangle `iter_triangles` yields can read its three slots. */
  lemma IterTrianglesHaveIndices(mesh: TriangleMesh)
    requires MeshInvariant(mesh)
    ensures forall t :: t in IterTriangles(mesh) ==> HasIndices(t)
  {
    forall t | t in IterTriangles(mesh)
      ensures HasIndices(t)
    {
      var i :| 0 <= i < |IterTriangles(mesh)| && IterTriangles(mesh)[i] == t;
      assert 3 * mesh.nTriangles <= |mesh.vertexIndices|;
    }
  }

  /** `vertex_indices`: slots `3*id`, `3*id+1`, `3*id+2` of the index buffer. */
  function VertexIndices(t: Triangle): (v: seq<nat>)
    requires HasIndices(t)
    ensures |v| == 3 && v == t.mesh.vertexIndices[3 * t.triId .. 3 * t.triId + 3]
  {
    var vi, k := t.mesh.vertexIndices, 3 * t.triId;
    [vi[k] as nat, vi[k + 1] as nat, vi[k + 2] as nat]
  }

  /** The index lists of triangles `0..n`, one after another. */
  function IndicesOfFirst(mesh: TriangleMesh, n: nat): seq<nat>
    requires 3 * n <= |mesh.vertexIndices|
  {
    if n == 0 then [] else IndicesOfFirst(mesh, n - 1) + VertexIndices(Triangle(mesh, n - 1))
  }

  /** The triangles of a mesh read the index buffer in order, each slot exactly once. */
  lemma {:induction false} IndicesTileBuffer(mesh: TriangleMesh, n: nat)
    requires 3 * n <= |mesh.vertexIndices|
    ensures IndicesOfFirst(mesh, n) == mesh.vertexIndices[..3 * n]
  {
    if n > 0 {
      IndicesTileBuffer(mesh, n - 1);
      assert mesh.vertexIndices[..3 * n] == mesh.vertexIndices[..3 * (n - 1)] + mesh.vertexIndices[3 * (n - 1) .. 3 * n];
    }
  }

  /** With fewer than 2^32 indices, the triangles of a mesh cover its whole index buffer. */
  lemma AllTrianglesCoverBuffer(mesh: TriangleMesh)
    requires MeshInvariant(mesh) && |mesh.vertexIndices| < U32Limit
    ensures IndicesOfFirst(mesh, mesh.nTriangles) == mesh.vertexIndices
  {
    IndicesTileBuffer(mesh, mesh.nTriangles);
    assert mesh.vertexIndices[..3 * mesh.nTriangles] == mesh.vertexIndices;
  }

  /** The triangle's vertex indices address the vertex buffer (indexing panics otherwise). */
  predicate Indexable(t: Triangle) {
    HasIndices(t) && forall k :: 0 <= k < 3 ==> VertexIndices(t)[k] < |t.mesh.vertices|
  }

  /** `get_vertices`: the vertex at each of the three indices. */
  function GetVertices(t: Triangle): (p: seq<Vec3>)
    requires Indexable(t)
    ensures |p| == 3 && forall k :: 0 <= k < 3 ==> p[k] == t.mesh.vertices[VertexIndices(t)[k]]
  {
    var v := VertexIndices(t);
    [t.mesh.vertices[v[0]], t.mesh.vertices[v[1]], t.mesh.vertices[v[2]]]
  }

  /** `get_normals`: absent exactly when the mesh has no normals, else those at the three indices. */
  function GetNormals(t: Triangle): (r: Option<seq<Vec3>>)
    requires Indexable(t) && MeshInvariant(t.mesh)
    ensures r.None? <==> t.mesh.normals.None?
    ensures r.Some? ==> |r.value| == 3 && forall k :: 0 <= k < 3 ==> r.value[k] == t.mesh.normals.value[VertexIndices(t)[k]]
  {
    if t.mesh.normals.None? then None
    else
      var ns, v := t.mesh.normals.value, VertexIndices(t);
      Some([ns[v[0]], ns[v[1]], ns[v[2]]])
  }

  /** The uvs of a mesh without texture coordinates. */
  const DefaultUvs: seq<Vec2> := [Vec2(0.0, 0.0), Vec2(1.0, 0.0), Vec2(1.0, 1.0)]

  /** `get_uvs`: the default parametrisation without tex coords, else those at the three indices. */
  function GetUvs(t: Triangle): (r: seq<Vec2>)
    requires Indexable(t) && MeshInvariant(t.mesh)
    ensures |r| == 3
    ensures t.mesh.texCoords.None? ==> r == DefaultUvs
    ensures t.mesh.texCoords.Some? ==> forall k :: 0 <= k < 3 ==> r[k] == t.mesh.texCoords.value[VertexIndices(t)[k]]
  {
    if t.mesh.texCoords.None? then DefaultUvs
    else
      var uvs, v := t.mesh.texCoords.value, VertexIndices(t);
      [uvs[v[0]], uvs[v[1]], uvs[v[2]]]
  }

  /** `world_bound`: `Bounds3f::empty()` joined with the three vertices. */
  function WorldBound(t: Triangle): Bounds3
    requires Indexable(t)
  {
    var p := GetVertices(t);
    JoinPoint(JoinPoint(JoinPoint(Empty3(), p[0]), p[1]), p[2])
  }

  /** The world bound holds the three vertices and lies within every box that holds them. */
  lemma WorldBoundTight(t: Triangle)
    requires Indexable(t)
    ensures forall k :: 0 <= k < 3 ==> Contains(WorldBound(t), GetVertices(t)[k])
    ensures forall c :: (forall k :: 0 <= k < 3 ==> Contains(c, GetVertices(t)[k])) && FinitePoint(GetVertices(t)[0]) ==>
      Within(WorldBound(t), c)
  {
    var p := GetVertices(t);
    var b1 := JoinPoint(Empty3(), p[0]);
    var b2 := JoinPoint(b1, p[1]);
    forall c | (forall k :: 0 <= k < 3 ==> Contains(c, p[k])) && FinitePoint(p[0])
      ensures Within(WorldBound(t), c)
    {
      assert Contains(c, p[0]) && Contains(c, p[1]) && Contains(c, p[2]);
      assert Within(Empty3(), c);
      assert Within(b1, c);
      assert Within(b2, c);
    }
  }

  // ------------------------------------------------------------ sign test

  /** `is_sign_positive` on the bits of an `f32`: the sign bit is clear (NaNs included). */
  predicate SignPositive(v: bv32) {
    v & 0x8000_0000 == 0
  }

  /** `sign_differs`: not all three sign bits are equal. */
  predicate SignDiffers(v1: bv32, v2: bv32, v3: bv32) {
    SignPositive(v1) != SignPositive(v2) || SignPositive(v2) != SignPositive(v3)
  }

  predicate IsNaN(v: bv32) { v & 0x7F80_0000 == 0x7F80_0000 && v & 0x007F_FFFF != 0 }

  /** Plus or minus zero. */
  predicate IsZero(v: bv32) { v & 0x7FFF_FFFF == 0 }

  /** `v < 0.0` on an `f32` */
  predicate Negative(v: bv32) { !IsNaN(v) && !IsZero(v) && !SignPositive(v) }

  /** `v > 0.0` on an `f32` */
  predicate Positive(v: bv32) { !IsNaN(v) && !IsZero(v) && SignPositive(v) }

  /** The book's version: some value negative and some value positive. */
  predicate BookSignDiffers(v1: bv32, v2: bv32, v3: bv32) {
    (Negative(v1) || Negative(v2) || Negative(v3)) && (Positive(v1) || Positive(v2) || Positive(v3))
  }

  /** Away from zeros and NaNs the two versions agree; with a negative zero they do not. */
  lemma SignDiffersMatchesBook(v1: bv32, v2: bv32, v3: bv32)
    ensures (!IsNaN(v1) && !IsNaN(v2) && !IsNaN(v3) && !IsZero(v1) && !IsZero(v2) && !IsZero(v3)) ==>
      (SignDiffers(v1, v2, v3) <==> BookSignDiffers(v1, v2, v3))
    ensures SignDiffers(0, 0, 0x8000_0000) && !BookSignDiffers(0, 0, 0x8000_0000)
  {
  }

  /** The cases of `test_sign_differs`, on the bit patterns of 1.0, 2.0, -1.0, -2.0, 0.0 and -0.0. */
  lemma SignDiffersCases()
    ensures SignDiffers(0x3F80_0000, 0x4000_0000, 0xBF80_0000)
    ensures !SignDiffers(0x3F80_0000, 0x4000_0000, 0x3F80_0000)
    ensures SignDiffers(0xBF80_0000, 0xC000_0000, 0x3F80_0000)
    ensures !SignDiffers(0xBF80_0000, 0xC000_0000, 0xBF80_0000)
    ensures SignDiffers(0xBF80_0000, 0x4000_0000, 0xBF80_0000)
    ensures SignDiffers(0xBF80_0000, 0x4000_0000, 0x3F80_0000)
    ensures !SignDiffers(0, 0, 0)
    ensures SignDiffers(0, 0, 0x8000_0000)
  {
  }
}
