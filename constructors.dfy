// The scene-object constructors: each reads its parameters out of a
// `ParamSet` in a fixed order, falls back to defaults where the scene may
// leave a value out, and turns names into enumerations.
module Constructors {
  import opened Wrappers
  import opened Geom
  import opened Spectrum
  import opened Transform
  import opened Params
  import opened Materials
  import MipMap
  import Triangle

  /** `ConstructError` */
  datatype ConstructError = ParamErr(paramError: ParamError) | ValueError(message: string)

  /** What a texture handle in the dictionary denotes. */
  datatype TextureTable = TextureTable(floats: nat -> FloatTexture, spectra: nat -> SpectrumTexture)

  function FloatTexPick(): ParamVal -> Option<nat> {
    (v: ParamVal) => if v.FloatTexture? then Some(v.floatTex) else None
  }

  function SpectrumTexPick(): ParamVal -> Option<nat> {
    (v: ParamVal) => if v.SpectrumTexture? then Some(v.spectrumTex) else None
  }

  /**
   * The texture getters `get_texture_or_default` and `get_texture_or_const`
   * (called by the constructors but not defined in the source text), taken
   * as: the name is consumed; a texture of the element type is used as is;
   * a single value becomes a constant texture; a missing name gives the
   * constant default, or an error when there is none; anything else is an
   * error.
   */
  function TextureLookup<T>(params: map<string, ParamVal>, name: string, fallback: Option<T>, c: Conv<T>,
                            pickTex: ParamVal -> Option<nat>, textures: nat -> (SurfacePoint -> T), typeName: string)
    : (r: Result<SurfacePoint -> T, ParamError>)
    ensures name !in params && fallback.Some? ==> r == Ok(Constant(fallback.value))
    ensures name !in params && fallback.None? ==> r == Err(ParamError(typeName, name))
    ensures name in params && pickTex(params[name]).Some? ==> r == Ok(textures(pickTex(params[name]).value))
    ensures name in params && pickTex(params[name]).None? ==>
      r == (if TryFromOne(c, params[name]).Ok? then Ok(Constant(TryFromOne(c, params[name]).value))
            else Err(ParamError(c.tyName, name)))
  {
    if name !in params then
      if fallback.Some? then Ok(Constant(fallback.value)) else Err(ParamError(typeName, name))
    else
      var v := params[name];
      match pickTex(v)
      case Some(h) => Ok(textures(h))
      case None =>
        match TryFromOne(c, v)
        case Ok(x) => Ok(Constant(x))
        case Err(e) => Err(ParamError(e, name))
  }

  method GetTexture<T>(ps: ParamSet, name: string, fallback: Option<T>, c: Conv<T>,
                       pickTex: ParamVal -> Option<nat>, textures: nat -> (SurfacePoint -> T), typeName: string)
    returns (r: Result<SurfacePoint -> T, ParamError>)
    modifies ps
    ensures r == TextureLookup(old(ps.params), name, fallback, c, pickTex, textures, typeName)
    ensures ps.params == old(ps.params) - {name}
  {
    var raw := ps.GetOne(name, Raw(), typeName);
    if raw.Err? {
      if fallback.Some? {
        return Ok(Constant(fallback.value));
      }
      return Err(raw.error);
    }
    var v := raw.value;
    match pickTex(v)
    case Some(h) => r := Ok(textures(h));
    case None =>
      match TryFromOne(c, v)
      case Ok(x) => r := Ok(Constant(x));
      case Err(e) => r := Err(ParamError(e, name));
  }

  method GetFloatTexture(ps: ParamSet, name: string, fallback: Option<real>, tt: TextureTable)
    returns (r: Result<FloatTexture, ParamError>)
    modifies ps
    ensures r == TextureLookup(old(ps.params), name, fallback, FloatConv(), FloatTexPick(), tt.floats, "Float")
    ensures ps.params == old(ps.params) - {name}
  {
    r := GetTexture(ps, name, fallback, FloatConv(), FloatTexPick(), tt.floats, "Float");
  }

  method GetSpectrumTexture(ps: ParamSet, name: string, fallback: Option<Spectrum>, tt: TextureTable)
    returns (r: Result<SpectrumTexture, ParamError>)
    modifies ps
    ensures r == TextureLookup(old(ps.params), name, fallback, SpectrumConv(), SpectrumTexPick(), tt.spectra, "Spectrum")
    ensures ps.params == old(ps.params) - {name}
  {
    r := GetTexture(ps, name, fallback, SpectrumConv(), SpectrumTexPick(), tt.spectra, "Spectrum");
  }

  // ------------------------------------------------------------ shapes

  /** The arguments `make_sphere` hands to `Sphere::new`. */
  datatype SphereArgs = SphereArgs(objectToWorld: Transform, worldToObject: Transform, reverseOrientation: bool,
                                   radius: real, zMin: real, zMax: real, phiMax: real)

  /** `get_one::<Float>(name).unwrap_or(d)` */
  function FloatOr(m: map<string, ParamVal>, name: string, d: real): real {
    OrDefault(Lookup(m, name, One(FloatConv()), "Float"), d)
  }

  /** Takes a float parameter out of the set, or the default. */
  method GetFloatOr(ps: ParamSet, name: string, d: real) returns (x: real)
    modifies ps
    ensures x == FloatOr(old(ps.params), name, d)
    ensures ps.params == old(ps.params) - {name}
  {
    var r := ps.GetOne(name, One(FloatConv()), "Float");
    x := OrDefault(r, d);
  }

  /**
   * The reads of `make_sphere`, in order, each on what the earlier ones
   * left: the transform and the orientation flag are required, and the
   * world-to-object transform is the inverse of the object-to-world one.
   */
  function SphereFrom(m: map<string, ParamVal>): (r: Result<SphereArgs, ConstructError>)
    ensures "object_to_world" !in m ==> r == Err(ParamErr(ParamError("Transform", "object_to_world")))
    ensures "reverse_orientation" !in m ==> r.Err? && r.error.ParamErr?
    ensures r.Ok? ==> r.value.worldToObject == Inverse(r.value.objectToWorld)
  {
    var radius := FloatOr(m, "radius", 1.0);
    var m1 := m - {"radius"};
    var zmin := FloatOr(m1, "zmin", -radius);
    var m2 := m1 - {"zmin"};
    var zmax := FloatOr(m2, "zmax", radius);
    var m3 := m2 - {"zmax"};
    var phimax := FloatOr(m3, "phimax", 360.0);
    var m4 := m3 - {"phimax"};
    var o2w := Lookup(m4, "object_to_world", TryFromTransform, "Transform");
    var rev := Lookup(m4 - {"object_to_world"}, "reverse_orientation", One(BoolConv()), "bool");
    if o2w.Err? then Err(ParamErr(o2w.error))
    else if rev.Err? then Err(ParamErr(rev.error))
    else Ok(SphereArgs(o2w.value, Inverse(o2w.value), rev.value, radius, zmin, zmax, phimax))
  }

  /** `make_sphere` */
  method MakeSphere(ps: ParamSet) returns (r: Result<SphereArgs, ConstructError>)
    modifies ps
    ensures r == SphereFrom(old(ps.params))
  {
    var radius := GetFloatOr(ps, "radius", 1.0);
    var zmin := GetFloatOr(ps, "zmin", -radius);
    var zmax := GetFloatOr(ps, "zmax", radius);
    var phimax := GetFloatOr(ps, "phimax", 360.0);
    var o2w := ps.CurrentTransform();
    if o2w.Err? {
      return Err(ParamErr(o2w.error));
    }
    var w2o := Inverse(o2w.value);
    var rev := ps.ReverseOrientation();
    if rev.Err? {
      return Err(ParamErr(rev.error));
    }
    r := Ok(SphereArgs(o2w.value, w2o, rev.value, radius, zmin, zmax, phimax));
  }

  /** Without radius, z range and sweep the sphere is the unit sphere, z from -1 to 1, 360 degrees. */
  lemma SphereDefaults(m: map<string, ParamVal>)
    requires "radius" !in m && "zmin" !in m && "zmax" !in m && "phimax" !in m
    ensures SphereFrom(m).Ok? ==>
      var s := SphereFrom(m).value;
      s.radius == 1.0 && s.zMin == -1.0 && s.zMax == 1.0 && s.phiMax == 360.0
  {
  }

  /** A missing z bound follows the radius, whatever the radius is. */
  lemma SphereZFollowsRadius(m: map<string, ParamVal>)
    requires "zmin" !in m && "zmax" !in m
    ensures SphereFrom(m).Ok? ==> SphereFrom(m).value.zMin == -SphereFrom(m).value.radius
    ensures SphereFrom(m).Ok? ==> SphereFrom(m).value.zMax == SphereFrom(m).value.radius
  {
  }

  /** `i as u32` on an `i32`: the two's-complement bits read as unsigned. */
  function AsU32(i: int): Triangle.U32 {
    i % Triangle.U32Limit
  }

  /** A non-negative index below 2^32 is kept as it is. */
  lemma AsU32Keeps(i: int)
    requires 0 <= i < Triangle.U32Limit
    ensures AsU32(i) == i
  {
  }

  /** `chunks_exact(2)` mapped to points. */
  function Pairs(xs: seq<real>): (r: seq<Vec2>)
    requires |xs| % 2 == 0
    ensures |r| == |xs| / 2
    ensures forall i :: 0 <= i < |r| ==> r[i] == Vec2(xs[2 * i], xs[2 * i + 1])
  {
    if xs == [] then [] else [Vec2(xs[0], xs[1])] + Pairs(xs[2..])
  }

  /** The arguments `make_triangle_mesh` hands to `TriangleMesh::new`. */
  datatype MeshArgs = MeshArgs(objectToWorld: Transform, indices: seq<Triangle.U32>, vertices: seq<Vec3>,
                               normals: Option<seq<Vec3>>, tangents: Option<seq<Vec3>>,
                               texCoords: Option<seq<Vec2>>, reverseOrientation: bool)

  /** `.ok()` */
  function Ok2Option<T>(r: Result<T, ParamError>): Option<T> {
    if r.Ok? then Some(r.value) else None
  }

  /** The texture coordinates a point array under `"uv"`, else under `"st"`, gives; none without either name. */
  function PointTexCoords(m: map<string, ParamVal>): (r: Option<seq<Vec2>>)
    ensures r.Some? ==> "uv" in m || "st" in m
    ensures "uv" in m && Lookup(m, "uv", Many(Point2Conv()), "Vec<Point2f>").Ok? ==>
      r == Some(Lookup(m, "uv", Many(Point2Conv()), "Vec<Point2f>").value)
  {
    var uv := Lookup(m, "uv", Many(Point2Conv()), "Vec<Point2f>");
    if uv.Ok? then Some(uv.value) else Ok2Option(Lookup(m - {"uv"}, "st", Many(Point2Conv()), "Vec<Point2f>"))
  }

  /** The even-length float-array filter and pairing of the fallback. */
  function FloatFallback(fs: Result<seq<real>, ParamError>): (r: Option<seq<Vec2>>)
    ensures r.Some? <==> fs.Ok? && |fs.value| % 2 == 0
  {
    if fs.Ok? && |fs.value| % 2 == 0 then Some(Pairs(fs.value)) else None
  }

  /**
   * The texture coordinates `make_triangle_mesh` means to read: a point
   * array under `"uv"` or `"st"`, or else an even-length float array under
   * one of them, read as consecutive pairs.
   */
  function IntendedTexCoords(m: map<string, ParamVal>): (r: Option<seq<Vec2>>)
    ensures PointTexCoords(m).Some? ==> r == PointTexCoords(m)
    ensures r.Some? ==> "uv" in m || "st" in m
  {
    var pts := PointTexCoords(m);
    if pts.Some? then pts
    else
      var uv := Lookup(m, "uv", Many(FloatConv()), "Vec<Float>");
      FloatFallback(if uv.Ok? then uv else Lookup(m, "st", Many(FloatConv()), "Vec<Float>"))
  }

  /** What the texture-coordinate reads as written leave: `"st"` is only read when `"uv"` held no point array. */
  function TexCoordsRest(m: map<string, ParamVal>): map<string, ParamVal> {
    if Lookup(m, "uv", Many(Point2Conv()), "Vec<Point2f>").Ok? then m - {"uv"} else m - {"uv"} - {"st"}
  }

  /**
   * The texture-coordinate reads of `make_triangle_mesh` as written: the
   * point-array `get_one`s have already removed `"uv"` and `"st"` when the
   * float-array fallback asks for them, so the fallback never contributes.
   */
  method TexCoordsAsWritten(ps: ParamSet) returns (tc: Option<seq<Vec2>>)
    modifies ps
    ensures tc == PointTexCoords(old(ps.params))
    ensures ps.params == TexCoordsRest(old(ps.params))
  {
    var uv := ps.GetOne("uv", Many(Point2Conv()), "Vec<Point2f>");
    var pts := uv;
    if uv.Err? {
      pts := ps.GetOne("st", Many(Point2Conv()), "Vec<Point2f>");
    }
    tc := Ok2Option(pts);
    if tc.None? {
      var fuv := ps.GetOne("uv", Many(FloatConv()), "Vec<Float>");
      var fs := fuv;
      if fuv.Err? {
        fs := ps.GetOne("st", Many(FloatConv()), "Vec<Float>");
      }
      tc := FloatFallback(fs);
    }
  }

  /** A float array under `"uv"` is lost as written, though it is meant to give one point per pair. */
  lemma FloatTexCoordsLost()
    ensures PointTexCoords(map["uv" := Float([0.0, 1.0])]) == None
    ensures IntendedTexCoords(map["uv" := Float([0.0, 1.0])]) == Some([Vec2(0.0, 1.0)])
  {
    var m := map["uv" := Float([0.0, 1.0])];
    assert "st" !in m && "st" !in m - {"uv"};
    assert Lookup(m, "uv", Many(FloatConv()), "Vec<Float>") == Ok([0.0, 1.0]);
    assert [0.0, 1.0][2..] == [];
    assert Pairs([0.0, 1.0]) == [Vec2(0.0, 1.0)];
  }

  /** The texture-coordinate entries on their own. */
  function TexCoordEntries(m: map<string, ParamVal>): map<string, ParamVal> {
    map k | k in m && (k == "uv" || k == "st") :: m[k]
  }

  /** Texture coordinates depend only on the entries under `"uv"` and `"st"`. */
  lemma TexCoordsLocal(m: map<string, ParamVal>)
    ensures IntendedTexCoords(TexCoordEntries(m)) == IntendedTexCoords(m)
  {
    var e := TexCoordEntries(m);
    assert ("uv" in e <==> "uv" in m) && ("st" in e <==> "st" in m);
    assert "st" in e - {"uv"} <==> "st" in m - {"uv"};
  }

  /** The texture-coordinate reads with the float fallback working: each name is taken once and both readings are tried. */
  method TexCoords(ps: ParamSet) returns (tc: Option<seq<Vec2>>)
    modifies ps
    ensures tc == IntendedTexCoords(old(ps.params))
    ensures ps.params == old(ps.params) - {"uv"} - {"st"}
  {
    ghost var m := ps.params;
    var uv := ps.GetOne("uv", Raw(), "ParamVal");
    var st := ps.GetOne("st", Raw(), "ParamVal");
    var entries: map<string, ParamVal> := map[];
    if uv.Ok? {
      entries := entries["uv" := uv.value];
    }
    if st.Ok? {
      entries := entries["st" := st.value];
    }
    assert "st" in m - {"uv"} <==> "st" in m;
    assert entries == TexCoordEntries(m);
    TexCoordsLocal(m);
    tc := IntendedTexCoords(entries);
  }

  /** `i as u32` on every index, in order. */
  function AsU32s(xs: seq<int>): (r: seq<Triangle.U32>)
    ensures |r| == |xs| && forall i :: 0 <= i < |xs| ==> r[i] == AsU32(xs[i])
  {
    seq(|xs|, i requires 0 <= i < |xs| => AsU32(xs[i]))
  }

  /** The mesh's required arrays: `indices` as `i32`s and `P` as points. */
  function IndicesOf(m: map<string, ParamVal>): Result<seq<int>, ParamError> {
    Lookup(m, "indices", Many(IntConv()), "Vec<i32>")
  }
  function PositionsOf(m: map<string, ParamVal>): Result<seq<Vec3>, ParamError> {
    Lookup(m, "P", Many(Point3Conv()), "Vec<Point3f>")
  }
  /** The mesh's optional arrays: normals `N` and tangents `S`, `.ok()`. */
  function NormalsOf(m: map<string, ParamVal>): Option<seq<Vec3>> {
    Ok2Option(Lookup(m, "N", Many(Normal3Conv()), "Vec<Normal3>"))
  }
  function TangentsOf(m: map<string, ParamVal>): Option<seq<Vec3>> {
    Ok2Option(Lookup(m, "S", Many(Vector3Conv()), "Vec<Vec3f>"))
  }
  /** `reverse_orientation()` on a dictionary. */
  function ReverseOf(m: map<string, ParamVal>): Result<bool, ParamError> {
    Lookup(m, "reverse_orientation", One(BoolConv()), "bool")
  }

  /**
   * The reads of `make_triangle_mesh` after the positions, in order, with
   * the texture coordinates as written: the mesh keeps the transform, the
   * positions and one index per index read, and needs the orientation flag.
   */
  function MeshTail(m: map<string, ParamVal>, tf: Transform, indices: seq<int>, vertices: seq<Vec3>)
    : (r: Result<MeshArgs, ConstructError>)
    ensures "reverse_orientation" !in m ==> r.Err?
    ensures r.Ok? ==> r.value.objectToWorld == tf && r.value.vertices == vertices && |r.value.indices| == |indices|
  {
    var normals := NormalsOf(m);
    var m1 := m - {"N"};
    var tangents := TangentsOf(m1);
    var m2 := m1 - {"S"};
    var texCoords := PointTexCoords(m2);
    var rev := ReverseOf(TexCoordsRest(m2));
    if rev.Err? then Err(ParamErr(rev.error))
    else Ok(MeshArgs(tf, AsU32s(indices), vertices, normals, tangents, texCoords, rev.value))
  }

  /**
   * The reads of `make_triangle_mesh`, in order: the transform, the indices,
   * the positions and the orientation flag are required, and the indices
   * keep their count.
   */
  function MeshFrom(m: map<string, ParamVal>): (r: Result<MeshArgs, ConstructError>)
    ensures "object_to_world" !in m ==> r == Err(ParamErr(ParamError("Transform", "object_to_world")))
    ensures r.Ok? ==> "object_to_world" in m && "indices" in m && "P" in m && "reverse_orientation" in m
    ensures r.Ok? ==> IndicesOf(m - {"object_to_world"}).Ok? && |r.value.indices| == |IndicesOf(m - {"object_to_world"}).value|
  {
    var tf := Lookup(m, "object_to_world", TryFromTransform, "Transform");
    var m1 := m - {"object_to_world"};
    var indices := IndicesOf(m1);
    var m2 := m1 - {"indices"};
    var vertices := PositionsOf(m2);
    if tf.Err? then Err(ParamErr(tf.error))
    else if indices.Err? then Err(ParamErr(indices.error))
    else if vertices.Err? then Err(ParamErr(vertices.error))
    else MeshTail(m2 - {"P"}, tf.value, indices.value, vertices.value)
  }

  /** `make_triangle_mesh` after the positions. */
  method MakeMeshTail(ps: ParamSet, tf: Transform, indices: seq<int>, vertices: seq<Vec3>)
    returns (r: Result<MeshArgs, ConstructError>)
    modifies ps
    ensures r == MeshTail(old(ps.params), tf, indices, vertices)
  {
    var normals := ps.GetOne("N", Many(Normal3Conv()), "Vec<Normal3>");
    var tangents := ps.GetOne("S", Many(Vector3Conv()), "Vec<Vec3f>");
    var texCoords := TexCoordsAsWritten(ps);
    var rev := ps.ReverseOrientation();
    if rev.Err? {
      return Err(ParamErr(rev.error));
    }
    r := Ok(MeshArgs(tf, AsU32s(indices), vertices, Ok2Option(normals), Ok2Option(tangents), texCoords, rev.value));
  }

  /** `make_triangle_mesh` */
  method MakeTriangleMesh(ps: ParamSet) returns (r: Result<MeshArgs, ConstructError>)
    modifies ps
    ensures r == MeshFrom(old(ps.params))
  {
    var tf := ps.CurrentTransform();
    if tf.Err? {
      return Err(ParamErr(tf.error));
    }
    var indices := ps.GetOne("indices", Many(IntConv()), "Vec<i32>");
    if indices.Err? {
      return Err(ParamErr(indices.error));
    }
    var vertices := ps.GetOne("P", Many(Point3Conv()), "Vec<Point3f>");
    if vertices.Err? {
      return Err(ParamErr(vertices.error));
    }
    r := MakeMeshTail(ps, tf.value, indices.value, vertices.value);
  }

  // ------------------------------------------------------------ materials

  /** The reads of `make_glass`, in order; eta defaults to 1.5 and the remap to on, whatever else is given. */
  function GlassFrom(m: map<string, ParamVal>, tt: TextureTable): (r: Result<GlassMaterial, ConstructError>)
    ensures "eta" !in m && r.Ok? ==> r.value.eta == Constant(1.5)
    ensures "remaproughness" !in m && r.Ok? ==> r.value.remapRoughness
  {
    var kr := TextureLookup(m, "Kr", Some(New(1.0)), SpectrumConv(), SpectrumTexPick(), tt.spectra, "Spectrum");
    var m1 := m - {"Kr"};
    var kt := TextureLookup(m1, "Kt", Some(New(1.0)), SpectrumConv(), SpectrumTexPick(), tt.spectra, "Spectrum");
    var m2 := m1 - {"Kt"};
    var ur := TextureLookup(m2, "uroughness", Some(0.0), FloatConv(), FloatTexPick(), tt.floats, "Float");
    var m3 := m2 - {"uroughness"};
    var vr := TextureLookup(m3, "vroughness", Some(0.0), FloatConv(), FloatTexPick(), tt.floats, "Float");
    var m4 := m3 - {"vroughness"};
    var eta := TextureLookup(m4, "eta", Some(1.5), FloatConv(), FloatTexPick(), tt.floats, "Float");
    var remap := OrDefault(Lookup(m4 - {"eta"}, "remaproughness", One(BoolConv()), "bool"), true);
    if kr.Err? then Err(ParamErr(kr.error))
    else if kt.Err? then Err(ParamErr(kt.error))
    else if ur.Err? then Err(ParamErr(ur.error))
    else if vr.Err? then Err(ParamErr(vr.error))
    else if eta.Err? then Err(ParamErr(eta.error))
    else Ok(GlassMaterial(kr.value, kt.value, ur.value, vr.value, eta.value, remap))
  }

  /** `make_glass` */
  method MakeGlass(ps: ParamSet, tt: TextureTable) returns (r: Result<GlassMaterial, ConstructError>)
    modifies ps
    ensures r == GlassFrom(old(ps.params), tt)
  {
    var kr := GetSpectrumTexture(ps, "Kr", Some(New(1.0)), tt);
    if kr.Err? { return Err(ParamErr(kr.error)); }
    var kt := GetSpectrumTexture(ps, "Kt", Some(New(1.0)), tt);
    if kt.Err? { return Err(ParamErr(kt.error)); }
    var ur := GetFloatTexture(ps, "uroughness", Some(0.0), tt);
    if ur.Err? { return Err(ParamErr(ur.error)); }
    var vr := GetFloatTexture(ps, "vroughness", Some(0.0), tt);
    if vr.Err? { return Err(ParamErr(vr.error)); }
    var eta := GetFloatTexture(ps, "eta", Some(1.5), tt);
    if eta.Err? { return Err(ParamErr(eta.error)); }
    var remap := ps.GetOne("remaproughness", One(BoolConv()), "bool");
    r := Ok(GlassMaterial(kr.value, kt.value, ur.value, vr.value, eta.value, OrDefault(remap, true)));
  }

  /** Glass with nothing given: white reflection and transmission, smooth, eta 1.5, remapped. */
  lemma GlassDefaults(m: map<string, ParamVal>, tt: TextureTable)
    requires "Kr" !in m && "Kt" !in m && "uroughness" !in m && "vroughness" !in m && "eta" !in m && "remaproughness" !in m
    ensures GlassFrom(m, tt) == Ok(GlassMaterial(Constant(New(1.0)), Constant(New(1.0)), Constant(0.0), Constant(0.0), Constant(1.5), true))
  {
  }

  /** The metal's roughness: anisotropic only when both axes were given. */
  function MetalRoughnessFrom(u: Result<FloatTexture, ParamError>, v: Result<FloatTexture, ParamError>, iso: FloatTexture)
    : (r: RoughnessTex)
    ensures r.Anisotropic? <==> u.Ok? && v.Ok?
    ensures r.Anisotropic? ==> r.uRough == u.value && r.vRough == v.value
    ensures r.Isotropic? ==> r.rough == iso
  {
    if u.Ok? && v.Ok? then Anisotropic(u.value, v.value) else Isotropic(iso)
  }

  /** The reads of `make_metal_material`, in order: eta and k have no default, a missing eta is the error naming it. */
  function MetalFrom(m: map<string, ParamVal>, tt: TextureTable): (r: Result<MetalMaterial, ConstructError>)
    ensures "eta" !in m ==> r == Err(ParamErr(ParamError("Spectrum", "eta")))
    ensures "k" !in m ==> r.Err?
  {
    var eta := TextureLookup(m, "eta", None, SpectrumConv(), SpectrumTexPick(), tt.spectra, "Spectrum");
    var m1 := m - {"eta"};
    var k := TextureLookup(m1, "k", None, SpectrumConv(), SpectrumTexPick(), tt.spectra, "Spectrum");
    var m2 := m1 - {"k"};
    var rough := TextureLookup(m2, "roughness", Some(0.01), FloatConv(), FloatTexPick(), tt.floats, "Float");
    var m3 := m2 - {"roughness"};
    var u := TextureLookup(m3, "uroughness", None, FloatConv(), FloatTexPick(), tt.floats, "Float");
    var m4 := m3 - {"uroughness"};
    var v := TextureLookup(m4, "vroughness", None, FloatConv(), FloatTexPick(), tt.floats, "Float");
    var remap := OrDefault(Lookup(m4 - {"vroughness"}, "remaproughness", One(BoolConv()), "bool"), true);
    if eta.Err? then Err(ParamErr(eta.error))
    else if k.Err? then Err(ParamErr(k.error))
    else if rough.Err? then Err(ParamErr(rough.error))
    else Ok(MetalMaterial(eta.value, k.value, MetalRoughnessFrom(u, v, rough.value), remap))
  }

  /** `make_metal_material` */
  method MakeMetal(ps: ParamSet, tt: TextureTable) returns (r: Result<MetalMaterial, ConstructError>)
    modifies ps
    ensures r == MetalFrom(old(ps.params), tt)
  {
    var eta := GetSpectrumTexture(ps, "eta", None, tt);
    if eta.Err? { return Err(ParamErr(eta.error)); }
    var k := GetSpectrumTexture(ps, "k", None, tt);
    if k.Err? { return Err(ParamErr(k.error)); }
    var rough := GetFloatTexture(ps, "roughness", Some(0.01), tt);
    if rough.Err? { return Err(ParamErr(rough.error)); }
    var u := GetFloatTexture(ps, "uroughness", None, tt);
    var v := GetFloatTexture(ps, "vroughness", None, tt);
    var roughTex := MetalRoughnessFrom(u, v, rough.value);
    var remap := ps.GetOne("remaproughness", One(BoolConv()), "bool");
    r := Ok(MetalMaterial(eta.value, k.value, roughTex, OrDefault(remap, true)));
  }

  /**
   * Unless both `uroughness` and `vroughness` are given the metal is
   * isotropic, with `roughness` defaulting to 0.01; the remap defaults on.
   */
  lemma MetalIsotropicDefault(m: map<string, ParamVal>, tt: TextureTable)
    requires "uroughness" !in m || "vroughness" !in m
    ensures MetalFrom(m, tt).Ok? ==> MetalFrom(m, tt).value.roughness.Isotropic?
    ensures "roughness" !in m && MetalFrom(m, tt).Ok? ==> MetalFrom(m, tt).value.roughness == Isotropic(Constant(0.01))
    ensures "remaproughness" !in m && MetalFrom(m, tt).Ok? ==> MetalFrom(m, tt).value.remapRoughness
  {
  }

  /** With both axes given as single values, the metal is anisotropic with exactly those roughnesses. */
  lemma MetalAnisotropic(m: map<string, ParamVal>, tt: TextureTable, u: real, v: real)
    requires "uroughness" in m && m["uroughness"] == Float([u])
    requires "vroughness" in m && m["vroughness"] == Float([v])
    ensures MetalFrom(m, tt).Ok? ==> MetalFrom(m, tt).value.roughness == Anisotropic(Constant(u), Constant(v))
  {
    var m3 := m - {"eta"} - {"k"} - {"roughness"};
    assert "uroughness" in m3 && m3["uroughness"] == Float([u]);
    assert "vroughness" in m3 - {"uroughness"} && (m3 - {"uroughness"})["vroughness"] == Float([v]);
  }

  /** The reads of `make_plastic_material`, in order; roughness defaults to 0.1 and the remap to on, whatever else is given. */
  function PlasticFrom(m: map<string, ParamVal>, tt: TextureTable): (r: Result<PlasticMaterial, ConstructError>)
    ensures "roughness" !in m && r.Ok? ==> r.value.roughness == Constant(0.1)
    ensures "remaproughness" !in m && r.Ok? ==> r.value.remapRoughness
  {
    var kd := TextureLookup(m, "Kd", Some(New(0.25)), SpectrumConv(), SpectrumTexPick(), tt.spectra, "Spectrum");
    var m1 := m - {"Kd"};
    var ks := TextureLookup(m1, "ks", Some(New(0.25)), SpectrumConv(), SpectrumTexPick(), tt.spectra, "Spectrum");
    var m2 := m1 - {"ks"};
    var rough := TextureLookup(m2, "roughness", Some(0.1), FloatConv(), FloatTexPick(), tt.floats, "Float");
    var remap := OrDefault(Lookup(m2 - {"roughness"}, "remaproughness", One(BoolConv()), "bool"), true);
    if kd.Err? then Err(ParamErr(kd.error))
    else if ks.Err? then Err(ParamErr(ks.error))
    else if rough.Err? then Err(ParamErr(rough.error))
    else Ok(PlasticMaterial(kd.value, ks.value, rough.value, remap))
  }

  /** `make_plastic_material` */
  method MakePlastic(ps: ParamSet, tt: TextureTable) returns (r: Result<PlasticMaterial, ConstructError>)
    modifies ps
    ensures r == PlasticFrom(old(ps.params), tt)
  {
    var kd := GetSpectrumTexture(ps, "Kd", Some(New(0.25)), tt);
    if kd.Err? { return Err(ParamErr(kd.error)); }
    var ks := GetSpectrumTexture(ps, "ks", Some(New(0.25)), tt);
    if ks.Err? { return Err(ParamErr(ks.error)); }
    var rough := GetFloatTexture(ps, "roughness", Some(0.1), tt);
    if rough.Err? { return Err(ParamErr(rough.error)); }
    var remap := ps.GetOne("remaproughness", One(BoolConv()), "bool");
    r := Ok(PlasticMaterial(kd.value, ks.value, rough.value, OrDefault(remap, true)));
  }

  /** Plastic with nothing given: Kd = ks = 0.25, roughness 0.1, remapped. */
  lemma PlasticDefaults(m: map<string, ParamVal>, tt: TextureTable)
    requires "Kd" !in m && "ks" !in m && "roughness" !in m && "remaproughness" !in m
    ensures PlasticFrom(m, tt) == Ok(PlasticMaterial(Constant(New(0.25)), Constant(New(0.25)), Constant(0.1), true))
  {
  }

  // ------------------------------------------------------------ lights and textures

  /** `samples as usize` on an `i32`: negatives sign-extend, i.e. wrap modulo 2^64. */
  function AsUsize(i: int): nat {
    i % 0x1_0000_0000_0000_0000
  }

  /** `DiffuseAreaLightBuilder { emit, n_samples }` */
  datatype DiffuseAreaLightArgs = DiffuseAreaLightArgs(emit: Spectrum, nSamples: nat)

  /** The reads of `make_diffuse_area_light`, in order; `twosided` is read and ignored. */
  function DiffuseAreaLightFrom(m: map<string, ParamVal>): Result<DiffuseAreaLightArgs, ConstructError> {
    var emit := OrDefault(Lookup(m, "L", One(SpectrumConv()), "Spectrum"), New(1.0));
    var m1 := m - {"L"} - {"twosided"};
    var samples := OrDefault(Lookup(m1, "samples", One(IntConv()), "i32"), 1);
    Ok(DiffuseAreaLightArgs(emit, AsUsize(samples)))
  }

  /** `make_diffuse_area_light` */
  method MakeDiffuseAreaLight(ps: ParamSet) returns (r: Result<DiffuseAreaLightArgs, ConstructError>)
    modifies ps
    ensures r == DiffuseAreaLightFrom(old(ps.params))
  {
    var emit := ps.GetOne("L", One(SpectrumConv()), "Spectrum");
    var twoSided := ps.GetOne("twosided", One(BoolConv()), "bool");
    var samples := ps.GetOne("samples", One(IntConv()), "i32");
    r := Ok(DiffuseAreaLightArgs(OrDefault(emit, New(1.0)), AsUsize(OrDefault(samples, 1))));
  }

  /** The light never fails; with nothing given it emits 1 with one sample. */
  lemma DiffuseAreaLightDefaults(m: map<string, ParamVal>)
    ensures DiffuseAreaLightFrom(m).Ok?
    ensures "L" !in m && "samples" !in m ==> DiffuseAreaLightFrom(m) == Ok(DiffuseAreaLightArgs(New(1.0), 1))
  {
  }

  /** `UVMapping::new(su, sv, du, dv)` */
  datatype UVMapping = UVMapping(su: real, sv: real, du: real, dv: real)

  /** The reads of `make_tex_coords_map_2d`, in order. */
  function TexCoordsMapFrom(m: map<string, ParamVal>): Result<UVMapping, ConstructError> {
    var name := OrDefault(Lookup(m, "mapping", One(StringConv()), "String"), "uv");
    var m1 := m - {"mapping"};
    var su := OrDefault(Lookup(m1, "uscale", One(FloatConv()), "Float"), 1.0);
    var m2 := m1 - {"uscale"};
    var sv := OrDefault(Lookup(m2, "vscale", One(FloatConv()), "Float"), 1.0);
    var m3 := m2 - {"vscale"};
    var du := OrDefault(Lookup(m3, "udelta", One(FloatConv()), "Float"), 0.0);
    var dv := OrDefault(Lookup(m3 - {"udelta"}, "vdelta", One(FloatConv()), "Float"), 0.0);
    if name != "uv" then Err(ValueError("Unknown mapping type " + name))
    else Ok(UVMapping(su, sv, du, dv))
  }

  /** The only mapping is `"uv"`, the default, with unit scales and zero offsets unless given; any other name is refused. */
  lemma TexCoordsMapCases(m: map<string, ParamVal>)
    ensures "mapping" !in m && "uscale" !in m && "vscale" !in m && "udelta" !in m && "vdelta" !in m ==>
      TexCoordsMapFrom(m) == Ok(UVMapping(1.0, 1.0, 0.0, 0.0))
    ensures var name := Lookup(m, "mapping", One(StringConv()), "String");
      name.Ok? && name.value != "uv" ==> TexCoordsMapFrom(m) == Err(ValueError("Unknown mapping type " + name.value))
    ensures TexCoordsMapFrom(m).Ok? ==> OrDefault(Lookup(m, "mapping", One(StringConv()), "String"), "uv") == "uv"
  {
  }

  /** The wrap-mode names of `make_imagemap_spect`. */
  function ParseWrap(s: string): (r: Result<MipMap.ImageWrap, ConstructError>)
    ensures r == Ok(MipMap.Repeat) <==> s == "repeat"
    ensures r == Ok(MipMap.Black) <==> s == "black"
    ensures r == Ok(MipMap.Clamp) <==> s == "clamp"
    ensures r.Err? <==> s != "repeat" && s != "black" && s != "clamp"
    ensures r.Err? ==> r.error == ValueError("Unknown repeat type " + s)
  {
    if s == "repeat" then Ok(MipMap.Repeat)
    else if s == "black" then Ok(MipMap.Black)
    else if s == "clamp" then Ok(MipMap.Clamp)
    else Err(ValueError("Unknown repeat type " + s))
  }

  /** The image-map parameters read before the image is loaded. */
  datatype ImageMapArgs = ImageMapArgs(filename: string, wrap: MipMap.ImageWrap, mapping: UVMapping, scale: real, gamma: Option<bool>)

  /** The reads of `make_imagemap_spect` up to the image load, in order. */
  function ImageMapFrom(m: map<string, ParamVal>): Result<ImageMapArgs, ConstructError> {
    var filename := Lookup(m, "filename", One(StringConv()), "String");
    var m1 := m - {"filename"};
    var wrap := ParseWrap(OrDefault(Lookup(m1, "wrap", One(StringConv()), "String"), "repeat"));
    var m2 := m1 - {"wrap"};
    var mapping := TexCoordsMapFrom(m2);
    var m3 := m2 - {"mapping"} - {"uscale"} - {"vscale"} - {"udelta"} - {"vdelta"};
    var scale := OrDefault(Lookup(m3, "scale", One(FloatConv()), "Float"), 1.0);
    var gamma := Ok2Option(Lookup(m3 - {"scale"}, "gamma", One(BoolConv()), "bool"));
    if filename.Err? then Err(ParamErr(filename.error))
    else if wrap.Err? then Err(wrap.error)
    else if mapping.Err? then Err(mapping.error)
    else Ok(ImageMapArgs(filename.value, wrap.value, mapping.value, scale, gamma))
  }

  /** `make_imagemap_spect` up to the image load. */
  method MakeImageMapArgs(ps: ParamSet) returns (r: Result<ImageMapArgs, ConstructError>)
    modifies ps
    ensures r == ImageMapFrom(old(ps.params))
  {
    var filename := ps.GetOne("filename", One(StringConv()), "String");
    if filename.Err? {
      return Err(ParamErr(filename.error));
    }
    var wrapName := ps.GetOne("wrap", One(StringConv()), "String");
    var wrap := ParseWrap(OrDefault(wrapName, "repeat"));
    if wrap.Err? {
      return Err(wrap.error);
    }
    var mapping := MakeTexCoordsMap2D(ps);
    if mapping.Err? {
      return Err(mapping.error);
    }
    var scale := ps.GetOne("scale", One(FloatConv()), "Float");
    var gamma := ps.GetOne("gamma", One(BoolConv()), "bool");
    r := Ok(ImageMapArgs(filename.value, wrap.value, mapping.value, OrDefault(scale, 1.0), Ok2Option(gamma)));
  }

  /**
   * `make_tex_coords_map_2d`; on success the five names it reads are gone
   * afterwards.
   */
  method MakeTexCoordsMap2D(ps: ParamSet) returns (r: Result<UVMapping, ConstructError>)
    modifies ps
    ensures r == TexCoordsMapFrom(old(ps.params))
    ensures r.Ok? ==> ps.params == old(ps.params) - {"mapping"} - {"uscale"} - {"vscale"} - {"udelta"} - {"vdelta"}
  {
    var mapping := ps.GetOne("mapping", One(StringConv()), "String");
    var name := OrDefault(mapping, "uv");
    if name != "uv" {
      return Err(ValueError("Unknown mapping type " + name));
    }
    var su := ps.GetOne("uscale", One(FloatConv()), "Float");
    var sv := ps.GetOne("vscale", One(FloatConv()), "Float");
    var du := ps.GetOne("udelta", One(FloatConv()), "Float");
    var dv := ps.GetOne("vdelta", One(FloatConv()), "Float");
    r := Ok(UVMapping(OrDefault(su, 1.0), OrDefault(sv, 1.0), OrDefault(du, 0.0), OrDefault(dv, 0.0)));
  }

  /**
   * The file name is required and read first; the wrap mode defaults to
   * repeat; an unknown wrap name is refused with its own message.
   */
  lemma ImageMapCases(m: map<string, ParamVal>, s: string)
    ensures "filename" !in m ==> ImageMapFrom(m) == Err(ParamErr(ParamError("String", "filename")))
    ensures "wrap" !in m && ImageMapFrom(m).Ok? ==> ImageMapFrom(m).value.wrap == MipMap.Repeat
    ensures ImageMapFrom(m).Ok? ==> "filename" in m
    ensures (Lookup(m, "filename", One(StringConv()), "String").Ok? && "wrap" in m && m["wrap"] == String([s]) &&
             s != "repeat" && s != "black" && s != "clamp") ==>
      ImageMapFrom(m) == Err(ValueError("Unknown repeat type " + s))
  {
    if "wrap" in m {
      assert "wrap" in m - {"filename"} && (m - {"filename"})["wrap"] == m["wrap"];
    }
  }
}
