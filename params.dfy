// The scene description's parameter dictionary: typed values under string
// names, read by a consuming `get_one` whose conversions are the
// `TryFrom<ParamVal>` impls generated for each element type.
module Params {
  import opened Wrappers
  import opened Geom
  import opened Spectrum
  import opened Transform

  /**
   * `ParamVal`. Points, vectors and normals are all `Vec2`/`Vec3` here, so
   * the variants keep the distinction the type names carry. Texture and
   * material values are `Arc<dyn …>` handles, modelled by a number.
   */
  datatype ParamVal =
    | Int(ints: seq<int>)
    | Float(floats: seq<real>)
    | Point2f(point2s: seq<Vec2>)
    | Vec2f(vec2s: seq<Vec2>)
    | Point3f(point3s: seq<Vec3>)
    | Vec3f(vec3s: seq<Vec3>)
    | Normal3(normals: seq<Vec3>)
    | SpectrumVal(spectra: seq<Spectrum>)
    | Bool(bools: seq<bool>)
    | String(strings: seq<string>)
    | TransformVal(tf: Transform)
    | FloatTexture(floatTex: nat)
    | SpectrumTexture(spectrumTex: nat)
    | Material(material: nat)

  /** `ParamError`: the type that was expected and the name that was asked for. */
  datatype ParamError = ParamError(expectedTy: string, expectedName: string)

  /**
   * One instance of `impl_basic_conversions!`: the variant's contents when a
   * value is that variant, the constructor `From<Vec<T>>` uses, and the type
   * label the failed conversions report.
   */
  datatype Conv<!T> = Conv(pick: ParamVal -> Option<seq<T>>, wrap: seq<T> -> ParamVal, tyName: string)

  /** The picker recognises exactly the values its constructor builds. */
  ghost predicate Lawful<T(!new)>(c: Conv<T>) {
    (forall xs :: c.pick(c.wrap(xs)) == Some(xs)) &&
    (forall v :: c.pick(v).Some? ==> v == c.wrap(c.pick(v).value))
  }

  function IntConv(): Conv<int> {
    Conv((v: ParamVal) => if v.Int? then Some(v.ints) else None, xs => Int(xs), "int")
  }
  function FloatConv(): Conv<real> {
    Conv((v: ParamVal) => if v.Float? then Some(v.floats) else None, xs => Float(xs), "float")
  }
  function Point2Conv(): Conv<Vec2> {
    Conv((v: ParamVal) => if v.Point2f? then Some(v.point2s) else None, xs => Point2f(xs), "point2")
  }
  function Vector2Conv(): Conv<Vec2> {
    Conv((v: ParamVal) => if v.Vec2f? then Some(v.vec2s) else None, xs => Vec2f(xs), "vector2")
  }
  function Point3Conv(): Conv<Vec3> {
    Conv((v: ParamVal) => if v.Point3f? then Some(v.point3s) else None, xs => Point3f(xs), "point3")
  }
  function Vector3Conv(): Conv<Vec3> {
    Conv((v: ParamVal) => if v.Vec3f? then Some(v.vec3s) else None, xs => Vec3f(xs), "vector3")
  }
  function Normal3Conv(): Conv<Vec3> {
    Conv((v: ParamVal) => if v.Normal3? then Some(v.normals) else None, xs => Normal3(xs), "normal3")
  }
  function SpectrumConv(): Conv<Spectrum> {
    Conv((v: ParamVal) => if v.SpectrumVal? then Some(v.spectra) else None, xs => SpectrumVal(xs), "spectrum")
  }
  function BoolConv(): Conv<bool> {
    Conv((v: ParamVal) => if v.Bool? then Some(v.bools) else None, xs => Bool(xs), "bool")
  }
  function StringConv(): Conv<string> {
    Conv((v: ParamVal) => if v.String? then Some(v.strings) else None, xs => String(xs), "string")
  }

  /** All ten generated instances are lawful. */
  lemma InstancesLawful()
    ensures Lawful(IntConv()) && Lawful(FloatConv()) && Lawful(Point2Conv()) && Lawful(Vector2Conv())
    ensures Lawful(Point3Conv()) && Lawful(Vector3Conv()) && Lawful(Normal3Conv()) && Lawful(SpectrumConv())
    ensures Lawful(BoolConv()) && Lawful(StringConv())
  {
  }

  /** `TryFrom<ParamVal> for T`: the matching variant holding exactly one element. */
  function TryFromOne<T>(c: Conv<T>, v: ParamVal): (r: Result<T, string>)
    ensures r.Ok? <==> c.pick(v).Some? && |c.pick(v).value| == 1
    ensures r.Ok? ==> r.value == c.pick(v).value[0]
    ensures r.Err? ==> r.error == c.tyName
  {
    match c.pick(v)
    case Some(xs) => if |xs| == 1 then Ok(xs[0]) else Err(c.tyName)
    case None => Err(c.tyName)
  }

  /** `TryFrom<ParamVal> for Vec<T>`: the matching variant, of any length, in order. */
  function TryFromMany<T>(c: Conv<T>, v: ParamVal): (r: Result<seq<T>, string>)
    ensures r.Ok? <==> c.pick(v).Some?
    ensures r.Ok? ==> r.value == c.pick(v).value
    ensures r.Err? ==> r.error == c.tyName
  {
    match c.pick(v)
    case Some(xs) => Ok(xs)
    case None => Err(c.tyName)
  }

  /** `From<Vec<T>> for ParamVal` */
  function FromMany<T>(c: Conv<T>, xs: seq<T>): ParamVal {
    c.wrap(xs)
  }

  /** `From<Vec<T>>` then `TryFrom` into `Vec<T>` gives the vector back. */
  lemma ManyRoundTrip<T(!new)>(c: Conv<T>, xs: seq<T>)
    requires Lawful(c)
    ensures TryFromMany(c, FromMany(c, xs)) == Ok(xs)
  {
  }

  /** A one-element vector converts to its element; any other length does not convert to a scalar. */
  lemma OneOfMany<T(!new)>(c: Conv<T>, xs: seq<T>)
    requires Lawful(c)
    ensures TryFromOne(c, FromMany(c, xs)).Ok? <==> |xs| == 1
    ensures |xs| == 1 ==> TryFromOne(c, FromMany(c, xs)) == Ok(xs[0])
  {
  }

  /** The scalar conversion of an instance, as the converter `get_one::<T>` uses. */
  function One<T>(c: Conv<T>): ParamVal -> Result<T, string> {
    v => TryFromOne(c, v)
  }

  /** The vector conversion of an instance, as the converter `get_one::<Vec<T>>` uses. */
  function Many<T>(c: Conv<T>): ParamVal -> Result<seq<T>, string> {
    v => TryFromMany(c, v)
  }

  /** The value itself, unconverted. */
  function Raw(): ParamVal -> Result<ParamVal, string> {
    v => Ok(v)
  }

  /** `TryFrom<ParamVal> for Transform`: only the Transform variant converts. */
  function TryFromTransform(v: ParamVal): (r: Result<Transform, string>)
    ensures r.Ok? <==> v.TransformVal?
    ensures r.Ok? ==> r.value == v.tf
    ensures r.Err? ==> r.error == "transform"
  {
    match v
    case TransformVal(tf) => Ok(tf)
    case _ => Err("transform")
  }

  /**
   * What `get_one` answers for a dictionary: the missing-name error reports
   * the requested type's name, a failed conversion its label.
   */
  function Lookup<T>(params: map<string, ParamVal>, name: string, convert: ParamVal -> Result<T, string>, typeName: string)
    : Result<T, ParamError>
  {
    if name !in params then Err(ParamError(typeName, name))
    else match convert(params[name])
      case Ok(x) => Ok(x)
      case Err(tyLabel) => Err(ParamError(tyLabel, name))
  }

  /**
   * A missing name is reported under the requested type's name; a value that
   * does not convert is reported under the conversion's label; every error
   * names the parameter asked for.
   */
  lemma LookupCases<T>(params: map<string, ParamVal>, name: string, convert: ParamVal -> Result<T, string>, typeName: string)
    ensures name !in params ==> Lookup(params, name, convert, typeName) == Err(ParamError(typeName, name))
    ensures name in params && convert(params[name]).Ok? ==> Lookup(params, name, convert, typeName) == Ok(convert(params[name]).value)
    ensures name in params && convert(params[name]).Err? ==>
      Lookup(params, name, convert, typeName) == Err(ParamError(convert(params[name]).error, name))
    ensures Lookup(params, name, convert, typeName).Err? ==> Lookup(params, name, convert, typeName).error.expectedName == name
  {
  }

  /** Removing another name does not change what a name looks up to. */
  lemma LookupOther<T>(params: map<string, ParamVal>, other: string, name: string, convert: ParamVal -> Result<T, string>, typeName: string)
    requires other != name
    ensures Lookup(params - {other}, name, convert, typeName) == Lookup(params, name, convert, typeName)
  {
    assert (name in params - {other}) == (name in params);
    if name in params {
      assert (params - {other})[name] == params[name];
    }
  }

  /** Removing a set of other names does not change what a name looks up to. */
  lemma LookupRemoved<T>(params: map<string, ParamVal>, removed: set<string>, name: string, convert: ParamVal -> Result<T, string>, typeName: string)
    requires name !in removed
    ensures Lookup(params - removed, name, convert, typeName) == Lookup(params, name, convert, typeName)
  {
    assert (name in params - removed) == (name in params);
    if name in params {
      assert (params - removed)[name] == params[name];
    }
  }

  /** `unwrap_or(default)` */
  function OrDefault<T>(r: Result<T, ParamError>, d: T): T {
    if r.Ok? then r.value else d
  }

  /** `ParamSet` */
  class ParamSet {
    var params: map<string, ParamVal>

    constructor (params: map<string, ParamVal>)
      ensures this.params == params
    {
      this.params := params;
    }

    /** `get_one(name)`: takes the value out of the dictionary, whether or not it then converts. */
    method GetOne<T>(name: string, convert: ParamVal -> Result<T, string>, typeName: string) returns (r: Result<T, ParamError>)
      modifies this
      ensures r == Lookup(old(params), name, convert, typeName)
      ensures params == old(params) - {name}
    {
      if name !in params {
        return Err(ParamError(typeName, name));
      }
      var v := params[name];
      params := params - {name};
      match convert(v)
      case Ok(x) => r := Ok(x);
      case Err(tyLabel) => r := Err(ParamError(tyLabel, name));
    }

    /** `get_many(name)`: `get_one` into `Vec<T>`. */
    method GetMany<T>(name: string, c: Conv<T>, typeName: string) returns (r: Result<seq<T>, ParamError>)
      modifies this
      ensures r == Lookup(old(params), name, Many(c), typeName)
      ensures params == old(params) - {name}
    {
      r := GetOne(name, Many(c), typeName);
    }

    /** `current_transform()`: consumes `"object_to_world"`. */
    method CurrentTransform() returns (r: Result<Transform, ParamError>)
      modifies this
      ensures r == Lookup(old(params), "object_to_world", TryFromTransform, "Transform")
      ensures params == old(params) - {"object_to_world"}
    {
      r := GetOne("object_to_world", TryFromTransform, "Transform");
    }

    /** `reverse_orientation()`: consumes `"reverse_orientation"`. */
    method ReverseOrientation() returns (r: Result<bool, ParamError>)
      modifies this
      ensures r == Lookup(old(params), "reverse_orientation", One(BoolConv()), "bool")
      ensures params == old(params) - {"reverse_orientation"}
    {
      r := GetOne("reverse_orientation", One(BoolConv()), "bool");
    }
  }

  /**
   * Taking the same name twice: the second `get_one` always fails with the
   * missing-name error, even when the first one failed to convert.
   */
  method GetTwice<T>(ps: ParamSet, name: string, convert: ParamVal -> Result<T, string>, typeName: string)
    returns (first: Result<T, ParamError>, second: Result<T, ParamError>)
    modifies ps
    ensures first == Lookup(old(ps.params), name, convert, typeName)
    ensures second == Err(ParamError(typeName, name))
    ensures ps.params == old(ps.params) - {name}
  {
    first := ps.GetOne(name, convert, typeName);
    second := ps.GetOne(name, convert, typeName);
  }
}
