// The cgmath points and vectors used throughout the renderer, over reals
// (`Float` is modelled as `real`) and over integers (`Point2i`).
module Geom {
  datatype Vec2 = Vec2(x: real, y: real)
  {
    function Add(o: Vec2): Vec2 { Vec2(x + o.x, y + o.y) }
    function Sub(o: Vec2): Vec2 { Vec2(x - o.x, y - o.y) }
  }

  /** Points and vectors in 3-space share one representation. */
  datatype Vec3 = Vec3(x: real, y: real, z: real)
  {
    function Add(o: Vec3): Vec3 { Vec3(x + o.x, y + o.y, z + o.z) }
    function Sub(o: Vec3): Vec3 { Vec3(x - o.x, y - o.y, z - o.z) }
    function Neg(): Vec3 { Vec3(-x, -y, -z) }
    function Scale(s: real): Vec3 { Vec3(s * x, s * y, s * z) }
    function Dot(o: Vec3): real { x * o.x + y * o.y + z * o.z }
    function Cross(o: Vec3): Vec3 {
      Vec3(y * o.z - z * o.y, z * o.x - x * o.z, x * o.y - y * o.x)
    }
    /** Component `axis` (0 = x, 1 = y, 2 = z), as `p[axis]` in cgmath. */
    function At(axis: nat): real
      requires axis < 3
    {
      if axis == 0 then x else if axis == 1 then y else z
    }
  }

  datatype Point2i = Point2i(x: int, y: int)

  function Min(a: real, b: real): real { if a <= b then a else b }
  function Max(a: real, b: real): real { if a >= b then a else b }
  function MinI(a: int, b: int): int { if a <= b then a else b }
  function MaxI(a: int, b: int): int { if a >= b then a else b }
  function Abs(a: real): real { if a < 0.0 then -a else a }

  /** `f32::floor` and `f32::ceil` on reals. */
  function Floor(a: real): int { a.Floor }
  function Ceil(a: real): int { -((-a).Floor) }

  /** An integer is at least `ceil(a)` exactly when it is at least `a`, and at most `floor(a)` when at most `a`. */
  lemma RoundingBounds(a: real, n: int)
    ensures n >= Ceil(a) <==> n as real >= a
    ensures n <= Floor(a) <==> n as real <= a
  {
  }

  lemma CeilMono(a: real, b: real)
    requires a <= b
    ensures Ceil(a) <= Ceil(b)
  {
    RoundingBounds(a, Ceil(b));
    RoundingBounds(b, Ceil(b));
  }

  /** Below a strictly larger value, `floor(a) + 1` never passes `ceil(b)`. */
  lemma FloorBelowCeil(a: real, b: real)
    requires a < b
    ensures Floor(a) + 1 <= Ceil(b)
  {
    RoundingBounds(a, Floor(a));
    RoundingBounds(b, Ceil(b));
  }
}
