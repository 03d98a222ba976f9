// Reconstruction filters: the `Filter` interface (an evaluation and a radius
// pair) and the box filter, the only filter the renderer implements.
module Filter {
  import opened Geom

  /** A filter as the film sees it: `radius()` as two fields and `evaluate` as a function. */
  datatype Filter = Filter(radius: Vec2, invRadius: Vec2, evaluate: Vec2 -> real)

  /** `BoxFilter`: a radius and its stored reciprocal. */
  datatype BoxFilter = BoxFilter(radius: Vec2, invRadius: Vec2)

  /** `BoxFilter::evaluate`: the same weight everywhere. */
  function Evaluate(f: BoxFilter, p: Vec2): (w: real)
    ensures w == 1.0
  {
    1.0
  }

  /** `BoxFilter::radius`: the stored pair, unchanged. */
  function Radius(f: BoxFilter): (r: (Vec2, Vec2))
    ensures r.0 == f.radius && r.1 == f.invRadius
  {
    (f.radius, f.invRadius)
  }

  /** `BoxFilter` through the `Filter` interface. */
  function AsFilter(f: BoxFilter): (r: Filter)
    ensures (r.radius, r.invRadius) == Radius(f)
    ensures forall p :: r.evaluate(p) == 1.0
  {
    Filter(Radius(f).0, Radius(f).1, p => Evaluate(f, p))
  }

  /** `BoxFilter::default()`. */
  function Default(): BoxFilter {
    BoxFilter(Vec2(0.5, 0.5), Vec2(2.0, 2.0))
  }

  /** The default radius is half a pixel, and the stored inverse really is its reciprocal. */
  lemma DefaultRadius()
    ensures Radius(Default()).0 == Vec2(0.5, 0.5)
    ensures Radius(Default()).0.x * Radius(Default()).1.x == 1.0
    ensures Radius(Default()).0.y * Radius(Default()).1.y == 1.0
  {
  }
}
