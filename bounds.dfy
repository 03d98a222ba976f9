// Axis-aligned boxes: `Bounds2i` (integer pixel rectangles, half-open when
// iterated) and `Bounds3f` (real boxes, closed), with the box algebra the
// BVH, the film and the mipmap rely on.
module Bounds {
  import opened Geom

  const I32Max: int := 0x7FFF_FFFF
  const I32Min: int := -0x8000_0000
  /** `f32::MAX`; `f32::MIN` is its negation. */
  const FloatMax: real := 340282346638528859811704183484516925440.0

  // ---------------------------------------------------------------- Bounds2i

  datatype Bounds2i = Bounds2i(min: Point2i, max: Point2i)

  /** The half-open membership used by `iter_points`. */
  predicate Inside(p: Point2i, b: Bounds2i) {
    b.min.x <= p.x < b.max.x && b.min.y <= p.y < b.max.y
  }

  /** Fits in `i32`. */
  predicate InI32(b: Bounds2i) {
    I32Min <= b.min.x <= I32Max && I32Min <= b.min.y <= I32Max &&
    I32Min <= b.max.x <= I32Max && I32Min <= b.max.y <= I32Max
  }

  function Empty2(): (b: Bounds2i)
    ensures InI32(b)
    ensures forall p: Point2i :: !Inside(p, b)
  {
    Bounds2i(Point2i(I32Max, I32Max), Point2i(I32Min, I32Min))
  }

  function Dimensions(b: Bounds2i): (d: (int, int))
    ensures b.min.x + d.0 == b.max.x && b.min.y + d.1 == b.max.y
  {
    (b.max.x - b.min.x, b.max.y - b.min.y)
  }

  /** `diagonal().x * diagonal().y`; negative for a box whose extent is negative on one axis. */
  function Area(b: Bounds2i): int {
    (b.max.x - b.min.x) * (b.max.y - b.min.y)
  }

  function Intersection(a: Bounds2i, b: Bounds2i): (r: Bounds2i)
    ensures forall p: Point2i :: Inside(p, r) <==> Inside(p, a) && Inside(p, b)
  {
    Bounds2i(Point2i(MaxI(a.min.x, b.min.x), MaxI(a.min.y, b.min.y)),
             Point2i(MinI(a.max.x, b.max.x), MinI(a.max.y, b.max.y)))
  }

  /** Intersecting with the empty box gives the empty box. */
  lemma IntersectionWithEmpty(a: Bounds2i)
    requires InI32(a)
    ensures Intersection(a, Empty2()) == Empty2()
  {
  }

  /** `(y1..y2).map(|y| (x, y))` */
  function Column(x: int, y1: int, y2: int): (s: seq<Point2i>)
    decreases y2 - y1
  {
    if y1 >= y2 then [] else [Point2i(x, y1)] + Column(x, y1 + 1, y2)
  }

  /** `(x1..x2).flat_map(|x| Column(x, y1, y2))` */
  function Rows(x1: int, x2: int, y1: int, y2: int): (s: seq<Point2i>)
    decreases x2 - x1
  {
    if x1 >= x2 then [] else Column(x1, y1, y2) + Rows(x1 + 1, x2, y1, y2)
  }

  function IterPoints(b: Bounds2i): seq<Point2i> {
    Rows(b.min.x, b.max.x, b.min.y, b.max.y)
  }

  function Extent(lo: int, hi: int): nat { if hi <= lo then 0 else hi - lo }

  lemma {:induction false} ColumnAt(x: int, y1: int, y2: int)
    ensures |Column(x, y1, y2)| == Extent(y1, y2)
    ensures forall j :: 0 <= j < Extent(y1, y2) ==> Column(x, y1, y2)[j] == Point2i(x, y1 + j)
    decreases y2 - y1
  {
    if y1 < y2 {
      ColumnAt(x, y1 + 1, y2);
    }
  }

  lemma {:induction false} RowsLength(x1: int, x2: int, y1: int, y2: int)
    ensures |Rows(x1, x2, y1, y2)| == Extent(x1, x2) * Extent(y1, y2)
    decreases x2 - x1
  {
    if x1 < x2 {
      ColumnAt(x1, y1, y2);
      RowsLength(x1 + 1, x2, y1, y2);
      var h := Extent(y1, y2);
      assert Extent(x1, x2) * h == h + Extent(x1 + 1, x2) * h;
    }
  }

  lemma {:induction false} RowsAt(x1: int, x2: int, y1: int, y2: int, i: int, j: int)
    requires 0 <= i < Extent(x1, x2) && 0 <= j < Extent(y1, y2)
    ensures i * Extent(y1, y2) + j < |Rows(x1, x2, y1, y2)|
    ensures Rows(x1, x2, y1, y2)[i * Extent(y1, y2) + j] == Point2i(x1 + i, y1 + j)
    decreases x2 - x1
  {
    var h := Extent(y1, y2);
    var col := Column(x1, y1, y2);
    var rest := Rows(x1 + 1, x2, y1, y2);
    assert Rows(x1, x2, y1, y2) == col + rest;
    ColumnAt(x1, y1, y2);
    RowsLength(x1 + 1, x2, y1, y2);
    if i == 0 {
      assert i * h == 0;
    } else {
      RowsAt(x1 + 1, x2, y1, y2, i - 1, j);
      var k := (i - 1) * h + j;
      assert i * h + j == h + k;
    }
  }

  /**
   * `iter_points` yields each point of the half-open box once, x in the outer
   * loop and y in the inner one: with h the box's height, point i * h + j is
   * `(x1 + i, y1 + j)`.
   */
  lemma IterPointsAt(b: Bounds2i, i: int, j: int)
    requires 0 <= i < Extent(b.min.x, b.max.x) && 0 <= j < Extent(b.min.y, b.max.y)
    ensures |IterPoints(b)| == Extent(b.min.x, b.max.x) * Extent(b.min.y, b.max.y)
    ensures i * Extent(b.min.y, b.max.y) + j < |IterPoints(b)|
    ensures IterPoints(b)[i * Extent(b.min.y, b.max.y) + j] == Point2i(b.min.x + i, b.min.y + j)
  {
    var x1, x2, y1, y2 := b.min.x, b.max.x, b.min.y, b.max.y;
    assert IterPoints(b) == Rows(x1, x2, y1, y2);
    RowsLength(x1, x2, y1, y2);
    RowsAt(x1, x2, y1, y2, i, j);
  }

  lemma {:induction false} ColumnMembers(x: int, y1: int, y2: int, p: Point2i)
    ensures p in Column(x, y1, y2) <==> p.x == x && y1 <= p.y < y2
    decreases y2 - y1
  {
    if y1 < y2 {
      ColumnMembers(x, y1 + 1, y2, p);
    }
  }

  lemma {:induction false} RowsMembers(x1: int, x2: int, y1: int, y2: int, p: Point2i)
    ensures p in Rows(x1, x2, y1, y2) <==> x1 <= p.x < x2 && y1 <= p.y < y2
    decreases x2 - x1
  {
    if x1 < x2 {
      ColumnMembers(x1, y1, y2, p);
      RowsMembers(x1 + 1, x2, y1, y2, p);
    }
  }

  /** `iter_points` yields exactly the points inside the box. */
  lemma IterPointsMembers(b: Bounds2i, p: Point2i)
    ensures p in IterPoints(b) <==> Inside(p, b)
  {
    RowsMembers(b.min.x, b.max.x, b.min.y, b.max.y, p);
  }

  /** The example of `test_bounds_iter_points`. */
  lemma IterPointsExample()
    ensures IterPoints(Bounds2i(Point2i(-1, -2), Point2i(1, 1))) ==
      [Point2i(-1, -2), Point2i(-1, -1), Point2i(-1, 0), Point2i(0, -2), Point2i(0, -1), Point2i(0, 0)]
  {
    var b := Bounds2i(Point2i(-1, -2), Point2i(1, 1));
    IterPointsAt(b, 0, 0);
    IterPointsAt(b, 0, 1);
    IterPointsAt(b, 0, 2);
    IterPointsAt(b, 1, 0);
    IterPointsAt(b, 1, 1);
    IterPointsAt(b, 1, 2);
  }

  /** `(lo..hi).step_by(step)`: the starts lo, lo + step, ... below hi. */
  function Steps(lo: int, hi: int, step: nat): (s: seq<int>)
    requires step > 0
    decreases hi - lo
  {
    if lo >= hi then [] else [lo] + Steps(lo + step, hi, step)
  }

  /** The tile of `iter_tiles` that starts at (x, y). */
  function Tile(b: Bounds2i, x: int, y: int, ts: nat): Bounds2i {
    Bounds2i(Point2i(x, y), Point2i(MinI(x + ts, b.max.x), MinI(y + ts, b.max.y)))
  }

  function TileColumn(b: Bounds2i, x: int, ys: seq<int>, ts: nat): (s: seq<Bounds2i>)
    ensures |s| == |ys|
  {
    if ys == [] then [] else [Tile(b, x, ys[0], ts)] + TileColumn(b, x, ys[1..], ts)
  }

  function TileRows(b: Bounds2i, xs: seq<int>, ys: seq<int>, ts: nat): seq<Bounds2i> {
    if xs == [] then [] else TileColumn(b, xs[0], ys, ts) + TileRows(b, xs[1..], ys, ts)
  }

  /**
   * `iter_tiles(tile_size)`; `step_by` panics on a zero step, so the tile size
   * must be positive.
   */
  function IterTiles(b: Bounds2i, ts: nat): seq<Bounds2i>
    requires ts > 0
  {
    TileRows(b, Steps(b.min.x, b.max.x, ts), Steps(b.min.y, b.max.y, ts), ts)
  }

  function SumAreas(tiles: seq<Bounds2i>): int {
    if tiles == [] then 0 else Area(tiles[0]) + SumAreas(tiles[1..])
  }

  /** Sum of the clipped widths `min(s + step, hi) - s` over the starts. */
  function SumWidths(starts: seq<int>, hi: int, step: nat): int {
    if starts == [] then 0 else (MinI(starts[0] + step, hi) - starts[0]) + SumWidths(starts[1..], hi, step)
  }

  lemma {:induction false} StepsWidths(lo: int, hi: int, step: nat)
    requires step > 0
    ensures SumWidths(Steps(lo, hi, step), hi, step) == Extent(lo, hi)
    decreases hi - lo
  {
    if lo < hi {
      StepsWidths(lo + step, hi, step);
      assert Steps(lo, hi, step)[1..] == Steps(lo + step, hi, step);
    }
  }

  lemma {:induction false} SumAreasAppend(a: seq<Bounds2i>, b: seq<Bounds2i>)
    ensures SumAreas(a + b) == SumAreas(a) + SumAreas(b)
  {
    if a == [] {
      assert a + b == b;
    } else {
      assert (a + b)[1..] == a[1..] + b;
      assert (a + b)[0] == a[0];
      SumAreasAppend(a[1..], b);
    }
  }

  lemma Distrib(a: int, b: int, h: int)
    ensures (a + b) * h == a * h + b * h
    ensures h * (a + b) == h * a + h * b
  {
  }

  lemma {:induction false} TileColumnArea(b: Bounds2i, x: int, ys: seq<int>, ts: nat)
    ensures SumAreas(TileColumn(b, x, ys, ts)) == (MinI(x + ts, b.max.x) - x) * SumWidths(ys, b.max.y, ts)
  {
    if ys != [] {
      TileColumnArea(b, x, ys[1..], ts);
      var w := MinI(x + ts, b.max.x) - x;
      var h0 := MinI(ys[0] + ts, b.max.y) - ys[0];
      var rest := SumWidths(ys[1..], b.max.y, ts);
      assert SumAreas(TileColumn(b, x, ys, ts)) == w * h0 + w * rest;
      assert SumWidths(ys, b.max.y, ts) == h0 + rest;
      Distrib(h0, rest, w);
    }
  }

  lemma {:induction false} TileRowsArea(b: Bounds2i, xs: seq<int>, ys: seq<int>, ts: nat)
    ensures SumAreas(TileRows(b, xs, ys, ts)) == SumWidths(xs, b.max.x, ts) * SumWidths(ys, b.max.y, ts)
  {
    if xs != [] {
      var col := TileColumn(b, xs[0], ys, ts);
      var rows := TileRows(b, xs[1..], ys, ts);
      var h := SumWidths(ys, b.max.y, ts);
      var w0 := MinI(xs[0] + ts, b.max.x) - xs[0];
      var rest := SumWidths(xs[1..], b.max.x, ts);
      TileColumnArea(b, xs[0], ys, ts);
      TileRowsArea(b, xs[1..], ys, ts);
      SumAreasAppend(col, rows);
      assert TileRows(b, xs, ys, ts) == col + rows;
      assert SumAreas(col) == w0 * h;
      assert SumAreas(rows) == rest * h;
      assert SumWidths(xs, b.max.x, ts) == w0 + rest;
      Distrib(w0, rest, h);
    }
  }

  /** The tiles' areas add up to the area of a box with non-negative extents. */
  lemma TilesCoverArea(b: Bounds2i, ts: nat)
    requires ts > 0
    requires b.min.x <= b.max.x && b.min.y <= b.max.y
    ensures SumAreas(IterTiles(b, ts)) == Area(b)
  {
    TileRowsArea(b, Steps(b.min.x, b.max.x, ts), Steps(b.min.y, b.max.y, ts), ts);
    StepsWidths(b.min.x, b.max.x, ts);
    StepsWidths(b.min.y, b.max.y, ts);
  }

  /** The example of `test_bounds_iter_tiles`: unit tiles of a 2x2 box, x-major. */
  lemma UnitTilesExample()
    ensures IterTiles(Bounds2i(Point2i(0, 0), Point2i(2, 2)), 1) ==
      [Bounds2i(Point2i(0, 0), Point2i(1, 1)), Bounds2i(Point2i(0, 1), Point2i(1, 2)),
       Bounds2i(Point2i(1, 0), Point2i(2, 1)), Bounds2i(Point2i(1, 1), Point2i(2, 2))]
  {
    var b := Bounds2i(Point2i(0, 0), Point2i(2, 2));
    assert Steps(0, 2, 1) == [0, 1] by {
      assert Steps(2, 2, 1) == [];
      assert Steps(1, 2, 1) == [1];
    }
  }

  // ---------------------------------------------------------------- Bounds3f

  datatype Bounds3 = Bounds3(min: Vec3, max: Vec3)

  /** Closed membership of a point. */
  predicate Contains(b: Bounds3, p: Vec3) {
    b.min.x <= p.x <= b.max.x && b.min.y <= p.y <= b.max.y && b.min.z <= p.z <= b.max.z
  }

  /** `a` lies within `b` (minimum and maximum corners both inside). */
  predicate Within(a: Bounds3, b: Bounds3) {
    b.min.x <= a.min.x && b.min.y <= a.min.y && b.min.z <= a.min.z &&
    a.max.x <= b.max.x && a.max.y <= b.max.y && a.max.z <= b.max.z
  }

  predicate FiniteCoord(v: real) { -FloatMax <= v <= FloatMax }

  predicate FinitePoint(p: Vec3) { FiniteCoord(p.x) && FiniteCoord(p.y) && FiniteCoord(p.z) }

  /** All six coordinates are finite `f32` values. */
  predicate Finite(b: Bounds3) { FinitePoint(b.min) && FinitePoint(b.max) }

  function Empty3(): (b: Bounds3)
    ensures forall p :: FinitePoint(p) && Contains(b, p) ==> false
  {
    Bounds3(Vec3(FloatMax, FloatMax, FloatMax), Vec3(-FloatMax, -FloatMax, -FloatMax))
  }

  function Join(a: Bounds3, b: Bounds3): (r: Bounds3)
    ensures Within(a, r) && Within(b, r)
    ensures forall c :: Within(a, c) && Within(b, c) ==> Within(r, c)
  {
    Bounds3(Vec3(Min(a.min.x, b.min.x), Min(a.min.y, b.min.y), Min(a.min.z, b.min.z)),
            Vec3(Max(a.max.x, b.max.x), Max(a.max.y, b.max.y), Max(a.max.z, b.max.z)))
  }

  function JoinPoint(a: Bounds3, p: Vec3): (r: Bounds3)
    ensures Within(a, r) && Contains(r, p)
    ensures forall c :: Within(a, c) && Contains(c, p) ==> Within(r, c)
  {
    Bounds3(Vec3(Min(a.min.x, p.x), Min(a.min.y, p.y), Min(a.min.z, p.z)),
            Vec3(Max(a.max.x, p.x), Max(a.max.y, p.y), Max(a.max.z, p.z)))
  }

  /** The empty box is an identity for `join` on finite boxes. */
  lemma JoinEmpty(b: Bounds3)
    requires Finite(b)
    ensures Join(Empty3(), b) == b && Join(b, Empty3()) == b
  {
  }

  /** The empty box joined with a finite point is that point. */
  lemma JoinPointEmpty(p: Vec3)
    requires FinitePoint(p)
    ensures JoinPoint(Empty3(), p) == Bounds3(p, p)
  {
  }

  function Diagonal(b: Bounds3): (d: Vec3)
    ensures b.min.Add(d) == b.max
  {
    b.max.Sub(b.min)
  }

  function Centroid(b: Bounds3): (c: Vec3)
    ensures c.Sub(b.min) == b.max.Sub(c)
  {
    b.min.Add(Diagonal(b).Scale(1.0 / 2.0))
  }

  /** Centroids of a box with non-negative extents lie within the box. */
  lemma CentroidInside(b: Bounds3)
    requires b.min.x <= b.max.x && b.min.y <= b.max.y && b.min.z <= b.max.z
    ensures Contains(b, Centroid(b))
  {
  }

  /**
   * The axis of largest extent; x wins only with a strict maximum, and a tie
   * between y and z goes to z.
   */
  function MaximumExtent(b: Bounds3): (axis: nat)
    ensures axis < 3
    ensures forall k :: 0 <= k < 3 ==> Diagonal(b).At(k) <= Diagonal(b).At(axis)
    ensures axis == 0 <==> Diagonal(b).x > Diagonal(b).y && Diagonal(b).x > Diagonal(b).z
    ensures axis == 1 ==> Diagonal(b).y > Diagonal(b).z
  {
    var d := Diagonal(b);
    if d.x > d.y && d.x > d.z then 0 else if d.y > d.z then 1 else 2
  }

  predicate IsPoint(b: Bounds3) { b.max == b.min }

  /** A one-point box is its own centroid. */
  lemma PointCentroid(b: Bounds3)
    requires IsPoint(b)
    ensures Centroid(b) == b.min && Diagonal(b) == Vec3(0.0, 0.0, 0.0)
  {
  }
}
