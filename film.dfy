// The film: a row-major buffer of XYZ pixels over the cropped pixel bounds,
// the filter table, and film tiles that accumulate filtered samples and are
// merged back into the film.
module Film {
  import opened Geom
  import opened Grid
  import opened Bits
  import opened Bounds
  import opened Spectrum
  import opened Filter

  /** `FILTER_TABLE_WIDTH` */
  const FilterTableWidth: nat := 16

  /** `Bounds2f`, the crop window in normalised device coordinates. */
  datatype Bounds2f = Bounds2f(min: Vec2, max: Vec2)

  /** `Pixel`: an XYZ sum and the filter weights that went into it. */
  datatype Pixel = Pixel(xyz: Coeffs, filterWeightSum: real)

  /** `FilmTilePixel`: an RGB contribution sum and its filter weights. */
  datatype TilePixel = TilePixel(contribSum: Spectrum, filterWeightSum: real)

  function ZeroPixel(): Pixel { Pixel(New(0.0).c, 0.0) }

  function ZeroTilePixel(): TilePixel { TilePixel(New(0.0), 0.0) }

  predicate Ordered(b: Bounds2i) {
    b.min.x <= b.max.x && b.min.y <= b.max.y
  }

  // ------------------------------------------------------------ row-major pixel offsets

  /**
   * The point stored at position `j` of a row-major buffer over `b`: the
   * inverse of `Offset`. A box without columns sends every position to its
   * first column.
   */
  function PointAt(b: Bounds2i, j: int): Point2i {
    var w := if b.min.x < b.max.x then b.max.x - b.min.x else 1;
    Point2i(b.min.x + j % w, b.min.y + j / w)
  }

  /** `FilmTile::get_pixel_idx`: rows of `width` pixels counted from the box's min corner. */
  function Offset(b: Bounds2i, p: Point2i): (i: int)
    ensures Inside(p, b) ==> 0 <= i < Area(b) && PointAt(b, i) == p
  {
    var i := (p.y - b.min.y) * (b.max.x - b.min.x) + (p.x - b.min.x);
    if Inside(p, b) then OffsetInverse(b, p, i); i else i
  }

  lemma OffsetInverse(b: Bounds2i, p: Point2i, i: int)
    requires Inside(p, b) && i == (p.y - b.min.y) * (b.max.x - b.min.x) + (p.x - b.min.x)
    ensures 0 <= i < Area(b) && PointAt(b, i) == p
  {
    var u, v, w, h := p.x - b.min.x, p.y - b.min.y, b.max.x - b.min.x, b.max.y - b.min.y;
    RowMajorBound(u, v, w, h);
    ModUnique(i, w, v, u);
  }

  /** Every position of an ordered box's buffer holds an inside point whose offset is that position. */
  lemma PointAtInverse(b: Bounds2i, j: int)
    requires Ordered(b) && 0 <= j < Area(b)
    ensures Inside(PointAt(b, j), b) && Offset(b, PointAt(b, j)) == j
  {
    var w, h := b.max.x - b.min.x, b.max.y - b.min.y;
    assert w > 0 && h > 0;
    DivMod(j, w);
    DivBelow(j, w, h);
  }

  /** Distinct points inside a box have distinct offsets. */
  lemma OffsetInjective(b: Bounds2i, p: Point2i, q: Point2i)
    requires Inside(p, b) && Inside(q, b) && p != q
    ensures Offset(b, p) != Offset(b, q)
  {
  }

  // ------------------------------------------------------------ Film::new

  /** The cropped pixel bounds: the crop window scaled by the resolution, rounded up. */
  function CroppedBounds(resolution: Point2i, crop: Bounds2f): (b: Bounds2i)
    requires resolution.x >= 0 && resolution.y >= 0
    requires crop.min.x <= crop.max.x && crop.min.y <= crop.max.y
    ensures Ordered(b)
  {
    var rx, ry := resolution.x as real, resolution.y as real;
    ScaleMono(rx, crop.min.x, crop.max.x);
    ScaleMono(ry, crop.min.y, crop.max.y);
    CeilMono(rx * crop.min.x, rx * crop.max.x);
    CeilMono(ry * crop.min.y, ry * crop.max.y);
    Bounds2i(Point2i(Ceil(rx * crop.min.x), Ceil(ry * crop.min.y)),
             Point2i(Ceil(rx * crop.max.x), Ceil(ry * crop.max.y)))
  }

  lemma ScaleMono(r: real, a: real, b: real)
    requires r >= 0.0 && a <= b
    ensures r * a <= r * b
  {
  }

  /** Where table entry (x, y) samples the filter: the centre of cell (x, y) of the radius. */
  function TablePoint(radius: Vec2, x: nat, y: nat): Vec2 {
    Vec2((x as real + 0.5) * radius.x / FilterTableWidth as real,
         (y as real + 0.5) * radius.y / FilterTableWidth as real)
  }

  ghost predicate IsFilterTable(table: seq<seq<real>>, f: Filter) {
    |table| == FilterTableWidth &&
    forall y :: 0 <= y < FilterTableWidth ==>
      |table[y]| == FilterTableWidth &&
      forall x :: 0 <= x < FilterTableWidth ==> table[y][x] == f.evaluate(TablePoint(f.radius, x, y))
  }

  /** A film built with a box filter has every table entry equal to 1. */
  lemma BoxFilterTable(table: seq<seq<real>>, b: BoxFilter)
    requires IsFilterTable(table, AsFilter(b))
    ensures forall y, x :: 0 <= y < FilterTableWidth && 0 <= x < FilterTableWidth ==> table[y][x] == 1.0
  {
  }

  /** The nested loop of `Film::new` that fills `[[Float; 16]; 16]` with filter values. */
  method BuildFilterTable(f: Filter) returns (table: seq<seq<real>>)
    ensures IsFilterTable(table, f)
  {
    var cells := new real[FilterTableWidth, FilterTableWidth];
    for y := 0 to FilterTableWidth
      invariant forall y', x :: 0 <= y' < y && 0 <= x < FilterTableWidth ==>
        cells[y', x] == f.evaluate(TablePoint(f.radius, x, y'))
    {
      for x := 0 to FilterTableWidth
        invariant forall y', x' :: 0 <= y' < y && 0 <= x' < FilterTableWidth ==>
          cells[y', x'] == f.evaluate(TablePoint(f.radius, x', y'))
        invariant forall x' :: 0 <= x' < x ==> cells[y, x'] == f.evaluate(TablePoint(f.radius, x', y))
      {
        cells[y, x] := f.evaluate(TablePoint(f.radius, x, y));
      }
    }
    table := seq(FilterTableWidth, y requires 0 <= y < FilterTableWidth reads cells =>
      seq(FilterTableWidth, x requires 0 <= x < FilterTableWidth reads cells => cells[y, x]));
  }

  // ------------------------------------------------------------ get_film_tile

  /** A sample position inside the (half-open) sample bounds. */
  predicate InSampleBounds(p: Vec2, b: Bounds2i) {
    b.min.x as real <= p.x < b.max.x as real && b.min.y as real <= p.y < b.max.y as real
  }

  /** `outer` reaches at least as far as `inner` on every side. */
  predicate Encloses(outer: Bounds2i, inner: Bounds2i) {
    outer.min.x <= inner.min.x && outer.min.y <= inner.min.y && inner.max.x <= outer.max.x && inner.max.y <= outer.max.y
  }

  /**
   * `add_sample_to_tile`'s `[p0, p1)` before clipping to the tile: exactly
   * the pixels whose discrete position lies within the radius of the
   * sample's.
   */
  function Footprint(pFilm: Vec2, radius: Vec2): (r: Bounds2i)
    ensures forall q :: Inside(q, r) <==>
      Abs(q.x as real - (pFilm.x - 0.5)) <= radius.x && Abs(q.y as real - (pFilm.y - 0.5)) <= radius.y
  {
    var d := Vec2(pFilm.x - 0.5, pFilm.y - 0.5);
    var r := Bounds2i(Point2i(Ceil(d.x - radius.x), Ceil(d.y - radius.y)),
                      Point2i(Floor(d.x + radius.x) + 1, Floor(d.y + radius.y) + 1));
    assert forall q :: Inside(q, r) <==> Abs(q.x as real - d.x) <= radius.x && Abs(q.y as real - d.y) <= radius.y by {
      forall q: Point2i
        ensures Inside(q, r) <==> Abs(q.x as real - d.x) <= radius.x && Abs(q.y as real - d.y) <= radius.y
      {
        RoundingBounds(d.x - radius.x, q.x);
        RoundingBounds(d.y - radius.y, q.y);
        RoundingBounds(d.x + radius.x, q.x);
        RoundingBounds(d.y + radius.y, q.y);
      }
    }
    r
  }

  /** The pixel span of a tile for `sample_bounds`: it encloses the footprint of every sample taken inside them. */
  function TileSpan(sampleBounds: Bounds2i, radius: Vec2): (r: Bounds2i)
    ensures forall p :: InSampleBounds(p, sampleBounds) ==> Encloses(r, Footprint(p, radius))
  {
    var b := sampleBounds;
    var r := Bounds2i(Point2i(Ceil(b.min.x as real - 0.5 - radius.x), Ceil(b.min.y as real - 0.5 - radius.y)),
                      Point2i(Ceil(b.max.x as real - 0.5 + radius.x + 1.0), Ceil(b.max.y as real - 0.5 + radius.y + 1.0)));
    assert forall p :: InSampleBounds(p, b) ==> Encloses(r, Footprint(p, radius)) by {
      forall p | InSampleBounds(p, b)
        ensures Encloses(r, Footprint(p, radius))
      {
        CeilMono(b.min.x as real - 0.5 - radius.x, p.x - 0.5 - radius.x);
        CeilMono(b.min.y as real - 0.5 - radius.y, p.y - 0.5 - radius.y);
        FloorBelowCeil(p.x - 0.5 + radius.x, b.max.x as real - 0.5 + radius.x + 1.0);
        FloorBelowCeil(p.y - 0.5 + radius.y, b.max.y as real - 0.5 + radius.y + 1.0);
      }
    }
    r
  }

  /**
   * The span as `get_film_tile` writes it, subtracting the radius in the
   * upper y bound: it agrees with `TileSpan` except there, where for a
   * non-negative radius it stops at or below `TileSpan`'s bound.
   */
  function TileSpanAsWritten(sampleBounds: Bounds2i, radius: Vec2): (r: Bounds2i)
    ensures r.min == TileSpan(sampleBounds, radius).min && r.max.x == TileSpan(sampleBounds, radius).max.x
    ensures radius.y >= 0.0 ==> r.max.y <= TileSpan(sampleBounds, radius).max.y
  {
    var b := sampleBounds;
    var r := Bounds2i(Point2i(Ceil(b.min.x as real - 0.5 - radius.x), Ceil(b.min.y as real - 0.5 - radius.y)),
                      Point2i(Ceil(b.max.x as real - 0.5 + radius.x + 1.0), Ceil(b.max.y as real - 0.5 - radius.y + 1.0)));
    if radius.y >= 0.0 then
      CeilMono(b.max.y as real - 0.5 - radius.y + 1.0, b.max.y as real - 0.5 + radius.y + 1.0);
      r
    else r
  }

  /**
   * With radius 1.5 and sample bounds (0,0)-(2,2), the sample at (1.5, 1.9)
   * reaches pixel (1, 2), but the span as written stops below row 1.
   */
  lemma TileSpanAsWrittenMisses()
    ensures var sb, r, p := Bounds2i(Point2i(0, 0), Point2i(2, 2)), Vec2(1.5, 1.5), Vec2(1.5, 1.9);
      InSampleBounds(p, sb) && Inside(Point2i(1, 2), Footprint(p, r)) &&
      TileSpanAsWritten(sb, r).max.y == 1 && TileSpan(sb, r).max.y == 4
  {
    var sb, r, p := Bounds2i(Point2i(0, 0), Point2i(2, 2)), Vec2(1.5, 1.5), Vec2(1.5, 1.9);
    assert Inside(Point2i(1, 2), Footprint(p, r));
    RoundingBounds(1.0, 1);
    RoundingBounds(1.0, 0);
    RoundingBounds(4.0, 4);
    RoundingBounds(4.0, 3);
  }

  // ------------------------------------------------------------ add_sample_to_tile

  /** The table column (or row) for pixel coordinate `x`: `min(floor(|x - d| * inv * 16), 15)`. */
  function FilterIndex(x: int, d: real, inv: real): (i: nat)
    ensures i <= FilterTableWidth - 1
  {
    var f := Abs((x as real - d) * inv * FilterTableWidth as real);
    MinI(Floor(f), FilterTableWidth - 1)
  }

  /** The `filter_indices_x` (or `_y`) buffer for coordinates `lo..hi`. */
  method FilterIndices(lo: int, hi: int, d: real, inv: real) returns (r: seq<nat>)
    requires lo <= hi
    ensures |r| == hi - lo && forall i :: 0 <= i < |r| ==> r[i] == FilterIndex(lo + i, d, inv)
    ensures forall i :: 0 <= i < |r| ==> r[i] < FilterTableWidth
  {
    var indices := new nat[hi - lo](_ => 0);
    for x := lo to hi
      invariant forall i :: 0 <= i < x - lo ==> indices[i] == FilterIndex(lo + i, d, inv)
    {
      indices[x - lo] := FilterIndex(x, d, inv);
    }
    r := indices[..];
  }

  /** The filter-table weight of pixel q for a sample at discrete position d. */
  function Weight(table: seq<seq<real>>, q: Point2i, d: Vec2, inv: Vec2): real
    requires |table| == FilterTableWidth && forall y :: 0 <= y < FilterTableWidth ==> |table[y]| == FilterTableWidth
  {
    table[FilterIndex(q.y, d.y, inv.y)][FilterIndex(q.x, d.x, inv.x)]
  }

  /** One splat: `contrib_sum += radiance * sample_weight * w` and `filter_weight_sum += w`. */
  function Gain(px: TilePixel, c: Spectrum, w: real): TilePixel {
    TilePixel(Pointwise(Plus, px.contribSum, Pointwise(Times, c, New(w))), px.filterWeightSum + w)
  }

  /** Pixel q comes before (x, y) in the `for y { for x }` order: rows first. */
  predicate RowsBefore(q: Point2i, x: int, y: int) {
    q.y < y || (q.y == y && q.x < x)
  }

  ghost predicate WellFormedTable(table: seq<seq<real>>) {
    |table| == FilterTableWidth && forall y :: 0 <= y < FilterTableWidth ==> |table[y]| == FilterTableWidth
  }

  /** The tile buffer after the splat loop has reached (x, y). */
  ghost function SplatUpTo(old0: seq<TilePixel>, tb: Bounds2i, fp: Bounds2i, table: seq<seq<real>>,
                           d: Vec2, inv: Vec2, c: Spectrum, x: int, y: int): seq<TilePixel>
    requires WellFormedTable(table)
  {
    seq(|old0|, j requires 0 <= j < |old0| =>
      var q := PointAt(tb, j);
      if Inside(q, fp) && RowsBefore(q, x, y) then Gain(old0[j], c, Weight(table, q, d, inv)) else old0[j])
  }

  /** The tile buffer after a sample: every pixel in the clipped footprint has gained its weighted share. */
  ghost function Splat(old0: seq<TilePixel>, tb: Bounds2i, fp: Bounds2i, table: seq<seq<real>>,
                       d: Vec2, inv: Vec2, c: Spectrum): (r: seq<TilePixel>)
    requires WellFormedTable(table)
    requires |old0| == MaxI(Area(tb), 0)
    ensures |r| == |old0|
  {
    seq(|old0|, j requires 0 <= j < |old0| =>
      var q := PointAt(tb, j);
      if Inside(q, fp) then Gain(old0[j], c, Weight(table, q, d, inv)) else old0[j])
  }

  /** The tile pixel at q gains its weighted share exactly when q lies in the clipped footprint. */
  lemma SplatAt(old0: seq<TilePixel>, tb: Bounds2i, fp: Bounds2i, table: seq<seq<real>>,
                d: Vec2, inv: Vec2, c: Spectrum, q: Point2i)
    requires WellFormedTable(table)
    requires |old0| == MaxI(Area(tb), 0) && Inside(q, tb)
    ensures Offset(tb, q) < |old0|
    ensures Splat(old0, tb, fp, table, d, inv, c)[Offset(tb, q)] ==
      if Inside(q, fp) then Gain(old0[Offset(tb, q)], c, Weight(table, q, d, inv)) else old0[Offset(tb, q)]
  {
  }

  lemma SplatStep(old0: seq<TilePixel>, tb: Bounds2i, fp: Bounds2i, table: seq<seq<real>>,
                  d: Vec2, inv: Vec2, c: Spectrum, x: int, y: int)
    requires WellFormedTable(table)
    requires |old0| == MaxI(Area(tb), 0)
    requires fp == Intersection(fp, tb) && Inside(Point2i(x, y), fp)
    ensures Offset(tb, Point2i(x, y)) < |old0|
    ensures SplatUpTo(old0, tb, fp, table, d, inv, c, x + 1, y) ==
      SplatUpTo(old0, tb, fp, table, d, inv, c, x, y)[Offset(tb, Point2i(x, y)) :=
        Gain(old0[Offset(tb, Point2i(x, y))], c, Weight(table, Point2i(x, y), d, inv))]
  {
    var q := Point2i(x, y);
    var a := SplatUpTo(old0, tb, fp, table, d, inv, c, x + 1, y);
    var b := SplatUpTo(old0, tb, fp, table, d, inv, c, x, y);
    var k := Offset(tb, q);
    forall j | 0 <= j < |old0|
      ensures a[j] == b[k := Gain(old0[k], c, Weight(table, q, d, inv))][j]
    {
      if j != k {
        PointAtInverse(tb, j);
      }
    }
  }

  lemma SplatRowDone(old0: seq<TilePixel>, tb: Bounds2i, fp: Bounds2i, table: seq<seq<real>>,
                     d: Vec2, inv: Vec2, c: Spectrum, y: int)
    requires WellFormedTable(table)
    ensures SplatUpTo(old0, tb, fp, table, d, inv, c, fp.max.x, y) ==
      SplatUpTo(old0, tb, fp, table, d, inv, c, fp.min.x, y + 1)
  {
  }

  lemma SplatAll(old0: seq<TilePixel>, tb: Bounds2i, fp: Bounds2i, table: seq<seq<real>>,
                 d: Vec2, inv: Vec2, c: Spectrum)
    requires WellFormedTable(table)
    requires |old0| == MaxI(Area(tb), 0)
    ensures SplatUpTo(old0, tb, fp, table, d, inv, c, fp.min.x, MaxI(fp.min.y, fp.max.y)) ==
      Splat(old0, tb, fp, table, d, inv, c)
    ensures SplatUpTo(old0, tb, fp, table, d, inv, c, fp.min.x, fp.min.y) == old0
  {
  }

  // ------------------------------------------------------------ merge_film_tile

  /** Film pixel plus tile pixel: the tile's contribution converted to XYZ, and its weights. */
  function MergePixel(px: Pixel, t: TilePixel): Pixel {
    Pixel(Pointwise(Plus, Spectrum(px.xyz), Spectrum(ToXyz(t.contribSum))).c,
          px.filterWeightSum + t.filterWeightSum)
  }

  /** Pixel q comes before (x, y) in the `iter_points` order: columns first. */
  predicate ColumnsBefore(q: Point2i, x: int, y: int) {
    q.x < x || (q.x == x && q.y < y)
  }

  ghost function MergedUpTo(old0: seq<Pixel>, cb: Bounds2i, tb: Bounds2i, tile: seq<TilePixel>, x: int, y: int): seq<Pixel>
    requires |tile| == MaxI(Area(tb), 0)
  {
    seq(|old0|, j requires 0 <= j < |old0| =>
      var q := PointAt(cb, j);
      if Inside(q, tb) && ColumnsBefore(q, x, y) then MergePixel(old0[j], tile[Offset(tb, q)]) else old0[j])
  }

  /** The film buffer after a merge: pixels the tile covers gain the tile's pixel, the rest are unchanged. */
  ghost function Merged(old0: seq<Pixel>, cb: Bounds2i, tb: Bounds2i, tile: seq<TilePixel>): (r: seq<Pixel>)
    requires |tile| == MaxI(Area(tb), 0)
    requires |old0| == Area(cb)
    ensures |r| == |old0|
  {
    seq(|old0|, j requires 0 <= j < |old0| =>
      var q := PointAt(cb, j);
      if Inside(q, tb) then MergePixel(old0[j], tile[Offset(tb, q)]) else old0[j])
  }

  /** The film pixel at q gains the tile's pixel at q exactly when the tile covers q. */
  lemma MergedAt(old0: seq<Pixel>, cb: Bounds2i, tb: Bounds2i, tile: seq<TilePixel>, q: Point2i)
    requires |tile| == MaxI(Area(tb), 0)
    requires |old0| == Area(cb) && Inside(q, cb)
    ensures Offset(cb, q) < |old0|
    ensures Merged(old0, cb, tb, tile)[Offset(cb, q)] ==
      if Inside(q, tb) then MergePixel(old0[Offset(cb, q)], tile[Offset(tb, q)]) else old0[Offset(cb, q)]
  {
  }

  lemma MergeStep(old0: seq<Pixel>, cb: Bounds2i, tb: Bounds2i, tile: seq<TilePixel>, x: int, y: int)
    requires |tile| == MaxI(Area(tb), 0)
    requires Ordered(cb) && |old0| == Area(cb)
    requires Inside(Point2i(x, y), tb) && Inside(Point2i(x, y), cb)
    ensures Offset(cb, Point2i(x, y)) < |old0| && Offset(tb, Point2i(x, y)) < |tile|
    ensures MergedUpTo(old0, cb, tb, tile, x, y + 1) ==
      MergedUpTo(old0, cb, tb, tile, x, y)[Offset(cb, Point2i(x, y)) :=
        MergePixel(old0[Offset(cb, Point2i(x, y))], tile[Offset(tb, Point2i(x, y))])]
  {
    var q := Point2i(x, y);
    var a := MergedUpTo(old0, cb, tb, tile, x, y + 1);
    var b := MergedUpTo(old0, cb, tb, tile, x, y);
    var k := Offset(cb, q);
    forall j | 0 <= j < |old0|
      ensures a[j] == b[k := MergePixel(old0[k], tile[Offset(tb, q)])][j]
    {
      if j != k {
        PointAtInverse(cb, j);
      }
    }
  }

  lemma MergeColumnDone(old0: seq<Pixel>, cb: Bounds2i, tb: Bounds2i, tile: seq<TilePixel>, x: int)
    requires |tile| == MaxI(Area(tb), 0)
    ensures MergedUpTo(old0, cb, tb, tile, x, MaxI(tb.min.y, tb.max.y)) == MergedUpTo(old0, cb, tb, tile, x + 1, tb.min.y)
  {
  }

  lemma MergeAll(old0: seq<Pixel>, cb: Bounds2i, tb: Bounds2i, tile: seq<TilePixel>)
    requires |tile| == MaxI(Area(tb), 0)
    requires |old0| == Area(cb)
    ensures MergedUpTo(old0, cb, tb, tile, MaxI(tb.min.x, tb.max.x), tb.min.y) == Merged(old0, cb, tb, tile)
    ensures MergedUpTo(old0, cb, tb, tile, tb.min.x, tb.min.y) == old0
  {
  }

  // ------------------------------------------------------------ into_image_buffer

  /**
   * The loop over `rgb`, divided by the weight sum and clamped at 0 when
   * that sum is non-zero: each channel of a weighted pixel becomes
   * `max(0, channel / weight)`, whatever the signs; an unweighted pixel is
   * unchanged.
   */
  function Normalise(rgb: Coeffs, weight: real): (r: Coeffs)
    ensures weight == 0.0 ==> r == rgb
    ensures weight != 0.0 ==> forall i :: 0 <= i < 3 ==> r[i] >= 0.0 && r[i] == Max(0.0, rgb[i] / weight)
  {
    if weight != 0.0 then
      [NormaliseChannel(rgb[0], weight), NormaliseChannel(rgb[1], weight), NormaliseChannel(rgb[2], weight)]
    else rgb
  }

  /** One channel: `max(0, val * inv_wt)`, which is the clamped quotient by the weight. */
  function NormaliseChannel(x: real, w: real): (r: real)
    requires w != 0.0
    ensures r >= 0.0 && r == Max(0.0, x / w)
  {
    InverseMul(x, w);
    Max(0.0, x * (1.0 / w))
  }

  /** Multiplying by the inverse weight is dividing by the weight. */
  lemma InverseMul(x: real, w: real)
    requires w != 0.0
    ensures x * (1.0 / w) == x / w
  {
  }

  /** One output pixel: XYZ to RGB, then normalised. */
  function Normalised(px: Pixel): Coeffs {
    Normalise(XyzToRgb(px.xyz), px.filterWeightSum)
  }

  /** The `flat_map` of the pixels into RGB triples. */
  function Flatten(ps: seq<Pixel>): (buf: seq<real>)
    ensures |buf| == 3 * |ps|
  {
    if ps == [] then [] else Normalised(ps[0]) + Flatten(ps[1..])
  }

  /** Entry `3k + i` of the flat buffer is channel i of pixel k. */
  lemma {:induction false} FlattenAt(ps: seq<Pixel>, k: nat, i: nat)
    requires k < |ps| && i < 3
    ensures Flatten(ps)[3 * k + i] == Normalised(ps[k])[i]
  {
    if k > 0 {
      FlattenAt(ps[1..], k - 1, i);
    }
  }

  lemma FlattenAll(ps: seq<Pixel>)
    ensures forall k, i :: 0 <= k < |ps| && 0 <= i < 3 ==> Flatten(ps)[3 * k + i] == Normalised(ps[k])[i]
  {
    forall k, i | 0 <= k < |ps| && 0 <= i < 3
      ensures Flatten(ps)[3 * k + i] == Normalised(ps[k])[i]
    {
      FlattenAt(ps, k, i);
    }
  }

  /** The inner `for x in p0.x..p1.x` loop of `add_sample_to_tile` for row y. */
  method SplatRow(tile: FilmTile, table: seq<seq<real>>, fp: Bounds2i, indicesX: seq<nat>, yIndex: nat,
                  d: Vec2, c: Spectrum, y: int, ghost old0: seq<TilePixel>)
    requires WellFormedTable(table)
    requires |old0| == MaxI(Area(tile.pixelBounds), 0)
    requires fp == Intersection(fp, tile.pixelBounds) && fp.min.y <= y < fp.max.y && fp.min.x <= fp.max.x
    requires |indicesX| == fp.max.x - fp.min.x
    requires forall i :: 0 <= i < |indicesX| ==> indicesX[i] == FilterIndex(fp.min.x + i, d.x, tile.invFilterRadius.x)
    requires yIndex == FilterIndex(y, d.y, tile.invFilterRadius.y)
    requires tile.pixels == SplatUpTo(old0, tile.pixelBounds, fp, table, d, tile.invFilterRadius, c, fp.min.x, y)
    modifies tile
    ensures tile.pixels == SplatUpTo(old0, tile.pixelBounds, fp, table, d, tile.invFilterRadius, c, fp.max.x, y)
  {
    ghost var tb, inv := tile.pixelBounds, tile.invFilterRadius;
    for x := fp.min.x to fp.max.x
      invariant tile.pixels == SplatUpTo(old0, tb, fp, table, d, inv, c, x, y)
    {
      var q := Point2i(x, y);
      var w := table[yIndex][indicesX[x - fp.min.x]];
      SplatStep(old0, tb, fp, table, d, inv, c, x, y);
      var idx := tile.PixelIndex(q);
      tile.pixels := tile.pixels[idx := Gain(tile.pixels[idx], c, w)];
    }
  }

  // ------------------------------------------------------------ FilmTile

  class FilmTile {
    const pixelBounds: Bounds2i
    const filterRadius: Vec2
    const invFilterRadius: Vec2
    var pixels: seq<TilePixel>

    ghost predicate Valid()
      reads this
    {
      |pixels| == MaxI(Area(pixelBounds), 0)
    }

    /** A tile with `max(area, 0)` zeroed pixels. */
    constructor (pixelBounds: Bounds2i, filterRadius: Vec2, invFilterRadius: Vec2)
      ensures Valid()
      ensures this.pixelBounds == pixelBounds && this.filterRadius == filterRadius && this.invFilterRadius == invFilterRadius
      ensures pixels == seq(MaxI(Area(pixelBounds), 0), _ => ZeroTilePixel())
    {
      this.pixelBounds := pixelBounds;
      this.filterRadius := filterRadius;
      this.invFilterRadius := invFilterRadius;
      pixels := seq(MaxI(Area(pixelBounds), 0), _ => ZeroTilePixel());
    }

    /** `FilmTile::get_pixel_idx`: the row-major slot of an image point in the tile's buffer. */
    function PixelIndex(p: Point2i): (i: int)
      ensures Inside(p, pixelBounds) ==> 0 <= i < Area(pixelBounds) && PointAt(pixelBounds, i) == p
    {
      Offset(pixelBounds, p)
    }
  }

  // ------------------------------------------------------------ Film

  class Film {
    const fullResolution: Point2i
    const croppedPixelBounds: Bounds2i
    const diagonal: real
    const filter: Filter
    const filterTable: seq<seq<real>>
    var pixels: seq<Pixel>

    ghost predicate Valid()
      reads this
    {
      Ordered(croppedPixelBounds) && |pixels| == Area(croppedPixelBounds) && IsFilterTable(filterTable, filter)
    }

    /** `Film::new`: cropped bounds, `area` zeroed pixels and the filter table. */
    constructor (resolution: Point2i, cropWindow: Bounds2f, filter: Filter, diagonal: real)
      requires resolution.x >= 0 && resolution.y >= 0
      requires cropWindow.min.x <= cropWindow.max.x && cropWindow.min.y <= cropWindow.max.y
      ensures Valid()
      ensures croppedPixelBounds == CroppedBounds(resolution, cropWindow)
      ensures pixels == seq(Area(croppedPixelBounds), _ => ZeroPixel())
      ensures fullResolution == resolution && this.filter == filter && this.diagonal == diagonal
    {
      var table := BuildFilterTable(filter);
      fullResolution := resolution;
      croppedPixelBounds := CroppedBounds(resolution, cropWindow);
      this.diagonal := diagonal;
      this.filter := filter;
      filterTable := table;
      pixels := seq(Area(CroppedBounds(resolution, cropWindow)), _ => ZeroPixel());
    }

    /** `Film::get_pixel_idx`: row-major from the cropped min; agrees with the tile layout over the same box. */
    function PixelIndex(p: Point2i): (i: int)
      ensures i == Offset(croppedPixelBounds, p)
      ensures Inside(p, croppedPixelBounds) ==> 0 <= i < Area(croppedPixelBounds) && PointAt(croppedPixelBounds, i) == p
    {
      var b := croppedPixelBounds;
      var width := b.max.x - b.min.x;
      (p.x - b.min.x) + (p.y - b.min.y) * width
    }

    /** `get_film_tile`: the span of the sample bounds as written, cut to the cropped bounds. */
    method GetFilmTile(sampleBounds: Bounds2i) returns (tile: FilmTile)
      ensures fresh(tile) && tile.Valid()
      ensures tile.pixelBounds == Intersection(TileSpanAsWritten(sampleBounds, filter.radius), croppedPixelBounds)
      ensures tile.filterRadius == filter.radius && tile.invFilterRadius == filter.invRadius
      ensures tile.pixels == seq(|tile.pixels|, _ => ZeroTilePixel())
    {
      var bounds := Intersection(TileSpanAsWritten(sampleBounds, filter.radius), croppedPixelBounds);
      tile := new FilmTile(bounds, filter.radius, filter.invRadius);
    }

    /**
     * `add_sample_to_tile`: splat one sample over the pixels of its footprint
     * inside the tile. The clipped footprint must not be inverted: the source
     * sizes its index buffers with `as usize` of the two extents.
     */
    method AddSampleToTile(tile: FilmTile, pFilm: Vec2, radiance: Spectrum, sampleWeight: real)
      requires Valid() && tile.Valid()
      requires Ordered(Intersection(Footprint(pFilm, tile.filterRadius), tile.pixelBounds))
      modifies tile
      ensures tile.Valid()
      ensures tile.pixels == Splat(old(tile.pixels), tile.pixelBounds,
        Intersection(Footprint(pFilm, tile.filterRadius), tile.pixelBounds), filterTable,
        Vec2(pFilm.x - 0.5, pFilm.y - 0.5), tile.invFilterRadius, Pointwise(Times, radiance, New(sampleWeight)))
    {
      var d := Vec2(pFilm.x - 0.5, pFilm.y - 0.5);
      var fp := Intersection(Footprint(pFilm, tile.filterRadius), tile.pixelBounds);
      var p0, p1 := fp.min, fp.max;
      var indicesX := FilterIndices(p0.x, p1.x, d.x, tile.invFilterRadius.x);
      var indicesY := FilterIndices(p0.y, p1.y, d.y, tile.invFilterRadius.y);
      var c := Pointwise(Times, radiance, New(sampleWeight));
      ghost var old0, tb, inv := tile.pixels, tile.pixelBounds, tile.invFilterRadius;
      SplatAll(old0, tb, fp, filterTable, d, inv, c);
      for y := p0.y to p1.y
        invariant tile.pixels == SplatUpTo(old0, tb, fp, filterTable, d, inv, c, p0.x, y)
      {
        SplatRow(tile, filterTable, fp, indicesX, indicesY[y - p0.y], d, c, y, old0);
        SplatRowDone(old0, tb, fp, filterTable, d, inv, c, y);
      }
    }

    /** `merge_film_tile`: add every tile pixel into the film pixel at the same image point. */
    method MergeFilmTile(tile: FilmTile)
      requires Valid() && tile.Valid()
      requires forall p :: Inside(p, tile.pixelBounds) ==> Inside(p, croppedPixelBounds)
      modifies this
      ensures Valid()
      ensures pixels == Merged(old(pixels), croppedPixelBounds, tile.pixelBounds, tile.pixels)
    {
      ghost var old0, cb := pixels, croppedPixelBounds;
      var tb := tile.pixelBounds;
      MergeAll(old0, cb, tb, tile.pixels);
      for x := tb.min.x to MaxI(tb.min.x, tb.max.x)
        invariant pixels == MergedUpTo(old0, cb, tb, tile.pixels, x, tb.min.y)
      {
        for y := tb.min.y to MaxI(tb.min.y, tb.max.y)
          invariant pixels == MergedUpTo(old0, cb, tb, tile.pixels, x, y)
        {
          var q := Point2i(x, y);
          MergeStep(old0, cb, tb, tile.pixels, x, y);
          var t := tile.pixels[tile.PixelIndex(q)];
          var idx := PixelIndex(q);
          pixels := pixels[idx := MergePixel(pixels[idx], t)];
        }
        MergeColumnDone(old0, cb, tb, tile.pixels, x);
      }
    }

    /**
     * `into_image_buffer`: width, height and the flat RGB buffer. The buffer
     * always has `3 * width * height` entries, so `from_vec` never fails.
     */
    function IntoImageBuffer(): (r: (int, int, seq<real>))
      reads this
      requires Valid()
      ensures (r.0, r.1) == Dimensions(croppedPixelBounds)
      ensures |r.2| == 3 * r.0 * r.1
      ensures forall k, i :: 0 <= k < |pixels| && 0 <= i < 3 ==> r.2[3 * k + i] == Normalised(pixels[k])[i]
    {
      FlattenAll(pixels);
      (Dimensions(croppedPixelBounds).0, Dimensions(croppedPixelBounds).1, Flatten(pixels))
    }
  }
}
