// The MIP map: an image pyramid whose base level has power-of-two sides and
// whose every coarser level box-filters the one below it, with texel fetches
// under three wrap modes and the trilinear level selection. Texels are
// `Float` values, modelled as reals; sizes are `usize`.
module MipMap {
  import opened Wrappers
  import opened Bits
  import opened Geom
  import opened Grid

  datatype ImageWrap = Repeat | Black | Clamp

  // ----- Power-of-two arithmetic on `usize` -----

  /** `n != 0 && n & (n - 1) == 0` */
  predicate IsPowerOfTwo(n: nat) {
    n != 0 && BitAnd(n, n - 1) == 0
  }

  /** The bit trick recognises exactly the powers of two. */
  lemma IsPowerOfTwoIff(n: nat)
    ensures IsPowerOfTwo(n) <==> n > 0 && n == Pow2(BitLength(n) - 1)
  {
    if n > 0 {
      BitLengthBounds(n);
      var j := BitLength(n) - 1;
      if n == Pow2(j) {
        BitAndLowMask(n, j);
        ModUnique(n, Pow2(j), 1, 0);
      } else {
        BitAndTopBit(n, n - 1, j);
      }
    }
  }

  /** The exponent of a power of two. */
  lemma Exponent(n: nat) returns (k: nat)
    requires IsPowerOfTwo(n)
    ensures n == Pow2(k)
  {
    IsPowerOfTwoIff(n);
    k := BitLength(n) - 1;
  }

  lemma PowerOfTwo(k: nat)
    ensures IsPowerOfTwo(Pow2(k))
  {
    BitLengthOfPow2(k);
    IsPowerOfTwoIff(Pow2(k));
  }

  /** `usize::leading_zeros` for a 64-bit word. */
  function LeadingZeros(n: nat): nat
    requires n < UsizeLimit
  {
    UsizeLimitIsPow2();
    BitLengthBelow(n, UsizeBits);
    UsizeBits - BitLength(n)
  }

  /**
   * `63 - n.leading_zeros()`: the floor of the base-2 logarithm. For n == 0
   * the u32 subtraction underflows and panics.
   */
  function Log2Usize(n: nat): (r: nat)
    requires 0 < n < UsizeLimit
    ensures Pow2(r) <= n < Pow2(r + 1)
  {
    BitLengthBounds(n);
    63 - LeadingZeros(n)
  }

  /** The logarithm of a power of two gives back its exponent. */
  lemma Log2OfPow2(k: nat)
    requires Pow2(k) < UsizeLimit
    ensures Log2Usize(Pow2(k)) == k
  {
    var r := Log2Usize(Pow2(k));
    if r < k {
      Pow2Monotone(r + 1, k);
    } else if r > k {
      Pow2Monotone(k + 1, r);
    }
  }

  /**
   * `usize::next_power_of_two`: the least power of two that is at least n
   * (1 for 0 and 1). Overflow, which panics, needs n above `2^63`.
   */
  function NextPowerOfTwo(n: nat): (r: nat)
    requires n < UsizeLimit / 2
    ensures IsPowerOfTwo(r) && n <= r
    ensures r == 1 || r / 2 < n
    ensures n > 0 ==> r < 2 * n
  {
    if n <= 1 then
      PowerOfTwo(0);
      1
    else
      BitLengthBounds(n - 1);
      PowerOfTwo(BitLength(n - 1));
      Pow2(BitLength(n - 1))
  }

  /** A power of two is its own next power of two. */
  lemma NextPowerOfTwoOfPow2(n: nat)
    requires IsPowerOfTwo(n) && n < UsizeLimit / 2
    ensures NextPowerOfTwo(n) == n
  {
    IsPowerOfTwoIff(n);
    var r := NextPowerOfTwo(n);
    IsPowerOfTwoIff(r);
    var a, b := BitLength(n) - 1, BitLength(r) - 1;
    if b > a {
      Pow2Monotone(a + 1, b);
      assert Pow2(b) == 2 * Pow2(b - 1);
      Pow2Monotone(a, b - 1);
    } else if b < a {
      Pow2StrictMonotone(b, a);
    }
  }

  lemma NextPowerOfTwoExamples()
    ensures NextPowerOfTwo(20) == 32 && NextPowerOfTwo(10) == 16 && NextPowerOfTwo(16) == 16
  {
    assert BitLength(19) == 5;
    assert BitLength(9) == 4;
    assert BitLength(15) == 4;
  }

  // ----- Levels and texel fetches -----

  /** One level of the pyramid: `w * h` texels, (s, t) at `t * w + s`. */
  datatype Level = Level(w: nat, h: nat, texels: seq<real>)
  {
    predicate Valid() {
      w >= 1 && h >= 1 && |texels| == w * h
    }

    /** `level[(s, t)]` */
    function Get(s: nat, t: nat): real
      requires Valid() && s < w && t < h
    {
      RowMajorBound(s, t, w, h);
      texels[RowMajor(w)(s, t)]
    }

    /** Every texel holds c. */
    ghost predicate Constant(c: real)
      requires Valid()
    {
      forall s: nat, t: nat :: s < w && t < h ==> Get(s, t) == c
    }
  }

  /** `rem_euclid` for a positive modulus, by whole steps of n towards [0, n). */
  function RemEuclid(c: int, n: nat): (r: nat)
    requires n >= 1
    ensures r < n && (0 <= c < n ==> r == c)
    decreases if c < 0 then n - c else c
  {
    if c < 0 then RemEuclid(c + n, n) else if c >= n then RemEuclid(c - n, n) else c
  }

  /** It is the Euclidean remainder. */
  lemma {:induction false} RemEuclidIsMod(c: int, n: nat)
    requires n >= 1
    ensures RemEuclid(c, n) == c % n
    decreases if c < 0 then n - c else c
  {
    DivMod(c, n);
    if c < 0 {
      RemEuclidIsMod(c + n, n);
      ModUnique(c + n, n, c / n + 1, c % n);
    } else if c >= n {
      RemEuclidIsMod(c - n, n);
      ModUnique(c - n, n, c / n - 1, c % n);
    } else {
      ModUnique(c, n, 0, c);
    }
  }

  /**
   * The wrap mode applied to one coordinate of a level of side `size`:
   * `rem_euclid`, a clamp to `[0, size - 1]`, or `None` for a Black texel
   * outside the level.
   */
  function WrapCoord(c: int, size: nat, wrap: ImageWrap): (r: Option<nat>)
    requires size >= 1
    ensures r.Some? ==> r.value < size
    ensures r.None? <==> wrap == Black && !(0 <= c < size)
    ensures 0 <= c < size ==> r == Some(c)
    ensures wrap == Clamp ==> r.Some? && (c < 0 ==> r.value == 0) && (c >= size ==> r.value == size - 1)
  {
    match wrap
    case Repeat =>
      Some(RemEuclid(c, size))
    case Clamp => Some(if c < 0 then 0 else if c > size - 1 then size - 1 else c)
    case Black => if 0 <= c && c < size then Some(c) else None
  }

  /** `get_texel_from_level`: Black gives 0 outside the level. */
  function GetTexel(l: Level, s: int, t: int, wrap: ImageWrap): (r: real)
    requires l.Valid()
    ensures 0 <= s < l.w && 0 <= t < l.h ==> r == l.Get(s, t)
    ensures wrap == Black && !(0 <= s < l.w && 0 <= t < l.h) ==> r == 0.0
  {
    var ws := WrapCoord(s, l.w, wrap);
    var wt := WrapCoord(t, l.h, wrap);
    if ws.Some? && wt.Some? then l.Get(ws.value, wt.value) else 0.0
  }

  /** Under Repeat, shifting a coordinate by a whole level side fetches the same texel. */
  lemma RepeatIsPeriodic(l: Level, s: int, t: int)
    requires l.Valid()
    ensures GetTexel(l, s + l.w, t, Repeat) == GetTexel(l, s, t, Repeat)
    ensures GetTexel(l, s, t + l.h, Repeat) == GetTexel(l, s, t, Repeat)
  {
  }

  /** A level with every texel c reads c everywhere unless Black leaves it. */
  lemma ConstantTexel(l: Level, c: real, s: int, t: int, wrap: ImageWrap)
    requires l.Valid() && l.Constant(c) && wrap != Black
    ensures GetTexel(l, s, t, wrap) == c
  {
  }

  // ----- Resampling a non-power-of-two image -----

  /**
   * One entry of `resample_weights`: four filter taps starting at texel
   * `firstTexel` of the original resolution. The Lanczos weights themselves
   * come from outside the model.
   */
  datatype ResampleWeight = ResampleWeight(firstTexel: int, weights: seq<real>)

  /** A weight table for a new resolution of n texels: one entry per texel, four taps each. */
  ghost predicate WeightsFit(ws: seq<ResampleWeight>, n: nat) {
    |ws| == n && forall i :: 0 <= i < n ==> |ws[i].weights| == 4
  }

  /** Tap j of `wt` over the original texels `vals`: the wrapped texel times its weight, or nothing. */
  function Tap(wt: ResampleWeight, vals: seq<real>, wrap: ImageWrap, j: nat): real
    requires |vals| >= 1 && j < |wt.weights|
  {
    match WrapCoord(wt.firstTexel + j, |vals|, wrap)
    case Some(o) => vals[o] * wt.weights[j]
    case None => 0.0
  }

  /** The sum of the first k taps. */
  function Taps(wt: ResampleWeight, vals: seq<real>, wrap: ImageWrap, k: nat): real
    requires |vals| >= 1 && k <= |wt.weights|
  {
    if k == 0 then 0.0 else Taps(wt, vals, wrap, k - 1) + Tap(wt, vals, wrap, k - 1)
  }

  /** The sum of the first k weights. */
  function WeightSum(ws: seq<real>, k: nat): real
    requires k <= |ws|
  {
    if k == 0 then 0.0 else WeightSum(ws, k - 1) + ws[k - 1]
  }

  /**
   * The four-tap loop `for (orig, wt) in (first .. first + 4).zip(weights)`
   * accumulating `vals[orig] * wt` for every tap the wrap mode keeps.
   */
  method AccumulateTaps(wt: ResampleWeight, vals: seq<real>, wrap: ImageWrap) returns (acc: real)
    requires |vals| >= 1 && |wt.weights| == 4
    ensures acc == Taps(wt, vals, wrap, 4)
  {
    acc := 0.0;
    var j := 0;
    while j < 4
      invariant j <= 4 && acc == Taps(wt, vals, wrap, j)
    {
      var orig := WrapCoord(wt.firstTexel + j, |vals|, wrap);
      if orig.Some? {
        acc := acc + vals[orig.value] * wt.weights[j];
      }
      j := j + 1;
    }
  }

  /** The sum of the first k weights, each scaled by c. */
  function ScaledSum(c: real, ws: seq<real>, k: nat): real
    requires k <= |ws|
  {
    if k == 0 then 0.0 else ScaledSum(c, ws, k - 1) + c * ws[k - 1]
  }

  lemma {:induction false} ScaledSumIsProduct(c: real, ws: seq<real>, k: nat)
    requires k <= |ws|
    ensures ScaledSum(c, ws, k) == c * WeightSum(ws, k)
  {
    if k > 0 {
      ScaledSumIsProduct(c, ws, k - 1);
      AddScaled(c, WeightSum(ws, k - 1), ws[k - 1], ScaledSum(c, ws, k - 1), c * ws[k - 1]);
    } else {
      assert c * 0.0 == 0.0;
    }
  }

  /** When every texel is c and no tap is dropped, the taps give c times the weight sum. */
  lemma TapsOfConstant(wt: ResampleWeight, vals: seq<real>, wrap: ImageWrap, c: real, k: nat)
    requires |vals| >= 1 && k <= |wt.weights| && wrap != Black
    requires forall i :: 0 <= i < |vals| ==> vals[i] == c
    ensures Taps(wt, vals, wrap, k) == c * WeightSum(wt.weights, k)
  {
    TapsScaled(wt, vals, wrap, c, k);
    ScaledSumIsProduct(c, wt.weights, k);
  }

  lemma {:induction false} TapsScaled(wt: ResampleWeight, vals: seq<real>, wrap: ImageWrap, c: real, k: nat)
    requires |vals| >= 1 && k <= |wt.weights| && wrap != Black
    requires forall i :: 0 <= i < |vals| ==> vals[i] == c
    ensures Taps(wt, vals, wrap, k) == ScaledSum(c, wt.weights, k)
  {
    if k > 0 {
      TapsScaled(wt, vals, wrap, c, k - 1);
      TapOfConstant(wt, vals, wrap, c, k - 1);
      assert Taps(wt, vals, wrap, k) == Taps(wt, vals, wrap, k - 1) + Tap(wt, vals, wrap, k - 1);
      assert ScaledSum(c, wt.weights, k) == ScaledSum(c, wt.weights, k - 1) + c * wt.weights[k - 1];
    }
  }

  lemma TapOfConstant(wt: ResampleWeight, vals: seq<real>, wrap: ImageWrap, c: real, j: nat)
    requires |vals| >= 1 && j < |wt.weights| && wrap != Black
    requires forall i :: 0 <= i < |vals| ==> vals[i] == c
    ensures Tap(wt, vals, wrap, j) == c * wt.weights[j]
  {
    var o := WrapCoord(wt.firstTexel + j, |vals|, wrap).value;
    assert vals[o] == c;
  }

  /** `x + y == c * (a + b)` once x and y are the two scaled parts. */
  lemma AddScaled(c: real, a: real, b: real, x: real, y: real)
    requires x == c * a && y == c * b
    ensures x + y == c * (a + b)
  {
  }

  /** Row t of a level, as the sequence of its texels. */
  function Row(l: Level, t: nat): (r: seq<real>)
    requires l.Valid() && t < l.h
    ensures |r| == l.w && forall s :: 0 <= s < l.w ==> r[s] == l.Get(s, t)
  {
    seq(l.w, s requires 0 <= s < l.w => l.Get(s, t))
  }

  /** The first n entries of column s of a flat image laid out by pos. */
  function Column(c: seq<real>, pos: (nat, nat) -> nat, s: nat, n: nat): (col: seq<real>)
    requires forall t: nat :: t < n ==> pos(s, t) < |c|
    ensures |col| == n && forall t :: 0 <= t < n ==> col[t] == c[pos(s, t)]
  {
    seq(n, t requires 0 <= t < n => c[pos(s, t)])
  }

  /** Texel (s, t) after the horizontal pass: row t of the original filtered with the taps of column s. */
  function RowPass(image: Level, sW: seq<ResampleWeight>, wrap: ImageWrap): (nat, nat) -> real
    requires image.Valid()
  {
    (s: nat, t: nat) => if s < |sW| && t < image.h && |sW[s].weights| == 4 then Taps(sW[s], Row(image, t), wrap, 4) else 0.0
  }

  /**
   * The horizontal pass: `resampled_image` of `w2 * h2` zeros, then for every
   * row t of the original and every new column s, the taps of s over row t.
   * Rows from the original height on keep their zeros.
   */
  method ResampleRows(image: Level, sW: seq<ResampleWeight>, w2: nat, h2: nat, wrap: ImageWrap) returns (c: seq<real>)
    requires image.Valid() && WeightsFit(sW, w2) && image.h <= h2
    ensures |c| == w2 * h2
    ensures forall s: nat, t: nat :: s < w2 && t < image.h ==>
      RowMajor(w2)(s, t) < |c| && c[RowMajor(w2)(s, t)] == RowPass(image, sW, wrap)(s, t)
    ensures forall s: nat, t: nat :: s < w2 && image.h <= t < h2 ==> RowMajor(w2)(s, t) < |c| && c[RowMajor(w2)(s, t)] == 0.0
  {
    var pos, f := RowMajor(w2), RowPass(image, sW, wrap);
    RowMajorLayout(w2, h2);
    RowMajorInjective(w2, h2);
    MulMono(0, w2, h2);
    c := seq(w2 * h2, _ => 0.0);
    var t := 0;
    while t < image.h
      invariant t <= image.h && |c| == w2 * h2
      invariant Written(c, pos, f, w2, image.h, 0, t)
      invariant forall s': nat, t': nat :: s' < w2 && image.h <= t' < h2 ==> c[pos(s', t')] == 0.0
    {
      var s := 0;
      var row := Row(image, t);
      while s < w2
        invariant s <= w2 && |c| == w2 * h2
        invariant Written(c, pos, f, w2, image.h, s, t)
        invariant forall s': nat, t': nat :: s' < w2 && image.h <= t' < h2 ==> c[pos(s', t')] == 0.0
      {
        var v := AccumulateTaps(sW[s], row, wrap);
        WriteKeepsZeroRows(c, pos, w2, h2, image.h, s, t, v);
        c := c[pos(s, t) := v];
        s := s + 1;
      }
      t := t + 1;
    }
  }

  /** Writing a texel of an original row leaves the zero rows below the original height alone. */
  lemma WriteKeepsZeroRows(c: seq<real>, pos: (nat, nat) -> nat, w: nat, n: nat, h: nat, s: nat, t: nat, v: real)
    requires MapsBelow(pos, w, n, |c|) && Injective(pos, w, n) && s < w && t < h <= n
    requires forall s': nat, t': nat :: s' < w && h <= t' < n ==> c[pos(s', t')] == 0.0
    ensures forall s': nat, t': nat :: s' < w && h <= t' < n ==> c[pos(s, t) := v][pos(s', t')] == 0.0
  {
  }

  /** Writing v at (s, t) changes column s at row t and no other column. */
  lemma ColumnWrite(c: seq<real>, pos: (nat, nat) -> nat, w: nat, n: nat, s: nat, t: nat, v: real)
    requires MapsBelow(pos, w, n, |c|) && Injective(pos, w, n) && s < w && t < n
    ensures forall s': nat :: s' < w && s' != s ==> Column(c[pos(s, t) := v], pos, s', n) == Column(c, pos, s', n)
    ensures Column(c[pos(s, t) := v], pos, s, n) == Column(c, pos, s, n)[t := v]
  {
  }

  /** The first m entries of a column are a prefix of its first n. */
  lemma ColumnPrefix(c: seq<real>, pos: (nat, nat) -> nat, s: nat, m: nat, n: nat)
    requires m <= n && forall t: nat :: t < n ==> pos(s, t) < |c|
    ensures Column(c, pos, s, m) == Column(c, pos, s, n)[..m]
  {
  }

  /**
   * The vertical pass with each column's original entries kept aside: new
   * row t of column s filters the first h entries of column s of the
   * horizontal pass.
   */
  method ResampleColumns(c: seq<real>, pos: (nat, nat) -> nat, tW: seq<ResampleWeight>, w2: nat, h2: nat, h: nat, wrap: ImageWrap)
    returns (r: seq<real>)
    requires MapsBelow(pos, w2, h2, |c|) && Injective(pos, w2, h2)
    requires 1 <= h <= h2 && WeightsFit(tW, h2)
    ensures |r| == |c|
    ensures forall s: nat :: s < w2 ==> Column(r, pos, s, h2) == Filtered(Column(c, pos, s, h), tW, wrap)
  {
    r := c;
    var s := 0;
    while s < w2
      invariant s <= w2 && |r| == |c|
      invariant forall s': nat :: s' < s ==> Column(r, pos, s', h2) == Filtered(Column(c, pos, s', h), tW, wrap)
      invariant forall s': nat :: s <= s' < w2 ==> Column(r, pos, s', h2) == Column(c, pos, s', h2)
    {
      ColumnPrefix(r, pos, s, h, h2);
      ColumnPrefix(c, pos, s, h, h2);
      var vals := Column(r, pos, s, h);
      assert vals == Column(c, pos, s, h);
      r := FilterColumn(r, pos, tW, w2, h2, s, vals, wrap);
      s := s + 1;
    }
  }

  /** Every row t of a new column: the taps of table entry t over the column's original entries. */
  ghost function Filtered(vals: seq<real>, tW: seq<ResampleWeight>, wrap: ImageWrap): (r: seq<real>)
    requires |vals| >= 1 && forall i :: 0 <= i < |tW| ==> |tW[i].weights| == 4
    ensures |r| == |tW| && forall t :: 0 <= t < |tW| ==> r[t] == Taps(tW[t], vals, wrap, 4)
  {
    seq(|tW|, t requires 0 <= t < |tW| => Taps(tW[t], vals, wrap, 4))
  }

  /** `r[pos(s, t)] = taps of t over vals` for every row t of column s, in order. */
  method FilterColumn(c: seq<real>, pos: (nat, nat) -> nat, tW: seq<ResampleWeight>, w2: nat, h2: nat, s: nat, vals: seq<real>, wrap: ImageWrap)
    returns (r: seq<real>)
    requires MapsBelow(pos, w2, h2, |c|) && Injective(pos, w2, h2)
    requires s < w2 && |vals| >= 1 && WeightsFit(tW, h2)
    ensures |r| == |c|
    ensures Column(r, pos, s, h2) == Filtered(vals, tW, wrap)
    ensures forall s': nat :: s' < w2 && s' != s ==> Column(r, pos, s', h2) == Column(c, pos, s', h2)
  {
    r := c;
    var t := 0;
    while t < h2
      invariant t <= h2 && |r| == |c|
      invariant forall t': nat :: t' < t ==> r[pos(s, t')] == Taps(tW[t'], vals, wrap, 4)
      invariant forall s': nat, t': nat :: s' < w2 && s' != s && t' < h2 ==> r[pos(s', t')] == c[pos(s', t')]
    {
      var v := AccumulateTaps(tW[t], vals, wrap);
      r := r[pos(s, t) := v];
      t := t + 1;
    }
  }

  /**
   * Column `col` after the first t rows of the vertical pass have been
   * written back into it: row t filters the first h entries of the column as
   * they stand at that moment, rows before t already overwritten.
   */
  function InPlaceColumn(col: seq<real>, tW: seq<ResampleWeight>, h: nat, wrap: ImageWrap, t: nat): (r: seq<real>)
    requires 1 <= h <= |col| && t <= |col| && WeightsFit(tW, |col|)
    ensures |r| == |col|
  {
    if t == 0 then col
    else
      var p := InPlaceColumn(col, tW, h, wrap, t - 1);
      p[t - 1 := Taps(tW[t - 1], p[..h], wrap, 4)]
  }

  /**
   * The vertical pass of `MIPMap::new` as written: for every column s and
   * every new row t, the taps of t over `resampled_image` at column s are
   * accumulated and stored straight back into `resampled_image`.
   */
  method ResampleColumnsInPlace(c: seq<real>, pos: (nat, nat) -> nat, tW: seq<ResampleWeight>, w2: nat, h2: nat, h: nat, wrap: ImageWrap)
    returns (r: seq<real>)
    requires MapsBelow(pos, w2, h2, |c|) && Injective(pos, w2, h2)
    requires 1 <= h <= h2 && WeightsFit(tW, h2)
    ensures |r| == |c|
    ensures forall s: nat :: s < w2 ==> Column(r, pos, s, h2) == InPlaceColumn(Column(c, pos, s, h2), tW, h, wrap, h2)
  {
    r := c;
    var s := 0;
    while s < w2
      invariant s <= w2 && |r| == |c|
      invariant forall s': nat :: s' < s ==> Column(r, pos, s', h2) == InPlaceColumn(Column(c, pos, s', h2), tW, h, wrap, h2)
      invariant forall s': nat :: s <= s' < w2 ==> Column(r, pos, s', h2) == Column(c, pos, s', h2)
    {
      r := FilterColumnInPlace(r, pos, tW, w2, h2, h, s, wrap);
      s := s + 1;
    }
  }

  /** One column of the vertical pass as written, each row stored back before the next is filtered. */
  method FilterColumnInPlace(c: seq<real>, pos: (nat, nat) -> nat, tW: seq<ResampleWeight>, w2: nat, h2: nat, h: nat, s: nat, wrap: ImageWrap)
    returns (r: seq<real>)
    requires MapsBelow(pos, w2, h2, |c|) && Injective(pos, w2, h2)
    requires s < w2 && 1 <= h <= h2 && WeightsFit(tW, h2)
    ensures |r| == |c|
    ensures Column(r, pos, s, h2) == InPlaceColumn(Column(c, pos, s, h2), tW, h, wrap, h2)
    ensures forall s': nat :: s' < w2 && s' != s ==> Column(r, pos, s', h2) == Column(c, pos, s', h2)
  {
    r := c;
    var t := 0;
    while t < h2
      invariant t <= h2 && |r| == |c|
      invariant Column(r, pos, s, h2) == InPlaceColumn(Column(c, pos, s, h2), tW, h, wrap, t)
      invariant forall s': nat :: s' < w2 && s' != s ==> Column(r, pos, s', h2) == Column(c, pos, s', h2)
    {
      r := FilterTexelInPlace(r, pos, tW, w2, h2, h, s, t, wrap);
      t := t + 1;
    }
  }

  /** Row t of column s as written: the taps over the column as it stands, stored back into it. */
  method FilterTexelInPlace(c: seq<real>, pos: (nat, nat) -> nat, tW: seq<ResampleWeight>, w2: nat, h2: nat, h: nat, s: nat, t: nat, wrap: ImageWrap)
    returns (r: seq<real>)
    requires MapsBelow(pos, w2, h2, |c|) && Injective(pos, w2, h2)
    requires s < w2 && t < h2 && 1 <= h <= h2 && WeightsFit(tW, h2)
    ensures |r| == |c|
    ensures Column(r, pos, s, h2) == Column(c, pos, s, h2)[t := Taps(tW[t], Column(c, pos, s, h2)[..h], wrap, 4)]
    ensures forall s': nat :: s' < w2 && s' != s ==> Column(r, pos, s', h2) == Column(c, pos, s', h2)
  {
    ColumnPrefix(c, pos, s, h, h2);
    var v := AccumulateTaps(tW[t], Column(c, pos, s, h), wrap);
    ColumnWrite(c, pos, w2, h2, s, t, v);
    r := c[pos(s, t) := v];
  }

  /** With illustrative weights, writing back in place changes row 1 of a three-texel column. */
  lemma InPlaceColumnDiffers()
    ensures var tW := [ResampleWeight(-2, [0.25, 0.25, 0.25, 0.25]), ResampleWeight(-1, [0.25, 0.25, 0.25, 0.25]),
                       ResampleWeight(0, [0.25, 0.25, 0.25, 0.25]), ResampleWeight(1, [0.25, 0.25, 0.25, 0.25])];
            var col := [1.0, 0.0, 0.0, 0.0];
            InPlaceColumn(col, tW, 3, Clamp, 2)[1] == 0.375 && Taps(tW[1], col[..3], Clamp, 4) == 0.5
  {
  }

  // ----- The pyramid -----

  /** `usize::max(1, n / 2)`: the side of the next coarser level. */
  function HalveDim(n: nat): nat {
    if n / 2 >= 1 then n / 2 else 1
  }

  /** The side after i halvings. */
  function Halvings(n: nat, i: nat): nat {
    if i == 0 then n else HalveDim(Halvings(n, i - 1))
  }

  /** A power of two halves exactly until it reaches 1, then stays there. */
  lemma {:induction false} HalvingsOfPow2(k: nat, i: nat)
    ensures Halvings(Pow2(k), i) == if i <= k then Pow2(k - i) else 1
  {
    if i > 0 {
      HalvingsOfPow2(k, i - 1);
      if i <= k {
        assert Pow2(k - i + 1) == 2 * Pow2(k - i);
      }
    }
  }

  /** The box filter of level `prev` at coarser texel (s, t). */
  function BoxTexel(prev: Level, s: nat, t: nat, wrap: ImageWrap): real
    requires prev.Valid()
  {
    (GetTexel(prev, s * 2, t * 2, wrap)
      + GetTexel(prev, s * 2 + 1, t * 2, wrap)
      + GetTexel(prev, s * 2, t * 2 + 1, wrap)
      + GetTexel(prev, s * 2 + 1, t * 2 + 1, wrap)) * 0.25
  }

  function BoxFilter(prev: Level, wrap: ImageWrap): (nat, nat) -> real
    requires prev.Valid()
  {
    (s: nat, t: nat) => BoxTexel(prev, s, t, wrap)
  }

  /** `next` is the box-filtered half of `prev`. */
  ghost predicate IsDownsample(prev: Level, next: Level, wrap: ImageWrap) {
    prev.Valid() && next.Valid() && next.w == HalveDim(prev.w) && next.h == HalveDim(prev.h)
    && forall s: nat, t: nat :: s < next.w && t < next.h ==> next.Get(s, t) == BoxTexel(prev, s, t, wrap)
  }

  /**
   * One step of the fold in `MIPMap::new`: a default level of `sRes * tRes`
   * texels, then for t in 0..tRes and s in 0..sRes the box filter of the
   * previous level.
   */
  method Downsample(prev: Level, sRes: nat, tRes: nat, wrap: ImageWrap) returns (next: Level)
    requires prev.Valid() && sRes >= 1 && tRes >= 1
    ensures next.Valid() && next.w == sRes && next.h == tRes
    ensures forall s: nat, t: nat :: s < sRes && t < tRes ==> next.Get(s, t) == BoxTexel(prev, s, t, wrap)
  {
    RowMajorLayout(sRes, tRes);
    RowMajorInjective(sRes, tRes);
    var texels := Fill(sRes * tRes, 0.0, RowMajor(sRes), BoxFilter(prev, wrap), sRes, tRes);
    next := Level(sRes, tRes, texels);
  }

  /** The box filter keeps a constant level constant when no fetch falls outside as Black. */
  lemma DownsampleOfConstant(prev: Level, next: Level, c: real, wrap: ImageWrap)
    requires IsDownsample(prev, next, wrap) && prev.Constant(c) && wrap != Black
    ensures next.Constant(c)
  {
    forall s: nat, t: nat | s < next.w && t < next.h
      ensures next.Get(s, t) == c
    {
      ConstantTexel(prev, c, s * 2, t * 2, wrap);
      ConstantTexel(prev, c, s * 2 + 1, t * 2, wrap);
      ConstantTexel(prev, c, s * 2, t * 2 + 1, wrap);
      ConstantTexel(prev, c, s * 2 + 1, t * 2 + 1, wrap);
    }
  }

  /** A pyramid over `base`: level i has `Halvings` of its sides and box-filters level i - 1. */
  ghost predicate IsPyramid(pyr: seq<Level>, base: Level, wrap: ImageWrap) {
    |pyr| >= 1 && pyr[0] == base
    && (forall i :: 0 <= i < |pyr| ==> pyr[i].Valid() && pyr[i].w == Halvings(base.w, i) && pyr[i].h == Halvings(base.h, i))
    && (forall i :: 1 <= i < |pyr| ==> IsDownsample(pyr[i - 1], pyr[i], wrap))
  }

  /**
   * The fold over `1..n_levels` in `MIPMap::new`: halve the carried
   * resolution, downsample the last level to it and push the result.
   */
  method BuildPyramid(base: Level, nLevels: nat, wrap: ImageWrap) returns (pyr: seq<Level>)
    requires base.Valid() && nLevels >= 1
    ensures |pyr| == nLevels && IsPyramid(pyr, base, wrap)
  {
    pyr := [base];
    var sRes, tRes := base.w, base.h;
    var i := 1;
    while i < nLevels
      invariant 1 <= i <= nLevels && |pyr| == i && IsPyramid(pyr, base, wrap)
      invariant sRes == pyr[i - 1].w && tRes == pyr[i - 1].h
    {
      sRes, tRes := HalveDim(sRes), HalveDim(tRes);
      var level := Downsample(pyr[|pyr| - 1], sRes, tRes, wrap);
      assert IsDownsample(pyr[|pyr| - 1], level, wrap);
      PyramidPush(pyr, base, wrap, level);
      pyr := pyr + [level];
      i := i + 1;
    }
  }

  /** Pushing the downsample of the last level extends a pyramid. */
  lemma PyramidPush(pyr: seq<Level>, base: Level, wrap: ImageWrap, next: Level)
    requires IsPyramid(pyr, base, wrap) && IsDownsample(pyr[|pyr| - 1], next, wrap)
    ensures IsPyramid(pyr + [next], base, wrap)
  {
    var q, n := pyr + [next], |pyr|;
    forall i | 0 <= i < |q|
      ensures q[i].Valid() && q[i].w == Halvings(base.w, i) && q[i].h == Halvings(base.h, i)
    {
      if i < n {
        assert q[i] == pyr[i];
      }
    }
    forall i | 1 <= i < |q|
      ensures IsDownsample(q[i - 1], q[i], wrap)
    {
      assert q[i - 1] == pyr[i - 1];
      if i < n {
        assert q[i] == pyr[i];
      }
    }
  }

  /** Every level of a pyramid over a constant base is constant. */
  lemma PyramidOfConstant(pyr: seq<Level>, base: Level, c: real, wrap: ImageWrap)
    requires IsPyramid(pyr, base, wrap) && base.Constant(c) && wrap != Black
    ensures forall i :: 0 <= i < |pyr| ==> pyr[i].Constant(c)
  {
    var i := 1;
    while i < |pyr|
      invariant 1 <= i <= |pyr|
      invariant forall j :: 0 <= j < i ==> pyr[j].Constant(c)
    {
      DownsampleOfConstant(pyr[i - 1], pyr[i], c, wrap);
      i := i + 1;
    }
  }

  /** With power-of-two sides, `1 + log2(max(w, h))` levels end in a 1x1 level. */
  lemma CoarsestLevel(a: nat, b: nat)
    requires Pow2(a) < UsizeLimit && Pow2(b) < UsizeLimit
    ensures var n := 1 + Log2Usize(if Pow2(a) >= Pow2(b) then Pow2(a) else Pow2(b));
      Halvings(Pow2(a), n - 1) == 1 && Halvings(Pow2(b), n - 1) == 1
  {
    var m := if a >= b then a else b;
    if a >= b { Pow2Monotone(b, a); } else { Pow2Monotone(a, b); }
    if a > b { Pow2StrictMonotone(b, a); }
    if b > a { Pow2StrictMonotone(a, b); }
    assert (if Pow2(a) >= Pow2(b) then Pow2(a) else Pow2(b)) == Pow2(m);
    Log2OfPow2(m);
    HalvingsOfPow2(a, m);
    HalvingsOfPow2(b, m);
  }

  /** A full pyramid over a power-of-two base ends in a 1x1 level. */
  lemma PyramidApex(pyr: seq<Level>, base: Level, wrap: ImageWrap)
    requires IsPyramid(pyr, base, wrap) && IsPowerOfTwo(base.w) && IsPowerOfTwo(base.h)
    requires base.w < UsizeLimit && base.h < UsizeLimit
    requires |pyr| == 1 + Log2Usize(if base.w >= base.h then base.w else base.h)
    ensures pyr[|pyr| - 1].w == 1 && pyr[|pyr| - 1].h == 1
  {
    var a := Exponent(base.w);
    var b := Exponent(base.h);
    var n := |pyr|;
    CoarsestLevel(a, b);
    assert pyr[n - 1].w == Halvings(Pow2(a), n - 1) && pyr[n - 1].h == Halvings(Pow2(b), n - 1);
  }

  // ----- Construction -----

  datatype MIPMap = MIPMap(wrap: ImageWrap, resolution: (nat, nat), pyramid: seq<Level>)
  {
    /** `levels()` */
    function Levels(): nat {
      |pyramid|
    }

    ghost predicate Valid() {
      |pyramid| >= 1 && forall i :: 0 <= i < |pyramid| ==> pyramid[i].Valid()
    }
  }

  /**
   * Texel (s, t) of the resampled image: the vertical taps of new row t over
   * the horizontal taps of new column s over every original row.
   */
  ghost function Resampled(image: Level, sW: seq<ResampleWeight>, tW: seq<ResampleWeight>, wrap: ImageWrap, s: nat, t: nat): real
    requires image.Valid() && s < |sW| && |sW[s].weights| == 4 && t < |tW| && |tW[t].weights| == 4
  {
    Taps(tW[t], seq(image.h, t' requires 0 <= t' < image.h => Taps(sW[s], Row(image, t'), wrap, 4)), wrap, 4)
  }

  /** Weight tables whose every entry sums to one, as `resample_weights` normalises them. */
  ghost predicate Normalised(ws: seq<ResampleWeight>) {
    forall i :: 0 <= i < |ws| ==> |ws[i].weights| == 4 && WeightSum(ws[i].weights, 4) == 1.0
  }

  /** Resampling a constant image with normalised weights and no Black border gives the constant back. */
  lemma ResampledOfConstant(image: Level, sW: seq<ResampleWeight>, tW: seq<ResampleWeight>, wrap: ImageWrap, c: real, s: nat, t: nat)
    requires image.Valid() && image.Constant(c) && wrap != Black && Normalised(sW) && Normalised(tW)
    requires s < |sW| && t < |tW|
    ensures Resampled(image, sW, tW, wrap, s, t) == c
  {
    var col := seq(image.h, t' requires 0 <= t' < image.h => Taps(sW[s], Row(image, t'), wrap, 4));
    forall t' | 0 <= t' < image.h
      ensures col[t'] == c
    {
      TapsOfConstant(sW[s], Row(image, t'), wrap, c, 4);
    }
    TapsOfConstant(tW[t], col, wrap, c, 4);
  }

  /**
   * Column s of the horizontal pass, n texels tall: the taps of new column s
   * over each original row, then zeros below the original height.
   */
  ghost function HorizontalColumn(orig: Level, sW: seq<ResampleWeight>, wrap: ImageWrap, s: nat, n: nat): (col: seq<real>)
    requires orig.Valid() && s < |sW| && |sW[s].weights| == 4
    ensures |col| == n
  {
    seq(n, t requires 0 <= t < n => if t < orig.h then Taps(sW[s], Row(orig, t), wrap, 4) else 0.0)
  }

  /**
   * `base` is what the two passes of `MIPMap::new`, as written, make of
   * `orig`: each column is the in-place vertical filtering of the horizontal
   * pass's column.
   */
  ghost predicate IsResamplingAsWritten(base: Level, orig: Level, sW: seq<ResampleWeight>, tW: seq<ResampleWeight>, wrap: ImageWrap) {
    base.Valid() && orig.Valid() && WeightsFit(sW, base.w) && WeightsFit(tW, base.h) && orig.h <= base.h
    && forall s: nat, t: nat :: s < base.w && t < base.h ==>
      base.Get(s, t) == InPlaceColumn(HorizontalColumn(orig, sW, wrap, s, base.h), tW, orig.h, wrap, base.h)[t]
  }

  /** The two resampling passes of `MIPMap::new` up to `w2 * h2` texels, the vertical one writing in place. */
  method ResampleToPowerOfTwo(orig: Level, w2: nat, h2: nat, sW: seq<ResampleWeight>, tW: seq<ResampleWeight>, wrap: ImageWrap)
    returns (base: Level)
    requires orig.Valid() && orig.h <= h2 && w2 >= 1 && WeightsFit(sW, w2) && WeightsFit(tW, h2)
    ensures base.w == w2 && base.h == h2 && IsResamplingAsWritten(base, orig, sW, tW, wrap)
  {
    var c := ResampleRows(orig, sW, w2, h2, wrap);
    RowMajorLayout(w2, h2);
    RowMajorInjective(w2, h2);
    var r := ResampleColumnsInPlace(c, RowMajor(w2), tW, w2, h2, orig.h, wrap);
    base := Level(w2, h2, r);
    forall s: nat, t: nat | s < w2 && t < h2
      ensures base.Get(s, t) == InPlaceColumn(HorizontalColumn(orig, sW, wrap, s, h2), tW, orig.h, wrap, h2)[t]
    {
      assert Column(c, RowMajor(w2), s, h2) == HorizontalColumn(orig, sW, wrap, s, h2);
      assert base.Get(s, t) == Column(r, RowMajor(w2), s, h2)[t];
    }
  }

  /**
   * In-place filtering of a column whose first h entries are c, with
   * normalised weights and no Black border: every row written so far is c,
   * the rest untouched.
   */
  lemma {:induction false} InPlaceColumnOfConstant(col: seq<real>, tW: seq<ResampleWeight>, h: nat, wrap: ImageWrap, t: nat, c: real)
    requires 1 <= h <= |col| && t <= |col| && WeightsFit(tW, |col|) && Normalised(tW) && wrap != Black
    requires forall i :: 0 <= i < h ==> col[i] == c
    ensures forall i :: 0 <= i < |col| ==> InPlaceColumn(col, tW, h, wrap, t)[i] == (if i < t then c else col[i])
  {
    if t > 0 {
      InPlaceColumnOfConstant(col, tW, h, wrap, t - 1, c);
      var p := InPlaceColumn(col, tW, h, wrap, t - 1);
      assert forall i :: 0 <= i < h ==> p[..h][i] == c;
      TapsOfConstant(tW[t - 1], p[..h], wrap, c, 4);
    }
  }

  /** The as-written resampling of a constant image with normalised weights and no Black border is constant. */
  lemma ResamplingAsWrittenOfConstant(base: Level, orig: Level, sW: seq<ResampleWeight>, tW: seq<ResampleWeight>, wrap: ImageWrap, c: real)
    requires IsResamplingAsWritten(base, orig, sW, tW, wrap) && orig.Constant(c) && wrap != Black && Normalised(sW) && Normalised(tW)
    ensures base.Constant(c)
  {
    forall s: nat, t: nat | s < base.w && t < base.h
      ensures base.Get(s, t) == c
    {
      var hc := HorizontalColumn(orig, sW, wrap, s, base.h);
      forall i | 0 <= i < orig.h
        ensures hc[i] == c
      {
        TapsOfConstant(sW[s], Row(orig, i), wrap, c, 4);
      }
      InPlaceColumnOfConstant(hc, tW, orig.h, wrap, base.h, c);
    }
  }

  /**
   * `MIPMap::new`. A side that is not a power of two is rounded up to the
   * next one and the image resampled with the weight tables
   * `resampleWeights(old, new)`, the vertical pass writing its rows back
   * into the image it reads. Then `1 + log2(max(w, h))` levels are built by
   * repeated box filtering.
   */
  method New(resolution: (nat, nat), image: seq<real>, wrap: ImageWrap, resampleWeights: (nat, nat) -> seq<ResampleWeight>)
    returns (m: MIPMap)
    requires 1 <= resolution.0 < UsizeLimit / 2 && 1 <= resolution.1 < UsizeLimit / 2
    requires |image| == resolution.0 * resolution.1
    requires forall a: nat, b: nat :: WeightsFit(resampleWeights(a, b), b)
    ensures m.Valid() && m.wrap == wrap
    ensures m.resolution == (NextPowerOfTwo(resolution.0), NextPowerOfTwo(resolution.1))
    ensures IsPowerOfTwo(resolution.0) && IsPowerOfTwo(resolution.1) ==>
      m.resolution == resolution && m.pyramid[0] == Level(resolution.0, resolution.1, image)
    ensures m.pyramid[0].w == m.resolution.0 && m.pyramid[0].h == m.resolution.1
    ensures !(IsPowerOfTwo(resolution.0) && IsPowerOfTwo(resolution.1)) ==>
      IsResamplingAsWritten(m.pyramid[0], Level(resolution.0, resolution.1, image),
        resampleWeights(resolution.0, m.resolution.0), resampleWeights(resolution.1, m.resolution.1), wrap)
    ensures m.Levels() == 1 + Log2Usize(if m.resolution.0 >= m.resolution.1 then m.resolution.0 else m.resolution.1)
    ensures IsPyramid(m.pyramid, m.pyramid[0], wrap)
    ensures m.pyramid[m.Levels() - 1].w == 1 && m.pyramid[m.Levels() - 1].h == 1
  {
    var (w, h) := resolution;
    var orig := Level(w, h, image);
    var w2, h2 := NextPowerOfTwo(w), NextPowerOfTwo(h);
    var base: Level;
    if !IsPowerOfTwo(w) || !IsPowerOfTwo(h) {
      base := ResampleToPowerOfTwo(orig, w2, h2, resampleWeights(w, w2), resampleWeights(h, h2), wrap);
    } else {
      NextPowerOfTwoOfPow2(w);
      NextPowerOfTwoOfPow2(h);
      base := orig;
    }
    var nLevels := 1 + Log2Usize(if w2 >= h2 then w2 else h2);
    var pyramid := BuildPyramid(base, nLevels, wrap);
    PyramidApex(pyramid, base, wrap);
    m := MIPMap(wrap, (w2, h2), pyramid);
  }

  // ----- Lookups -----

  /** `(1 - t) * a + t * b` */
  function Lerp(t: real, a: real, b: real): real {
    (1.0 - t) * a + t * b
  }

  lemma LerpOfEqual(t: real, c: real)
    ensures Lerp(t, c, c) == c
  {
    assert (1.0 - t) * c + t * c == ((1.0 - t) + t) * c;
  }

  lemma LerpEnds(a: real, b: real)
    ensures Lerp(0.0, a, b) == a && Lerp(1.0, a, b) == b
  {
  }

  /**
   * The bilinear blend of four texels with fractions ds and dt: with both
   * fractions zero it is the first texel, and its weights sum to one, so
   * four equal texels blend to their value.
   */
  function Bilinear(v00: real, v01: real, v10: real, v11: real, ds: real, dt: real): (r: real)
    ensures ds == 0.0 && dt == 0.0 ==> r == v00
    ensures v00 == v01 == v10 == v11 ==> r == v00
  {
    assert v00 * (1.0 - ds) * (1.0 - dt) + v00 * (1.0 - ds) * dt == v00 * (1.0 - ds);
    assert v00 * ds * (1.0 - dt) + v00 * ds * dt == v00 * ds;
    v00 * (1.0 - ds) * (1.0 - dt) + v01 * (1.0 - ds) * dt + v10 * ds * (1.0 - dt) + v11 * ds * dt
  }

  /** The four texels around the continuous texel position (s, t) of level l, blended. */
  function BlendAround(l: Level, s: real, t: real, wrap: ImageWrap): real
    requires l.Valid()
  {
    var s0, t0 := Floor(s), Floor(t);
    Bilinear(GetTexel(l, s0, t0, wrap), GetTexel(l, s0, t0 + 1, wrap), GetTexel(l, s0 + 1, t0, wrap), GetTexel(l, s0 + 1, t0 + 1, wrap),
      s - s0 as real, t - t0 as real)
  }

  /** The index `level.clamp(0, levels - 1)`. */
  function ClampLevel(m: MIPMap, level: nat): (i: nat)
    requires m.Valid()
    ensures i < |m.pyramid| && (level < |m.pyramid| ==> i == level) && (level >= |m.pyramid| ==> i == |m.pyramid| - 1)
  {
    if level > |m.pyramid| - 1 then |m.pyramid| - 1 else level
  }

  /**
   * `triangle`: the level index clamped to the pyramid, then the bilinear
   * blend of the four texels around the continuous position `st * size - 0.5`;
   * a level beyond the coarsest reads the coarsest.
   */
  function Triangle(m: MIPMap, level: nat, st: Vec2): (r: real)
    requires m.Valid()
    ensures level < |m.pyramid| ==> r == TriangleOn(m.pyramid[level], st, m.wrap)
    ensures level >= |m.pyramid| ==> r == TriangleOn(m.pyramid[|m.pyramid| - 1], st, m.wrap)
  {
    TriangleOn(m.pyramid[ClampLevel(m, level)], st, m.wrap)
  }

  /** The blend on one level at `st` scaled to its texels. */
  function TriangleOn(l: Level, st: Vec2, wrap: ImageWrap): real
    requires l.Valid()
  {
    BlendAround(l, ToTexelSpace(st.x, l.w), ToTexelSpace(st.y, l.h), wrap)
  }

  /** A texture coordinate in [0,1] scaled to a level side, with texel centres at integers. */
  function ToTexelSpace(x: real, n: nat): real
  {
    x * (n as real) - 0.5
  }

  /** At a texel centre the blend gives that texel. */
  lemma BlendAtTexelCentre(l: Level, s: int, t: int, wrap: ImageWrap)
    requires l.Valid()
    ensures BlendAround(l, s as real, t as real, wrap) == GetTexel(l, s, t, wrap)
  {
  }

  /** A constant level blends to its constant anywhere. */
  lemma BlendOfConstant(l: Level, s: real, t: real, wrap: ImageWrap, c: real)
    requires l.Valid() && l.Constant(c) && wrap != Black
    ensures BlendAround(l, s, t, wrap) == c
  {
    var s0, t0 := Floor(s), Floor(t);
    ConstantTexel(l, c, s0, t0, wrap);
    ConstantTexel(l, c, s0, t0 + 1, wrap);
    ConstantTexel(l, c, s0 + 1, t0, wrap);
    ConstantTexel(l, c, s0 + 1, t0 + 1, wrap);
  }

  /** At a texel centre of the level the blend gives that texel. */
  lemma TriangleAtTexelCentre(l: Level, st: Vec2, s: int, t: int, wrap: ImageWrap)
    requires l.Valid()
    requires ToTexelSpace(st.x, l.w) == s as real && ToTexelSpace(st.y, l.h) == t as real
    ensures TriangleOn(l, st, wrap) == GetTexel(l, s, t, wrap)
  {
    forall i: int, j: int
      ensures BlendAround(l, i as real, j as real, wrap) == GetTexel(l, i, j, wrap)
    {
      BlendAtTexelCentre(l, i, j, wrap);
    }
  }

  /** A constant level blends to its constant. */
  lemma TriangleOfConstant(l: Level, st: Vec2, wrap: ImageWrap, c: real)
    requires l.Valid() && l.Constant(c) && wrap != Black
    ensures TriangleOn(l, st, wrap) == c
  {
    forall x: real, y: real
      ensures BlendAround(l, x, y, wrap) == c
    {
      BlendOfConstant(l, x, y, wrap, c);
    }
  }

  /** Which levels `lookup_trilinear_width` reads. */
  datatype LevelChoice = Finest | Coarsest | Between(lo: nat, delta: real)

  /**
   * The branch on the continuous level: below 0 the finest level, from
   * `levels - 1` on the coarsest, otherwise the floor level and its fraction.
   */
  function ChooseLevel(levels: nat, level: real): (r: LevelChoice)
    requires levels >= 1
    ensures r == Finest <==> level < 0.0
    ensures r == Coarsest <==> 0.0 <= level && (levels - 1) as real <= level
    ensures r.Between? ==> r.lo + 1 < levels && 0.0 <= r.delta < 1.0 && r.lo as real + r.delta == level
  {
    if level < 0.0 then Finest
    else if level >= (levels - 1) as real then Coarsest
    else Between(Floor(level), level - Floor(level) as real)
  }

  /**
   * `lookup_trilinear_width`: the level where texels are `width` apart is
   * `levels - 1 + log2(max(width, 1e-8))`; `log2` is a parameter.
   */
  function LookupTrilinearWidth(m: MIPMap, st: Vec2, width: real, log2: real -> real): real
    requires m.Valid()
  {
    var level := (m.Levels() as real) - 1.0 + log2(Max(width, 1.0e-8));
    match ChooseLevel(m.Levels(), level)
    case Finest => Triangle(m, 0, st)
    case Coarsest => GetTexel(m.pyramid[m.Levels() - 1], 0, 0, m.wrap)
    case Between(lo, delta) => Lerp(delta, Triangle(m, lo, st), Triangle(m, lo + 1, st))
  }

  /** A pyramid of constant levels looks up its constant at every position and width. */
  lemma LookupOfConstant(m: MIPMap, st: Vec2, width: real, log2: real -> real, c: real)
    requires m.Valid() && m.wrap != Black
    requires forall i :: 0 <= i < |m.pyramid| ==> m.pyramid[i].Constant(c)
    ensures LookupTrilinearWidth(m, st, width, log2) == c
  {
    var level := (m.Levels() as real) - 1.0 + log2(Max(width, 1.0e-8));
    match ChooseLevel(m.Levels(), level)
    case Finest =>
      TriangleOfConstant(m.pyramid[ClampLevel(m, 0)], st, m.wrap, c);
    case Coarsest =>
      ConstantTexel(m.pyramid[m.Levels() - 1], c, 0, 0, m.wrap);
    case Between(lo, delta) =>
      TriangleOfConstant(m.pyramid[ClampLevel(m, lo)], st, m.wrap, c);
      TriangleOfConstant(m.pyramid[ClampLevel(m, lo + 1)], st, m.wrap, c);
      LerpOfEqual(delta, c);
  }

  /**
   * A constant image, normalised weights and a wrap mode other than Black:
   * every lookup of the new map gives the constant back, at any position and
   * filter width.
   */
  method LookupConstantImage(resolution: (nat, nat), c: real, wrap: ImageWrap, resampleWeights: (nat, nat) -> seq<ResampleWeight>,
                             st: Vec2, width: real, log2: real -> real) returns (v: real)
    requires 1 <= resolution.0 < UsizeLimit / 2 && 1 <= resolution.1 < UsizeLimit / 2 && wrap != Black
    requires forall a: nat, b: nat :: WeightsFit(resampleWeights(a, b), b) && Normalised(resampleWeights(a, b))
    ensures v == c
  {
    MulMono(0, resolution.0, resolution.1);
    var image := seq(resolution.0 * resolution.1, _ => c);
    var orig := Level(resolution.0, resolution.1, image);
    forall s: nat, t: nat | s < orig.w && t < orig.h
      ensures orig.Get(s, t) == c
    {
      RowMajorBound(s, t, orig.w, orig.h);
    }
    var m := New(resolution, image, wrap, resampleWeights);
    if !(IsPowerOfTwo(resolution.0) && IsPowerOfTwo(resolution.1)) {
      ResamplingAsWrittenOfConstant(m.pyramid[0], orig, resampleWeights(resolution.0, m.resolution.0), resampleWeights(resolution.1, m.resolution.1), wrap, c);
    }
    PyramidOfConstant(m.pyramid, m.pyramid[0], c, wrap);
    LookupOfConstant(m, st, width, log2, c);
    v := LookupTrilinearWidth(m, st, width, log2);
  }

  /**
   * `lookup_trilinear`'s filter width as written: the second component of
   * `dst0` is used without `abs`, so the width bounds the other three
   * absolute differentials and is the widest of all four when `dst0.y >= 0`.
   */
  function FilterWidthAsWritten(dst0: Vec2, dst1: Vec2): (r: real)
    ensures r >= Abs(dst0.x) && r >= dst0.y && r >= Abs(dst1.x) && r >= Abs(dst1.y)
    ensures dst0.y >= 0.0 ==> r == FilterWidth(dst0, dst1)
  {
    Max(Max(Abs(dst0.x), dst0.y), Max(Abs(dst1.x), Abs(dst1.y)))
  }

  /** The widest of the four absolute differentials. */
  function FilterWidth(dst0: Vec2, dst1: Vec2): (r: real)
    ensures r >= Abs(dst0.x) && r >= Abs(dst0.y) && r >= Abs(dst1.x) && r >= Abs(dst1.y)
    ensures r == Abs(dst0.x) || r == Abs(dst0.y) || r == Abs(dst1.x) || r == Abs(dst1.y)
  {
    Max(Max(Abs(dst0.x), Abs(dst0.y)), Max(Abs(dst1.x), Abs(dst1.y)))
  }

  /** The two agree unless `dst0.y` is negative, and a negative `dst0.y` can be dropped entirely. */
  lemma FilterWidthAsWrittenDiffers()
    ensures FilterWidthAsWritten(Vec2(0.0, -1.0), Vec2(0.0, 0.0)) == 0.0
    ensures FilterWidth(Vec2(0.0, -1.0), Vec2(0.0, 0.0)) == 1.0
  {
  }

  /**
   * `lookup_trilinear`: twice the filter width as written; it is the lookup
   * at twice the widest absolute differential whenever `dst0.y >= 0`.
   */
  function LookupTrilinear(m: MIPMap, st: Vec2, dst0: Vec2, dst1: Vec2, log2: real -> real): (r: real)
    requires m.Valid()
    ensures dst0.y >= 0.0 ==> r == LookupTrilinearWidth(m, st, 2.0 * FilterWidth(dst0, dst1), log2)
  {
    LookupTrilinearWidth(m, st, 2.0 * FilterWidthAsWritten(dst0, dst1), log2)
  }
}
