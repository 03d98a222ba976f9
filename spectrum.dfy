// RGB spectra: `Spectrum<RGBSpectrum>`, three `Float` coefficients (modelled
// as reals) that every operator combines component by component.
module Spectrum {
  /** `RGBSpectrum::N_SAMPLES` */
  const NSamples: nat := 3

  /** `[Float; 3]` */
  type Coeffs = c: seq<real> | |c| == NSamples witness [0.0, 0.0, 0.0]

  datatype Spectrum = Spectrum(c: Coeffs)

  /** The four arithmetic operators the impls are written for. */
  datatype BinOp = Plus | Minus | Times | Over

  /** One component of an operator; a `Float` division by zero is outside the model. */
  function Apply(op: BinOp, x: real, y: real): real
    requires op == Over ==> y != 0.0
  {
    match op
    case Plus => x + y
    case Minus => x - y
    case Times => x * y
    case Over => x / y
  }

  predicate NonZero(s: Spectrum) {
    forall i :: 0 <= i < NSamples ==> s.c[i] != 0.0
  }

  /** `Spectrum::new(v)`: `[v; 3]`. */
  function New(v: real): (r: Spectrum)
    ensures forall i :: 0 <= i < NSamples ==> r.c[i] == v
  {
    Spectrum([v, v, v])
  }

  /** `From<[Float; 3]>` */
  function FromArray(c: Coeffs): Spectrum {
    Spectrum(c)
  }

  /** `From<Spectrum> for [Float; 3]` */
  function ToArray(s: Spectrum): Coeffs {
    s.c
  }

  /** The two conversions are inverse to each other. */
  lemma ArrayRoundTrip(c: Coeffs, s: Spectrum)
    ensures ToArray(FromArray(c)) == c && FromArray(ToArray(s)) == s
  {
  }

  /** The slot-by-slot result that every operator impl computes. */
  function Pointwise(op: BinOp, a: Spectrum, b: Spectrum): (r: Spectrum)
    requires op == Over ==> NonZero(b)
  {
    Spectrum(seq(NSamples, i requires 0 <= i < NSamples => Apply(op, a.c[i], b.c[i])))
  }

  lemma PointwiseAt(op: BinOp, a: Spectrum, b: Spectrum, i: nat)
    requires (op == Over ==> NonZero(b)) && i < NSamples
    ensures Pointwise(op, a, b).c[i] == Apply(op, a.c[i], b.c[i])
  {
  }

  // ----- The operator impls -----

  /**
   * `Spectrum op Spectrum` (`Add`, `Sub`, `Mul`, `Div`): a fresh `new(0.0)`
   * whose slot i receives `self[i] op rhs[i]`.
   */
  method Combine(a: Spectrum, op: BinOp, b: Spectrum) returns (r: Spectrum)
    requires op == Over ==> NonZero(b)
    ensures r == Pointwise(op, a, b)
  {
    var ret: Coeffs := New(0.0).c;
    for i := 0 to NSamples
      invariant forall j :: 0 <= j < i ==> ret[j] == Apply(op, a.c[j], b.c[j])
    {
      ret := ret[i := Apply(op, a.c[i], b.c[i])];
    }
    r := Spectrum(ret);
  }

  /** `Spectrum op Float` (`Mul`, `Div`, `Sub`, `Add`): slot i receives `self[i] op rhs`. */
  method CombineScalar(a: Spectrum, op: BinOp, k: real) returns (r: Spectrum)
    requires op == Over ==> k != 0.0
    ensures r == Pointwise(op, a, New(k))
  {
    var ret: Coeffs := New(0.0).c;
    for i := 0 to NSamples
      invariant forall j :: 0 <= j < i ==> ret[j] == Apply(op, a.c[j], k)
    {
      ret := ret[i := Apply(op, a.c[i], k)];
    }
    r := Spectrum(ret);
  }

  /** `Float op Spectrum` (`Mul`, `Add`): slot i receives `self op rhs[i]`. */
  method ScalarCombine(k: real, op: BinOp, b: Spectrum) returns (r: Spectrum)
    requires op == Times || op == Plus
    ensures r == Pointwise(op, New(k), b)
  {
    var ret: Coeffs := New(0.0).c;
    for i := 0 to NSamples
      invariant forall j :: 0 <= j < i ==> ret[j] == Apply(op, k, b.c[j])
    {
      ret := ret[i := Apply(op, k, b.c[i])];
    }
    r := Spectrum(ret);
  }

  /** `Neg`: slot i receives `-self[i]`, which is `new(0.0) - self`. */
  method Negate(a: Spectrum) returns (r: Spectrum)
    ensures r == Pointwise(Minus, New(0.0), a)
  {
    var ret: Coeffs := New(0.0).c;
    for i := 0 to NSamples
      invariant forall j :: 0 <= j < i ==> ret[j] == -a.c[j]
    {
      ret := ret[i := -a.c[i]];
    }
    r := Spectrum(ret);
  }

  /**
   * `AddAssign`, `SubAssign`, `MulAssign`, `DivAssign`: `self.0[i] op= rhs.0[i]`
   * on the three slots of `self`, which end as the binary operator's result.
   */
  method CombineAssign(self: array<real>, op: BinOp, rhs: Spectrum)
    requires self.Length == NSamples && (op == Over ==> NonZero(rhs))
    modifies self
    ensures self[..] == Pointwise(op, Spectrum(old(self[..])), rhs).c
  {
    ghost var before := self[..];
    for i := 0 to NSamples
      invariant forall j :: 0 <= j < i ==> self[j] == Apply(op, before[j], rhs.c[j])
      invariant forall j :: i <= j < NSamples ==> self[j] == before[j]
    {
      self[i] := Apply(op, self[i], rhs.c[i]);
    }
  }

  // ----- Algebra of the component-wise operators -----

  lemma PlusCommutes(a: Spectrum, b: Spectrum)
    ensures Pointwise(Plus, a, b) == Pointwise(Plus, b, a)
  {
  }

  lemma TimesCommutes(a: Spectrum, b: Spectrum)
    ensures Pointwise(Times, a, b) == Pointwise(Times, b, a)
  {
  }

  /** `new(0.0)` is the identity of `+` and `new(1.0)` that of `*`. */
  lemma Identities(a: Spectrum)
    ensures Pointwise(Plus, a, New(0.0)) == a && Pointwise(Plus, New(0.0), a) == a
    ensures Pointwise(Times, a, New(1.0)) == a && Pointwise(Times, New(1.0), a) == a
  {
    assert Pointwise(Plus, a, New(0.0)).c == a.c;
    assert Pointwise(Plus, New(0.0), a).c == a.c;
    assert Pointwise(Times, a, New(1.0)).c == a.c;
    assert Pointwise(Times, New(1.0), a).c == a.c;
  }

  /** Subtracting what was added gives back the original. */
  lemma MinusUndoesPlus(a: Spectrum, b: Spectrum)
    ensures Pointwise(Minus, Pointwise(Plus, a, b), b) == a
  {
    assert Pointwise(Minus, Pointwise(Plus, a, b), b).c == a.c;
  }

  /** Dividing by what was multiplied in gives back the original. */
  lemma OverUndoesTimes(a: Spectrum, b: Spectrum)
    requires NonZero(b)
    ensures Pointwise(Over, Pointwise(Times, a, b), b) == a
  {
    forall i | 0 <= i < NSamples
      ensures Pointwise(Over, Pointwise(Times, a, b), b).c[i] == a.c[i]
    {
      PointwiseAt(Times, a, b, i);
      PointwiseAt(Over, Pointwise(Times, a, b), b, i);
      DivCancels(a.c[i], b.c[i]);
    }
    assert Pointwise(Over, Pointwise(Times, a, b), b).c == a.c;
  }

  lemma DivCancels(x: real, y: real)
    requires y != 0.0
    ensures (x * y) / y == x
  {
  }

  // ----- Clamping and blackness -----

  /** `clamp(low, high)`: `f32::clamp` on every slot; it panics unless `low <= high`. */
  function Clamp(s: Spectrum, low: real, high: real): (r: Spectrum)
    requires low <= high
    ensures forall i :: 0 <= i < NSamples ==> low <= r.c[i] <= high
    ensures forall i :: 0 <= i < NSamples && low <= s.c[i] <= high ==> r.c[i] == s.c[i]
    ensures forall i :: 0 <= i < NSamples && s.c[i] < low ==> r.c[i] == low
    ensures forall i :: 0 <= i < NSamples && s.c[i] > high ==> r.c[i] == high
  {
    Spectrum(seq(NSamples, i requires 0 <= i < NSamples =>
      if s.c[i] < low then low else if s.c[i] > high then high else s.c[i]))
  }

  /**
   * `clamp_positive`, `clamp(0.0, INFINITY)`: the upper bound is infinite, so
   * only negative slots move, to 0.
   */
  function ClampPositive(s: Spectrum): (r: Spectrum)
    ensures forall i :: 0 <= i < NSamples ==> r.c[i] >= 0.0
    ensures forall i :: 0 <= i < NSamples && s.c[i] >= 0.0 ==> r.c[i] == s.c[i]
    ensures forall i :: 0 <= i < NSamples && s.c[i] < 0.0 ==> r.c[i] == 0.0
  {
    Spectrum(seq(NSamples, i requires 0 <= i < NSamples => if s.c[i] < 0.0 then 0.0 else s.c[i]))
  }

  /** Any finite upper bound at least every slot gives the same result as the infinite one. */
  lemma ClampPositiveIsClamp(s: Spectrum, high: real)
    requires high >= 0.0 && forall i :: 0 <= i < NSamples ==> s.c[i] <= high
    ensures ClampPositive(s) == Clamp(s, 0.0, high)
  {
    assert ClampPositive(s).c == Clamp(s, 0.0, high).c;
  }

  /** Clamping twice is clamping once. */
  lemma ClampIdempotent(s: Spectrum, low: real, high: real)
    requires low <= high
    ensures Clamp(Clamp(s, low, high), low, high) == Clamp(s, low, high)
  {
    assert Clamp(Clamp(s, low, high), low, high).c == Clamp(s, low, high).c;
  }

  /** `is_black`: every slot is exactly zero. */
  predicate IsBlack(s: Spectrum) {
    forall i :: 0 <= i < NSamples ==> s.c[i] == 0.0
  }

  /** The `is_black` loop: the first non-zero slot returns false. */
  method IsBlackScan(s: Spectrum) returns (b: bool)
    ensures b == IsBlack(s)
  {
    for i := 0 to NSamples
      invariant forall j :: 0 <= j < i ==> s.c[j] == 0.0
    {
      if s.c[i] != 0.0 {
        return false;
      }
    }
    return true;
  }

  /** Black spectra are exactly `new(0.0)`. */
  lemma IsBlackIffZero(s: Spectrum)
    ensures IsBlack(s) <==> s == New(0.0)
  {
    if IsBlack(s) {
      assert s.c == New(0.0).c;
    }
  }

  /** Clamping to non-negative keeps a spectrum black iff no slot was positive. */
  lemma ClampPositiveBlack(s: Spectrum)
    ensures IsBlack(ClampPositive(s)) <==> forall i :: 0 <= i < NSamples ==> s.c[i] <= 0.0
  {
    if !IsBlack(ClampPositive(s)) {
      var i :| 0 <= i < NSamples && ClampPositive(s).c[i] != 0.0;
      assert s.c[i] > 0.0;
    }
  }

  // ----- Lerp and Sum -----

  /** `lerp(t, s1, s2) = (1 - t) * s1 + t * s2` with the `Float * Spectrum` and `Add` impls. */
  function Lerp(t: real, s1: Spectrum, s2: Spectrum): Spectrum {
    Pointwise(Plus, Pointwise(Times, New(1.0 - t), s1), Pointwise(Times, New(t), s2))
  }

  lemma LerpEnds(s1: Spectrum, s2: Spectrum)
    ensures Lerp(0.0, s1, s2) == s1 && Lerp(1.0, s1, s2) == s2
  {
    assert Lerp(0.0, s1, s2).c == s1.c;
    assert Lerp(1.0, s1, s2).c == s2.c;
  }

  /** Slot i of a lerp is the scalar lerp of the two slots. */
  lemma LerpAt(t: real, s1: Spectrum, s2: Spectrum, i: nat)
    requires i < NSamples
    ensures Lerp(t, s1, s2).c[i] == (1.0 - t) * s1.c[i] + t * s2.c[i]
  {
    var p1, p2 := Pointwise(Times, New(1.0 - t), s1), Pointwise(Times, New(t), s2);
    PointwiseAt(Times, New(1.0 - t), s1, i);
    PointwiseAt(Times, New(t), s2, i);
    PointwiseAt(Plus, p1, p2, i);
  }

  lemma LerpOfEqual(t: real, s: Spectrum)
    ensures Lerp(t, s, s) == s
  {
    forall i | 0 <= i < NSamples
      ensures Lerp(t, s, s).c[i] == s.c[i]
    {
      LerpAt(t, s, s, i);
      assert (1.0 - t) * s.c[i] + t * s.c[i] == s.c[i];
    }
    assert Lerp(t, s, s).c == s.c;
  }

  /** `iter.fold(acc, Add::add)` */
  function FoldAdd(acc: Spectrum, ss: seq<Spectrum>): Spectrum
    decreases |ss|
  {
    if |ss| == 0 then acc else FoldAdd(Pointwise(Plus, acc, ss[0]), ss[1..])
  }

  /** `Sum`: the fold of `Add` from `new(0.0)`. */
  function Sum(ss: seq<Spectrum>): Spectrum {
    FoldAdd(New(0.0), ss)
  }

  /** The plain sum of slot i over a sequence of spectra, taken from the back. */
  function SlotSum(ss: seq<Spectrum>, i: nat): real
    requires i < NSamples
  {
    if |ss| == 0 then 0.0 else SlotSum(ss[..|ss| - 1], i) + ss[|ss| - 1].c[i]
  }

  lemma {:induction false} SlotSumCons(s: Spectrum, ss: seq<Spectrum>, i: nat)
    requires i < NSamples
    ensures SlotSum([s] + ss, i) == s.c[i] + SlotSum(ss, i)
    decreases |ss|
  {
    if |ss| > 0 {
      var last := |ss| - 1;
      assert ([s] + ss)[..|ss|] == [s] + ss[..last];
      SlotSumCons(s, ss[..last], i);
    } else {
      assert [s] + ss == [s];
      assert [s][..0] == [];
    }
  }

  /** Folding adds slot-wise: slot i of the fold is the accumulator's slot plus the slot sum. */
  lemma {:induction false} FoldAddAt(acc: Spectrum, ss: seq<Spectrum>, i: nat)
    requires i < NSamples
    ensures FoldAdd(acc, ss).c[i] == acc.c[i] + SlotSum(ss, i)
    decreases |ss|
  {
    if |ss| > 0 {
      FoldAddAt(Pointwise(Plus, acc, ss[0]), ss[1..], i);
      assert ss == [ss[0]] + ss[1..];
      SlotSumCons(ss[0], ss[1..], i);
    }
  }

  /** Every slot of a `Sum` is the sum of that slot over the spectra. */
  lemma SumAt(ss: seq<Spectrum>, i: nat)
    requires i < NSamples
    ensures Sum(ss).c[i] == SlotSum(ss, i)
  {
    FoldAddAt(New(0.0), ss, i);
  }

  /** The empty sum is black. */
  lemma SumOfNone()
    ensures IsBlack(Sum([]))
  {
  }

  /** `new(1.0) + [0.0, 1.0, 0.5]` sums to `[1.0, 2.0, 1.5]`. */
  lemma SumExample()
    ensures Sum([New(1.0), FromArray([0.0, 1.0, 0.5])]) == FromArray([1.0, 2.0, 1.5])
  {
    var ss := [New(1.0), FromArray([0.0, 1.0, 0.5])];
    forall i | 0 <= i < NSamples
      ensures Sum(ss).c[i] == [1.0, 2.0, 1.5][i]
    {
      SumAt(ss, i);
      assert ss[..1][..0] == [];
    }
    assert Sum(ss).c == [1.0, 2.0, 1.5];
  }

  // ----- Colour-space conversions -----

  /** A 3x3 matrix, row by row. */
  type Matrix3 = m: seq<Coeffs> | |m| == 3 witness [New(0.0).c, New(0.0).c, New(0.0).c]

  function Dot3(r: Coeffs, v: Coeffs): real {
    r[0] * v[0] + r[1] * v[1] + r[2] * v[2]
  }

  /** The matrix applied to a column of three coefficients. */
  function MatVec(m: Matrix3, v: Coeffs): Coeffs {
    [Dot3(m[0], v), Dot3(m[1], v), Dot3(m[2], v)]
  }

  const XyzToRgbMatrix: Matrix3 :=
    [[3.240479, -1.537150, -0.498535], [-0.969256, 1.875991, 0.041556], [0.055648, -0.204043, 1.057311]]

  const RgbToXyzMatrix: Matrix3 :=
    [[0.412453, 0.357580, 0.180423], [0.212671, 0.715160, 0.072169], [0.019334, 0.119193, 0.950227]]

  /** `xyz_to_rgb`: the fixed linear map of `XyzToRgbMatrix`. */
  function XyzToRgb(xyz: Coeffs): (rgb: Coeffs)
    ensures rgb == MatVec(XyzToRgbMatrix, xyz)
  {
    [ 3.240479 * xyz[0] - 1.537150 * xyz[1] - 0.498535 * xyz[2],
     -0.969256 * xyz[0] + 1.875991 * xyz[1] + 0.041556 * xyz[2],
      0.055648 * xyz[0] - 0.204043 * xyz[1] + 1.057311 * xyz[2]]
  }

  /** `rgb_to_xyz`: the fixed linear map of `RgbToXyzMatrix`. */
  function RgbToXyz(rgb: Coeffs): (xyz: Coeffs)
    ensures xyz == MatVec(RgbToXyzMatrix, rgb)
  {
    [0.412453 * rgb[0] + 0.357580 * rgb[1] + 0.180423 * rgb[2],
     0.212671 * rgb[0] + 0.715160 * rgb[1] + 0.072169 * rgb[2],
     0.019334 * rgb[0] + 0.119193 * rgb[1] + 0.950227 * rgb[2]]
  }

  /** `RGBSpectrum::to_rgb` gives the coefficients and `to_xyz` converts them. */
  function ToRgb(s: Spectrum): (c: Coeffs)
    ensures FromArray(c) == s
  {
    s.c
  }

  function ToXyz(s: Spectrum): Coeffs {
    RgbToXyz(s.c)
  }

  /** Every matrix map respects `+`. */
  lemma MatVecAdditive(m: Matrix3, a: Spectrum, b: Spectrum)
    ensures MatVec(m, Pointwise(Plus, a, b).c) == Pointwise(Plus, Spectrum(MatVec(m, a.c)), Spectrum(MatVec(m, b.c))).c
  {
    var u, v := a.c, b.c;
    assert Pointwise(Plus, a, b).c == [u[0] + v[0], u[1] + v[1], u[2] + v[2]];
    Dot3Additive(m[0], u, v);
    Dot3Additive(m[1], u, v);
    Dot3Additive(m[2], u, v);
  }

  lemma Dot3Additive(r: Coeffs, u: Coeffs, v: Coeffs)
    ensures Dot3(r, [u[0] + v[0], u[1] + v[1], u[2] + v[2]]) == Dot3(r, u) + Dot3(r, v)
  {
    AddedRow(r[0], r[1], r[2], u[0], u[1], u[2], v[0], v[1], v[2]);
  }

  lemma AddedRow(p: real, q: real, r: real, x: real, y: real, z: real, x': real, y': real, z': real)
    ensures p * (x + x') + q * (y + y') + r * (z + z') == (p * x + q * y + r * z) + (p * x' + q * y' + r * z')
  {
  }

  /** Hence both conversions distribute over `+`. */
  lemma ConversionsAdditive(a: Spectrum, b: Spectrum)
    ensures XyzToRgb(Pointwise(Plus, a, b).c) == Pointwise(Plus, Spectrum(XyzToRgb(a.c)), Spectrum(XyzToRgb(b.c))).c
    ensures RgbToXyz(Pointwise(Plus, a, b).c) == Pointwise(Plus, Spectrum(RgbToXyz(a.c)), Spectrum(RgbToXyz(b.c))).c
  {
    MatVecAdditive(XyzToRgbMatrix, a, b);
    MatVecAdditive(RgbToXyzMatrix, a, b);
  }

  /** Black converts to black both ways. */
  lemma ConversionsOfBlack()
    ensures XyzToRgb(New(0.0).c) == New(0.0).c && RgbToXyz(New(0.0).c) == New(0.0).c
  {
  }
}
