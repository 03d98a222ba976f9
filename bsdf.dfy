// The BSDF: a shading frame and up to eight BxDF lobes, with a lobe-picking
// `sample_f` that averages the PDFs of all matching lobes.
module Bsdf {
  import opened Wrappers
  import opened Geom
  import opened Spectrum
  import opened Reflection

  /** `ArrayVec<[&dyn BxDF; 8]>` */
  const Capacity: nat := 8

  /**
   * The `dyn BxDF` methods the BSDF calls. The BSDF only reaches its lobes
   * through the trait, so it is written against these three functions;
   * `Dispatch` instantiates them with the lobes of this model.
   */
  datatype Dispatch = Dispatch(
    f: (BxDF, Vec3, Vec3) -> Spectrum,
    pdf: (BxDF, Vec3, Vec3) -> real,
    sampleF: (BxDF, Vec3, Vec2) -> Option<ScatterSample>)

  /** The trait methods of the lobes defined in `Reflection`. */
  function LobeDispatch(m: Maths): (d: Dispatch)
    ensures forall b, wo, wi :: d.f(b, wo, wi) == Reflection.F(m, b, wo, wi) && d.pdf(b, wo, wi) == Reflection.Pdf(m, b, wo, wi)
    ensures forall b, wo, u :: d.sampleF(b, wo, u) == Reflection.SampleF(m, b, wo, u)
  {
    Dispatch((b, wo, wi) => Reflection.F(m, b, wo, wi), (b, wo, wi) => Reflection.Pdf(m, b, wo, wi),
      (b, wo, u) => Reflection.SampleF(m, b, wo, u))
  }

  // ------------------------------------------------------------ lobe filters

  /** `iter().filter(keep)`, in order. */
  function Where(lobes: seq<BxDF>, keep: BxDF -> bool): (r: seq<BxDF>)
    ensures |r| <= |lobes|

  {
    if lobes == [] then []
    else (if keep(lobes[0]) then [lobes[0]] else []) + Where(lobes[1..], keep)
  }

  /** The filter keeps exactly the lobes that pass the test. */
  lemma {:induction false} WhereMembers(lobes: seq<BxDF>, keep: BxDF -> bool)
    ensures forall b :: b in Where(lobes, keep) <==> b in lobes && keep(b)
  {
    if lobes != [] {
      WhereMembers(lobes[1..], keep);
      assert lobes == [lobes[0]] + lobes[1..];
    }
  }

  /** Filtering a concatenation filters each part. */
  lemma {:induction false} WhereAppend(a: seq<BxDF>, b: seq<BxDF>, keep: BxDF -> bool)
    ensures Where(a + b, keep) == Where(a, keep) + Where(b, keep)
  {
    if a == [] {
      assert a + b == b;
    } else {
      var head := if keep(a[0]) then [a[0]] else [];
      assert (a + b)[0] == a[0];
      assert (a + b)[1..] == a[1..] + b;
      WhereAppend(a[1..], b, keep);
      calc {
        Where(a + b, keep);
        head + Where(a[1..] + b, keep);
        head + (Where(a[1..], keep) + Where(b, keep));
        (head + Where(a[1..], keep)) + Where(b, keep);
      }
    }
  }

  /** `iter_matching(flags)`: exactly the lobes whose type is contained in the flags. */
  function Matching(lobes: seq<BxDF>, flags: BxDFType): (r: seq<BxDF>)
    ensures forall b {:trigger b in r} :: b in r <==> b in lobes && MatchesFlags(GetType(b), flags)
    ensures |r| <= |lobes|
  {
    WhereMembers(lobes, b => MatchesFlags(GetType(b), flags));
    Where(lobes, b => MatchesFlags(GetType(b), flags))
  }

  /** `num_components(flags)`: the count of lobes whose type is contained in the flags. */
  function NumComponents(lobes: seq<BxDF>, flags: BxDFType): (n: nat)
    ensures n == |Matching(lobes, flags)|
    ensures n <= |lobes|

  {
    if lobes == [] then 0
    else (if MatchesFlags(GetType(lobes[0]), flags) then 1 else 0) + NumComponents(lobes[1..], flags)
  }

  /** No component matches exactly when no lobe's type is contained in the flags. */
  lemma NoComponents(lobes: seq<BxDF>, flags: BxDFType)
    ensures NumComponents(lobes, flags) == 0 <==> forall b :: b in lobes ==> !MatchesFlags(GetType(b), flags)
  {
    WhereMembers(lobes, b => MatchesFlags(GetType(b), flags));
    if NumComponents(lobes, flags) != 0 {
      assert Matching(lobes, flags)[0] in Matching(lobes, flags);
    }
  }

  /** Appending a lobe appends it to the matching lobes exactly when it matches, and so counts once more. */
  lemma MatchingAppend(lobes: seq<BxDF>, b: BxDF, flags: BxDFType)
    ensures Matching(lobes + [b], flags) == Matching(lobes, flags) + (if MatchesFlags(GetType(b), flags) then [b] else [])
    ensures NumComponents(lobes + [b], flags) == NumComponents(lobes, flags) + (if MatchesFlags(GetType(b), flags) then 1 else 0)
  {
    var keep := (x: BxDF) => MatchesFlags(GetType(x), flags);
    WhereAppend(lobes, [b], keep);
    assert Where([b], keep) == (if keep(b) then [b] else []) + Where([], keep);
  }

  /** The reflection-or-transmission filter of `f`. */
  function Sided(lobes: seq<BxDF>, reflect: bool): seq<BxDF> {
    Where(lobes, b => (reflect && Has(GetType(b), BxReflection)) || (!reflect && Has(GetType(b), BxTransmission)))
  }

  /** The lobes' `f(wo, wi)` values, in order. */
  function Values(d: Dispatch, lobes: seq<BxDF>, wo: Vec3, wi: Vec3): (r: seq<Spectrum>)
    ensures |r| == |lobes| && forall i :: 0 <= i < |lobes| ==> r[i] == d.f(lobes[i], wo, wi)
  {
    seq(|lobes|, (i: int) requires 0 <= i < |lobes| => d.f(lobes[i], wo, wi))
  }

  /** `.filter(side).map(|b| b.f(wo, wi)).sum()` */
  function SidedValue(d: Dispatch, lobes: seq<BxDF>, reflect: bool, wo: Vec3, wi: Vec3): Spectrum {
    Sum(Values(d, Sided(lobes, reflect), wo, wi))
  }

  /** `.map(|b| b.pdf(wo, wi)).sum()`: non-negative when every lobe's pdf is. */
  function PdfSum(d: Dispatch, lobes: seq<BxDF>, wo: Vec3, wi: Vec3): (r: real)
    ensures (forall i :: 0 <= i < |lobes| ==> d.pdf(lobes[i], wo, wi) >= 0.0) ==> r >= 0.0
  {
    if lobes == [] then 0.0 else d.pdf(lobes[0], wo, wi) + PdfSum(d, lobes[1..], wo, wi)
  }

  lemma {:induction false} PdfSumAppend(d: Dispatch, a: seq<BxDF>, b: seq<BxDF>, wo: Vec3, wi: Vec3)
    ensures PdfSum(d, a + b, wo, wi) == PdfSum(d, a, wo, wi) + PdfSum(d, b, wo, wi)
  {
    if a == [] {
      assert a + b == b;
    } else {
      assert (a + b)[1..] == a[1..] + b;
      PdfSumAppend(d, a[1..], b, wo, wi);
    }
  }

  /**
   * The matching lobes other than the one at index k (the `!ptr::eq(b, bxdf)`
   * filter): the rest, in order, so that with lobe k they are all the lobes.
   */
  function Others(lobes: seq<BxDF>, k: nat): (r: seq<BxDF>)
    requires k < |lobes|
    ensures |r| == |lobes| - 1
    ensures forall i :: 0 <= i < |r| ==> r[i] == (if i < k then lobes[i] else lobes[i + 1])
    ensures multiset(r) + multiset{lobes[k]} == multiset(lobes)
  {
    assert lobes == lobes[..k] + [lobes[k]] + lobes[k + 1..];
    lobes[..k] + lobes[k + 1..]
  }

  /** The pdf of lobe k plus the pdfs of the others is the pdf sum over all lobes. */
  lemma PdfSumOthers(d: Dispatch, lobes: seq<BxDF>, k: nat, wo: Vec3, wi: Vec3)
    requires k < |lobes|
    ensures d.pdf(lobes[k], wo, wi) + PdfSum(d, Others(lobes, k), wo, wi) == PdfSum(d, lobes, wo, wi)
  {
    assert lobes == lobes[..k] + ([lobes[k]] + lobes[k + 1..]);
    PdfSumAppend(d, lobes[..k], [lobes[k]] + lobes[k + 1..], wo, wi);
    PdfSumAppend(d, [lobes[k]], lobes[k + 1..], wo, wi);
    PdfSumAppend(d, lobes[..k], lobes[k + 1..], wo, wi);
    assert ([lobes[k]] + lobes[k + 1..])[1..] == lobes[k + 1..];
  }

  // ------------------------------------------------------------ lobe choice

  /** `(u0 * n).floor().min(n - 1.0) as usize`: the float-to-usize cast saturates negatives to 0. */
  function ChosenIndex(u0: real, n: nat): (k: nat)
    requires n > 0
    ensures k < n
  {
    var f := Floor(u0 * n as real);
    if f < 0 then 0 else MinI(f, n - 1) as nat
  }

  /** `u0 * n - comp` */
  function Remap(u0: real, n: nat, k: nat): real {
    u0 * n as real - k as real
  }

  /** For a sample in [0, 1) the pick is the floor of `u0 * n`, and the remapped sample lies again in [0, 1). */
  lemma ChosenIndexOfUnitSample(u0: real, n: nat)
    requires n > 0 && 0.0 <= u0 < 1.0
    ensures ChosenIndex(u0, n) == Floor(u0 * n as real)
    ensures 0.0 <= Remap(u0, n, ChosenIndex(u0, n)) < 1.0
  {
    var x := u0 * n as real;
    assert x < n as real by {
      assert (1.0 - u0) * n as real > 0.0;
    }
    assert 0.0 <= x by {
      MulNonNeg(u0, n as real);
    }
    RoundingBounds(x, Floor(x));
  }

  // ------------------------------------------------------------ the BSDF

  /** `Bsdf`: the relative index of refraction, the shading frame and the lobes. */
  class Bsdf {
    var eta: real
    var ns: Vec3
    var ng: Vec3
    var ss: Vec3
    var ts: Vec3
    var bxdfs: seq<BxDF>

    /**
     * `Bsdf::new`: the frame is built from the shading normal and `dpdu`
     * (surface interactions are not part of this model, so their three
     * vectors are parameters), and there are no lobes.
     */
    constructor (eta: real, shadingN: Vec3, geomN: Vec3, dpdu: Vec3, normalize: Vec3 -> Vec3)
      ensures this.eta == eta && ns == shadingN && ng == geomN
      ensures ss == normalize(dpdu) && ts == normalize(shadingN.Cross(normalize(dpdu)))
      ensures bxdfs == []
    {
      this.eta := eta;
      ns := shadingN;
      ng := geomN;
      ss := normalize(dpdu);
      ts := normalize(shadingN.Cross(normalize(dpdu)));
      bxdfs := [];
    }

    /** `add`: one more lobe at the end; the `ArrayVec` push panics when all eight slots are taken. */
    method Add(b: BxDF)
      requires |bxdfs| < Capacity
      modifies this
      ensures bxdfs == old(bxdfs) + [b]
      ensures eta == old(eta) && ns == old(ns) && ng == old(ng) && ss == old(ss) && ts == old(ts)
    {
      bxdfs := bxdfs + [b];
    }

    /** `world_to_local`: the coordinates along ss, ts and ns, so in an orthonormal frame the frame vectors become the axes. */
    function WorldToLocal(v: Vec3): (r: Vec3)
      reads this
      ensures Orthonormal() && v == ss ==> r == Vec3(1.0, 0.0, 0.0)
      ensures Orthonormal() && v == ts ==> r == Vec3(0.0, 1.0, 0.0)
      ensures Orthonormal() && v == ns ==> r == Vec3(0.0, 0.0, 1.0)
    {
      DotSymmetric(ss, ts);
      DotSymmetric(ss, ns);
      DotSymmetric(ts, ns);
      Vec3(v.Dot(ss), v.Dot(ts), v.Dot(ns))
    }

    /** `local_to_world`: in an orthonormal frame `world_to_local` undoes it. */
    function LocalToWorld(v: Vec3): (r: Vec3)
      reads this
      ensures Orthonormal() ==> WorldToLocal(r) == v
    {
      if Orthonormal() then FrameInverse(ss, ts, ns, v); FrameCombination(ss, ts, ns, v) else FrameCombination(ss, ts, ns, v)
    }

    predicate Orthonormal()
      reads this
    {
      ss.Dot(ss) == 1.0 && ts.Dot(ts) == 1.0 && ns.Dot(ns) == 1.0 &&
      ss.Dot(ts) == 0.0 && ss.Dot(ns) == 0.0 && ts.Dot(ns) == 0.0
    }

    /** `wi_world . ng * wo_world . ng > 0`: both directions on the same side of the geometric normal. */
    predicate Reflects(woW: Vec3, wiW: Vec3)
      reads this
    {
      wiW.Dot(ng) * woW.Dot(ng) > 0.0
    }

    /** `f(wo_world, wi_world, flags)` */
    function F(d: Dispatch, woW: Vec3, wiW: Vec3, flags: BxDFType): (r: Spectrum)
      reads this
      ensures WorldToLocal(woW).z == 0.0 ==> r == New(0.0)
      ensures WorldToLocal(woW).z != 0.0 ==>
        forall i :: 0 <= i < NSamples ==>
          r.c[i] == SlotSum(Values(d, Sided(Matching(bxdfs, flags), Reflects(woW, wiW)), WorldToLocal(woW), WorldToLocal(wiW)), i)
    {
      var wi, wo := WorldToLocal(wiW), WorldToLocal(woW);
      if wo.z == 0.0 then New(0.0)
      else
        var r := Sum(Values(d, Sided(Matching(bxdfs, flags), Reflects(woW, wiW)), wo, wi));
        assert forall i :: 0 <= i < NSamples ==>
          r.c[i] == SlotSum(Values(d, Sided(Matching(bxdfs, flags), Reflects(woW, wiW)), wo, wi), i) by {
          forall i | 0 <= i < NSamples {
            SumAt(Values(d, Sided(Matching(bxdfs, flags), Reflects(woW, wiW)), wo, wi), i);
          }
        }
        r
    }

    /** `pdf(wo_world, wi_world, flags)`: the mean pdf of the matching lobes. */
    function Pdf(d: Dispatch, woW: Vec3, wiW: Vec3, flags: BxDFType): (p: real)
      reads this
      ensures WorldToLocal(woW).z == 0.0 || NumComponents(bxdfs, flags) == 0 ==> p == 0.0
      ensures WorldToLocal(woW).z != 0.0 && NumComponents(bxdfs, flags) > 0 ==>
        p * NumComponents(bxdfs, flags) as real == PdfSum(d, Matching(bxdfs, flags), WorldToLocal(woW), WorldToLocal(wiW))
    {
      var wo, wi := WorldToLocal(woW), WorldToLocal(wiW);
      if wo.z == 0.0 then 0.0
      else
        var n := NumComponents(bxdfs, flags) as real;
        var pdf := PdfSum(d, Matching(bxdfs, flags), wo, wi);
        if n > 0.0 then DivTimes(pdf, n); pdf / n else 0.0
    }

    /** The matching lobe `sample_f` picks with the sample u. */
    function ChosenLobe(u: Vec2, flags: BxDFType): BxDF
      reads this
      requires NumComponents(bxdfs, flags) > 0
    {
      Matching(bxdfs, flags)[ChosenIndex(u.x, NumComponents(bxdfs, flags))]
    }

    /** The picked lobe's own sample, taken with the remapped first coordinate. */
    function LobeSample(d: Dispatch, woW: Vec3, u: Vec2, flags: BxDFType): Option<ScatterSample>
      reads this
      requires NumComponents(bxdfs, flags) > 0
    {
      var n := NumComponents(bxdfs, flags);
      d.sampleF(ChosenLobe(u, flags), WorldToLocal(woW), Vec2(Remap(u.x, n, ChosenIndex(u.x, n)), u.y))
    }

    /**
     * `sample_f(wo_world, u, flags)`: picks the `ChosenIndex`-th matching
     * lobe, samples it with the remapped first coordinate, and, for a
     * non-specular pick among several matches, replaces the pdf by the sum
     * over all matching lobes and `f` by the full BSDF value; with several
     * matches the pdf is then divided by their number.
     */
    method SampleF(d: Dispatch, woW: Vec3, u: Vec2, flags: BxDFType) returns (r: Option<ScatterSample>)
      ensures NumComponents(bxdfs, flags) == 0 ==> r.None?
      ensures NumComponents(bxdfs, flags) > 0 ==>
        (r.None? <==> LobeSample(d, woW, u, flags).None? || LobeSample(d, woW, u, flags).value.pdf == 0.0)
      ensures r.Some? ==>
        (NumComponents(bxdfs, flags) > 0 && LobeSample(d, woW, u, flags).Some? &&
         r.value.wi == LocalToWorld(LobeSample(d, woW, u, flags).value.wi) &&
         r.value.sampledType == LobeSample(d, woW, u, flags).value.sampledType)
      ensures r.Some? && (Has(GetType(ChosenLobe(u, flags)), BxSpecular) || NumComponents(bxdfs, flags) == 1) ==>
        var n, s := NumComponents(bxdfs, flags), LobeSample(d, woW, u, flags).value;
        r.value.f == s.f && r.value.pdf == (if n > 1 then Average(s.pdf, n) else s.pdf)
      ensures r.Some? && !Has(GetType(ChosenLobe(u, flags)), BxSpecular) && NumComponents(bxdfs, flags) > 1 ==>
        var n, ms, wo, s := NumComponents(bxdfs, flags), Matching(bxdfs, flags), WorldToLocal(woW), LobeSample(d, woW, u, flags).value;
        r.value.f == SidedValue(d, ms, Reflects(woW, LocalToWorld(s.wi)), wo, s.wi) &&
        r.value.pdf == RescoredPdf(d, ms, ChosenIndex(u.x, n), wo, s.wi, s.pdf)
    {
      var n := NumComponents(bxdfs, flags);
      if n == 0 {
        return None;
      }
      var matching := Matching(bxdfs, flags);
      var comp := ChosenIndex(u.x, n);
      var bxdf := matching[comp];
      var uRemapped := Vec2(Remap(u.x, n, comp), u.y);
      var wo := WorldToLocal(woW);
      var sample := d.sampleF(bxdf, wo, uRemapped);
      assert sample == LobeSample(d, woW, u, flags) && bxdf == ChosenLobe(u, flags);
      if sample.None? {
        return None;
      }
      var pdf, wi, f, sampledType := sample.value.pdf, sample.value.wi, sample.value.f, sample.value.sampledType;
      if pdf == 0.0 {
        return None;
      }
      var wiW := LocalToWorld(wi);
      if !Has(GetType(bxdf), BxSpecular) && n > 1 {
        f, pdf := Rescore(d, matching, comp, wo, wi, Reflects(woW, wiW), pdf);
      } else if n > 1 {
        pdf := Average(pdf, n);
      }
      r := Some(ScatterSample(f, wiW, pdf, sampledType));
    }
  }

  /**
   * The non-specular branch of `sample_f`: the pdf of every other matching
   * lobe is added to the picked lobe's, and `f` is recomputed over all
   * matching lobes on the side the directions select.
   */
  method Rescore(d: Dispatch, matching: seq<BxDF>, comp: nat, wo: Vec3, wi: Vec3, reflect: bool, pdf0: real)
    returns (f: Spectrum, pdf: real)
    requires comp < |matching|
    ensures f == SidedValue(d, matching, reflect, wo, wi)
    ensures pdf == RescoredPdf(d, matching, comp, wo, wi, pdf0)
  {
    f := SidedValue(d, matching, reflect, wo, wi);
    pdf := RescoredPdf(d, matching, comp, wo, wi, pdf0);
  }

  /**
   * `(pdf + sum of the other matching pdfs) / n`: when the picked lobe's
   * sample reports that lobe's own `pdf(wo, wi)`, the mean pdf of all
   * matching lobes.
   */
  function RescoredPdf(d: Dispatch, matching: seq<BxDF>, comp: nat, wo: Vec3, wi: Vec3, pdf0: real): (r: real)
    requires comp < |matching|
    ensures pdf0 == d.pdf(matching[comp], wo, wi) ==> r == Average(PdfSum(d, matching, wo, wi), |matching|)
  {
    PdfSumOthers(d, matching, comp, wo, wi);
    Average(pdf0 + PdfSum(d, Others(matching, comp), wo, wi), |matching|)
  }

  /** `pdf / n` */
  function Average(x: real, n: nat): real
    requires n > 0
  {
    x / n as real
  }

  lemma DivTimes(x: real, n: real)
    requires n != 0.0
    ensures (x / n) * n == x
  {
  }

  /** Dotting a combination of three vectors with d combines their dot products. */
  /** The combination `v.x a + v.y b + v.z c` of three vectors. */
  function FrameCombination(a: Vec3, b: Vec3, c: Vec3, v: Vec3): Vec3 {
    Vec3(a.x * v.x + b.x * v.y + c.x * v.z, a.y * v.x + b.y * v.y + c.y * v.z, a.z * v.x + b.z * v.y + c.z * v.z)
  }

  /** Combining an orthonormal frame's vectors with weights `v` and projecting back onto the frame gives `v`. */
  lemma FrameInverse(a: Vec3, b: Vec3, c: Vec3, v: Vec3)
    requires a.Dot(a) == 1.0 && b.Dot(b) == 1.0 && c.Dot(c) == 1.0
    requires a.Dot(b) == 0.0 && a.Dot(c) == 0.0 && b.Dot(c) == 0.0
    ensures var r := FrameCombination(a, b, c, v); Vec3(r.Dot(a), r.Dot(b), r.Dot(c)) == v
  {
    DotSymmetric(a, b);
    DotSymmetric(a, c);
    DotSymmetric(b, c);
    DotCombination(a, b, c, a, v);
    DotCombination(a, b, c, b, v);
    DotCombination(a, b, c, c, v);
  }

  lemma DotSymmetric(a: Vec3, b: Vec3)
    ensures a.Dot(b) == b.Dot(a)
  {
  }

  lemma DotCombination(a: Vec3, b: Vec3, c: Vec3, d: Vec3, v: Vec3)
    ensures d.Dot(Vec3(a.x * v.x + b.x * v.y + c.x * v.z, a.y * v.x + b.y * v.y + c.y * v.z, a.z * v.x + b.z * v.y + c.z * v.z))
      == v.x * a.Dot(d) + v.y * b.Dot(d) + v.z * c.Dot(d)
  {
  }
}
