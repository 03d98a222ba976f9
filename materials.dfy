// Materials: each evaluates its textures at the hit point and assembles the
// lobes of a fresh BSDF. Textures are functions of the hit point; the hit
// point carries only the three vectors the BSDF frame is built from.
module Materials {
  import opened Wrappers
  import opened Geom
  import opened Spectrum
  import opened Reflection
  import opened Bsdf

  /** The parts of `SurfaceInteraction` that the materials read. */
  datatype SurfacePoint = SurfacePoint(shadingN: Vec3, geomN: Vec3, dpdu: Vec3)

  type SpectrumTexture = SurfacePoint -> Spectrum
  type FloatTexture = SurfacePoint -> real

  /** `ConstantTexture(v)` */
  function Constant<T>(v: T): SurfacePoint -> T {
    p => v
  }

  /** The maths the materials call: `roughness_to_alpha` and vector normalisation. */
  datatype MaterialMaths = MaterialMaths(roughnessToAlpha: real -> real, normalize: Vec3 -> Vec3)

  /** `Bsdf::new(si, eta)` */
  method NewBsdf(mm: MaterialMaths, si: SurfacePoint, eta: real) returns (b: Bsdf)
    ensures fresh(b) && b.eta == eta && b.bxdfs == []
  {
    b := new Bsdf(eta, si.shadingN, si.geomN, si.dpdu, mm.normalize);
  }

  // ------------------------------------------------------------ glass

  datatype GlassMaterial = GlassMaterial(
    reflectance: SpectrumTexture,
    transmittance: SpectrumTexture,
    uRoughness: FloatTexture,
    vRoughness: FloatTexture,
    eta: FloatTexture,
    remapRoughness: bool)

  /** `GlassMaterial::constant(kr, kt, eta)` */
  function ConstantGlass(kr: Spectrum, kt: Spectrum, eta: real): GlassMaterial {
    GlassMaterial(Constant(kr), Constant(kt), Constant(0.0), Constant(0.0), Constant(eta), false)
  }

  /** The two roughness values, remapped to alphas only when the material asks for it. */
  function GlassRoughness(mm: MaterialMaths, mat: GlassMaterial, si: SurfacePoint): (r: (real, real))
    ensures mat.remapRoughness ==> r == (mm.roughnessToAlpha(mat.uRoughness(si)), mm.roughnessToAlpha(mat.vRoughness(si)))
    ensures !mat.remapRoughness ==> r == (mat.uRoughness(si), mat.vRoughness(si))
  {
    var u, v := mat.uRoughness(si), mat.vRoughness(si);
    if mat.remapRoughness then (mm.roughnessToAlpha(u), mm.roughnessToAlpha(v)) else (u, v)
  }

  /** `is_specular`: both roughness values are exactly zero. */
  predicate GlassIsSpecular(mm: MaterialMaths, mat: GlassMaterial, si: SurfacePoint) {
    GlassRoughness(mm, mat, si).0 == 0.0 && GlassRoughness(mm, mat, si).1 == 0.0
  }

  /** Constant glass has zero roughness, no remap, and so is specular everywhere. */
  lemma ConstantGlassIsSpecular(mm: MaterialMaths, kr: Spectrum, kt: Spectrum, eta: real, si: SurfacePoint)
    ensures GlassRoughness(mm, ConstantGlass(kr, kt, eta), si) == (0.0, 0.0)
    ensures GlassIsSpecular(mm, ConstantGlass(kr, kt, eta), si)
    ensures ConstantGlass(kr, kt, eta).eta(si) == eta
  {
  }

  /** The reflection lobe glass adds for a non-black `r`. */
  function GlassReflection(mm: MaterialMaths, mat: GlassMaterial, si: SurfacePoint, r: Spectrum): BxDF {
    var rough := GlassRoughness(mm, mat, si);
    var fresnel := FresnelDielectric(1.0, mat.eta(si));
    if GlassIsSpecular(mm, mat, si) then SpecularReflection(r, fresnel)
    else MicrofacetReflection(r, TrowbridgeReitz(rough.0, rough.1), fresnel)
  }

  /** The transmission lobe glass adds for a non-black `t`. */
  function GlassTransmission(mm: MaterialMaths, mat: GlassMaterial, si: SurfacePoint, t: Spectrum, mode: TransportMode): BxDF {
    var rough := GlassRoughness(mm, mat, si);
    if GlassIsSpecular(mm, mat, si) then SpecularTransmission(t, 1.0, mat.eta(si), mode)
    else MicrofacetTransmission(t, TrowbridgeReitz(rough.0, rough.1), 1.0, mat.eta(si), mode)
  }

  /** Glass lobes are specular exactly when the material is, the reflection lobe reflects and the transmission lobe transmits. */
  lemma GlassLobeTypes(mm: MaterialMaths, mat: GlassMaterial, si: SurfacePoint, r: Spectrum, t: Spectrum, mode: TransportMode)
    ensures Has(GetType(GlassReflection(mm, mat, si, r)), BxReflection)
    ensures Has(GetType(GlassTransmission(mm, mat, si, t, mode)), BxTransmission)
    ensures Has(GetType(GlassReflection(mm, mat, si, r)), BxSpecular) <==> GlassIsSpecular(mm, mat, si)
    ensures Has(GetType(GlassTransmission(mm, mat, si, t, mode)), BxSpecular) <==> GlassIsSpecular(mm, mat, si)
  {
  }

  /**
   * `GlassMaterial::compute_scattering_functions`. `None` stands for the
   * `todo!` panic of specular glass asked for multiple lobes.
   */
  method ComputeGlass(mm: MaterialMaths, mat: GlassMaterial, si: SurfacePoint, mode: TransportMode, allowMultipleLobes: bool)
    returns (res: Option<Bsdf>)
    ensures res.None? <==> GlassIsSpecular(mm, mat, si) && allowMultipleLobes
    ensures res.Some? ==> fresh(res.value) && res.value.eta == mat.eta(si)
    ensures res.Some? ==>
      var r, t := ClampPositive(mat.reflectance(si)), ClampPositive(mat.transmittance(si));
      res.value.bxdfs ==
        (if IsBlack(r) then [] else [GlassReflection(mm, mat, si, r)]) +
        (if IsBlack(t) then [] else [GlassTransmission(mm, mat, si, t, mode)])
  {
    var eta := mat.eta(si);
    var r := ClampPositive(mat.reflectance(si));
    var t := ClampPositive(mat.transmittance(si));
    var bsdf := NewBsdf(mm, si, eta);
    var isSpecular := GlassIsSpecular(mm, mat, si);
    if isSpecular && allowMultipleLobes {
      return None;
    }
    if !IsBlack(r) {
      bsdf.Add(GlassReflection(mm, mat, si, r));
    }
    if !IsBlack(t) {
      bsdf.Add(GlassTransmission(mm, mat, si, t, mode));
    }
    res := Some(bsdf);
  }

  // ------------------------------------------------------------ plastic

  datatype PlasticMaterial = PlasticMaterial(kd: SpectrumTexture, ks: SpectrumTexture, roughness: FloatTexture, remapRoughness: bool)

  /** The glossy lobe of plastic: isotropic Trowbridge-Reitz with a dielectric Fresnel term from 1.5 to 1.0. */
  function PlasticSpecular(mm: MaterialMaths, mat: PlasticMaterial, si: SurfacePoint, ks: Spectrum): (b: BxDF)
    ensures b.MicrofacetReflection? && b.r == ks && b.fresnel == FresnelDielectric(1.5, 1.0)
    ensures b.distribution.alphaX == b.distribution.alphaY
    ensures b.distribution.alphaX == if mat.remapRoughness then mm.roughnessToAlpha(mat.roughness(si)) else mat.roughness(si)
  {
    var rough := if mat.remapRoughness then mm.roughnessToAlpha(mat.roughness(si)) else mat.roughness(si);
    MicrofacetReflection(ks, TrowbridgeReitz(rough, rough), FresnelDielectric(1.5, 1.0))
  }

  /** `PlasticMaterial::compute_scattering_functions` */
  method ComputePlastic(mm: MaterialMaths, mat: PlasticMaterial, si: SurfacePoint, mode: TransportMode, allowMultipleLobes: bool)
    returns (bsdf: Bsdf)
    ensures fresh(bsdf) && bsdf.eta == 1.0
    ensures var kd, ks := mat.kd(si), mat.ks(si);
      bsdf.bxdfs ==
        (if IsBlack(kd) then [] else [LambertianReflection(kd)]) +
        (if IsBlack(ks) then [] else [PlasticSpecular(mm, mat, si, ks)])
  {
    bsdf := NewBsdf(mm, si, 1.0);
    var kd := mat.kd(si);
    if !IsBlack(kd) {
      bsdf.Add(LambertianReflection(kd));
    }
    var ks := mat.ks(si);
    if !IsBlack(ks) {
      bsdf.Add(PlasticSpecular(mm, mat, si, ks));
    }
  }

  // ------------------------------------------------------------ metal

  datatype RoughnessTex =
    | Anisotropic(uRough: FloatTexture, vRough: FloatTexture)
    | Isotropic(rough: FloatTexture)

  datatype MetalMaterial = MetalMaterial(eta: SpectrumTexture, k: SpectrumTexture, roughness: RoughnessTex, remapRoughness: bool)

  /** The metal's (u, v) roughness: one texture serves both axes when isotropic; the remap applies to both or neither. */
  function MetalRoughness(mm: MaterialMaths, mat: MetalMaterial, si: SurfacePoint): (r: (real, real))
    ensures mat.roughness.Isotropic? ==> r.0 == r.1
    ensures var raw := if mat.roughness.Isotropic? then (mat.roughness.rough(si), mat.roughness.rough(si))
                       else (mat.roughness.uRough(si), mat.roughness.vRough(si));
      r == if mat.remapRoughness then (mm.roughnessToAlpha(raw.0), mm.roughnessToAlpha(raw.1)) else raw
  {
    var (u, v) := match mat.roughness
      case Anisotropic(uRough, vRough) => (uRough(si), vRough(si))
      case Isotropic(rough) => var r := rough(si); (r, r);
    if mat.remapRoughness then (mm.roughnessToAlpha(u), mm.roughnessToAlpha(v)) else (u, v)
  }

  /** The single lobe of a metal: white reflectance and a conductor Fresnel term from vacuum. */
  function MetalLobe(mm: MaterialMaths, mat: MetalMaterial, si: SurfacePoint): (b: BxDF)
    ensures b.MicrofacetReflection? && b.r == New(1.0)
    ensures b.fresnel == FresnelConductor(New(1.0), mat.eta(si), mat.k(si))
    ensures b.distribution == TrowbridgeReitz(MetalRoughness(mm, mat, si).0, MetalRoughness(mm, mat, si).1)
  {
    var rough := MetalRoughness(mm, mat, si);
    MicrofacetReflection(New(1.0), TrowbridgeReitz(rough.0, rough.1), FresnelConductor(New(1.0), mat.eta(si), mat.k(si)))
  }

  /** `MetalMaterial::compute_scattering_functions`: always exactly one lobe. */
  method ComputeMetal(mm: MaterialMaths, mat: MetalMaterial, si: SurfacePoint, mode: TransportMode, allowMultipleLobes: bool)
    returns (bsdf: Bsdf)
    ensures fresh(bsdf) && bsdf.eta == 1.0
    ensures bsdf.bxdfs == [MetalLobe(mm, mat, si)]
  {
    var lobe := MetalLobe(mm, mat, si);
    bsdf := NewBsdf(mm, si, 1.0);
    bsdf.Add(lobe);
  }

  // ------------------------------------------------------------ mirror

  datatype MirrorMaterial = MirrorMaterial(reflectance: SpectrumTexture)

  /** `MirrorMaterial::compute_scattering_functions` */
  method ComputeMirror(mm: MaterialMaths, mat: MirrorMaterial, si: SurfacePoint, mode: TransportMode, allowMultipleLobes: bool)
    returns (bsdf: Bsdf)
    ensures fresh(bsdf) && bsdf.eta == 1.0
    ensures var r := ClampPositive(mat.reflectance(si));
      bsdf.bxdfs == if IsBlack(r) then [] else [SpecularReflection(r, FresnelNoOp)]
  {
    bsdf := NewBsdf(mm, si, 1.0);
    var r := ClampPositive(mat.reflectance(si));
    if !IsBlack(r) {
      bsdf.Add(SpecularReflection(r, FresnelNoOp));
    }
  }

  /** The two delta lobes, whose `f` and `pdf` vanish everywhere. */
  predicate IsSpecularLobe(b: BxDF) {
    b.SpecularReflection? || b.SpecularTransmission?
  }

  lemma {:induction false} ZeroSlotSum(ss: seq<Spectrum>, i: nat)
    requires i < NSamples
    requires forall j :: 0 <= j < |ss| ==> ss[j].c[i] == 0.0
    ensures SlotSum(ss, i) == 0.0
  {
    if |ss| > 0 {
      ZeroSlotSum(ss[..|ss| - 1], i);
    }
  }

  lemma {:induction false} ZeroPdfSum(d: Dispatch, lobes: seq<BxDF>, wo: Vec3, wi: Vec3)
    requires forall j :: 0 <= j < |lobes| ==> d.pdf(lobes[j], wo, wi) == 0.0
    ensures PdfSum(d, lobes, wo, wi) == 0.0
  {
    if lobes != [] {
      ZeroPdfSum(d, lobes[1..], wo, wi);
    }
  }

  /**
   * A BSDF whose lobes are all specular, such as a mirror's (one specular
   * reflection) or specular glass's, has zero `f` and zero `pdf` for every
   * pair of directions and every filter.
   */
  lemma SpecularOnlyBsdfIsDelta(m: Maths, b: Bsdf, woW: Vec3, wiW: Vec3, flags: BxDFType)
    requires forall i :: 0 <= i < |b.bxdfs| ==> IsSpecularLobe(b.bxdfs[i])
    ensures b.F(LobeDispatch(m), woW, wiW, flags) == New(0.0)
    ensures b.Pdf(LobeDispatch(m), woW, wiW, flags) == 0.0
  {
    SpecularOnlyPdf(m, b, woW, wiW, flags);
    SpecularOnlyF(m, b, woW, wiW, flags);
  }

  /** The `pdf` half: every matching lobe has zero density, so the average is zero. */
  lemma SpecularOnlyPdf(m: Maths, b: Bsdf, woW: Vec3, wiW: Vec3, flags: BxDFType)
    requires forall i :: 0 <= i < |b.bxdfs| ==> IsSpecularLobe(b.bxdfs[i])
    ensures b.Pdf(LobeDispatch(m), woW, wiW, flags) == 0.0
  {
    var d := LobeDispatch(m);
    var wo, wi := b.WorldToLocal(woW), b.WorldToLocal(wiW);
    var ms := Matching(b.bxdfs, flags);
    WhereMembers(b.bxdfs, x => MatchesFlags(GetType(x), flags));
    forall j | 0 <= j < |ms|
      ensures d.pdf(ms[j], wo, wi) == 0.0
    {
      assert ms[j] in ms;
    }
    ZeroPdfSum(d, ms, wo, wi);
  }

  /** The `f` half: every lobe on the chosen side has zero value in every slot. */
  lemma SpecularOnlyF(m: Maths, b: Bsdf, woW: Vec3, wiW: Vec3, flags: BxDFType)
    requires forall i :: 0 <= i < |b.bxdfs| ==> IsSpecularLobe(b.bxdfs[i])
    ensures b.F(LobeDispatch(m), woW, wiW, flags) == New(0.0)
  {
    var d := LobeDispatch(m);
    var wo, wi := b.WorldToLocal(woW), b.WorldToLocal(wiW);
    var reflect := b.Reflects(woW, wiW);
    var ms := Matching(b.bxdfs, flags);
    WhereMembers(b.bxdfs, x => MatchesFlags(GetType(x), flags));
    var sided := Sided(ms, reflect);
    WhereMembers(ms, x => (reflect && Has(GetType(x), BxReflection)) || (!reflect && Has(GetType(x), BxTransmission)));
    var vs := Values(d, sided, wo, wi);
    forall i | 0 <= i < NSamples
      ensures SlotSum(vs, i) == 0.0
    {
      forall j | 0 <= j < |vs|
        ensures vs[j].c[i] == 0.0
      {
        assert sided[j] in sided;
      }
      ZeroSlotSum(vs, i);
    }
    assert b.F(d, woW, wiW, flags).c == New(0.0).c;
  }
}
