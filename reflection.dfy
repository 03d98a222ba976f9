// BxDFs in the local shading frame (z is the normal): their type flags, the
// hemisphere test, refraction, and the lobes the materials use. The maths
// the lobes call but this model does not define (square roots,
// normalisation, Fresnel terms, the microfacet distribution, hemisphere
// sampling, IEEE division by zero) are fields of a `Maths` parameter.
module Reflection {
  import opened Wrappers
  import opened Geom
  import opened Spectrum

  // ------------------------------------------------------------ type flags

  /** `BxDFType`, a `u8` of bitflags. */
  type BxDFType = bv8

  const BxReflection: BxDFType := 1
  const BxTransmission: BxDFType := 2
  const BxDiffuse: BxDFType := 4
  const BxGlossy: BxDFType := 8
  const BxSpecular: BxDFType := 16

  /** `t.contains(other)`: all of other's bits are set in t. */
  predicate Has(t: BxDFType, other: BxDFType) {
    t & other == other
  }

  /** `matches_flags(t)`: the lobe's type is contained in t. */
  predicate MatchesFlags(ty: BxDFType, t: BxDFType) {
    Has(t, ty)
  }

  /** A union of flags is contained exactly when each part is. */
  lemma HasUnion(t: BxDFType, a: BxDFType, b: BxDFType)
    ensures Has(t, a | b) <==> Has(t, a) && Has(t, b)
  {
  }

  // ------------------------------------------------------------ uninterpreted maths

  datatype TransportMode = Radiance | Importance

  /** The Fresnel terms the lobes carry (`fresnel.rs` is not part of this model). */
  datatype Fresnel =
    | FresnelDielectric(etaI: real, etaT: real)
    | FresnelConductor(condEtaI: Spectrum, condEtaT: Spectrum, k: Spectrum)
    | FresnelNoOp

  /** `TrowbridgeReitzDistribution::new(alpha_x, alpha_y)` */
  datatype Distribution = TrowbridgeReitz(alphaX: real, alphaY: real)

  /** Functions the lobes call whose definitions lie outside this model. */
  datatype Maths = Maths(
    sqrt: real -> real,
    normalize: Vec3 -> Vec3,
    faceforward: (Vec3, Vec3) -> Vec3,
    cosineSampleHemisphere: Vec2 -> Vec3,
    fresnel: (Fresnel, real) -> Spectrum,
    d: (Distribution, Vec3) -> real,
    g: (Distribution, Vec3, Vec3) -> real,
    distPdf: (Distribution, Vec3, Vec3) -> real,
    sampleWh: (Distribution, Vec3, Vec2) -> Vec3,
    divByZero: real -> real)

  /** `Float` division: exact when the divisor is non-zero, otherwise the IEEE infinity or NaN. */
  function Quot(m: Maths, x: real, y: real): (q: real)
    ensures y != 0.0 ==> q == x / y
  {
    if y != 0.0 then x / y else m.divByZero(x)
  }

  /** `s / k` on a spectrum. */
  function Divide(m: Maths, s: Spectrum, k: real): (r: Spectrum)
    ensures k != 0.0 ==> forall i :: 0 <= i < NSamples ==> r.c[i] == s.c[i] / k
  {
    Spectrum([Quot(m, s.c[0], k), Quot(m, s.c[1], k), Quot(m, s.c[2], k)])
  }

  /** `s * k` on a spectrum. */
  function ScaleBy(s: Spectrum, k: real): Spectrum {
    Pointwise(Times, s, New(k))
  }

  /** `Spectrum::uniform(0.0)` */
  function Zero(): Spectrum { New(0.0) }

  /** `std::f32::consts::FRAC_1_PI`, to `f32` precision. */
  const InvPi: real := 0.31830987

  // ------------------------------------------------------------ geometry helpers

  /** `is_sign_positive` on a real: there is no negative zero among the reals. */
  predicate SignPositive(z: real) { z >= 0.0 }

  /** `same_hemisphere`: only the signs of the two z components are compared. */
  predicate SameHemisphere(v1: Vec3, v2: Vec3) {
    SignPositive(v1.z) == SignPositive(v2.z)
  }

  /** Strictly same-signed z components share a hemisphere, strictly opposite ones do not. */
  lemma SameHemisphereSigns(v1: Vec3, v2: Vec3)
    ensures v1.z * v2.z > 0.0 ==> SameHemisphere(v1, v2)
    ensures v1.z * v2.z < 0.0 ==> !SameHemisphere(v1, v2)
    ensures SameHemisphere(v1, v2) == SameHemisphere(v2, v1)
  {
    if v1.z * v2.z > 0.0 {
      if v1.z < 0.0 && v2.z >= 0.0 { MulSign(v1.z, v2.z); }
      if v1.z >= 0.0 && v2.z < 0.0 { MulSign(v2.z, v1.z); }
    }
    if v1.z * v2.z < 0.0 {
      if v1.z >= 0.0 && v2.z >= 0.0 { MulNonNeg(v1.z, v2.z); }
      if v1.z < 0.0 && v2.z < 0.0 { MulNonNeg(-v1.z, -v2.z); }
    }
  }

  lemma MulSign(a: real, b: real)
    requires a < 0.0 && b >= 0.0
    ensures a * b <= 0.0
  {
    MulNonNeg(-a, b);
  }

  lemma MulNonNeg(a: real, b: real)
    requires a >= 0.0 && b >= 0.0
    ensures a * b >= 0.0
  {
  }

  /** `sin2_theta_i = max(0, 1 - cos_theta_i^2)` */
  function Sin2ThetaI(cosThetaI: real): real {
    Max(0.0, 1.0 - Square(cosThetaI))
  }

  /** `sin2_theta_t = eta^2 sin2_theta_i` (Snell's law, squared) */
  function Sin2ThetaT(wi: Vec3, n: Vec3, eta: real): real {
    Square(eta) * Sin2ThetaI(n.Dot(wi))
  }

  function Square(x: real): real { x * x }

  /** `refract`: `None` under total internal reflection, otherwise the transmitted direction. */
  function Refract(m: Maths, wi: Vec3, n: Vec3, eta: real): (r: Option<Vec3>)
    ensures r.None? <==> Sin2ThetaT(wi, n, eta) >= 1.0
  {
    var cosThetaI := n.Dot(wi);
    var sin2ThetaT := Sin2ThetaT(wi, n, eta);
    if sin2ThetaT >= 1.0 then None
    else
      var cosThetaT := m.sqrt(1.0 - sin2ThetaT);
      Some(wi.Neg().Scale(eta).Add(n.Scale(eta * cosThetaI - cosThetaT)))
  }

  /** With a relative index below one (into a denser medium), or at normal incidence, there is no total internal reflection. */
  lemma RefractNoTIR(m: Maths, wi: Vec3, n: Vec3, eta: real)
    ensures Square(eta) < 1.0 ==> Refract(m, wi, n, eta).Some?
    ensures Square(n.Dot(wi)) == 1.0 ==> Refract(m, wi, n, eta).Some?
  {
    var s := Sin2ThetaI(n.Dot(wi));
    assert 0.0 <= s <= 1.0 by {
      SquareNonNeg(n.Dot(wi));
    }
    if Square(eta) < 1.0 {
      var eta2 := Square(eta);
      SquareNonNeg(eta);
      BelowOne(eta2, s);
      assert eta2 * s < 1.0;
      assert Sin2ThetaT(wi, n, eta) == eta2 * s;
    }
  }

  lemma SquareNonNeg(x: real)
    ensures Square(x) >= 0.0
  {
    if x < 0.0 { MulNonNeg(-x, -x); } else { MulNonNeg(x, x); }
  }

  lemma BelowOne(a: real, s: real)
    requires 0.0 <= a < 1.0 && 0.0 <= s <= 1.0
    ensures a * s < 1.0
  {
    if s == 1.0 {
      assert a * s == a;
    } else {
      MulNonNeg(1.0 - a, s);
      assert (1.0 - a) * s == s - a * s;
      assert a * s <= s;
    }
  }

  /**
   * `reflect(wo, n) = -wo + 2 (wo . n) n`: about a unit normal the component
   * along n is kept; about the local normal x and y are negated and z kept.
   */
  function Reflect(wo: Vec3, n: Vec3): (r: Vec3)
    ensures n.Dot(n) == 1.0 ==> r.Dot(n) == wo.Dot(n)
    ensures n == Vec3(0.0, 0.0, 1.0) ==> r == Vec3(-wo.x, -wo.y, wo.z)
  {
    var k := 2.0 * wo.Dot(n);
    assert wo.Neg().Add(n.Scale(k)).Dot(n) == k * n.Dot(n) - wo.Dot(n);
    wo.Neg().Add(n.Scale(k))
  }

  // ------------------------------------------------------------ the lobes

  /** The ScatterSample a `sample_f` returns. */
  datatype ScatterSample = ScatterSample(f: Spectrum, wi: Vec3, pdf: real, sampledType: BxDFType)

  /** The lobes the core materials build; `OrenNayar` is not part of this model. */
  datatype BxDF =
    | LambertianReflection(r: Spectrum)
    | SpecularReflection(r: Spectrum, fresnel: Fresnel)
    | SpecularTransmission(t: Spectrum, etaA: real, etaB: real, mode: TransportMode)
    | MicrofacetReflection(r: Spectrum, distribution: Distribution, fresnel: Fresnel)
    | MicrofacetTransmission(t: Spectrum, distribution: Distribution, etaA: real, etaB: real, mode: TransportMode)

  /**
   * `get_type`: every lobe is either reflective or transmissive, never both,
   * and specular exactly for the two specular lobes.
   */
  function GetType(b: BxDF): (r: BxDFType)
    ensures Has(r, BxReflection) != Has(r, BxTransmission)
    ensures Has(r, BxSpecular) <==> b.SpecularReflection? || b.SpecularTransmission?
    ensures Has(r, BxReflection) <==> b.LambertianReflection? || b.SpecularReflection? || b.MicrofacetReflection?
  {
    match b
    case LambertianReflection(_) => BxReflection | BxDiffuse
    case SpecularReflection(_, _) => BxReflection | BxSpecular
    case SpecularTransmission(_, _, _, _) => BxTransmission | BxSpecular
    case MicrofacetReflection(_, _, _) => BxReflection | BxGlossy
    case MicrofacetTransmission(_, _, _, _, _) => BxTransmission | BxGlossy
  }

  /** A lobe matches a filter exactly when the filter holds both its side (R or T) and its kind (D, G or S). */
  lemma MatchesFlagsIffParts(b: BxDF, t: BxDFType)
    ensures var side := if b.LambertianReflection? || b.SpecularReflection? || b.MicrofacetReflection? then BxReflection else BxTransmission;
      var kind := if b.LambertianReflection? then BxDiffuse else if b.SpecularReflection? || b.SpecularTransmission? then BxSpecular else BxGlossy;
      MatchesFlags(GetType(b), t) <==> Has(t, side) && Has(t, kind)
  {
    match b
    case LambertianReflection(_) => HasUnion(t, BxReflection, BxDiffuse);
    case SpecularReflection(_, _) => HasUnion(t, BxReflection, BxSpecular);
    case SpecularTransmission(_, _, _, _) => HasUnion(t, BxTransmission, BxSpecular);
    case MicrofacetReflection(_, _, _) => HasUnion(t, BxReflection, BxGlossy);
    case MicrofacetTransmission(_, _, _, _, _) => HasUnion(t, BxTransmission, BxGlossy);
  }

  /**
   * `MicrofacetTransmission::get_eta`: the index on the far side over the
   * index on wo's side (above the surface is A when z > 0).
   */
  function GetEta(m: Maths, etaA: real, etaB: real, wo: Vec3): (r: real)
    ensures wo.z > 0.0 && etaA != 0.0 ==> r * etaA == etaB
    ensures wo.z <= 0.0 && etaB != 0.0 ==> r * etaB == etaA
  {
    if wo.z > 0.0 then Quot(m, etaB, etaA) else Quot(m, etaA, etaB)
  }

  /** `f(wo, wi)`: zero for the delta lobes, and for transmission when wo and wi share a side. */
  function F(m: Maths, b: BxDF, wo: Vec3, wi: Vec3): (r: Spectrum)
    ensures b.SpecularReflection? || b.SpecularTransmission? ==> r == Zero()
    ensures b.MicrofacetTransmission? && SameHemisphere(wo, wi) ==> r == Zero()
  {
    match b
    case LambertianReflection(r) => ScaleBy(r, InvPi)
    case SpecularReflection(_, _) => Zero()
    case SpecularTransmission(_, _, _, _) => Zero()
    case MicrofacetReflection(r, dist, fr) =>
      var cosThetaO, cosThetaI, wh := Abs(wo.z), Abs(wi.z), wi.Add(wo);
      if cosThetaI == 0.0 || cosThetaO == 0.0 || wh == Vec3(0.0, 0.0, 0.0) then Zero()
      else
        var h := m.normalize(wh);
        var f := m.fresnel(fr, wi.Dot(m.faceforward(h, Vec3(0.0, 0.0, 1.0))));
        Divide(m, Pointwise(Times, ScaleBy(r, m.d(dist, h) * m.g(dist, wo, wi)), f), 4.0 * cosThetaI * cosThetaO)
    case MicrofacetTransmission(t, dist, etaA, etaB, mode) =>
      if SameHemisphere(wo, wi) then Zero()
      else
        var cosThetaO, cosThetaI := wo.z, wi.z;
        if cosThetaO == 0.0 || cosThetaI == 0.0 then Zero()
        else
          var eta := GetEta(m, etaA, etaB, wo);
          var h0 := m.normalize(wo.Add(wi.Scale(eta)));
          var h := if h0.z < 0.0 then h0.Neg() else h0;
          var f := m.fresnel(FresnelDielectric(etaA, etaB), wo.Dot(h));
          var sqrtDenom := wo.Dot(h) + eta * wi.Dot(h);
          var factor := if mode == Radiance then Quot(m, 1.0, eta) else 1.0;
          ScaleBy(Pointwise(Times, Pointwise(Minus, New(1.0), f), t),
            Abs(Quot(m, m.d(dist, h) * m.g(dist, wo, wi) * (eta * eta) * Abs(wi.Dot(h)) * Abs(wo.Dot(h)) * (factor * factor),
                     cosThetaI * cosThetaO * (sqrtDenom * sqrtDenom))))
  }

  /**
   * `pdf(wo, wi)`: zero for the delta lobes, zero for the reflection lobes
   * across the surface and for transmission on the same side.
   */
  function Pdf(m: Maths, b: BxDF, wo: Vec3, wi: Vec3): (r: real)
    ensures b.SpecularReflection? || b.SpecularTransmission? ==> r == 0.0
    ensures (b.LambertianReflection? || b.MicrofacetReflection?) && !SameHemisphere(wo, wi) ==> r == 0.0
    ensures b.MicrofacetTransmission? && SameHemisphere(wo, wi) ==> r == 0.0
  {
    match b
    case LambertianReflection(_) => if SameHemisphere(wo, wi) then Abs(wi.z) * InvPi else 0.0
    case SpecularReflection(_, _) => 0.0
    case SpecularTransmission(_, _, _, _) => 0.0
    case MicrofacetReflection(_, dist, _) =>
      if !SameHemisphere(wo, wi) then 0.0
      else
        var h := m.normalize(wo.Add(wi));
        Quot(m, m.distPdf(dist, wo, h), 4.0 * wo.Dot(h))
    case MicrofacetTransmission(_, dist, etaA, etaB, _) =>
      if SameHemisphere(wo, wi) then 0.0
      else
        var eta := GetEta(m, etaA, etaB, wo);
        var h := m.normalize(wo.Add(wi.Scale(eta)));
        var sqrtDenom := wo.Dot(h) + eta * wi.Dot(h);
        m.distPdf(dist, wo, h) * Abs(Quot(m, eta * eta * wi.Dot(h), sqrtDenom * sqrtDenom))
  }

  /**
   * The default (cosine-weighted) `sample_f`: the hemisphere sample keeps x
   * and y and has z moved to wo's side; it reports the lobe's own `f`, `pdf`
   * and type, and a sample strictly above the surface ends in wo's
   * hemisphere.
   */
  function CosineSampleF(m: Maths, b: BxDF, wo: Vec3, u: Vec2): (s: ScatterSample)
    ensures var w := m.cosineSampleHemisphere(u);
      s.wi.x == w.x && s.wi.y == w.y && s.wi.z == (if wo.z < 0.0 then -w.z else w.z)
    ensures s.f == F(m, b, wo, s.wi) && s.pdf == Pdf(m, b, wo, s.wi) && s.sampledType == GetType(b)
    ensures m.cosineSampleHemisphere(u).z > 0.0 ==> SameHemisphere(wo, s.wi)
  {
    var w := m.cosineSampleHemisphere(u);
    var wi := if wo.z < 0.0 then Vec3(w.x, w.y, w.z * -1.0) else w;
    ScatterSample(F(m, b, wo, wi), wi, Pdf(m, b, wo, wi), GetType(b))
  }

  /** `sample_f(wo, sample)`: every sample carries the lobe's own type. */
  function SampleF(m: Maths, b: BxDF, wo: Vec3, u: Vec2): (r: Option<ScatterSample>)
    ensures r.Some? ==> r.value.sampledType == GetType(b)
  {
    match b
    case LambertianReflection(_) => Some(CosineSampleF(m, b, wo, u))
    case SpecularReflection(r, fr) =>
      var wi := Vec3(-wo.x, -wo.y, wo.z);
      Some(ScatterSample(Divide(m, Pointwise(Times, m.fresnel(fr, wi.z), r), Abs(wi.z)), wi, 1.0, GetType(b)))
    case SpecularTransmission(t, etaA, etaB, _) =>
      var entering := wo.z > 0.0;
      var etaI := if entering then etaA else etaB;
      var etaT := if entering then etaB else etaA;
      var r := Refract(m, wo, m.faceforward(Vec3(0.0, 0.0, 1.0), wo), Quot(m, etaI, etaT));
      if r.None? then None
      else
        var wi := r.value;
        var ft := Pointwise(Times, t, Pointwise(Minus, New(1.0), m.fresnel(FresnelDielectric(etaA, etaB), wi.z)));
        Some(ScatterSample(Divide(m, ft, Abs(wi.z)), wi, 1.0, GetType(b)))
    case MicrofacetReflection(_, dist, _) =>
      var wh := m.sampleWh(dist, wo, u);
      var wi := Reflect(wo, wh);
      if !SameHemisphere(wo, wi) then None
      else Some(ScatterSample(F(m, b, wo, wi), wi, Quot(m, m.distPdf(dist, wo, wh), 4.0 * wo.Dot(wh)), GetType(b)))
    case MicrofacetTransmission(_, dist, etaA, etaB, _) =>
      if wo.z == 0.0 then None
      else
        var wh := m.sampleWh(dist, wo, u);
        if wo.Dot(wh) < 0.0 then None
        else
          var r := Refract(m, wo, wh, GetEta(m, etaA, etaB, wo.Neg()));
          if r.None? then None
          else Some(ScatterSample(F(m, b, wo, r.value), r.value, Pdf(m, b, wo, r.value), GetType(b)))
  }

  // ------------------------------------------------------------ what the lobes promise

  /** The default `pdf` is `|cos theta_i| / pi` on wo's side and zero on the other. */
  lemma CosinePdf(m: Maths, r: Spectrum, wo: Vec3, wi: Vec3)
    ensures SameHemisphere(wo, wi) ==> Pdf(m, LambertianReflection(r), wo, wi) == Abs(wi.z) * InvPi
    ensures !SameHemisphere(wo, wi) ==> Pdf(m, LambertianReflection(r), wo, wi) == 0.0
    ensures Pdf(m, LambertianReflection(r), wo, wi) >= 0.0
  {
  }

  /** Lambertian `f` is `r / pi` for every pair of directions. */
  lemma LambertianConstant(m: Maths, r: Spectrum, wo: Vec3, wi: Vec3, wo': Vec3, wi': Vec3)
    ensures F(m, LambertianReflection(r), wo, wi) == F(m, LambertianReflection(r), wo', wi')
    ensures forall i :: 0 <= i < NSamples ==> F(m, LambertianReflection(r), wo, wi).c[i] == r.c[i] * InvPi
    ensures GetType(LambertianReflection(r)) == BxReflection | BxDiffuse
  {
  }

  /** Specular reflection: `f` and `pdf` vanish, and `sample_f` mirrors wo about the normal with pdf 1. */
  lemma SpecularReflectionDelta(m: Maths, r: Spectrum, fr: Fresnel, wo: Vec3, wi: Vec3, u: Vec2)
    ensures F(m, SpecularReflection(r, fr), wo, wi) == Zero() && Pdf(m, SpecularReflection(r, fr), wo, wi) == 0.0
    ensures SampleF(m, SpecularReflection(r, fr), wo, u).Some?
    ensures SampleF(m, SpecularReflection(r, fr), wo, u).value.wi == Reflect(wo, Vec3(0.0, 0.0, 1.0))
    ensures SampleF(m, SpecularReflection(r, fr), wo, u).value.pdf == 1.0
  {
  }

  /** Specular transmission: `f` and `pdf` vanish; `sample_f` fails exactly under total internal reflection. */
  lemma SpecularTransmissionDelta(m: Maths, t: Spectrum, etaA: real, etaB: real, mode: TransportMode, wo: Vec3, wi: Vec3, u: Vec2)
    ensures F(m, SpecularTransmission(t, etaA, etaB, mode), wo, wi) == Zero()
    ensures Pdf(m, SpecularTransmission(t, etaA, etaB, mode), wo, wi) == 0.0
    ensures var etaI, etaT := (if wo.z > 0.0 then etaA else etaB), (if wo.z > 0.0 then etaB else etaA);
      SampleF(m, SpecularTransmission(t, etaA, etaB, mode), wo, u).None? <==>
      Refract(m, wo, m.faceforward(Vec3(0.0, 0.0, 1.0), wo), Quot(m, etaI, etaT)).None?
  {
  }

  /** Microfacet reflection's degenerate cases. */
  lemma MicrofacetReflectionGuards(m: Maths, r: Spectrum, dist: Distribution, fr: Fresnel, wo: Vec3, wi: Vec3, u: Vec2)
    ensures wi.z == 0.0 || wo.z == 0.0 || wi.Add(wo) == Vec3(0.0, 0.0, 0.0) ==>
      F(m, MicrofacetReflection(r, dist, fr), wo, wi) == Zero()
    ensures SampleF(m, MicrofacetReflection(r, dist, fr), wo, u).None? <==>
      !SameHemisphere(wo, Reflect(wo, m.sampleWh(dist, wo, u)))
    ensures !SameHemisphere(wo, wi) ==> Pdf(m, MicrofacetReflection(r, dist, fr), wo, wi) == 0.0
  {
  }

  /** Microfacet transmission's degenerate cases. */
  lemma MicrofacetTransmissionGuards(m: Maths, t: Spectrum, dist: Distribution, etaA: real, etaB: real, mode: TransportMode,
                                     wo: Vec3, wi: Vec3, u: Vec2)
    ensures SameHemisphere(wo, wi) ==>
      F(m, MicrofacetTransmission(t, dist, etaA, etaB, mode), wo, wi) == Zero() &&
      Pdf(m, MicrofacetTransmission(t, dist, etaA, etaB, mode), wo, wi) == 0.0
    ensures wo.z == 0.0 || wo.Dot(m.sampleWh(dist, wo, u)) < 0.0 ==>
      SampleF(m, MicrofacetTransmission(t, dist, etaA, etaB, mode), wo, u).None?
    ensures var s := SampleF(m, MicrofacetTransmission(t, dist, etaA, etaB, mode), wo, u);
      s.Some? ==> (s.value.f == F(m, MicrofacetTransmission(t, dist, etaA, etaB, mode), wo, s.value.wi) &&
                   s.value.pdf == Pdf(m, MicrofacetTransmission(t, dist, etaA, etaB, mode), wo, s.value.wi))
  {
  }
}
