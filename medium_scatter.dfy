/** The second kernel of GPUPathIntegrator::SampleMediumInteraction: at a real
    scattering event in a medium, one shadow ray for direct lighting and one
    indirect ray sampled from the Henyey-Greenstein phase function, with
    Russian roulette on the indirect ray. */
module MediumScatter {
  import opened Spectra
  import opened WorkItems

  /** pbrt's ShadowEpsilon: shadow rays stop just short of the light. */
  const SHADOW_EPSILON: real := 0.0001

  /** A light chosen by the light sampler, with the probability of choosing it. */
  datatype SampledLight = SampledLight(light: Option<Light>, pdf: real)

  /** A sampled point on a light: its radiance, direction, density and position. */
  datatype LightLiSample = LightLiSample(L: Spectrum, wi: Vec3, pdf: real, pLight: Vec3)

  /** A sampled phase-function direction, its value p and its density. */
  datatype PhaseFunctionSample = PhaseFunctionSample(p: real, wi: Vec3, pdf: real)

  /** The answers of the samplers this kernel calls for one item: the light
      sampler, the light's SampleLi (None when it returns no sample), the phase
      function's value and density toward the light sample, and the phase
      function's Sample_p (None when it returns no sample). */
  datatype ScatterSampling = ScatterSampling(
    sampledLight: Option<SampledLight>,
    ls: Option<LightLiSample>,
    phaseValue: real,
    phasePdf: real,
    phaseSample: Option<PhaseFunctionSample>)

  /** A shadow ray is traced when a light was chosen and its sample carries
      nonzero radiance. */
  predicate LightSampled(o: ScatterSampling) {
    o.sampledLight.Some? && o.sampledLight.value.light.Some? && o.ls.Some? && NonZero(o.ls.value.L)
  }

  /** The shadow ray work item for direct lighting, if any: there is one
      exactly when a light was sampled with nonzero radiance, and it leaves
      the scattering point in the item's medium for the item's pixel. */
  function DirectLighting(ms: MediumScatterWorkItem, o: ScatterSampling): (r: Option<ShadowRayWorkItem>)
    ensures r.Some? <==> LightSampled(o)
    ensures r.Some? ==> r.value.ray.o == ms.p && r.value.ray.medium == ms.medium
    ensures r.Some? ==> r.value.lambda == ms.lambda && r.value.pixelIndex == ms.pixelIndex
  {
    if LightSampled(o) then
      var light := o.sampledLight.value.light.value;
      var ls := o.ls.value;
      var beta := Scale(ms.beta, o.phaseValue);
      var lightPdf := ls.pdf * o.sampledLight.value.pdf;
      var phasePdf := if IsDeltaLight(light.lightType) then 0.0 else o.phasePdf;
      var ray := Ray(ms.p, ls.pLight.Minus(ms.p), 0.0, ms.medium);
      Some(ShadowRayWorkItem(ray, 1.0 - SHADOW_EPSILON, ms.lambda, Mul(beta, ls.L),
                             Scale(ms.pdfUni, phasePdf), Scale(ms.pdfUni, lightPdf), ms.pixelIndex))
    else
      None
  }

  /** Russian roulette's termination probability q for a path with the given
      throughput and uniform-path density, or None when roulette does not
      apply (the weighted throughput is already >= 1, or depth <= 1). */
  function RouletteQ(beta: Spectrum, pdfUni: Spectrum, etaScale: real, depth: nat): (q: Option<real>)
    ensures depth <= 1 ==> q.None?
    ensures q.Some? ==> q.value > 0.0
  {
    var rrBeta := DivScalar(Scale(beta, etaScale), Average(pdfUni));
    if MaxComponent(rrBeta) < 1.0 && depth > 1 then Some(MaxReal(0.0, 1.0 - MaxComponent(rrBeta)))
    else None
  }

  /** The probability that the path survives roulette: 1 - q when roulette
      applies, 1 otherwise. */
  function SurvivalProbability(q: Option<real>): real {
    if q.Some? then 1.0 - q.value else 1.0
  }

  /** The indirect ray work item, if the phase function gave a sample and the
      path survives Russian roulette with the uniform sample rr. Dividing the
      densities by 1 is exact, so the factor is applied also when roulette
      does not apply. */
  function IndirectRay(ms: MediumScatterWorkItem, o: ScatterSampling, rr: real, depth: nat): (r: Option<RayWorkItem>)
    ensures o.phaseSample.None? ==> r.None?
    ensures depth <= 1 && o.phaseSample.Some? ==> r.Some?
    ensures r.Some? ==> r.value.ray.o == ms.p && r.value.ray.d == o.phaseSample.value.wi
    ensures r.Some? ==> r.value.pixelIndex == ms.pixelIndex
  {
    match o.phaseSample
    case None => None
    case Some(ps) =>
      var q := RouletteQ(Scale(ms.beta, ps.p), Scale(ms.pdfUni, ps.pdf), ms.etaScale, depth);
      if q.Some? && rr < q.value then None
      else Some(IndirectItem(ms, ps, SurvivalProbability(q)))
  }

  /** The ray work item for the sampled direction ps, with densities weighted
      by the survival probability. */
  function IndirectItem(ms: MediumScatterWorkItem, ps: PhaseFunctionSample, survive: real): (r: RayWorkItem)
    ensures r.ray.o == ms.p && r.ray.d == ps.wi && r.ray.medium == ms.medium
    ensures !r.isSpecularBounce && r.anyNonSpecularBounces
    ensures forall i :: 0 <= i < 4 ==> r.beta[i] == ms.beta[i] * ps.p
  {
    RayWorkItem(Ray(ms.p, ps.wi, 0.0, ms.medium), PrevVertex(ms.p, ZERO_NORMAL, ZERO_NORMAL),
                Scale(ms.beta, ps.p), Scale(Scale(ms.pdfUni, ps.pdf), survive), Scale(ms.pdfUni, survive),
                ms.lambda, ms.etaScale, false, true, ms.pixelIndex)
  }

  // ---------------------------------------------------------------------
  // Direct lighting

  /** A shadow ray is pushed exactly when a light was sampled with nonzero
      radiance. It runs from the scattering point toward the light sample,
      stops at 1 - ShadowEpsilon of the segment, stays in the item's medium
      and pixel, and carries beta * p * L with the MIS densities: pdfUni times
      the phase density (zero for a delta light), pdfUni times the light
      density times the light-choice probability. */
  lemma DirectLightingSpec(ms: MediumScatterWorkItem, o: ScatterSampling)
    ensures DirectLighting(ms, o).Some? <==> LightSampled(o)
    ensures LightSampled(o) ==>
      var sr := DirectLighting(ms, o).value;
      var sl := o.sampledLight.value;
      var ls := o.ls.value;
      var phasePdf := if IsDeltaLight(sl.light.value.lightType) then 0.0 else o.phasePdf;
      && sr.ray.o == ms.p && sr.ray.d == ls.pLight.Minus(ms.p) && sr.ray.medium == ms.medium && sr.ray.time == 0.0
      && sr.tMax == 1.0 - SHADOW_EPSILON && 0.0 < sr.tMax < 1.0
      && sr.lambda == ms.lambda && sr.pixelIndex == ms.pixelIndex
      && (forall i :: 0 <= i < 4 ==> sr.Ld[i] == ms.beta[i] * o.phaseValue * ls.L[i])
      && (forall i :: 0 <= i < 4 ==> sr.pdfNEE[i] == ms.pdfUni[i] * (ls.pdf * sl.pdf))
      && (forall i :: 0 <= i < 4 ==> sr.pdfUni[i] == ms.pdfUni[i] * phasePdf)
  {
    if LightSampled(o) {
      var sr := DirectLighting(ms, o).value;
      var beta := Scale(ms.beta, o.phaseValue);
      assert sr.Ld == Mul(beta, o.ls.value.L);
      forall i | 0 <= i < 4 ensures sr.Ld[i] == ms.beta[i] * o.phaseValue * o.ls.value.L[i] {
        assert sr.Ld[i] == beta[i] * o.ls.value.L[i];
      }
    }
  }

  /** A delta light cannot be hit by phase-function sampling, so the shadow
      ray's uniform-path density is zero. */
  lemma DeltaLightZeroUniPdf(ms: MediumScatterWorkItem, o: ScatterSampling)
    requires LightSampled(o) && IsDeltaLight(o.sampledLight.value.light.value.lightType)
    ensures DirectLighting(ms, o).value.pdfUni == Const(0.0)
  {
    var sr := DirectLighting(ms, o).value;
    Ext(sr.pdfUni, Const(0.0));
  }

  /** Non-negative inputs give a shadow ray with non-negative radiance and densities. */
  lemma DirectLightingNonNegative(ms: MediumScatterWorkItem, o: ScatterSampling)
    requires LightSampled(o)
    requires NonNegative(ms.beta) && NonNegative(ms.pdfUni) && NonNegative(o.ls.value.L)
    requires o.phaseValue >= 0.0 && o.phasePdf >= 0.0 && o.ls.value.pdf >= 0.0 && o.sampledLight.value.pdf >= 0.0
    ensures var sr := DirectLighting(ms, o).value;
      NonNegative(sr.Ld) && NonNegative(sr.pdfUni) && NonNegative(sr.pdfNEE)
  {
    var sl := o.sampledLight.value;
    var ls := o.ls.value;
    ScaleNonNegative(ms.beta, o.phaseValue);
    MulNonNegative(Scale(ms.beta, o.phaseValue), ls.L);
    ScaleNonNegative(ms.pdfUni, if IsDeltaLight(sl.light.value.lightType) then 0.0 else o.phasePdf);
    assert ls.pdf * sl.pdf >= 0.0;
    ScaleNonNegative(ms.pdfUni, ls.pdf * sl.pdf);
  }

  // ---------------------------------------------------------------------
  // Russian roulette

  /** Roulette applies iff depth > 1 and the largest sample of
      beta * etaScale / avg(pdfUni) is below 1; then q = 1 - that value, so
      0 < q, and q <= 1 when the weighted throughput is non-negative. */
  lemma RouletteQSpec(beta: Spectrum, pdfUni: Spectrum, etaScale: real, depth: nat)
    ensures var rrBeta := DivScalar(Scale(beta, etaScale), Average(pdfUni));
      && (RouletteQ(beta, pdfUni, etaScale, depth).Some? <==> depth > 1 && MaxComponent(rrBeta) < 1.0)
      && (RouletteQ(beta, pdfUni, etaScale, depth).Some? ==>
            RouletteQ(beta, pdfUni, etaScale, depth).value == 1.0 - MaxComponent(rrBeta)
            && RouletteQ(beta, pdfUni, etaScale, depth).value > 0.0)
  {
  }

  /** With a non-negative throughput, etaScale and densities, q lies in (0, 1]. */
  lemma RouletteQInUnitInterval(beta: Spectrum, pdfUni: Spectrum, etaScale: real, depth: nat)
    requires NonNegative(beta) && NonNegative(pdfUni) && etaScale >= 0.0
    requires RouletteQ(beta, pdfUni, etaScale, depth).Some?
    ensures 0.0 < RouletteQ(beta, pdfUni, etaScale, depth).value <= 1.0
  {
    ScaleNonNegative(beta, etaScale);
    AverageNonNegative(pdfUni);
    var rrBeta := DivScalar(Scale(beta, etaScale), Average(pdfUni));
    DivScalarNonNegative(Scale(beta, etaScale), Average(pdfUni));
    assert rrBeta[0] >= 0.0;
  }

  // ---------------------------------------------------------------------
  // Indirect rays

  /** The indirect ray is dropped exactly when the phase function gave no
      sample or roulette applies and rr < q. */
  lemma IndirectRayDropped(ms: MediumScatterWorkItem, o: ScatterSampling, rr: real, depth: nat)
    ensures IndirectRay(ms, o, rr, depth).None? <==>
      (o.phaseSample.None? ||
       var ps := o.phaseSample.value;
       var q := RouletteQ(Scale(ms.beta, ps.p), Scale(ms.pdfUni, ps.pdf), ms.etaScale, depth);
       q.Some? && rr < q.value)
  {
  }

  /** A surviving indirect ray leaves the scattering point in the sampled
      direction within the item's medium; it is marked non-specular with a
      non-specular bounce on the path; its previous vertex is the scattering
      point with zero normals; it keeps the item's wavelengths, etaScale and
      pixel. */
  lemma IndirectRaySurvivor(ms: MediumScatterWorkItem, o: ScatterSampling, rr: real, depth: nat)
    requires IndirectRay(ms, o, rr, depth).Some?
    ensures o.phaseSample.Some?
    ensures var r := IndirectRay(ms, o, rr, depth).value;
      && r.ray.o == ms.p && r.ray.d == o.phaseSample.value.wi && r.ray.medium == ms.medium && r.ray.time == 0.0
      && r.prev == PrevVertex(ms.p, ZERO_NORMAL, ZERO_NORMAL)
      && !r.isSpecularBounce && r.anyNonSpecularBounces
      && r.lambda == ms.lambda && r.etaScale == ms.etaScale && r.pixelIndex == ms.pixelIndex
  {
  }

  /** A surviving indirect ray passed the roulette test (rr >= q when
      roulette applies) and carries its densities times the survival
      probability. */
  lemma IndirectRaySurvivorWeights(ms: MediumScatterWorkItem, o: ScatterSampling, rr: real, depth: nat, ps: PhaseFunctionSample)
    requires o.phaseSample == Some(ps)
    requires IndirectRay(ms, o, rr, depth).Some?
    ensures var q := RouletteQ(Scale(ms.beta, ps.p), Scale(ms.pdfUni, ps.pdf), ms.etaScale, depth);
      && (q.Some? ==> rr >= q.value)
      && IndirectRay(ms, o, rr, depth).value == IndirectItem(ms, ps, SurvivalProbability(q))
  {
  }

  /** The indirect item's throughput is beta * p; its densities are
      pdfUni * pdf (uniform path) and pdfUni (light sampling), both times the
      survival probability, so that beta / pdf is divided by the probability
      of reaching the next vertex. */
  lemma IndirectItemWeights(ms: MediumScatterWorkItem, ps: PhaseFunctionSample, survive: real)
    ensures var r := IndirectItem(ms, ps, survive);
      && (forall i :: 0 <= i < 4 ==> r.beta[i] == ms.beta[i] * ps.p)
      && (forall i :: 0 <= i < 4 ==> r.pdfUni[i] == ms.pdfUni[i] * ps.pdf * survive)
      && (forall i :: 0 <= i < 4 ==> r.pdfNEE[i] == ms.pdfUni[i] * survive)
  {
    var r := IndirectItem(ms, ps, survive);
    var pdfUni := Scale(ms.pdfUni, ps.pdf);
    forall i | 0 <= i < 4 ensures r.pdfUni[i] == ms.pdfUni[i] * ps.pdf * survive {
      assert r.pdfUni[i] == pdfUni[i] * survive;
    }
  }

  /** With a non-negative throughput, density and etaScale, and a phase
      sample with non-negative value and density, the indirect ray carries a
      non-negative throughput and non-negative densities. */
  lemma IndirectRayNonNegative(ms: MediumScatterWorkItem, o: ScatterSampling, rr: real, depth: nat)
    requires NonNegative(ms.beta) && NonNegative(ms.pdfUni) && ms.etaScale >= 0.0
    requires o.phaseSample.Some? && o.phaseSample.value.p >= 0.0 && o.phaseSample.value.pdf >= 0.0
    requires IndirectRay(ms, o, rr, depth).Some?
    ensures var r := IndirectRay(ms, o, rr, depth).value;
      NonNegative(r.beta) && NonNegative(r.pdfUni) && NonNegative(r.pdfNEE)
  {
    var ps := o.phaseSample.value;
    var beta, pdfUni := Scale(ms.beta, ps.p), Scale(ms.pdfUni, ps.pdf);
    ScaleNonNegative(ms.beta, ps.p);
    ScaleNonNegative(ms.pdfUni, ps.pdf);
    var q := RouletteQ(beta, pdfUni, ms.etaScale, depth);
    if q.Some? {
      RouletteQInUnitInterval(beta, pdfUni, ms.etaScale, depth);
    }
    var survive := SurvivalProbability(q);
    assert survive >= 0.0;
    ScaleNonNegative(pdfUni, survive);
    ScaleNonNegative(ms.pdfUni, survive);
    assert IndirectRay(ms, o, rr, depth).value == IndirectItem(ms, ps, survive);
  }

  /** At depth 0 and 1 Russian roulette never terminates a path: the indirect
      ray is pushed whenever the phase function gives a sample. */
  lemma NoRouletteAtShallowDepth(ms: MediumScatterWorkItem, o: ScatterSampling, rr: real, depth: nat)
    requires depth <= 1 && o.phaseSample.Some?
    ensures IndirectRay(ms, o, rr, depth).Some?
  {
  }

  /** A path whose weighted throughput is at least 1 in some sample is never
      terminated by roulette. */
  lemma BrightPathSurvives(ms: MediumScatterWorkItem, o: ScatterSampling, rr: real, depth: nat)
    requires o.phaseSample.Some?
    requires var ps := o.phaseSample.value;
      exists i :: 0 <= i < 4 && DivScalar(Scale(Scale(ms.beta, ps.p), ms.etaScale), Average(Scale(ms.pdfUni, ps.pdf)))[i] >= 1.0
    ensures IndirectRay(ms, o, rr, depth).Some?
  {
  }
}
