/** The per-event logic of GPUPathIntegrator::SampleMediumInteraction: the
    callback that SampleTmaj invokes once per sampled point along a ray
    segment, and the traversal that repeats it until the callback returns
    false. The sampled points themselves (SampleTmaj), the uniform number drawn
    for each and the discrete choice made from it (SampleDiscrete) are
    external: each MediumSample carries its majorant transmittance, its
    interaction if any, and the event mode that was chosen. */
module MediumEvents {
  import opened Spectra
  import opened WorkItems

  /** 0x1p24f: past this magnitude the three accumulators are rescaled. */
  const RESCALE_THRESHOLD: real := 16777216.0

  /** A sampled point inside the medium. */
  datatype MediumInteraction = MediumInteraction(
    p: Vec3, sigma_a: Spectrum, sigma_s: Spectrum, sigma_maj: Spectrum,
    Le: Spectrum, phase: HGPhaseFunction)

  /** One invocation of the callback: the majorant transmittance since the
      previous point, the interaction (None when the segment end was reached
      without one) and the event index SampleDiscrete returned. */
  datatype MediumSample = MediumSample(Tmaj: Spectrum, intr: Option<MediumInteraction>, mode: int)

  /** The throughput and the two MIS pdf accumulators of a path. */
  datatype PathState = PathState(beta: Spectrum, pdfUni: Spectrum, pdfNEE: Spectrum)

  /** The callback's captured locals: the path state, the emitted radiance L
      gathered so far, and the medium-scatter item pushed (if any). */
  datatype Walk = Walk(path: PathState, L: Spectrum, scatter: Option<MediumScatterWorkItem>)

  /** What one callback invocation leaves behind, and whether SampleTmaj
      should go on sampling. */
  datatype CallbackResult = CallbackResult(walk: Walk, proceed: bool)

  datatype EventProbabilities = EventProbabilities(pAbsorb: real, pScatter: real, pNull: real)

  /** The null-collision coefficient sigma_maj - sigma_a - sigma_s, clamped at 0. */
  function SigmaN(intr: MediumInteraction): (r: Spectrum)
    ensures NonNegative(r)
    ensures forall i :: 0 <= i < 4 ==>
      r[i] >= intr.sigma_maj[i] - intr.sigma_a[i] - intr.sigma_s[i]
    ensures forall i :: 0 <= i < 4 && intr.sigma_a[i] + intr.sigma_s[i] <= intr.sigma_maj[i] ==>
      r[i] == intr.sigma_maj[i] - intr.sigma_a[i] - intr.sigma_s[i]
    ensures forall i :: 0 <= i < 4 && intr.sigma_a[i] + intr.sigma_s[i] > intr.sigma_maj[i] ==> r[i] == 0.0
  {
    ClampZero(Sub(Sub(intr.sigma_maj, intr.sigma_a), intr.sigma_s))
  }

  /** Event probabilities, from the first wavelength sample only. */
  function Probabilities(intr: MediumInteraction): (r: EventProbabilities)
    requires intr.sigma_maj[0] != 0.0
    ensures r.pAbsorb * intr.sigma_maj[0] == intr.sigma_a[0]
    ensures r.pScatter * intr.sigma_maj[0] == intr.sigma_s[0]
    ensures r.pNull >= 0.0
    ensures r.pAbsorb + r.pScatter + r.pNull >= 1.0
    ensures r.pAbsorb + r.pScatter <= 1.0 ==> r.pAbsorb + r.pScatter + r.pNull == 1.0
    ensures r.pAbsorb + r.pScatter > 1.0 ==> r.pNull == 0.0
  {
    var pAbsorb := intr.sigma_a[0] / intr.sigma_maj[0];
    var pScatter := intr.sigma_s[0] / intr.sigma_maj[0];
    EventProbabilities(pAbsorb, pScatter, MaxReal(0.0, 1.0 - pAbsorb - pScatter))
  }

  /** The probabilities ignore every sample but the first. */
  lemma ProbabilitiesUseFirstSample(a: MediumInteraction, b: MediumInteraction)
    requires a.sigma_maj[0] != 0.0
    requires a.sigma_a[0] == b.sigma_a[0] && a.sigma_s[0] == b.sigma_s[0]
    requires a.sigma_maj[0] == b.sigma_maj[0]
    ensures Probabilities(a) == Probabilities(b)
  {
  }

  /** SampleDiscrete never returns the index of a zero-weight event. */
  predicate ModeConsistent(s: MediumSample) {
    s.intr.Some? ==>
      s.intr.value.sigma_maj[0] != 0.0 &&
      (s.mode == 0 ==> Probabilities(s.intr.value).pAbsorb > 0.0) &&
      (s.mode == 1 ==> Probabilities(s.intr.value).pScatter > 0.0)
  }

  /** No interaction: attenuate to the segment end. beta and pdfUni take the
      majorant transmittance, pdfNEE is left alone. */
  function AttenuateToEnd(p: PathState, Tmaj: Spectrum): (r: PathState)
    ensures forall i :: 0 <= i < 4 ==> r.beta[i] == p.beta[i] * Tmaj[i] && r.pdfUni[i] == p.pdfUni[i] * Tmaj[i]
    ensures r.pdfNEE == p.pdfNEE
  {
    PathState(Mul(p.beta, Tmaj), Mul(p.pdfUni, Tmaj), p.pdfNEE)
  }

  /** Absorption: the path carries nothing any more; the pdfs are kept. */
  function Absorb(p: PathState): (r: PathState)
    ensures forall i :: 0 <= i < 4 ==> r.beta[i] == 0.0
    ensures r.pdfUni == p.pdfUni && r.pdfNEE == p.pdfNEE
  {
    p.(beta := Const(0.0))
  }

  /** Real scattering: beta and pdfUni take Tmaj * sigma_s, pdfNEE is left alone. */
  function ScatterUpdate(p: PathState, Tmaj: Spectrum, sigma_s: Spectrum): (r: PathState)
    ensures forall i :: 0 <= i < 4 ==>
      r.beta[i] == p.beta[i] * (Tmaj[i] * sigma_s[i]) && r.pdfUni[i] == p.pdfUni[i] * (Tmaj[i] * sigma_s[i])
    ensures r.pdfNEE == p.pdfNEE
  {
    PathState(Mul(p.beta, Mul(Tmaj, sigma_s)), Mul(p.pdfUni, Mul(Tmaj, sigma_s)), p.pdfNEE)
  }

  /** A null collision (before the rescaling check): beta and pdfUni take
      Tmaj * sigma_n, pdfNEE takes Tmaj * sigma_maj. */
  function NullUpdate(p: PathState, Tmaj: Spectrum, intr: MediumInteraction): (r: PathState)
    ensures forall i :: 0 <= i < 4 ==> r.beta[i] == p.beta[i] * (Tmaj[i] * SigmaN(intr)[i])
    ensures forall i :: 0 <= i < 4 ==> r.pdfUni[i] == p.pdfUni[i] * (Tmaj[i] * SigmaN(intr)[i])
    ensures forall i :: 0 <= i < 4 ==> r.pdfNEE[i] == p.pdfNEE[i] * (Tmaj[i] * intr.sigma_maj[i])
  {
    var f := Mul(Tmaj, SigmaN(intr));
    var g := Mul(Tmaj, intr.sigma_maj);
    PathState(Mul(p.beta, f), Mul(p.pdfUni, f), Mul(p.pdfNEE, g))
  }

  function ScaleState(p: PathState, k: real): PathState {
    PathState(Scale(p.beta, k), Scale(p.pdfUni, k), Scale(p.pdfNEE, k))
  }

  predicate NeedsRescale(p: PathState) {
    MaxComponent(p.beta) > RESCALE_THRESHOLD ||
    MaxComponent(p.pdfUni) > RESCALE_THRESHOLD ||
    MaxComponent(p.pdfNEE) > RESCALE_THRESHOLD
  }

  predicate SampleExceeds(p: PathState, i: nat)
    requires i < 4
  {
    p.beta[i] > RESCALE_THRESHOLD || p.pdfUni[i] > RESCALE_THRESHOLD || p.pdfNEE[i] > RESCALE_THRESHOLD
  }

  /** The overflow guard applied after a null collision: when it fires, all
      three accumulators are divided by 2^24; otherwise nothing changes. */
  function Rescale(p: PathState): (r: PathState)
    ensures NeedsRescale(p) ==> forall i :: 0 <= i < 4 ==>
      && r.beta[i] * RESCALE_THRESHOLD == p.beta[i]
      && r.pdfUni[i] * RESCALE_THRESHOLD == p.pdfUni[i]
      && r.pdfNEE[i] * RESCALE_THRESHOLD == p.pdfNEE[i]
    ensures !NeedsRescale(p) ==> r == p
  {
    if NeedsRescale(p) then ScaleState(p, 1.0 / RESCALE_THRESHOLD) else p
  }

  /** Medium emission at a sampled point, beta * Le weighted by
      sigma_a / (sigma_maj[0] * avg(pdfUni)); a zero divisor gives no emission. */
  function MediumEmission(p: PathState, intr: MediumInteraction): (r: Spectrum)
    ensures var d := intr.sigma_maj[0] * Average(p.pdfUni);
      d != 0.0 ==> forall i :: 0 <= i < 4 ==> r[i] * d == (p.beta[i] * intr.Le[i]) * intr.sigma_a[i]
    ensures intr.sigma_maj[0] * Average(p.pdfUni) == 0.0 ==> r == Const(0.0)
  {
    var d := intr.sigma_maj[0] * Average(p.pdfUni);
    var e := Mul(Mul(p.beta, intr.Le), intr.sigma_a);
    assert forall i :: 0 <= i < 4 ==> e[i] == (p.beta[i] * intr.Le[i]) * intr.sigma_a[i];
    DivScalar(e, d)
  }

  /** The medium-scatter work item pushed by a scattering event: the
      interaction point and phase function, the path state after the event,
      wo = -ray.d, and the medium-sample item's identity. */
  function ScatterItem(ms: MediumSampleWorkItem, intr: MediumInteraction, p: PathState): (r: MediumScatterWorkItem)
    ensures r.p == intr.p && r.phase == intr.phase
    ensures r.beta == p.beta && r.pdfUni == p.pdfUni && r.wo == ms.ray.d.Neg()
    ensures r.rayIndex == ms.rayIndex && r.pixelIndex == ms.pixelIndex && r.lambda == ms.lambda
    ensures r.etaScale == ms.etaScale && r.medium == ms.ray.medium
  {
    MediumScatterWorkItem(intr.p, ms.lambda, p.beta, p.pdfUni, ms.rayIndex, intr.phase,
                          ms.ray.d.Neg(), ms.etaScale, ms.ray.medium, ms.pixelIndex)
  }

  /** The callback passed to SampleTmaj, for one sampled point. Only a null
      collision lets SampleTmaj go on; only a scattering event pushes a
      medium-scatter item, carrying the path state it leaves; emission is
      gathered only at an interaction below the maximum depth. */
  function Callback(ms: MediumSampleWorkItem, w: Walk, s: MediumSample, depth: nat, maxDepth: nat): (r: CallbackResult)
    ensures r.proceed <==> s.intr.Some? && s.mode != 0 && s.mode != 1
    ensures r.walk.scatter != w.scatter ==>
      s.intr.Some? && s.mode == 1 && r.walk.scatter == Some(ScatterItem(ms, s.intr.value, r.walk.path))
    ensures s.intr.None? || depth >= maxDepth ==> r.walk.L == w.L
  {
    match s.intr
    case None =>
      CallbackResult(w.(path := AttenuateToEnd(w.path, s.Tmaj)), false)
    case Some(intr) =>
      var L := if depth < maxDepth && NonZero(intr.Le) then Add(w.L, MediumEmission(w.path, intr)) else w.L;
      if s.mode == 0 then
        CallbackResult(Walk(Absorb(w.path), L, w.scatter), false)
      else if s.mode == 1 then
        var p := ScatterUpdate(w.path, s.Tmaj, intr.sigma_s);
        CallbackResult(Walk(p, L, Some(ScatterItem(ms, intr, p))), false)
      else
        CallbackResult(Walk(Rescale(NullUpdate(w.path, s.Tmaj, intr)), L, w.scatter), true)
  }

  /** SampleTmaj's loop: invoke the callback on each sample in turn and stop
      at the first one that returns false (or when the samples run out). */
  function Traverse(ms: MediumSampleWorkItem, w: Walk, samples: seq<MediumSample>, depth: nat, maxDepth: nat): (r: Walk)
    ensures depth >= maxDepth ==> r.L == w.L
    ensures r.scatter != w.scatter ==>
      r.scatter.Some? && r.scatter.value.beta == r.path.beta && r.scatter.value.pdfUni == r.path.pdfUni
    decreases |samples|
  {
    if samples == [] then w
    else
      var st := Callback(ms, w, samples[0], depth, maxDepth);
      if st.proceed then Traverse(ms, st.walk, samples[1..], depth, maxDepth) else st.walk
  }

  function InitialWalk(ms: MediumSampleWorkItem): Walk {
    Walk(PathState(ms.beta, ms.pdfUni, ms.pdfNEE), Const(0.0), None)
  }

  /** The whole free-flight sampling of one medium-sample work item. It
      starts from the item's path state with no emission and no scatter item;
      a scatter item, if pushed, carries the final beta and pdfUni. */
  function FreeFlight(ms: MediumSampleWorkItem, samples: seq<MediumSample>, depth: nat, maxDepth: nat): (r: Walk)
    ensures depth >= maxDepth ==> r.L == Const(0.0)
    ensures r.scatter.Some? ==> r.scatter.value.beta == r.path.beta && r.scatter.value.pdfUni == r.path.pdfUni
    ensures samples == [] ==> r.path == PathState(ms.beta, ms.pdfUni, ms.pdfNEE)
  {
    Traverse(ms, InitialWalk(ms), samples, depth, maxDepth)
  }

  // ---------------------------------------------------------------------
  // The four event kinds

  lemma NoInteractionEvent(ms: MediumSampleWorkItem, w: Walk, s: MediumSample, depth: nat, maxDepth: nat)
    requires s.intr.None?
    ensures var r := Callback(ms, w, s, depth, maxDepth);
      && (forall i :: 0 <= i < 4 ==> r.walk.path.beta[i] == w.path.beta[i] * s.Tmaj[i])
      && (forall i :: 0 <= i < 4 ==> r.walk.path.pdfUni[i] == w.path.pdfUni[i] * s.Tmaj[i])
      && r.walk.path.pdfNEE == w.path.pdfNEE
      && r.walk.L == w.L && r.walk.scatter == w.scatter
      && !r.proceed
  {
  }

  lemma AbsorptionEvent(ms: MediumSampleWorkItem, w: Walk, s: MediumSample, depth: nat, maxDepth: nat)
    requires s.intr.Some? && s.mode == 0
    ensures var r := Callback(ms, w, s, depth, maxDepth);
      && (forall i :: 0 <= i < 4 ==> r.walk.path.beta[i] == 0.0)
      && r.walk.path.pdfUni == w.path.pdfUni && r.walk.path.pdfNEE == w.path.pdfNEE
      && r.walk.scatter == w.scatter
      && !r.proceed
  {
  }

  lemma ScatteringEvent(ms: MediumSampleWorkItem, w: Walk, s: MediumSample, depth: nat, maxDepth: nat)
    requires s.intr.Some? && s.mode == 1
    ensures var r := Callback(ms, w, s, depth, maxDepth);
      var intr := s.intr.value;
      && (forall i :: 0 <= i < 4 ==> r.walk.path.beta[i] == w.path.beta[i] * (s.Tmaj[i] * intr.sigma_s[i]))
      && (forall i :: 0 <= i < 4 ==> r.walk.path.pdfUni[i] == w.path.pdfUni[i] * (s.Tmaj[i] * intr.sigma_s[i]))
      && r.walk.path.pdfNEE == w.path.pdfNEE
      && r.walk.scatter == Some(ScatterItem(ms, intr, r.walk.path))
      && r.walk.scatter.value.beta == r.walk.path.beta
      && r.walk.scatter.value.pdfUni == r.walk.path.pdfUni
      && !r.proceed
  {
  }

  lemma NullCollisionEvent(ms: MediumSampleWorkItem, w: Walk, s: MediumSample, depth: nat, maxDepth: nat)
    requires s.intr.Some? && s.mode != 0 && s.mode != 1
    ensures var r := Callback(ms, w, s, depth, maxDepth);
      && r.walk.path == Rescale(NullUpdate(w.path, s.Tmaj, s.intr.value))
      && r.walk.scatter == w.scatter
      && r.proceed
  {
  }

  /** Emission is gathered only below the maximum depth and only where the
      medium emits; it is the same for all three event kinds. */
  lemma EmissionEvent(ms: MediumSampleWorkItem, w: Walk, s: MediumSample, depth: nat, maxDepth: nat)
    ensures var r := Callback(ms, w, s, depth, maxDepth);
      if s.intr.Some? && depth < maxDepth && NonZero(s.intr.value.Le)
      then r.walk.L == Add(w.L, MediumEmission(w.path, s.intr.value))
      else r.walk.L == w.L
  {
  }

  // ---------------------------------------------------------------------
  // Rescaling

  /** Rescaling happens exactly when some sample of beta, pdfUni or pdfNEE
      exceeds 2^24; it then multiplies all three by 2^-24 and otherwise leaves
      them alone. */
  lemma RescaleSpec(p: PathState)
    ensures NeedsRescale(p) <==> exists i :: 0 <= i < 4 && SampleExceeds(p, i)
    ensures NeedsRescale(p) ==> Rescale(p) == ScaleState(p, 1.0 / RESCALE_THRESHOLD)
    ensures !NeedsRescale(p) ==> Rescale(p) == p
  {
    MaxComponentExceeds(p.beta, RESCALE_THRESHOLD);
    MaxComponentExceeds(p.pdfUni, RESCALE_THRESHOLD);
    MaxComponentExceeds(p.pdfNEE, RESCALE_THRESHOLD);
    if MaxComponent(p.beta) > RESCALE_THRESHOLD {
      var i :| 0 <= i < 4 && p.beta[i] > RESCALE_THRESHOLD;
      assert SampleExceeds(p, i);
    } else if MaxComponent(p.pdfUni) > RESCALE_THRESHOLD {
      var i :| 0 <= i < 4 && p.pdfUni[i] > RESCALE_THRESHOLD;
      assert SampleExceeds(p, i);
    } else if MaxComponent(p.pdfNEE) > RESCALE_THRESHOLD {
      var i :| 0 <= i < 4 && p.pdfNEE[i] > RESCALE_THRESHOLD;
      assert SampleExceeds(p, i);
    }
  }

  /** pdfUni[i]/pdfNEE[i] of q equals pdfUni0[i]/pdfNEE0[i], sample by sample. */
  predicate KeepsMisRatio(pdfUni0: Spectrum, pdfNEE0: Spectrum, q: PathState) {
    forall i :: 0 <= i < 4 ==> q.pdfUni[i] * pdfNEE0[i] == pdfUni0[i] * q.pdfNEE[i]
  }

  /** Rescaling keeps the ratios beta/pdfUni and pdfUni/pdfNEE, sample by
      sample. */
  lemma RescaleKeepsRatios(p: PathState)
    ensures KeepsThroughputRatio(p.beta, p.pdfUni, Rescale(p))
    ensures KeepsMisRatio(p.pdfUni, p.pdfNEE, Rescale(p))
  {
    var k := 1.0 / RESCALE_THRESHOLD;
    if NeedsRescale(p) {
      assert Rescale(p) == ScaleState(p, k);
      ScaleStateKeepsRatios(p, k);
    } else {
      assert Rescale(p) == p;
      ScaleStateKeepsRatios(p, 1.0);
      MulOne(p.beta);
      MulOne(p.pdfUni);
      MulOne(p.pdfNEE);
      ScaleIsMul(p.beta, 1.0);
      ScaleIsMul(p.pdfUni, 1.0);
      ScaleIsMul(p.pdfNEE, 1.0);
      assert ScaleState(p, 1.0) == p;
    }
  }

  lemma ScaleStateKeepsRatios(p: PathState, k: real)
    ensures KeepsThroughputRatio(p.beta, p.pdfUni, ScaleState(p, k))
    ensures KeepsMisRatio(p.pdfUni, p.pdfNEE, ScaleState(p, k))
  {
    var r := ScaleState(p, k);
    assert r.beta == Scale(p.beta, k) && r.pdfUni == Scale(p.pdfUni, k) && r.pdfNEE == Scale(p.pdfNEE, k);
    ScaleKeepsCrossProducts(p.beta, p.pdfUni, k);
    ScaleKeepsCrossProducts(p.pdfUni, p.pdfNEE, k);
    assert forall i :: 0 <= i < 4 ==> r.beta[i] * p.pdfUni[i] == p.beta[i] * r.pdfUni[i];
    assert forall i :: 0 <= i < 4 ==> r.pdfUni[i] * p.pdfNEE[i] == p.pdfUni[i] * r.pdfNEE[i];
  }

  /** Scaling two spectra by the same k keeps their per-sample ratio. */
  lemma ScaleKeepsCrossProducts(a: Spectrum, b: Spectrum, k: real)
    ensures forall i :: 0 <= i < 4 ==> Scale(a, k)[i] * b[i] == a[i] * Scale(b, k)[i]
  {
    forall i | 0 <= i < 4 ensures Scale(a, k)[i] * b[i] == a[i] * Scale(b, k)[i] {
      var x, y := Scale(a, k)[i], Scale(b, k)[i];
      assert x == a[i] * k && y == b[i] * k;
      ScaledCrossProduct(a[i], b[i], k);
    }
  }

  lemma ScaledCrossProduct(x: real, y: real, k: real)
    ensures (x * k) * y == x * (y * k)
  {
  }

  /** The MIS-weighted estimate beta / Average(pdfUni + pdfNEE) that every
      terminal event divides out. */
  function Contribution(p: PathState): Spectrum {
    DivScalar(p.beta, Average(Add(p.pdfUni, p.pdfNEE)))
  }

  /** Scaling the three accumulators by a common positive factor leaves the
      MIS-weighted estimate unchanged. */
  lemma ContributionScaleInvariant(p: PathState, k: real)
    requires k > 0.0
    ensures Contribution(ScaleState(p, k)) == Contribution(p)
  {
    var q := ScaleState(p, k);
    var a := Average(Add(p.pdfUni, p.pdfNEE));
    AverageOfScaledSum(p.pdfUni, p.pdfNEE, k);
    if a != 0.0 {
      forall i | 0 <= i < 4 ensures Contribution(q)[i] == Contribution(p)[i] {
        assert Contribution(q)[i] == (p.beta[i] * k) / (k * a);
        CancelCommonFactor(p.beta[i], a, k);
      }
      Ext(Contribution(q), Contribution(p));
    }
  }

  lemma AverageOfScaledSum(u: Spectrum, n: Spectrum, k: real)
    ensures Average(Add(Scale(u, k), Scale(n, k))) == k * Average(Add(u, n))
  {
    calc {
      Average(Add(Scale(u, k), Scale(n, k)));
      ((u[0] * k + n[0] * k) + (u[1] * k + n[1] * k) + (u[2] * k + n[2] * k) + (u[3] * k + n[3] * k)) / 4.0;
      (k * ((u[0] + n[0]) + (u[1] + n[1]) + (u[2] + n[2]) + (u[3] + n[3]))) / 4.0;
      k * Average(Add(u, n));
    }
  }

  lemma CancelCommonFactor(x: real, a: real, k: real)
    requires a != 0.0 && k > 0.0
    ensures (x * k) / (k * a) == x / a
  {
    calc {
      (x * k) / (k * a);
      (x * k) / (a * k);
      x / a;
    }
  }

  /** Rescaling never changes the estimate that is finally divided out. */
  lemma RescaleKeepsContribution(p: PathState)
    ensures Contribution(Rescale(p)) == Contribution(p)
  {
    if NeedsRescale(p) {
      ContributionScaleInvariant(p, 1.0 / RESCALE_THRESHOLD);
    }
  }

  // ---------------------------------------------------------------------
  // Ratio tracking keeps beta and pdfUni in step

  /** beta and pdfUni have been multiplied by the same spectral factor. */
  ghost predicate SameFactor(p: PathState, q: PathState) {
    exists f: Spectrum :: q.beta == Mul(p.beta, f) && q.pdfUni == Mul(p.pdfUni, f)
  }

  lemma MulAssoc(a: Spectrum, b: Spectrum, c: Spectrum)
    ensures Mul(Mul(a, b), c) == Mul(a, Mul(b, c))
  {
    forall i | 0 <= i < 4 ensures Mul(Mul(a, b), c)[i] == Mul(a, Mul(b, c))[i] {
      RealMulAssoc(a[i], b[i], c[i]);
    }
    Ext(Mul(Mul(a, b), c), Mul(a, Mul(b, c)));
  }

  lemma RealMulAssoc(x: real, y: real, z: real)
    ensures (x * y) * z == x * (y * z)
  {
  }

  lemma ScaleIsMul(a: Spectrum, k: real)
    ensures Scale(a, k) == Mul(a, Const(k))
  {
    Ext(Scale(a, k), Mul(a, Const(k)));
  }

  lemma MulOne(a: Spectrum)
    ensures Mul(a, Const(1.0)) == a
  {
    Ext(Mul(a, Const(1.0)), a);
  }

  lemma SameFactorRefl(p: PathState)
    ensures SameFactor(p, p)
  {
    MulOne(p.beta);
    MulOne(p.pdfUni);
  }

  lemma SameFactorTrans(p: PathState, q: PathState, r: PathState)
    requires SameFactor(p, q) && SameFactor(q, r)
    ensures SameFactor(p, r)
  {
    var f1: Spectrum :| q.beta == Mul(p.beta, f1) && q.pdfUni == Mul(p.pdfUni, f1);
    var f2: Spectrum :| r.beta == Mul(q.beta, f2) && r.pdfUni == Mul(q.pdfUni, f2);
    MulAssoc(p.beta, f1, f2);
    MulAssoc(p.pdfUni, f1, f2);
    assert r.beta == Mul(p.beta, Mul(f1, f2)) && r.pdfUni == Mul(p.pdfUni, Mul(f1, f2));
  }

  /** beta[i]/pdfUni[i] of q equals beta0[i]/pdfUni0[i], sample by sample
      (cross-multiplied, so that zero samples are covered). */
  predicate KeepsThroughputRatio(beta0: Spectrum, pdfUni0: Spectrum, q: PathState) {
    forall i :: 0 <= i < 4 ==> q.beta[i] * pdfUni0[i] == beta0[i] * q.pdfUni[i]
  }

  /** Two accumulators multiplied by the same factor keep their ratio. */
  lemma SameFactorRatio(p: PathState, q: PathState)
    requires SameFactor(p, q)
    ensures KeepsThroughputRatio(p.beta, p.pdfUni, q)
  {
    var f: Spectrum :| q.beta == Mul(p.beta, f) && q.pdfUni == Mul(p.pdfUni, f);
    forall i | 0 <= i < 4 ensures q.beta[i] * p.pdfUni[i] == p.beta[i] * q.pdfUni[i] {
      assert q.beta[i] == p.beta[i] * f[i] && q.pdfUni[i] == p.pdfUni[i] * f[i];
      ScaledCrossProduct(p.beta[i], p.pdfUni[i], f[i]);
    }
  }

  lemma RescaleSameFactor(p: PathState)
    ensures SameFactor(p, Rescale(p))
  {
    if NeedsRescale(p) {
      var k := 1.0 / RESCALE_THRESHOLD;
      ScaleIsMul(p.beta, k);
      ScaleIsMul(p.pdfUni, k);
      assert Rescale(p).beta == Mul(p.beta, Const(k)) && Rescale(p).pdfUni == Mul(p.pdfUni, Const(k));
    } else {
      SameFactorRefl(p);
    }
  }

  /** Every event but absorption multiplies beta and pdfUni by one factor. */
  lemma CallbackSameFactor(ms: MediumSampleWorkItem, w: Walk, s: MediumSample, depth: nat, maxDepth: nat)
    requires s.intr.None? || s.mode != 0
    ensures SameFactor(w.path, Callback(ms, w, s, depth, maxDepth).walk.path)
  {
    var r := Callback(ms, w, s, depth, maxDepth).walk.path;
    match s.intr
    case None =>
      assert r.beta == Mul(w.path.beta, s.Tmaj) && r.pdfUni == Mul(w.path.pdfUni, s.Tmaj);
    case Some(intr) =>
      if s.mode == 1 {
        var f := Mul(s.Tmaj, intr.sigma_s);
        assert r.beta == Mul(w.path.beta, f) && r.pdfUni == Mul(w.path.pdfUni, f);
      } else {
        var n := NullUpdate(w.path, s.Tmaj, intr);
        var f := Mul(s.Tmaj, SigmaN(intr));
        assert n.beta == Mul(w.path.beta, f) && n.pdfUni == Mul(w.path.pdfUni, f);
        RescaleSameFactor(n);
        SameFactorTrans(w.path, n, r);
      }
  }

  /** No absorption event among the samples. */
  predicate NoAbsorption(samples: seq<MediumSample>) {
    forall k :: 0 <= k < |samples| ==> samples[k].intr.None? || samples[k].mode != 0
  }

  /** Unless the path is absorbed, traversal multiplies beta and pdfUni by one
      common factor, so their ratio is what it was on entry. */
  lemma {:induction false} TraverseSameFactor(ms: MediumSampleWorkItem, w: Walk, samples: seq<MediumSample>, depth: nat, maxDepth: nat)
    requires NoAbsorption(samples)
    ensures SameFactor(w.path, Traverse(ms, w, samples, depth, maxDepth).path)
    decreases |samples|
  {
    if samples == [] {
      SameFactorRefl(w.path);
    } else {
      var st := Callback(ms, w, samples[0], depth, maxDepth);
      CallbackSameFactor(ms, w, samples[0], depth, maxDepth);
      if st.proceed {
        assert NoAbsorption(samples[1..]) by {
          forall k | 0 <= k < |samples[1..]|
            ensures samples[1..][k].intr.None? || samples[1..][k].mode != 0
          {
            assert samples[1..][k] == samples[k + 1];
          }
        }
        TraverseSameFactor(ms, st.walk, samples[1..], depth, maxDepth);
        SameFactorTrans(w.path, st.walk.path, Traverse(ms, st.walk, samples[1..], depth, maxDepth).path);
      }
    }
  }

  /** For a path that is not absorbed, beta[i]/pdfUni[i] after free-flight
      sampling equals its value in the medium-sample work item. */
  lemma FreeFlightKeepsThroughputRatio(ms: MediumSampleWorkItem, samples: seq<MediumSample>, depth: nat, maxDepth: nat)
    requires NoAbsorption(samples)
    ensures KeepsThroughputRatio(ms.beta, ms.pdfUni, FreeFlight(ms, samples, depth, maxDepth).path)
  {
    var w := InitialWalk(ms);
    TraverseSameFactor(ms, w, samples, depth, maxDepth);
    SameFactorRatio(w.path, Traverse(ms, w, samples, depth, maxDepth).path);
  }

  // ---------------------------------------------------------------------
  // A medium that neither absorbs nor scatters

  /** Every interaction has sigma_a = sigma_s = 0. */
  predicate Transparent(samples: seq<MediumSample>) {
    forall k :: 0 <= k < |samples| && samples[k].intr.Some? ==>
      samples[k].intr.value.sigma_a == Const(0.0) && samples[k].intr.value.sigma_s == Const(0.0)
  }

  /** With sigma_a = sigma_s = 0 and events drawn as SampleDiscrete draws
      them, no event is an absorption or a scattering: the path reaches the
      segment end with no scatter item and with beta/pdfUni unchanged. */
  lemma {:induction false} TransparentMediumOnlyNullCollisions(ms: MediumSampleWorkItem, w: Walk, samples: seq<MediumSample>, depth: nat, maxDepth: nat)
    requires Transparent(samples)
    requires forall k :: 0 <= k < |samples| ==> ModeConsistent(samples[k])
    ensures NoAbsorption(samples)
    ensures Traverse(ms, w, samples, depth, maxDepth).scatter == w.scatter
    ensures KeepsThroughputRatio(w.path.beta, w.path.pdfUni, Traverse(ms, w, samples, depth, maxDepth).path)
    decreases |samples|
  {
    forall k | 0 <= k < |samples| ensures samples[k].intr.None? || samples[k].mode != 0 {
      if samples[k].intr.Some? {
        var p := Probabilities(samples[k].intr.value);
        assert p.pAbsorb * samples[k].intr.value.sigma_maj[0] == 0.0;
      }
    }
    if samples != [] {
      var s := samples[0];
      if s.intr.Some? {
        var p := Probabilities(s.intr.value);
        assert p.pScatter * s.intr.value.sigma_maj[0] == 0.0;
      }
      var st := Callback(ms, w, s, depth, maxDepth);
      if st.proceed {
        assert Transparent(samples[1..]) by {
          forall k | 0 <= k < |samples[1..]| && samples[1..][k].intr.Some?
            ensures samples[1..][k].intr.value.sigma_a == Const(0.0) && samples[1..][k].intr.value.sigma_s == Const(0.0)
          {
            assert samples[1..][k] == samples[k + 1];
          }
        }
        assert forall k :: 0 <= k < |samples[1..]| ==> samples[1..][k] == samples[k + 1];
        TransparentMediumOnlyNullCollisions(ms, st.walk, samples[1..], depth, maxDepth);
      }
    }
    TraverseSameFactor(ms, w, samples, depth, maxDepth);
    SameFactorRatio(w.path, Traverse(ms, w, samples, depth, maxDepth).path);
  }

  // ---------------------------------------------------------------------
  // Non-negativity, emission and the scatter item

  predicate NonNegativePath(p: PathState) {
    NonNegative(p.beta) && NonNegative(p.pdfUni) && NonNegative(p.pdfNEE)
  }

  /** The coefficients and transmittances SampleTmaj delivers are non-negative. */
  predicate NonNegativeSample(s: MediumSample) {
    NonNegative(s.Tmaj) &&
    (s.intr.Some? ==>
      NonNegative(s.intr.value.sigma_a) && NonNegative(s.intr.value.sigma_s) &&
      NonNegative(s.intr.value.sigma_maj) && NonNegative(s.intr.value.Le))
  }

  lemma AttenuateNonNegative(p: PathState, Tmaj: Spectrum)
    requires NonNegativePath(p) && NonNegative(Tmaj)
    ensures NonNegativePath(AttenuateToEnd(p, Tmaj))
  {
    MulNonNegative(p.beta, Tmaj);
    MulNonNegative(p.pdfUni, Tmaj);
  }

  lemma ScatterUpdateNonNegative(p: PathState, Tmaj: Spectrum, sigma_s: Spectrum)
    requires NonNegativePath(p) && NonNegative(Tmaj) && NonNegative(sigma_s)
    ensures NonNegativePath(ScatterUpdate(p, Tmaj, sigma_s))
  {
    MulNonNegative(Tmaj, sigma_s);
    MulNonNegative(p.beta, Mul(Tmaj, sigma_s));
    MulNonNegative(p.pdfUni, Mul(Tmaj, sigma_s));
  }

  lemma NullUpdateNonNegative(p: PathState, Tmaj: Spectrum, intr: MediumInteraction)
    requires NonNegativePath(p) && NonNegative(Tmaj) && NonNegative(intr.sigma_maj)
    ensures NonNegativePath(Rescale(NullUpdate(p, Tmaj, intr)))
  {
    var f := Mul(Tmaj, SigmaN(intr));
    MulNonNegative(Tmaj, SigmaN(intr));
    MulNonNegative(Tmaj, intr.sigma_maj);
    MulNonNegative(p.beta, f);
    MulNonNegative(p.pdfUni, f);
    MulNonNegative(p.pdfNEE, Mul(Tmaj, intr.sigma_maj));
    var n := NullUpdate(p, Tmaj, intr);
    ScaleNonNegative(n.beta, 1.0 / RESCALE_THRESHOLD);
    ScaleNonNegative(n.pdfUni, 1.0 / RESCALE_THRESHOLD);
    ScaleNonNegative(n.pdfNEE, 1.0 / RESCALE_THRESHOLD);
  }

  lemma EmissionNonNegative(p: PathState, intr: MediumInteraction)
    requires NonNegativePath(p)
    requires NonNegative(intr.Le) && NonNegative(intr.sigma_a) && NonNegative(intr.sigma_maj)
    ensures NonNegative(MediumEmission(p, intr))
  {
    MulNonNegative(p.beta, intr.Le);
    MulNonNegative(Mul(p.beta, intr.Le), intr.sigma_a);
    AverageNonNegative(p.pdfUni);
    DivScalarNonNegative(Mul(Mul(p.beta, intr.Le), intr.sigma_a), intr.sigma_maj[0] * Average(p.pdfUni));
  }

  lemma AddNonNegative(a: Spectrum, b: Spectrum)
    requires NonNegative(a) && NonNegative(b)
    ensures NonNegative(Add(a, b))
  {
  }

  lemma CallbackNonNegative(ms: MediumSampleWorkItem, w: Walk, s: MediumSample, depth: nat, maxDepth: nat)
    requires NonNegativePath(w.path) && NonNegative(w.L) && NonNegativeSample(s)
    ensures var r := Callback(ms, w, s, depth, maxDepth);
      NonNegativePath(r.walk.path) && NonNegative(r.walk.L)
  {
    match s.intr
    case None =>
      AttenuateNonNegative(w.path, s.Tmaj);
    case Some(intr) =>
      EmissionNonNegative(w.path, intr);
      AddNonNegative(w.L, MediumEmission(w.path, intr));
      if s.mode == 1 {
        ScatterUpdateNonNegative(w.path, s.Tmaj, intr.sigma_s);
      } else if s.mode != 0 {
        NullUpdateNonNegative(w.path, s.Tmaj, intr);
      }
  }

  /** Throughput, both pdf accumulators and the gathered emission stay
      non-negative through any sequence of medium events. */
  lemma {:induction false} TraverseNonNegative(ms: MediumSampleWorkItem, w: Walk, samples: seq<MediumSample>, depth: nat, maxDepth: nat)
    requires NonNegativePath(w.path) && NonNegative(w.L)
    requires forall k :: 0 <= k < |samples| ==> NonNegativeSample(samples[k])
    ensures var r := Traverse(ms, w, samples, depth, maxDepth);
      NonNegativePath(r.path) && NonNegative(r.L)
    decreases |samples|
  {
    if samples != [] {
      var st := Callback(ms, w, samples[0], depth, maxDepth);
      CallbackNonNegative(ms, w, samples[0], depth, maxDepth);
      if st.proceed {
        assert forall k :: 0 <= k < |samples[1..]| ==> samples[1..][k] == samples[k + 1];
        TraverseNonNegative(ms, st.walk, samples[1..], depth, maxDepth);
      }
    }
  }

  /** The medium-scatter item, when one is pushed, is pushed by the event that
      ends traversal: it carries the final beta and pdfUni and the identity
      of the medium-sample work item. */
  lemma {:induction false} TraverseScatterItem(ms: MediumSampleWorkItem, w: Walk, samples: seq<MediumSample>, depth: nat, maxDepth: nat)
    requires w.scatter.None?
    ensures var r := Traverse(ms, w, samples, depth, maxDepth);
      r.scatter.Some? ==>
        && r.scatter.value.beta == r.path.beta
        && r.scatter.value.pdfUni == r.path.pdfUni
        && r.scatter.value.rayIndex == ms.rayIndex
        && r.scatter.value.pixelIndex == ms.pixelIndex
        && r.scatter.value.lambda == ms.lambda
        && r.scatter.value.etaScale == ms.etaScale
        && r.scatter.value.wo == ms.ray.d.Neg()
        && r.scatter.value.medium == ms.ray.medium
    decreases |samples|
  {
    if samples != [] {
      var st := Callback(ms, w, samples[0], depth, maxDepth);
      if st.proceed {
        TraverseScatterItem(ms, st.walk, samples[1..], depth, maxDepth);
      }
    }
  }
}
