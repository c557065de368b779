/** The wavefront path integrator's medium stages as state changes on its
    work queues: GPUPathIntegrator::SampleMediumInteraction (its two kernels)
    and GPUPathIntegrator::HandleMediumTransitions. The queues are sequences
    that the kernels append to; each kernel processes its input queue one
    item after another. The pure functions below define what each stage does
    to the queues, and the methods of Integrator are proved to do it. */
module PathIntegrator {
  import opened Spectra
  import opened WorkItems
  import opened MediumEvents
  import opened Routing
  import opened MediumScatter

  /** The code the medium stages call but that is not part of this model:
      the medium's majorant sampling (the sample points it hands to the
      callback), Interaction::SpawnRay from a surface point and normal with a
      medium interface, and the light sampler and phase-function sampling of
      the scatter kernel. */
  datatype Externals = Externals(
    sampleTmaj: MediumSampleWorkItem -> seq<MediumSample>,
    spawnRay: (Vec3, Vec3, MediumInterface, Vec3) -> Ray,
    sampleScatter: (MediumScatterWorkItem, RaySamples) -> ScatterSampling)

  /** The integrator state the medium stages read and write: the pixel
      samples' radiance and the work queues, with the two ray queues that
      alternate between bounces. */
  datatype Queues = Queues(
    pixelL: seq<Spectrum>,
    mediumScatter: seq<MediumScatterWorkItem>,
    escapedRay: seq<EscapedRayWorkItem>,
    mediumTransition: seq<MediumTransitionWorkItem>,
    hitAreaLight: seq<HitAreaLightWorkItem>,
    basicEvalMaterial: seq<MaterialEvalWorkItem>,
    universalEvalMaterial: seq<MaterialEvalWorkItem>,
    shadowRay: seq<ShadowRayWorkItem>,
    rayQueues: seq<seq<RayWorkItem>>)

  /** The ray queue being traced at this depth (depth & 1). */
  function CurrentRayQueue(depth: nat): (k: nat)
    ensures k < 2
  {
    depth % 2
  }

  /** The ray queue that receives the next bounce's rays ((depth + 1) & 1). */
  function NextRayQueue(depth: nat): (k: nat)
    ensures k < 2 && k != CurrentRayQueue(depth)
  {
    (depth + 1) % 2
  }

  /** The queue filled at one depth is the one traced at the next, and the
      other way round. */
  lemma RayQueuesAlternate(depth: nat)
    ensures NextRayQueue(depth) == CurrentRayQueue(depth + 1)
    ensures NextRayQueue(depth + 1) == CurrentRayQueue(depth)
  {
  }

  predicate PixelsInRange(items: seq<MediumSampleWorkItem>, n: nat) {
    forall k :: 0 <= k < |items| ==> items[k].pixelIndex < n
  }

  lemma PixelsInRangeTail(items: seq<MediumSampleWorkItem>, n: nat)
    requires items != [] && PixelsInRange(items, n)
    ensures items[0].pixelIndex < n && PixelsInRange(items[1..], n)
  {
    forall k | 0 <= k < |items[1..]| ensures items[1..][k].pixelIndex < n {
      assert items[1..][k] == items[k + 1];
    }
  }

  predicate SampleRayIndicesInRange(items: seq<MediumSampleWorkItem>, n: nat) {
    forall k :: 0 <= k < |items| ==> items[k].rayIndex < n
  }

  predicate ScatterRayIndicesInRange(items: seq<MediumScatterWorkItem>, n: nat) {
    forall k :: 0 <= k < |items| ==> items[k].rayIndex < n
  }

  /** The number of items in the queues a medium-sample item can continue to. */
  function Continued(q: Queues): nat {
    |q.mediumScatter| + |q.escapedRay| + |q.mediumTransition| + |q.basicEvalMaterial| + |q.universalEvalMaterial|
  }

  // ---------------------------------------------------------------------
  // The work items the first kernel pushes

  /** The escaped-ray item: the path state after free flight, the ray, and
      the previous vertex and pixel of the medium-sample item. */
  function EscapedItem(ms: MediumSampleWorkItem, p: PathState): (r: EscapedRayWorkItem)
    ensures r.beta == p.beta && r.pdfUni == p.pdfUni && r.pdfNEE == p.pdfNEE
    ensures r.rayO == ms.ray.o && r.rayD == ms.ray.d && r.prev == ms.prev
    ensures r.lambda == ms.lambda && r.specularBounce == ms.isSpecularBounce && r.pixelIndex == ms.pixelIndex
  {
    EscapedRayWorkItem(p.beta, p.pdfUni, p.pdfNEE, ms.lambda, ms.ray.o, ms.ray.d, ms.prev,
                       ms.isSpecularBounce, ms.pixelIndex)
  }

  /** The medium-transition item: the ray spawned past the surface, the path
      state after free flight, and the rest of the medium-sample item's path. */
  function TransitionItem(ms: MediumSampleWorkItem, newRay: Ray, p: PathState): (r: MediumTransitionWorkItem)
    ensures r.ray == newRay
    ensures r.beta == p.beta && r.pdfUni == p.pdfUni && r.pdfNEE == p.pdfNEE
    ensures r.lambda == ms.lambda && r.prev == ms.prev && r.etaScale == ms.etaScale && r.pixelIndex == ms.pixelIndex
    ensures r.isSpecularBounce == ms.isSpecularBounce && r.anyNonSpecularBounces == ms.anyNonSpecularBounces
  {
    MediumTransitionWorkItem(newRay, ms.lambda, p.beta, p.pdfUni, p.pdfNEE, ms.prev,
                             ms.isSpecularBounce, ms.anyNonSpecularBounces, ms.etaScale, ms.pixelIndex)
  }

  /** The hit-area-light item: the light, the surface point and normal,
      wo = -ray.d, and the path state after free flight. */
  function HitAreaLightItem(ms: MediumSampleWorkItem, light: Light, p: PathState): (r: HitAreaLightWorkItem)
    ensures r.areaLight == light && r.p == ms.hit.pi && r.n == ms.hit.n && r.uv == ms.hit.uv
    ensures r.wo == ms.ray.d.Neg() && r.rayD == ms.ray.d && r.time == ms.ray.time
    ensures r.beta == p.beta && r.pdfUni == p.pdfUni && r.pdfNEE == p.pdfNEE
    ensures r.lambda == ms.lambda && r.prev == ms.prev && r.pixelIndex == ms.pixelIndex
    ensures r.isSpecularBounce == ms.isSpecularBounce
  {
    HitAreaLightWorkItem(light, ms.lambda, p.beta, p.pdfUni, p.pdfNEE, ms.hit.pi, ms.hit.n, ms.hit.uv,
                         ms.ray.d.Neg(), ms.prev, ms.ray.d, ms.ray.time, ms.isSpecularBounce, ms.pixelIndex)
  }

  /** The material-eval item: the material, the surface hit, wo = -ray.d,
      beta and pdfUni after free flight (pdfNEE is not carried), and the ray
      and pixel of the medium-sample item. */
  function MaterialEvalItem(ms: MediumSampleWorkItem, m: Material, p: PathState): (r: MaterialEvalWorkItem)
    ensures r.material == m && r.hit == ms.hit && r.wo == ms.ray.d.Neg() && r.time == ms.ray.time
    ensures r.beta == p.beta && r.pdfUni == p.pdfUni
    ensures r.lambda == ms.lambda && r.etaScale == ms.etaScale && r.mediumInterface == ms.mediumInterface
    ensures r.anyNonSpecularBounces == ms.anyNonSpecularBounces
    ensures r.rayIndex == ms.rayIndex && r.pixelIndex == ms.pixelIndex
  {
    MaterialEvalWorkItem(m, ms.lambda, p.beta, p.pdfUni, ms.hit, ms.ray.d.Neg(), ms.ray.time,
                         ms.anyNonSpecularBounces, ms.etaScale, ms.mediumInterface, ms.rayIndex, ms.pixelIndex)
  }

  /** The pixel samples' radiance after adding L (only written when L is
      nonzero): pixel sample i gains L, every other one is unchanged. */
  function AddToPixel(pixelL: seq<Spectrum>, i: nat, L: Spectrum): (r: seq<Spectrum>)
    requires i < |pixelL|
    ensures |r| == |pixelL|
    ensures r[i] == Add(pixelL[i], L)
    ensures forall j :: 0 <= j < |pixelL| && j != i ==> r[j] == pixelL[j]
  {
    if NonZero(L) then pixelL[i := Add(pixelL[i], L)]
    else
      Ext(Add(pixelL[i], L), pixelL[i]);
      pixelL
  }

  // ---------------------------------------------------------------------
  // The first kernel: free-flight sampling and routing

  /** The pushes for a medium-sample item whose free flight ended with w, as
      the routing picks them; newRay is the ray spawned past the surface for
      a medium transition. */
  function Enqueue(q: Queues, ms: MediumSampleWorkItem, w: Walk, newRay: Ray, haveEscapedRayQueue: bool,
                   rule: RoutingRule): (r: Queues)
    ensures r.pixelL == q.pixelL && r.shadowRay == q.shadowRay && r.rayQueues == q.rayQueues
  {
    var rt := RouteBy(rule, w.scatter.Some?, ms.tMax.Infinity?, haveEscapedRayQueue, ms.material, ms.areaLight.Some?);
    q.(mediumScatter := q.mediumScatter + OptionToSeq(w.scatter),
       escapedRay := q.escapedRay + (if rt.escaped then [EscapedItem(ms, w.path)] else []),
       mediumTransition := q.mediumTransition + (if rt.transition then [TransitionItem(ms, newRay, w.path)] else []),
       hitAreaLight := q.hitAreaLight + (if rt.hitAreaLight then [HitAreaLightItem(ms, ms.areaLight.value, w.path)] else []),
       basicEvalMaterial := q.basicEvalMaterial +
         (if rt.materialEval == Some(BasicEvalQueue) then [MaterialEvalItem(ms, ms.material.value, w.path)] else []),
       universalEvalMaterial := q.universalEvalMaterial +
         (if rt.materialEval == Some(UniversalEvalQueue) then [MaterialEvalItem(ms, ms.material.value, w.path)] else []))
  }

  /** One medium-sample work item: sample free flight along its ray, add the
      emission found to its pixel sample, and push the item to the queues the
      routing picks, carrying the updated throughput and densities. The item
      is only appended to queues: the shadow-ray queue and the ray queues are
      untouched, and each other queue keeps its old contents as a prefix and
      grows by at most one entry. */
  function MediumSampleStep(q: Queues, ms: MediumSampleWorkItem, ext: Externals,
                            depth: nat, maxDepth: nat, haveEscapedRayQueue: bool, rule: RoutingRule): (r: Queues)
    requires ms.pixelIndex < |q.pixelL|
    ensures |r.pixelL| == |q.pixelL|
    ensures r.shadowRay == q.shadowRay && r.rayQueues == q.rayQueues
    ensures q.mediumScatter <= r.mediumScatter && |r.mediumScatter| <= |q.mediumScatter| + 1
    ensures q.escapedRay <= r.escapedRay && |r.escapedRay| <= |q.escapedRay| + 1
    ensures q.mediumTransition <= r.mediumTransition && |r.mediumTransition| <= |q.mediumTransition| + 1
    ensures q.hitAreaLight <= r.hitAreaLight && |r.hitAreaLight| <= |q.hitAreaLight| + 1
    ensures q.basicEvalMaterial <= r.basicEvalMaterial && |r.basicEvalMaterial| <= |q.basicEvalMaterial| + 1
    ensures q.universalEvalMaterial <= r.universalEvalMaterial && |r.universalEvalMaterial| <= |q.universalEvalMaterial| + 1
  {
    var w := FreeFlight(ms, ext.sampleTmaj(ms), depth, maxDepth);
    var newRay := ext.spawnRay(ms.hit.pi, ms.hit.n, ms.mediumInterface, ms.ray.d);
    Enqueue(q.(pixelL := AddToPixel(q.pixelL, ms.pixelIndex, w.L)), ms, w, newRay, haveEscapedRayQueue, rule)
  }

  /** The first kernel over a whole queue of medium-sample items, in order. It
      touches neither the shadow-ray queue nor the ray queues, and every queue
      it appends to keeps its old contents as a prefix. */
  function MediumSampleStage(q: Queues, items: seq<MediumSampleWorkItem>, ext: Externals,
                             depth: nat, maxDepth: nat, haveEscapedRayQueue: bool, rule: RoutingRule): (r: Queues)
    requires PixelsInRange(items, |q.pixelL|)
    ensures |r.pixelL| == |q.pixelL|
    ensures r.shadowRay == q.shadowRay && r.rayQueues == q.rayQueues
    ensures q.mediumScatter <= r.mediumScatter && q.mediumTransition <= r.mediumTransition
    decreases |items|
  {
    if items == [] then q
    else
      PixelsInRangeTail(items, |q.pixelL|);
      MediumSampleStage(MediumSampleStep(q, items[0], ext, depth, maxDepth, haveEscapedRayQueue, rule),
                        items[1..], ext, depth, maxDepth, haveEscapedRayQueue, rule)
  }

  /** The pixel sample of the item receives the emission L found along the
      ray (adding a zero L changes nothing); no other pixel sample changes. */
  lemma MediumSampleStepPixel(q: Queues, ms: MediumSampleWorkItem, ext: Externals,
                              depth: nat, maxDepth: nat, haveEscapedRayQueue: bool, rule: RoutingRule)
    requires ms.pixelIndex < |q.pixelL|
    ensures var r := MediumSampleStep(q, ms, ext, depth, maxDepth, haveEscapedRayQueue, rule);
      var w := FreeFlight(ms, ext.sampleTmaj(ms), depth, maxDepth);
      && r.pixelL[ms.pixelIndex] == Add(q.pixelL[ms.pixelIndex], w.L)
      && (forall j :: 0 <= j < |q.pixelL| && j != ms.pixelIndex ==> r.pixelL[j] == q.pixelL[j])
  {
  }

  /** Each queue of the first kernel gains exactly the item built from the
      path state after free flight when the routing picks that queue, and the
      medium-scatter queue gains the scattering event's item, if any. */
  lemma MediumSampleStepPushes(q: Queues, ms: MediumSampleWorkItem, ext: Externals,
                               depth: nat, maxDepth: nat, haveEscapedRayQueue: bool, rule: RoutingRule)
    requires ms.pixelIndex < |q.pixelL|
    ensures var r := MediumSampleStep(q, ms, ext, depth, maxDepth, haveEscapedRayQueue, rule);
      var w := FreeFlight(ms, ext.sampleTmaj(ms), depth, maxDepth);
      var newRay := ext.spawnRay(ms.hit.pi, ms.hit.n, ms.mediumInterface, ms.ray.d);
      var rt := RouteBy(rule, w.scatter.Some?, ms.tMax.Infinity?, haveEscapedRayQueue, ms.material, ms.areaLight.Some?);
      && r.mediumScatter == q.mediumScatter + OptionToSeq(w.scatter)
      && r.escapedRay == q.escapedRay + (if rt.escaped then [EscapedItem(ms, w.path)] else [])
      && r.mediumTransition == q.mediumTransition + (if rt.transition then [TransitionItem(ms, newRay, w.path)] else [])
      && r.hitAreaLight == q.hitAreaLight + (if rt.hitAreaLight then [HitAreaLightItem(ms, ms.areaLight.value, w.path)] else [])
      && r.basicEvalMaterial == q.basicEvalMaterial +
           (if rt.materialEval == Some(BasicEvalQueue) then [MaterialEvalItem(ms, ms.material.value, w.path)] else [])
      && r.universalEvalMaterial == q.universalEvalMaterial +
           (if rt.materialEval == Some(UniversalEvalQueue) then [MaterialEvalItem(ms, ms.material.value, w.path)] else [])
  {
  }

  /** A scattered item goes to the medium-scatter queue and nowhere else;
      only its pixel sample may change besides. */
  lemma MediumSampleStepScattered(q: Queues, ms: MediumSampleWorkItem, ext: Externals,
                                  depth: nat, maxDepth: nat, haveEscapedRayQueue: bool, rule: RoutingRule)
    requires ms.pixelIndex < |q.pixelL|
    requires FreeFlight(ms, ext.sampleTmaj(ms), depth, maxDepth).scatter.Some?
    ensures var r := MediumSampleStep(q, ms, ext, depth, maxDepth, haveEscapedRayQueue, rule);
      var w := FreeFlight(ms, ext.sampleTmaj(ms), depth, maxDepth);
      r == q.(pixelL := r.pixelL, mediumScatter := q.mediumScatter + [w.scatter.value])
  {
    var w := FreeFlight(ms, ext.sampleTmaj(ms), depth, maxDepth);
    RouteAsWrittenScattered(ms.tMax.Infinity?, haveEscapedRayQueue, ms.material, ms.areaLight.Some?);
    RouteScattered(ms.tMax.Infinity?, haveEscapedRayQueue, ms.material, ms.areaLight.Some?);
  }

  /** Without a scattering event, the medium-scatter queue is unchanged, and
      an item that left the scene goes to the escaped-ray queue, if there is
      one, carrying the path state after free flight. Under the corrected
      routing that is all it does. */
  lemma MediumSampleStepEscaped(q: Queues, ms: MediumSampleWorkItem, ext: Externals,
                                depth: nat, maxDepth: nat, haveEscapedRayQueue: bool, rule: RoutingRule)
    requires ms.pixelIndex < |q.pixelL|
    requires FreeFlight(ms, ext.sampleTmaj(ms), depth, maxDepth).scatter.None?
    ensures var r := MediumSampleStep(q, ms, ext, depth, maxDepth, haveEscapedRayQueue, rule);
      var w := FreeFlight(ms, ext.sampleTmaj(ms), depth, maxDepth);
      && r.mediumScatter == q.mediumScatter
      && r.escapedRay == q.escapedRay + (if ms.tMax.Infinity? && haveEscapedRayQueue then [EscapedItem(ms, w.path)] else [])
    ensures var r := MediumSampleStep(q, ms, ext, depth, maxDepth, haveEscapedRayQueue, rule);
      ms.tMax.Infinity? && rule == Corrected ==>
        r == q.(pixelL := r.pixelL, escapedRay := r.escapedRay)
  {
    var w := FreeFlight(ms, ext.sampleTmaj(ms), depth, maxDepth);
    RouteAsWrittenEscaped(ms.tMax.Infinity?, haveEscapedRayQueue, ms.material, ms.areaLight.Some?);
    RouteMiss(haveEscapedRayQueue, ms.material, ms.areaLight.Some?);
  }

  /** Without a scattering event and without a material, an item at a
      surface (and as written, any item) goes to the medium-transition queue
      with the spawned ray and the path state after free flight, and to no
      hit-area-light or material-eval queue. */
  lemma MediumSampleStepNoMaterial(q: Queues, ms: MediumSampleWorkItem, ext: Externals,
                                   depth: nat, maxDepth: nat, haveEscapedRayQueue: bool, rule: RoutingRule)
    requires ms.pixelIndex < |q.pixelL|
    requires FreeFlight(ms, ext.sampleTmaj(ms), depth, maxDepth).scatter.None?
    requires ms.material.None? && (ms.tMax.Finite? || rule == AsWritten)
    ensures var r := MediumSampleStep(q, ms, ext, depth, maxDepth, haveEscapedRayQueue, rule);
      var w := FreeFlight(ms, ext.sampleTmaj(ms), depth, maxDepth);
      var newRay := ext.spawnRay(ms.hit.pi, ms.hit.n, ms.mediumInterface, ms.ray.d);
      && r.mediumTransition == q.mediumTransition + [TransitionItem(ms, newRay, w.path)]
      && r.hitAreaLight == q.hitAreaLight
      && r.basicEvalMaterial == q.basicEvalMaterial && r.universalEvalMaterial == q.universalEvalMaterial
  {
    RouteAsWrittenNoMaterial(ms.tMax.Infinity?, haveEscapedRayQueue, ms.areaLight.Some?);
    if ms.tMax.Finite? {
      RouteAgreesOnHits(false, haveEscapedRayQueue, None, ms.areaLight.Some?);
    }
  }

  /** Without a scattering event and with a material, an item at a surface
      (and as written, any item) goes to no medium-transition queue, to the
      hit-area-light queue iff the surface has an area light, and to the
      basic material-eval queue iff the material is basic-evaluable, else to
      the universal one; every item carries the path state after free flight. */
  lemma MediumSampleStepMaterial(q: Queues, ms: MediumSampleWorkItem, ext: Externals,
                                 depth: nat, maxDepth: nat, haveEscapedRayQueue: bool, rule: RoutingRule)
    requires ms.pixelIndex < |q.pixelL|
    requires FreeFlight(ms, ext.sampleTmaj(ms), depth, maxDepth).scatter.None?
    requires ms.material.Some? && (ms.tMax.Finite? || rule == AsWritten)
    ensures var r := MediumSampleStep(q, ms, ext, depth, maxDepth, haveEscapedRayQueue, rule);
      var w := FreeFlight(ms, ext.sampleTmaj(ms), depth, maxDepth);
      var m := ms.material.value;
      && r.mediumTransition == q.mediumTransition
      && r.hitAreaLight == q.hitAreaLight + (if ms.areaLight.Some? then [HitAreaLightItem(ms, ms.areaLight.value, w.path)] else [])
      && (BasicEvaluable(m) ==>
            && r.basicEvalMaterial == q.basicEvalMaterial + [MaterialEvalItem(ms, m, w.path)]
            && r.universalEvalMaterial == q.universalEvalMaterial)
      && (!BasicEvaluable(m) ==>
            && r.basicEvalMaterial == q.basicEvalMaterial
            && r.universalEvalMaterial == q.universalEvalMaterial + [MaterialEvalItem(ms, m, w.path)])
  {
    RouteAsWrittenMaterial(ms.tMax.Infinity?, haveEscapedRayQueue, ms.material.value, ms.areaLight.Some?);
    if ms.tMax.Finite? {
      RouteAgreesOnHits(false, haveEscapedRayQueue, ms.material, ms.areaLight.Some?);
    }
  }

  /** At the maximum depth no emission is added: the pixel samples are unchanged. */
  lemma MediumSampleStepNoEmissionAtMaxDepth(q: Queues, ms: MediumSampleWorkItem, ext: Externals,
                                             depth: nat, maxDepth: nat, haveEscapedRayQueue: bool, rule: RoutingRule)
    requires ms.pixelIndex < |q.pixelL| && depth >= maxDepth
    ensures MediumSampleStep(q, ms, ext, depth, maxDepth, haveEscapedRayQueue, rule).pixelL == q.pixelL
  {
  }

  /** Adding the emission of two items to the pixel samples gives the same
      result in either order. */
  lemma AddToPixelCommutes(pixelL: seq<Spectrum>, i: nat, L1: Spectrum, j: nat, L2: Spectrum)
    requires i < |pixelL| && j < |pixelL|
    ensures AddToPixel(AddToPixel(pixelL, i, L1), j, L2) == AddToPixel(AddToPixel(pixelL, j, L2), i, L1)
  {
    if i == j && NonZero(L1) && NonZero(L2) {
      var x := pixelL[i];
      Ext(Add(Add(x, L1), L2), Add(Add(x, L2), L1));
    }
  }

  /** Under the corrected routing, with an escaped-ray queue, every
      medium-sample item continues in exactly one of the medium-scatter,
      escaped-ray, medium-transition and material-eval queues. */
  lemma MediumSampleStepContinuesOnce(q: Queues, ms: MediumSampleWorkItem, ext: Externals,
                                      depth: nat, maxDepth: nat)
    requires ms.pixelIndex < |q.pixelL|
    ensures Continued(MediumSampleStep(q, ms, ext, depth, maxDepth, true, Corrected)) == Continued(q) + 1
  {
    var w := FreeFlight(ms, ext.sampleTmaj(ms), depth, maxDepth);
    var rt := Route(w.scatter.Some?, ms.tMax.Infinity?, true, ms.material, ms.areaLight.Some?);
    assert PrimaryPushes(rt) == if w.scatter.Some? then 0 else 1;
  }

  lemma {:induction false} MediumSampleStageContinuesOnce(q: Queues, items: seq<MediumSampleWorkItem>, ext: Externals,
                                                          depth: nat, maxDepth: nat)
    requires PixelsInRange(items, |q.pixelL|)
    ensures Continued(MediumSampleStage(q, items, ext, depth, maxDepth, true, Corrected)) == Continued(q) + |items|
    decreases |items|
  {
    if items != [] {
      PixelsInRangeTail(items, |q.pixelL|);
      MediumSampleStepContinuesOnce(q, items[0], ext, depth, maxDepth);
      var q1 := MediumSampleStep(q, items[0], ext, depth, maxDepth, true, Corrected);
      MediumSampleStageContinuesOnce(q1, items[1..], ext, depth, maxDepth);
    }
  }

  /** Under the routing as written, an item is continued twice when it left
      the scene (its tMax is infinite) and its free flight ended without a
      scattering event: it reaches the escaped-ray queue and, because the
      routing goes on, the medium-transition or a material-eval queue too. */
  predicate ContinuedTwiceAsWritten(ms: MediumSampleWorkItem, ext: Externals, depth: nat, maxDepth: nat) {
    ms.tMax.Infinity? && FreeFlight(ms, ext.sampleTmaj(ms), depth, maxDepth).scatter.None?
  }

  function CountContinuedTwice(items: seq<MediumSampleWorkItem>, ext: Externals, depth: nat, maxDepth: nat): (n: nat)
    ensures n <= |items|
    decreases |items|
  {
    if items == [] then 0
    else (if ContinuedTwiceAsWritten(items[0], ext, depth, maxDepth) then 1 else 0)
         + CountContinuedTwice(items[1..], ext, depth, maxDepth)
  }

  /** Under the routing as written, with an escaped-ray queue, an item
      continues once, or twice when it left the scene without scattering. */
  lemma MediumSampleStepAsWrittenContinues(q: Queues, ms: MediumSampleWorkItem, ext: Externals,
                                           depth: nat, maxDepth: nat)
    requires ms.pixelIndex < |q.pixelL|
    ensures Continued(MediumSampleStep(q, ms, ext, depth, maxDepth, true, AsWritten))
         == Continued(q) + 1 + (if ContinuedTwiceAsWritten(ms, ext, depth, maxDepth) then 1 else 0)
  {
    var w := FreeFlight(ms, ext.sampleTmaj(ms), depth, maxDepth);
    var rt := RouteAsWritten(w.scatter.Some?, ms.tMax.Infinity?, true, ms.material, ms.areaLight.Some?);
    assert PrimaryPushes(rt) == if w.scatter.Some? then 0 else if ms.tMax.Infinity? then 2 else 1;
  }

  /** The first kernel as written pushes one extra continuation for every
      item that left the scene without scattering. */
  lemma {:induction false} MediumSampleStageAsWrittenContinues(q: Queues, items: seq<MediumSampleWorkItem>, ext: Externals,
                                                               depth: nat, maxDepth: nat)
    requires PixelsInRange(items, |q.pixelL|)
    ensures Continued(MediumSampleStage(q, items, ext, depth, maxDepth, true, AsWritten))
         == Continued(q) + |items| + CountContinuedTwice(items, ext, depth, maxDepth)
    decreases |items|
  {
    if items != [] {
      PixelsInRangeTail(items, |q.pixelL|);
      MediumSampleStepAsWrittenContinues(q, items[0], ext, depth, maxDepth);
      var q1 := MediumSampleStep(q, items[0], ext, depth, maxDepth, true, AsWritten);
      MediumSampleStageAsWrittenContinues(q1, items[1..], ext, depth, maxDepth);
    }
  }

  /** A miss that reaches the end of its segment without a material: the
      code as written pushes it to the escaped-ray queue AND to the
      medium-transition queue; the corrected routing pushes it to the
      escaped-ray queue only. */
  lemma MediumSampleStepMiss(q: Queues, ms: MediumSampleWorkItem, ext: Externals, depth: nat, maxDepth: nat)
    requires ms.pixelIndex < |q.pixelL|
    requires ms.tMax.Infinity? && ms.material.None?
    requires FreeFlight(ms, ext.sampleTmaj(ms), depth, maxDepth).scatter.None?
    ensures var r := MediumSampleStep(q, ms, ext, depth, maxDepth, true, AsWritten);
      var w := FreeFlight(ms, ext.sampleTmaj(ms), depth, maxDepth);
      var newRay := ext.spawnRay(ms.hit.pi, ms.hit.n, ms.mediumInterface, ms.ray.d);
      && r.escapedRay == q.escapedRay + [EscapedItem(ms, w.path)]
      && r.mediumTransition == q.mediumTransition + [TransitionItem(ms, newRay, w.path)]
    ensures var r := MediumSampleStep(q, ms, ext, depth, maxDepth, true, Corrected);
      var w := FreeFlight(ms, ext.sampleTmaj(ms), depth, maxDepth);
      r.escapedRay == q.escapedRay + [EscapedItem(ms, w.path)] && r.mediumTransition == q.mediumTransition
  {
  }

  /** No item left the scene. */
  predicate AllHit(items: seq<MediumSampleWorkItem>) {
    forall k :: 0 <= k < |items| ==> items[k].tMax.Finite?
  }

  /** The two routings give the same first kernel when no item left the scene. */
  lemma {:induction false} MediumSampleStageRoutingsAgree(q: Queues, items: seq<MediumSampleWorkItem>, ext: Externals,
                                                          depth: nat, maxDepth: nat, haveEscapedRayQueue: bool)
    requires PixelsInRange(items, |q.pixelL|) && AllHit(items)
    ensures MediumSampleStage(q, items, ext, depth, maxDepth, haveEscapedRayQueue, AsWritten)
         == MediumSampleStage(q, items, ext, depth, maxDepth, haveEscapedRayQueue, Corrected)
    decreases |items|
  {
    if items != [] {
      var ms := items[0];
      PixelsInRangeTail(items, |q.pixelL|);
      var w := FreeFlight(ms, ext.sampleTmaj(ms), depth, maxDepth);
      RouteAgreesOnHits(w.scatter.Some?, haveEscapedRayQueue, ms.material, ms.areaLight.Some?);
      var q1 := MediumSampleStep(q, ms, ext, depth, maxDepth, haveEscapedRayQueue, AsWritten);
      assert q1 == MediumSampleStep(q, ms, ext, depth, maxDepth, haveEscapedRayQueue, Corrected);
      assert AllHit(items[1..]) by {
        forall k | 0 <= k < |items[1..]| ensures items[1..][k].tMax.Finite? {
          assert items[1..][k] == items[k + 1];
        }
      }
      MediumSampleStageRoutingsAgree(q1, items[1..], ext, depth, maxDepth, haveEscapedRayQueue);
    }
  }

  /** The medium-scatter items the first kernel pushes name rays of the
      current ray queue, as the items they come from do. */
  lemma {:induction false} MediumSampleStageRayIndices(q: Queues, items: seq<MediumSampleWorkItem>, ext: Externals,
                                                       depth: nat, maxDepth: nat, haveEscapedRayQueue: bool,
                                                       rule: RoutingRule, n: nat)
    requires PixelsInRange(items, |q.pixelL|)
    requires SampleRayIndicesInRange(items, n) && ScatterRayIndicesInRange(q.mediumScatter, n)
    ensures ScatterRayIndicesInRange(MediumSampleStage(q, items, ext, depth, maxDepth, haveEscapedRayQueue, rule).mediumScatter, n)
    decreases |items|
  {
    if items != [] {
      var ms := items[0];
      PixelsInRangeTail(items, |q.pixelL|);
      TraverseScatterItem(ms, InitialWalk(ms), ext.sampleTmaj(ms), depth, maxDepth);
      var q1 := MediumSampleStep(q, ms, ext, depth, maxDepth, haveEscapedRayQueue, rule);
      assert SampleRayIndicesInRange(items[1..], n) by {
        forall k | 0 <= k < |items[1..]| ensures items[1..][k].rayIndex < n {
          assert items[1..][k] == items[k + 1];
        }
      }
      MediumSampleStageRayIndices(q1, items[1..], ext, depth, maxDepth, haveEscapedRayQueue, rule, n);
    }
  }

  // ---------------------------------------------------------------------
  // The second kernel: direct and indirect lighting at scattering events

  /** One medium-scatter item: push its shadow ray, if any, to the
      shadow-ray queue and its indirect ray, if any, to the next bounce's ray
      queue. Nothing else changes, and each of the two queues keeps its old
      contents as a prefix and grows by at most one entry. */
  function MediumScatterStep(q: Queues, ms: MediumScatterWorkItem, rs: RaySamples, ext: Externals, depth: nat): (r: Queues)
    requires |q.rayQueues| == 2
    ensures |r.rayQueues| == 2
    ensures r.(shadowRay := q.shadowRay, rayQueues := q.rayQueues) == q
    ensures r.rayQueues[CurrentRayQueue(depth)] == q.rayQueues[CurrentRayQueue(depth)]
    ensures q.shadowRay <= r.shadowRay && |r.shadowRay| <= |q.shadowRay| + 1
    ensures var next := NextRayQueue(depth);
      q.rayQueues[next] <= r.rayQueues[next] && |r.rayQueues[next]| <= |q.rayQueues[next]| + 1
  {
    var o := ext.sampleScatter(ms, rs);
    var next := NextRayQueue(depth);
    q.(shadowRay := q.shadowRay + OptionToSeq(DirectLighting(ms, o)),
       rayQueues := q.rayQueues[next := q.rayQueues[next] + OptionToSeq(IndirectRay(ms, o, rs.indirectRr, depth))])
  }

  /** The second kernel over a queue of medium-scatter items, each reading the
      samples of its ray. It changes only the shadow-ray queue and the next
      bounce's ray queue, appending at most one item per scatter item to each;
      the ray queue being traced is left alone. */
  function MediumScatterStage(q: Queues, items: seq<MediumScatterWorkItem>, samples: seq<RaySamples>,
                              ext: Externals, depth: nat): (r: Queues)
    requires |q.rayQueues| == 2 && ScatterRayIndicesInRange(items, |samples|)
    ensures |r.rayQueues| == 2
    ensures r.(shadowRay := q.shadowRay, rayQueues := q.rayQueues) == q
    ensures r.rayQueues[CurrentRayQueue(depth)] == q.rayQueues[CurrentRayQueue(depth)]
    decreases |items|
  {
    if items == [] then q
    else
      var q1 := MediumScatterStep(q, items[0], samples[items[0].rayIndex], ext, depth);
      assert ScatterRayIndicesInRange(items[1..], |samples|) by {
        forall k | 0 <= k < |items[1..]| ensures items[1..][k].rayIndex < |samples| {
          assert items[1..][k] == items[k + 1];
        }
      }
      MediumScatterStage(q1, items[1..], samples, ext, depth)
  }

  /** The second kernel only appends: the shadow-ray queue and the next
      bounce's ray queue keep their old contents as a prefix and grow by at
      most one entry per medium-scatter item. */
  lemma {:induction false} MediumScatterStageAppends(q: Queues, items: seq<MediumScatterWorkItem>, samples: seq<RaySamples>,
                                                     ext: Externals, depth: nat)
    requires |q.rayQueues| == 2 && ScatterRayIndicesInRange(items, |samples|)
    ensures var r := MediumScatterStage(q, items, samples, ext, depth);
      var next := NextRayQueue(depth);
      && q.shadowRay <= r.shadowRay && |r.shadowRay| <= |q.shadowRay| + |items|
      && q.rayQueues[next] <= r.rayQueues[next] && |r.rayQueues[next]| <= |q.rayQueues[next]| + |items|
    decreases |items|
  {
    if items != [] {
      var q1 := MediumScatterStep(q, items[0], samples[items[0].rayIndex], ext, depth);
      assert ScatterRayIndicesInRange(items[1..], |samples|) by {
        forall k | 0 <= k < |items[1..]| ensures items[1..][k].rayIndex < |samples| {
          assert items[1..][k] == items[k + 1];
        }
      }
      MediumScatterStageAppends(q1, items[1..], samples, ext, depth);
    }
  }

  /** One medium-scatter item pushes exactly its direct-lighting shadow ray,
      if there is one, to the shadow-ray queue, and its indirect ray, if it
      survives, to the next bounce's ray queue. */
  lemma MediumScatterStepPushes(q: Queues, ms: MediumScatterWorkItem, rs: RaySamples, ext: Externals, depth: nat)
    requires |q.rayQueues| == 2
    ensures var r := MediumScatterStep(q, ms, rs, ext, depth);
      var o := ext.sampleScatter(ms, rs);
      var next := NextRayQueue(depth);
      && r.shadowRay == q.shadowRay + OptionToSeq(DirectLighting(ms, o))
      && r.rayQueues[next] == q.rayQueues[next] + OptionToSeq(IndirectRay(ms, o, rs.indirectRr, depth))
  {
  }

  lemma ScatterRayIndicesInRangeTail(items: seq<MediumScatterWorkItem>, n: nat)
    requires items != [] && ScatterRayIndicesInRange(items, n)
    ensures items[0].rayIndex < n && ScatterRayIndicesInRange(items[1..], n)
  {
    forall k | 0 <= k < |items[1..]| ensures items[1..][k].rayIndex < n {
      assert items[1..][k] == items[k + 1];
    }
  }

  /** The shadow rays of a queue of medium-scatter items, in queue order. */
  function ShadowPushes(items: seq<MediumScatterWorkItem>, samples: seq<RaySamples>, ext: Externals): (s: seq<ShadowRayWorkItem>)
    requires ScatterRayIndicesInRange(items, |samples|)
    ensures |s| <= |items|
    decreases |items|
  {
    if items == [] then []
    else
      ScatterRayIndicesInRangeTail(items, |samples|);
      OptionToSeq(DirectLighting(items[0], ext.sampleScatter(items[0], samples[items[0].rayIndex])))
        + ShadowPushes(items[1..], samples, ext)
  }

  /** The surviving indirect rays of a queue of medium-scatter items, in
      queue order. */
  function IndirectPushes(items: seq<MediumScatterWorkItem>, samples: seq<RaySamples>, ext: Externals,
                          depth: nat): (s: seq<RayWorkItem>)
    requires ScatterRayIndicesInRange(items, |samples|)
    ensures |s| <= |items|
    decreases |items|
  {
    if items == [] then []
    else
      ScatterRayIndicesInRangeTail(items, |samples|);
      var rs := samples[items[0].rayIndex];
      OptionToSeq(IndirectRay(items[0], ext.sampleScatter(items[0], rs), rs.indirectRr, depth))
        + IndirectPushes(items[1..], samples, ext, depth)
  }

  /** The second kernel appends the items' shadow rays to the shadow-ray
      queue, in the order of the medium-scatter queue. */
  lemma {:induction false} MediumScatterStageShadowRays(q: Queues, items: seq<MediumScatterWorkItem>, samples: seq<RaySamples>,
                                                        ext: Externals, depth: nat)
    requires |q.rayQueues| == 2 && ScatterRayIndicesInRange(items, |samples|)
    ensures MediumScatterStage(q, items, samples, ext, depth).shadowRay == q.shadowRay + ShadowPushes(items, samples, ext)
    decreases |items|
  {
    if items != [] {
      ScatterRayIndicesInRangeTail(items, |samples|);
      var q1 := MediumScatterStep(q, items[0], samples[items[0].rayIndex], ext, depth);
      MediumScatterStageShadowRays(q1, items[1..], samples, ext, depth);
    }
  }

  /** The second kernel appends the items' surviving indirect rays to the
      next bounce's ray queue, in the order of the medium-scatter queue. */
  lemma {:induction false} MediumScatterStageIndirectRays(q: Queues, items: seq<MediumScatterWorkItem>, samples: seq<RaySamples>,
                                                          ext: Externals, depth: nat)
    requires |q.rayQueues| == 2 && ScatterRayIndicesInRange(items, |samples|)
    ensures var next := NextRayQueue(depth);
      MediumScatterStage(q, items, samples, ext, depth).rayQueues[next]
        == q.rayQueues[next] + IndirectPushes(items, samples, ext, depth)
    decreases |items|
  {
    if items != [] {
      ScatterRayIndicesInRangeTail(items, |samples|);
      var q1 := MediumScatterStep(q, items[0], samples[items[0].rayIndex], ext, depth);
      MediumScatterStageIndirectRays(q1, items[1..], samples, ext, depth);
    }
  }

  /** Both kernels of SampleMediumInteraction: the second runs over the
      medium-scatter queue as the first left it, with the samples of the ray
      queue being traced. */
  function SampleMediumInteractionStage(q: Queues, items: seq<MediumSampleWorkItem>, samples: seq<RaySamples>,
                                        ext: Externals, depth: nat, maxDepth: nat, haveEscapedRayQueue: bool,
                                        rule: RoutingRule): (r: Queues)
    requires |q.rayQueues| == 2 && PixelsInRange(items, |q.pixelL|)
    requires SampleRayIndicesInRange(items, |samples|) && ScatterRayIndicesInRange(q.mediumScatter, |samples|)
    ensures |r.rayQueues| == 2 && |r.pixelL| == |q.pixelL|
    ensures r.rayQueues[CurrentRayQueue(depth)] == q.rayQueues[CurrentRayQueue(depth)]
  {
    var q1 := MediumSampleStage(q, items, ext, depth, maxDepth, haveEscapedRayQueue, rule);
    MediumSampleStageRayIndices(q, items, ext, depth, maxDepth, haveEscapedRayQueue, rule, |samples|);
    MediumScatterStage(q1, q1.mediumScatter, samples, ext, depth)
  }

  // ---------------------------------------------------------------------
  // Medium transitions

  /** The ray-queue entry for a medium transition: the spawned ray with the
      path state the transition item carries. */
  function TransitionRay(mt: MediumTransitionWorkItem): (r: RayWorkItem)
    ensures TransitionOf(r) == mt
  {
    RayWorkItem(mt.ray, mt.prev, mt.beta, mt.pdfUni, mt.pdfNEE, mt.lambda, mt.etaScale,
                mt.isSpecularBounce, mt.anyNonSpecularBounces, mt.pixelIndex)
  }

  /** Reads a ray-queue entry back as a medium-transition item. */
  function TransitionOf(r: RayWorkItem): MediumTransitionWorkItem {
    MediumTransitionWorkItem(r.ray, r.lambda, r.beta, r.pdfUni, r.pdfNEE, r.prev,
                             r.isSpecularBounce, r.anyNonSpecularBounces, r.etaScale, r.pixelIndex)
  }

  function TransitionRays(mts: seq<MediumTransitionWorkItem>): (r: seq<RayWorkItem>)
    ensures |r| == |mts|
    ensures forall k :: 0 <= k < |r| ==> TransitionOf(r[k]) == mts[k]
  {
    seq(|mts|, k requires 0 <= k < |mts| => TransitionRay(mts[k]))
  }

  // ---------------------------------------------------------------------
  // The integrator

  class Integrator {
    const maxDepth: nat
    const haveEscapedRayQueue: bool
    /** The routing the first kernel follows: AsWritten is media.cpp as it
        stands, Corrected ends the routing after the escaped-ray push. */
    const routing: RoutingRule
    var pixelL: seq<Spectrum>
    var mediumSampleQueue: seq<MediumSampleWorkItem>
    var mediumScatterQueue: seq<MediumScatterWorkItem>
    var escapedRayQueue: seq<EscapedRayWorkItem>
    var mediumTransitionQueue: seq<MediumTransitionWorkItem>
    var hitAreaLightQueue: seq<HitAreaLightWorkItem>
    var basicEvalMaterialQueue: seq<MaterialEvalWorkItem>
    var universalEvalMaterialQueue: seq<MaterialEvalWorkItem>
    var shadowRayQueue: seq<ShadowRayWorkItem>
    var rayQueues: seq<seq<RayWorkItem>>
    var raySamples: seq<seq<RaySamples>>

    /** Two ray queues, each with its per-ray samples. */
    ghost predicate Valid()
      reads this
    {
      |rayQueues| == 2 && |raySamples| == 2
    }

    /** The part of the integrator the medium stages change. */
    function State(): Queues
      reads this
    {
      Queues(pixelL, mediumScatterQueue, escapedRayQueue, mediumTransitionQueue, hitAreaLightQueue,
             basicEvalMaterialQueue, universalEvalMaterialQueue, shadowRayQueue, rayQueues)
    }

    /** An integrator with the given pixel samples, medium-sample queue and
      ray samples, and all other queues empty. */
    constructor (maxDepth: nat, haveEscapedRayQueue: bool, routing: RoutingRule, pixelL: seq<Spectrum>,
                 mediumSampleQueue: seq<MediumSampleWorkItem>, raySamples: seq<seq<RaySamples>>)
      requires |raySamples| == 2
      ensures Valid()
      ensures this.maxDepth == maxDepth && this.haveEscapedRayQueue == haveEscapedRayQueue && this.routing == routing
      ensures this.mediumSampleQueue == mediumSampleQueue && this.raySamples == raySamples
      ensures State() == Queues(pixelL, [], [], [], [], [], [], [], [[], []])
    {
      this.maxDepth := maxDepth;
      this.haveEscapedRayQueue := haveEscapedRayQueue;
      this.routing := routing;
      this.pixelL := pixelL;
      this.mediumSampleQueue := mediumSampleQueue;
      this.raySamples := raySamples;
      mediumScatterQueue := [];
      escapedRayQueue := [];
      mediumTransitionQueue := [];
      hitAreaLightQueue := [];
      basicEvalMaterialQueue := [];
      universalEvalMaterialQueue := [];
      shadowRayQueue := [];
      rayQueues := [[], []];
    }

    /** SampleTmaj's traversal of the majorant samples with the first
        kernel's callback: invoke it on each sample until it returns false. */
    method SampleFreeFlight(ms: MediumSampleWorkItem, ext: Externals, depth: nat) returns (w: Walk)
      ensures w == FreeFlight(ms, ext.sampleTmaj(ms), depth, maxDepth)
    {
      var samples := ext.sampleTmaj(ms);
      w := InitialWalk(ms);
      var i := 0;
      var proceed := true;
      while proceed && i < |samples|
        invariant 0 <= i <= |samples|
        invariant FreeFlight(ms, samples, depth, maxDepth) ==
          if proceed then Traverse(ms, w, samples[i..], depth, maxDepth) else w
      {
        var st := Callback(ms, w, samples[i], depth, maxDepth);
        assert samples[i..][1..] == samples[i + 1..];
        w, proceed := st.walk, st.proceed;
        i := i + 1;
      }
    }

    /** Adds a nonzero emission to a pixel sample's radiance. */
    method AddEmission(pixelIndex: nat, L: Spectrum)
      requires pixelIndex < |pixelL|
      modifies this
      ensures rayQueues == old(rayQueues) && mediumSampleQueue == old(mediumSampleQueue) && raySamples == old(raySamples)
      ensures State() == old(State()).(pixelL := AddToPixel(old(pixelL), pixelIndex, L))
    {
      if NonZero(L) {
        pixelL := pixelL[pixelIndex := Add(pixelL[pixelIndex], L)];
      }
    }

    /** Pushes a medium-sample item whose free flight ended with w. */
    method EnqueueMediumSample(ms: MediumSampleWorkItem, w: Walk, newRay: Ray)
      modifies this
      ensures rayQueues == old(rayQueues) && mediumSampleQueue == old(mediumSampleQueue) && raySamples == old(raySamples)
      ensures State() == Enqueue(old(State()), ms, w, newRay, haveEscapedRayQueue, routing)
    {
      if w.scatter.Some? {
        mediumScatterQueue := mediumScatterQueue + [w.scatter.value];
        return;
      }
      if ms.tMax.Infinity? {
        if haveEscapedRayQueue {
          escapedRayQueue := escapedRayQueue + [EscapedItem(ms, w.path)];
        }
        if routing == Corrected {
          return;
        }
      }
      ghost var q := old(State());
      RouteAgreesOnHits(false, haveEscapedRayQueue, ms.material, ms.areaLight.Some?);
      assert Enqueue(q, ms, w, newRay, haveEscapedRayQueue, routing)
          == Enqueue(q, ms, w, newRay, haveEscapedRayQueue, AsWritten);
      EnqueueAtSurface(ms, w, newRay);
    }

    /** The pushes for an item that did not scatter, once the escaped-ray
        check is behind it: a medium transition when there is no material,
        otherwise a hit-area-light item for an area light and a material-eval
        item to the queue its textures call for. */
    method EnqueueAtSurface(ms: MediumSampleWorkItem, w: Walk, newRay: Ray)
      requires w.scatter.None?
      modifies this
      ensures rayQueues == old(rayQueues) && mediumSampleQueue == old(mediumSampleQueue) && raySamples == old(raySamples)
      ensures State() == Enqueue(old(State()), ms, w, newRay, haveEscapedRayQueue, AsWritten).(escapedRay := old(escapedRayQueue))
    {
      if ms.material.None? {
        mediumTransitionQueue := mediumTransitionQueue + [TransitionItem(ms, newRay, w.path)];
        return;
      }
      if ms.areaLight.Some? {
        hitAreaLightQueue := hitAreaLightQueue + [HitAreaLightItem(ms, ms.areaLight.value, w.path)];
      }
      var m := ms.material.value;
      if m.basicTextures && (m.displacement.None? || m.displacement.value.basicEvaluable) {
        basicEvalMaterialQueue := basicEvalMaterialQueue + [MaterialEvalItem(ms, m, w.path)];
      } else {
        universalEvalMaterialQueue := universalEvalMaterialQueue + [MaterialEvalItem(ms, m, w.path)];
      }
    }

    /** The first kernel's body for one item: sample free flight, then add
        the emission and push the item on. */
    method ProcessMediumSample(ms: MediumSampleWorkItem, ext: Externals, depth: nat)
      requires Valid() && ms.pixelIndex < |pixelL|
      modifies this
      ensures Valid()
      ensures mediumSampleQueue == old(mediumSampleQueue) && raySamples == old(raySamples)
      ensures State() == MediumSampleStep(old(State()), ms, ext, depth, maxDepth, haveEscapedRayQueue, routing)
    {
      var w := SampleFreeFlight(ms, ext, depth);
      AddEmission(ms.pixelIndex, w.L);
      var newRay := ext.spawnRay(ms.hit.pi, ms.hit.n, ms.mediumInterface, ms.ray.d);
      EnqueueMediumSample(ms, w, newRay);
    }

    /** The first kernel of SampleMediumInteraction over the whole
        medium-sample queue. */
    method MediumSampleKernel(ext: Externals, depth: nat)
      requires Valid() && PixelsInRange(mediumSampleQueue, |pixelL|)
      modifies this
      ensures Valid()
      ensures mediumSampleQueue == old(mediumSampleQueue) && raySamples == old(raySamples)
      ensures State() == MediumSampleStage(old(State()), mediumSampleQueue, ext, depth, maxDepth, haveEscapedRayQueue, routing)
    {
      var i := 0;
      while i < |mediumSampleQueue|
        invariant 0 <= i <= |mediumSampleQueue|
        invariant Valid()
        invariant mediumSampleQueue == old(mediumSampleQueue) && raySamples == old(raySamples)
        invariant |pixelL| == old(|pixelL|)
        invariant PixelsInRange(mediumSampleQueue[i..], |pixelL|)
        invariant MediumSampleStage(old(State()), mediumSampleQueue, ext, depth, maxDepth, haveEscapedRayQueue, routing)
               == MediumSampleStage(State(), mediumSampleQueue[i..], ext, depth, maxDepth, haveEscapedRayQueue, routing)
      {
        PixelsInRangeTail(mediumSampleQueue[i..], |pixelL|);
        assert mediumSampleQueue[i..][1..] == mediumSampleQueue[i + 1..];
        ProcessMediumSample(mediumSampleQueue[i], ext, depth);
        i := i + 1;
      }
    }

    /** The second kernel's body for one item. */
    method ProcessMediumScatter(ms: MediumScatterWorkItem, ext: Externals, depth: nat)
      requires Valid() && ms.rayIndex < |raySamples[CurrentRayQueue(depth)]|
      modifies this
      ensures Valid()
      ensures mediumSampleQueue == old(mediumSampleQueue) && raySamples == old(raySamples)
      ensures State() == MediumScatterStep(old(State()), ms, raySamples[CurrentRayQueue(depth)][ms.rayIndex], ext, depth)
    {
      var rs := raySamples[depth % 2][ms.rayIndex];
      var o := ext.sampleScatter(ms, rs);
      var shadow := DirectLighting(ms, o);
      if shadow.Some? {
        shadowRayQueue := shadowRayQueue + [shadow.value];
      }
      var indirect := IndirectRay(ms, o, rs.indirectRr, depth);
      var next := (depth + 1) % 2;
      if indirect.Some? {
        rayQueues := rayQueues[next := rayQueues[next] + [indirect.value]];
      } else {
        assert rayQueues[next] + [] == rayQueues[next];
        assert rayQueues[next := rayQueues[next] + []] == rayQueues;
      }
    }

    /** The second kernel of SampleMediumInteraction over the whole
        medium-scatter queue. */
    method DirectIndirectKernel(ext: Externals, depth: nat)
      requires Valid() && ScatterRayIndicesInRange(mediumScatterQueue, |raySamples[CurrentRayQueue(depth)]|)
      modifies this
      ensures Valid()
      ensures mediumSampleQueue == old(mediumSampleQueue) && raySamples == old(raySamples)
      ensures State() == MediumScatterStage(old(State()), old(mediumScatterQueue), raySamples[CurrentRayQueue(depth)], ext, depth)
    {
      var items := mediumScatterQueue;
      var samples := raySamples[CurrentRayQueue(depth)];
      var i := 0;
      while i < |items|
        invariant 0 <= i <= |items|
        invariant Valid()
        invariant mediumSampleQueue == old(mediumSampleQueue) && raySamples == old(raySamples)
        invariant ScatterRayIndicesInRange(items[i..], |samples|)
        invariant MediumScatterStage(old(State()), items, samples, ext, depth)
               == MediumScatterStage(State(), items[i..], samples, ext, depth)
      {
        assert items[i..][1..] == items[i + 1..];
        ProcessMediumScatter(items[i], ext, depth);
        i := i + 1;
      }
    }

    /** GPUPathIntegrator::SampleMediumInteraction: both kernels in turn. */
    method SampleMediumInteraction(ext: Externals, depth: nat)
      requires Valid() && PixelsInRange(mediumSampleQueue, |pixelL|)
      requires SampleRayIndicesInRange(mediumSampleQueue, |raySamples[CurrentRayQueue(depth)]|)
      requires ScatterRayIndicesInRange(mediumScatterQueue, |raySamples[CurrentRayQueue(depth)]|)
      modifies this
      ensures Valid()
      ensures mediumSampleQueue == old(mediumSampleQueue) && raySamples == old(raySamples)
      ensures State() == SampleMediumInteractionStage(old(State()), mediumSampleQueue, raySamples[CurrentRayQueue(depth)],
                                                      ext, depth, maxDepth, haveEscapedRayQueue, routing)
    {
      MediumSampleStageRayIndices(State(), mediumSampleQueue, ext, depth, maxDepth, haveEscapedRayQueue, routing,
                                  |raySamples[CurrentRayQueue(depth)]|);
      MediumSampleKernel(ext, depth);
      DirectIndirectKernel(ext, depth);
    }

    /** GPUPathIntegrator::HandleMediumTransitions: every medium-transition
        item, in order, becomes an entry of the next bounce's ray queue. */
    method HandleMediumTransitions(depth: nat)
      requires Valid()
      modifies this
      ensures Valid()
      ensures mediumSampleQueue == old(mediumSampleQueue) && raySamples == old(raySamples)
      ensures var next := NextRayQueue(depth);
        State() == old(State()).(rayQueues := old(rayQueues)[next := old(rayQueues)[next] + TransitionRays(mediumTransitionQueue)])
    {
      var next := (depth + 1) % 2;
      var mts := mediumTransitionQueue;
      var i := 0;
      assert TransitionRays(mts[..0]) == [];
      while i < |mts|
        invariant 0 <= i <= |mts|
        invariant |rayQueues| == 2
        invariant rayQueues[next] == old(rayQueues)[next] + TransitionRays(mts[..i])
        invariant rayQueues[1 - next] == old(rayQueues)[1 - next]
        invariant State().(rayQueues := old(rayQueues)) == old(State())
        invariant mediumSampleQueue == old(mediumSampleQueue) && raySamples == old(raySamples)
      {
        assert mts[..i + 1] == mts[..i] + [mts[i]];
        assert TransitionRays(mts[..i + 1]) == TransitionRays(mts[..i]) + [TransitionRay(mts[i])];
        rayQueues := rayQueues[next := rayQueues[next] + [TransitionRay(mts[i])]];
        i := i + 1;
      }
      assert mts[..i] == mts;
      assert rayQueues == old(rayQueues)[next := old(rayQueues)[next] + TransitionRays(mts)];
    }
  }
}
