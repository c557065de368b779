/** The routing at the end of the first kernel of
    GPUPathIntegrator::SampleMediumInteraction: which queues receive a work
    item for a medium-sample item once free-flight sampling is over. */
module Routing {
  import opened WorkItems

  datatype EvalQueue = BasicEvalQueue | UniversalEvalQueue

  /** Which pushes happen: escaped ray, medium transition, hit area light, and
      the material-eval queue (if any) that receives the item. */
  datatype Routes = Routes(escaped: bool, transition: bool, hitAreaLight: bool, materialEval: Option<EvalQueue>)

  const NO_ROUTES: Routes := Routes(false, false, false, None)

  /** The basic texture evaluator can handle the material's textures and,
      when there is one, its displacement texture. */
  predicate BasicEvaluable(m: Material) {
    m.basicTextures && (m.displacement.None? || m.displacement.value.basicEvaluable)
  }

  function EvalQueueFor(m: Material): (q: EvalQueue)
    ensures q == BasicEvalQueue <==> BasicEvaluable(m)
    ensures q == UniversalEvalQueue <==> !BasicEvaluable(m)
  {
    if BasicEvaluable(m) then BasicEvalQueue else UniversalEvalQueue
  }

  /** Number of pushes to the queues that continue or finish a path: escaped,
      medium transition and material eval (hit area light is extra). */
  function PrimaryPushes(r: Routes): nat {
    (if r.escaped then 1 else 0) + (if r.transition then 1 else 0) + (if r.materialEval.Some? then 1 else 0)
  }

  /** The routing as the code is written: the escaped push for a ray with
      tMax == Infinity does not end the routing, so the checks on the material
      follow it. */
  function RouteAsWritten(scattered: bool, tMaxInfinite: bool, haveEscapedRayQueue: bool,
                          material: Option<Material>, hasAreaLight: bool): (r: Routes)
    ensures r.hitAreaLight ==> hasAreaLight && material.Some?
    ensures r.materialEval.Some? ==> material.Some?
  {
    if scattered then NO_ROUTES
    else
      var escaped := tMaxInfinite && haveEscapedRayQueue;
      if material.None? then Routes(escaped, true, false, None)
      else Routes(escaped, false, hasAreaLight, Some(EvalQueueFor(material.value)))
  }

  /** The routing with the escaped branch ending it, as the hit classification
      (one of escaped, transition or material eval per item) intends. */
  function Route(scattered: bool, tMaxInfinite: bool, haveEscapedRayQueue: bool,
                 material: Option<Material>, hasAreaLight: bool): (r: Routes)
    ensures r.hitAreaLight ==> hasAreaLight && material.Some?
    ensures r.materialEval.Some? ==> material.Some?
    ensures !scattered ==> PrimaryPushes(r) == (if tMaxInfinite && !haveEscapedRayQueue then 0 else 1)
    ensures r.hitAreaLight ==> r.materialEval.Some?
  {
    if scattered then NO_ROUTES
    else if tMaxInfinite then Routes(haveEscapedRayQueue, false, false, None)
    else if material.None? then Routes(false, true, false, None)
    else Routes(false, false, hasAreaLight, Some(EvalQueueFor(material.value)))
  }

  /** Which of the two routings the first kernel follows. */
  datatype RoutingRule = AsWritten | Corrected

  function RouteBy(rule: RoutingRule, scattered: bool, tMaxInfinite: bool, haveEscapedRayQueue: bool,
                   material: Option<Material>, hasAreaLight: bool): (r: Routes)
    ensures r.hitAreaLight ==> hasAreaLight && material.Some?
    ensures r.materialEval.Some? ==> material.Some?
  {
    match rule
    case AsWritten => RouteAsWritten(scattered, tMaxInfinite, haveEscapedRayQueue, material, hasAreaLight)
    case Corrected => Route(scattered, tMaxInfinite, haveEscapedRayQueue, material, hasAreaLight)
  }

  // ---------------------------------------------------------------------
  // The routing as written

  /** After a scattering event nothing else is pushed for the item. */
  lemma RouteAsWrittenScattered(tMaxInfinite: bool, haveEscapedRayQueue: bool, material: Option<Material>, hasAreaLight: bool)
    ensures RouteAsWritten(true, tMaxInfinite, haveEscapedRayQueue, material, hasAreaLight) == NO_ROUTES
  {
  }

  /** An escaped item is pushed iff tMax is infinite and an escaped-ray queue
      exists; the rest of the routing is then the same as for a finite tMax. */
  lemma RouteAsWrittenEscaped(tMaxInfinite: bool, haveEscapedRayQueue: bool, material: Option<Material>, hasAreaLight: bool)
    ensures var r := RouteAsWritten(false, tMaxInfinite, haveEscapedRayQueue, material, hasAreaLight);
      && (r.escaped <==> tMaxInfinite && haveEscapedRayQueue)
      && r.(escaped := false) == RouteAsWritten(false, false, haveEscapedRayQueue, material, hasAreaLight)
  {
  }

  /** Without a material exactly one transition item is pushed, and neither a
      hit-area-light nor a material-eval item. */
  lemma RouteAsWrittenNoMaterial(tMaxInfinite: bool, haveEscapedRayQueue: bool, hasAreaLight: bool)
    ensures var r := RouteAsWritten(false, tMaxInfinite, haveEscapedRayQueue, None, hasAreaLight);
      r.transition && !r.hitAreaLight && r.materialEval.None?
  {
  }

  /** With a material: a hit-area-light item iff there is an area light, and
      one material-eval item, to the basic queue iff the material and its
      displacement are basic-evaluable, else to the universal queue. */
  lemma RouteAsWrittenMaterial(tMaxInfinite: bool, haveEscapedRayQueue: bool, m: Material, hasAreaLight: bool)
    ensures var r := RouteAsWritten(false, tMaxInfinite, haveEscapedRayQueue, Some(m), hasAreaLight);
      && !r.transition
      && (r.hitAreaLight <==> hasAreaLight)
      && r.materialEval.Some?
      && (r.materialEval == Some(BasicEvalQueue) <==> BasicEvaluable(m))
      && (r.materialEval == Some(UniversalEvalQueue) <==> !BasicEvaluable(m))
  {
  }

  /** A ray that left the scene without a material (every miss) is pushed to
      the escaped-ray queue and ALSO to the medium-transition queue. */
  lemma RouteAsWrittenMissAlsoTransitions()
    ensures var r := RouteAsWritten(false, true, true, None, false);
      r.escaped && r.transition && PrimaryPushes(r) == 2
  {
  }

  // ---------------------------------------------------------------------
  // The corrected routing

  /** The two routings differ only for items with an infinite tMax. */
  lemma RouteAgreesOnHits(scattered: bool, haveEscapedRayQueue: bool, material: Option<Material>, hasAreaLight: bool)
    ensures Route(scattered, false, haveEscapedRayQueue, material, hasAreaLight)
         == RouteAsWritten(scattered, false, haveEscapedRayQueue, material, hasAreaLight)
  {
  }

  /** A ray that left the scene goes to the escaped-ray queue, if there is one,
      and nowhere else. */
  lemma RouteMiss(haveEscapedRayQueue: bool, material: Option<Material>, hasAreaLight: bool)
    ensures Route(false, true, haveEscapedRayQueue, material, hasAreaLight)
         == Routes(haveEscapedRayQueue, false, false, None)
  {
  }

  /** After a scattering event the corrected routing pushes nothing else
      either. */
  lemma RouteScattered(tMaxInfinite: bool, haveEscapedRayQueue: bool, material: Option<Material>, hasAreaLight: bool)
    ensures Route(true, tMaxInfinite, haveEscapedRayQueue, material, hasAreaLight) == NO_ROUTES
  {
  }
}
