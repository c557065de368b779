# Medium stages of pbrt-v4's wavefront path integrator, in Dafny

This project models the per-work-item logic of the volumetric stages of
pbrt-v4's GPU (wavefront) path integrator, `src/pbrt/gpu/media.cpp`:

- `GPUPathIntegrator::SampleMediumInteraction`, first kernel. For each
  medium-sample work item it takes the majorant samples along the ray and
  runs the null-collision callback on each of them. Each sample is handled
  as one of four events: no interaction, absorption, real scattering or null
  scattering. The callback updates the path throughput `beta` and the two
  MIS densities `pdfUni` and `pdfNEE`, rescales them against overflow, and
  gathers medium emission. The kernel then adds the emission to the pixel
  sample and routes the item on. The possible destinations are the
  medium-scatter queue, the escaped-ray queue, the medium-transition queue,
  the hit-area-light queue and the basic or universal material-eval queue.
- `SampleMediumInteraction`, second kernel ("Sample direct/indirect"). At a
  real scattering event it builds the direct-lighting shadow ray with its MIS
  densities, including the delta-light rule. It also builds the indirect ray
  from a phase-function sample, applies Russian roulette to it, and pushes it
  to the ray queue of the next bounce.
- `GPUPathIntegrator::HandleMediumTransitions`: copies every
  medium-transition item into the next bounce's ray queue.

Layout:

- `spectra.dfy` (`Spectra`): sampled spectra. A spectrum is four reals with
  component-wise arithmetic.
- `workitems.dfy` (`WorkItems`): geometry, handles and the work items.
- `media_events.dfy` (`MediumEvents`): the callback as pure functions.
  - `Callback` handles one sample.
  - `Traverse` and `FreeFlight` are the traversal that stops at the first
    callback returning false.
  - The lemmas cover the four events, rescaling, ratio preservation and
    non-negativity.
- `routing.dfy` (`Routing`): the routing decision after free flight.
  - `RouteAsWritten` is the code as written.
  - `Route` is the corrected routing (see Findings).
- `medium_scatter.dfy` (`MediumScatter`): direct lighting, Russian roulette
  and the indirect ray, as pure functions with lemmas.
- `integrator.dfy` (`PathIntegrator`): the integrator and its queues.
  - The state is the `Integrator` class. Its queues are `seq` fields that the
    kernels append to, and each kernel is a loop over its input queue.
  - Every method is proved to leave the state equal to a pure stage function
    of the old state: `MediumSampleStage`, `MediumScatterStage`,
    `SampleMediumInteractionStage` and the `TransitionRays` append.
  - The properties are proved as lemmas about those stage functions.

The code the stages call but that is not part of this model is passed in as
the function-typed fields of `Externals`:

- `SampleTmaj`, as the sequence of samples it hands to the callback. Each
  sample carries `Tmaj`, an optional interaction and the event index that
  `SampleDiscrete` chose.
- `Interaction::SpawnRay`.
- The light sampler, `SampleLi`, and the Henyey-Greenstein phase function's
  `p`, `PDF` and `Sample_p`.

## Model

| member | source | states |
|---|---|---|
| MediumEvents.SigmaN | src/pbrt/gpu/media.cpp:118-121 | sigma_n is non-negative and at least sigma_maj - sigma_a - sigma_s in every sample; it equals that difference where sigma_a + sigma_s <= sigma_maj, and 0 where the difference is negative |
| MediumEvents.Probabilities | src/pbrt/gpu/media.cpp:83-85 | pAbsorb = sigma_a[0]/sigma_maj[0] and pScatter = sigma_s[0]/sigma_maj[0]; pNull is never negative; it is 0 when pAbsorb + pScatter > 1, and otherwise makes the three sum to exactly 1 |
| MediumEvents.ProbabilitiesUseFirstSample | src/pbrt/gpu/media.cpp:83-85 | the probabilities depend only on the first wavelength sample of sigma_a, sigma_s and sigma_maj |
| MediumEvents.Callback | src/pbrt/gpu/media.cpp:51-142 | the callback asks for more samples iff the event is a null collision (an interaction with an index other than 0 and 1); only a scattering event changes the scatter item, to the one built from the interaction and the updated path state; without an interaction or at depth >= maxDepth L is unchanged |
| MediumEvents.AttenuateToEnd | src/pbrt/gpu/media.cpp:52-61 | without an interaction beta and pdfUni are multiplied by Tmaj sample by sample, and pdfNEE is unchanged |
| MediumEvents.Absorb | src/pbrt/gpu/media.cpp:93-98 | absorption sets every sample of beta to 0 and keeps pdfUni and pdfNEE |
| MediumEvents.ScatterUpdate | src/pbrt/gpu/media.cpp:99-103 | scattering multiplies beta and pdfUni by Tmaj * sigma_s sample by sample, and keeps pdfNEE |
| MediumEvents.ScatterItem | src/pbrt/gpu/media.cpp:105-111 | the medium-scatter item carries the interaction point and phase function, the updated beta and pdfUni, wo = -ray.d, the ray's medium, and the ray index, pixel, wavelengths and etaScale of the medium-sample item |
| MediumEvents.NoInteractionEvent | src/pbrt/gpu/media.cpp:52-62 | a sample without an interaction multiplies beta and pdfUni by Tmaj sample by sample; it leaves pdfNEE, L and the scatter item unchanged and stops traversal |
| MediumEvents.AbsorptionEvent | src/pbrt/gpu/media.cpp:93-98 | absorption zeroes every sample of beta, leaves pdfUni and pdfNEE unchanged, pushes no scatter item and stops traversal |
| MediumEvents.ScatteringEvent | src/pbrt/gpu/media.cpp:99-114 | scattering multiplies beta and pdfUni by Tmaj * sigma_s and leaves pdfNEE unchanged; it pushes exactly one medium-scatter item, which carries the updated beta and pdfUni, and stops traversal |
| MediumEvents.NullCollisionEvent | src/pbrt/gpu/media.cpp:115-142 | a null collision applies the null update followed by the rescale check, pushes no scatter item and continues traversal |
| MediumEvents.NullUpdate | src/pbrt/gpu/media.cpp:118-122 | the null update multiplies beta and pdfUni by Tmaj * sigma_n and pdfNEE by Tmaj * sigma_maj, sample by sample |
| MediumEvents.EmissionEvent | src/pbrt/gpu/media.cpp:75-80 | L gains beta * Le * sigma_a / (sigma_maj[0] * avg(pdfUni)) exactly when there is an interaction, depth < maxDepth and Le is nonzero; otherwise L is unchanged |
| MediumEvents.MediumEmission | src/pbrt/gpu/media.cpp:78-80 | the emission term times sigma_maj[0] * avg(pdfUni) equals beta * Le * sigma_a, sample by sample, when that divisor is nonzero; a zero divisor gives no emission |
| MediumEvents.RescaleSpec | src/pbrt/gpu/media.cpp:130-139 | rescaling happens iff some sample of beta, pdfUni or pdfNEE exceeds 2^24; it then multiplies all three by 2^-24, and otherwise leaves them unchanged |
| MediumEvents.Rescale | src/pbrt/gpu/media.cpp:124-139 | when the guard fires, 2^24 times each new sample of beta, pdfUni and pdfNEE is the old one; otherwise the path state is unchanged |
| MediumEvents.RescaleKeepsRatios | src/pbrt/gpu/media.cpp:124-139 | rescaling keeps beta[i]/pdfUni[i] and pdfUni[i]/pdfNEE[i] in every sample, stated cross-multiplied |
| MediumEvents.ScaleStateKeepsRatios | src/pbrt/gpu/media.cpp:136-138 | multiplying all three accumulators by one factor keeps both per-sample ratios |
| MediumEvents.ContributionScaleInvariant | src/pbrt/gpu/media.cpp:124-129 | scaling the three accumulators by a common positive factor leaves beta / avg(pdfUni + pdfNEE) unchanged |
| MediumEvents.RescaleKeepsContribution | src/pbrt/gpu/media.cpp:124-139 | rescaling never changes beta / avg(pdfUni + pdfNEE) |
| MediumEvents.CallbackSameFactor | src/pbrt/gpu/media.cpp:52-142 | every event except absorption multiplies beta and pdfUni by one common spectral factor |
| MediumEvents.TraverseSameFactor | src/pbrt/gpu/media.cpp:50-143 | without absorption, a whole traversal multiplies beta and pdfUni by one common factor |
| MediumEvents.FreeFlightKeepsThroughputRatio | src/pbrt/gpu/media.cpp:36-143 | without absorption, beta[i]/pdfUni[i] after free flight equals its value in the work item |
| MediumEvents.TransparentMediumOnlyNullCollisions | src/pbrt/gpu/media.cpp:83-122 | if sigma_a = sigma_s = 0 and the event index has nonzero probability, no absorption or scattering occurs and no scatter item is produced |
| MediumEvents.CallbackNonNegative | src/pbrt/gpu/media.cpp:52-142 | one event keeps beta, pdfUni, pdfNEE and L non-negative when the medium's coefficients are |
| MediumEvents.TraverseNonNegative | src/pbrt/gpu/media.cpp:50-143 | a whole traversal keeps beta, pdfUni, pdfNEE and L non-negative |
| MediumEvents.Traverse | src/pbrt/gpu/media.cpp:50-143 | SampleTmaj's loop over the samples, stopping at the first callback that returns false: at depth >= maxDepth it gathers no emission, and a scatter item it pushes carries the final beta and pdfUni |
| MediumEvents.FreeFlight | src/pbrt/gpu/media.cpp:35-143 | free flight starts from the item's beta, pdfUni and pdfNEE with L = 0 and no scatter item; at depth >= maxDepth L stays 0; a pushed scatter item carries the final beta and pdfUni |
| MediumEvents.TraverseScatterItem | src/pbrt/gpu/media.cpp:109-111 | a pushed scatter item carries the final beta and pdfUni, the item's rayIndex, pixelIndex, wavelengths and etaScale, wo = -ray.d and the ray's medium |
| Routing.EvalQueueFor | src/pbrt/gpu/media.cpp:207-214 | the basic queue is picked iff the material's textures and its displacement (when present) are basic-evaluable, else the universal queue |
| Routing.RouteAsWritten | src/pbrt/gpu/media.cpp:159-225 | hit-area-light and material-eval pushes happen only with a material, and hit-area-light only with an area light |
| Routing.RouteAsWrittenScattered | src/pbrt/gpu/media.cpp:159-162 | after a scattering event nothing else is pushed |
| Routing.RouteAsWrittenEscaped | src/pbrt/gpu/media.cpp:166-175 | an escaped item is pushed iff tMax is infinite and the escaped-ray queue exists; routing then continues as for a finite tMax |
| Routing.RouteAsWrittenNoMaterial | src/pbrt/gpu/media.cpp:177-194 | with no material, exactly one transition item is pushed and no hit-area-light or material-eval item |
| Routing.RouteAsWrittenMaterial | src/pbrt/gpu/media.cpp:196-225 | with a material: no transition; a hit-area-light item iff an area light is present; exactly one material-eval item, in the basic queue iff basic-evaluable, else in the universal queue |
| Routing.RouteAsWrittenMissAlsoTransitions | src/pbrt/gpu/media.cpp:166-194 | a miss without a material is pushed both to the escaped-ray queue and to the medium-transition queue |
| Routing.Route | src/pbrt/gpu/media.cpp:159-225 | corrected routing: a non-scattered item gets exactly one primary push (escaped, transition or material eval), or none for a miss with no escaped-ray queue; hit-area-light only alongside material eval |
| Routing.RouteScattered | src/pbrt/gpu/media.cpp:159-162 | under the corrected routing too, a scattered item is pushed nowhere else |
| Routing.RouteAgreesOnHits | src/pbrt/gpu/media.cpp:177-225 | for items that hit a surface the corrected routing equals the routing as written |
| Routing.RouteMiss | src/pbrt/gpu/media.cpp:166-175 | under the corrected routing a miss goes to the escaped-ray queue, if there is one, and nowhere else |
| MediumScatter.DirectLightingSpec | src/pbrt/gpu/media.cpp:240-268 | a shadow ray is pushed iff a light was sampled and the light sample has nonzero radiance; the details follow this table |
| MediumScatter.DeltaLightZeroUniPdf | src/pbrt/gpu/media.cpp:257-259 | for a delta light the shadow ray's pdfUni is zero |
| MediumScatter.DirectLightingNonNegative | src/pbrt/gpu/media.cpp:250-262 | non-negative inputs give non-negative Ld, pdfUni and pdfNEE |
| MediumScatter.DirectLighting | src/pbrt/gpu/media.cpp:237-277 | a shadow ray exists iff a light was sampled and its sample has nonzero radiance; it leaves the scattering point in the item's medium, with the item's wavelengths and pixel |
| MediumScatter.RouletteQSpec | src/pbrt/gpu/media.cpp:289-292 | roulette applies iff depth > 1 and the largest sample of beta * etaScale / avg(pdfUni) is below 1; q is then 1 minus that sample and positive |
| MediumScatter.RouletteQInUnitInterval | src/pbrt/gpu/media.cpp:290-292 | with non-negative beta, pdfUni and etaScale, q lies in (0, 1] |
| MediumScatter.RouletteQ | src/pbrt/gpu/media.cpp:289-292 | no roulette at depth <= 1; when roulette applies, q > 0 |
| MediumScatter.IndirectRayDropped | src/pbrt/gpu/media.cpp:279-297 | the indirect ray is dropped iff the phase sample failed, or roulette applies and rr < q |
| MediumScatter.IndirectRaySurvivor | src/pbrt/gpu/media.cpp:302-310 | the pushed ray starts at the scattering point at time 0 in the sampled direction and stays in the item's medium; its previous vertex is the point with zero normals; isSpecularBounce = false and anyNonSpecularBounces = true; wavelengths, etaScale and pixel come from the item |
| MediumScatter.IndirectRaySurvivorWeights | src/pbrt/gpu/media.cpp:289-300 | a survivor passed the test rr >= q and carries densities times the survival probability |
| MediumScatter.IndirectItemWeights | src/pbrt/gpu/media.cpp:285-299 | the indirect ray has beta * p, pdfUni * pdf * (1 - q) and pdfUni * (1 - q), with the factor 1 when roulette does not apply |
| MediumScatter.IndirectRayNonNegative | src/pbrt/gpu/media.cpp:285-310 | with non-negative beta, pdfUni and etaScale, and a phase sample with non-negative value and density, the indirect ray's beta, pdfUni and pdfNEE are non-negative |
| MediumScatter.IndirectRay | src/pbrt/gpu/media.cpp:279-310 | no indirect ray without a phase sample; at depth <= 1 a phase sample always gives one; the ray leaves the scattering point in the sampled direction, for the item's pixel |
| MediumScatter.IndirectItem | src/pbrt/gpu/media.cpp:285-310 | the indirect ray leaves the scattering point in the sampled direction within the item's medium, is non-specular with a non-specular bounce on the path, and carries beta * p |
| MediumScatter.NoRouletteAtShallowDepth | src/pbrt/gpu/media.cpp:291 | at depth 0 or 1 every successful phase sample yields an indirect ray |
| MediumScatter.BrightPathSurvives | src/pbrt/gpu/media.cpp:290-291 | if some sample of the weighted throughput is at least 1, the path is never terminated |
| PathIntegrator.NextRayQueue | src/pbrt/gpu/media.cpp:233-325 | the queue written, (depth+1)&1, is never the queue read, depth&1 |
| PathIntegrator.RayQueuesAlternate | src/pbrt/gpu/media.cpp:233-325 | the queue written at one depth is the one read at the next |
| PathIntegrator.EscapedItem | src/pbrt/gpu/media.cpp:171-173 | the escaped-ray item carries the path state after free flight, the ray's origin and direction, the previous vertex, wavelengths, specular flag and pixel |
| PathIntegrator.TransitionItem | src/pbrt/gpu/media.cpp:179-185 | the transition item carries the ray spawned past the surface, the path state after free flight and the rest of the item's path (previous vertex, bounce flags, etaScale, pixel) |
| PathIntegrator.HitAreaLightItem | src/pbrt/gpu/media.cpp:201-204 | the hit-area-light item carries the light, the surface point, normal and uv, wo = -ray.d, ray.d and time, the path state after free flight, and the item's previous vertex, wavelengths, specular flag and pixel |
| PathIntegrator.MaterialEvalItem | src/pbrt/gpu/media.cpp:218-223 | the material-eval item carries the material, the surface hit, wo = -ray.d, time, beta and pdfUni after free flight, and the item's wavelengths, etaScale, medium interface, ray index and pixel |
| PathIntegrator.AddToPixel | src/pbrt/gpu/media.cpp:151-157 | the item's pixel sample gains L; every other pixel sample is unchanged |
| PathIntegrator.Enqueue | src/pbrt/gpu/media.cpp:159-225 | routing pushes, under either routing rule, leave the pixel radiance, the shadow-ray queue and the ray queues unchanged (what each queue gains is stated by the MediumSampleStep lemmas below) |
| PathIntegrator.MediumSampleStep | src/pbrt/gpu/media.cpp:26-225 | one item, under either routing rule: pixel count, shadow-ray queue and ray queues unchanged; every other queue keeps its old contents as a prefix and grows by at most one entry (the items pushed are stated by MediumSampleStepPushes and the lemmas after it) |
| PathIntegrator.MediumSampleStage | src/pbrt/gpu/media.cpp:24-226 | the first kernel, under either routing rule, leaves the shadow-ray and ray queues unchanged; the scatter and transition queues keep their old contents as a prefix |
| PathIntegrator.MediumSampleStepPushes | src/pbrt/gpu/media.cpp:159-225 | each queue gains exactly the item built from the path state after free flight when the routing picks that queue, and the medium-scatter queue gains the scattering event's item, if any |
| PathIntegrator.MediumSampleStepScattered | src/pbrt/gpu/media.cpp:159-162 | a scattered item goes to the medium-scatter queue and nowhere else; besides its pixel sample nothing else changes |
| PathIntegrator.MediumSampleStepEscaped | src/pbrt/gpu/media.cpp:164-175 | without scattering the medium-scatter queue is unchanged, and the escaped-ray queue gains the item with the path state after free flight iff tMax is infinite and the queue exists; under the corrected routing that is the only change for a miss |
| PathIntegrator.MediumSampleStepNoMaterial | src/pbrt/gpu/media.cpp:177-194 | without scattering or a material, at a surface (and as written for any tMax) the transition queue gains the item with the spawned ray and the path state after free flight; the hit-area-light and material-eval queues are unchanged |
| PathIntegrator.MediumSampleStepMaterial | src/pbrt/gpu/media.cpp:196-224 | without scattering and with a material, at a surface (and as written for any tMax): no transition; a hit-area-light item iff the surface emits; exactly one material-eval item, in the basic queue iff the material and displacement are basic-evaluable, else in the universal queue; all carry the path state after free flight |
| PathIntegrator.MediumSampleStepPixel | src/pbrt/gpu/media.cpp:151-157 | the item's pixel sample becomes old + L (adding a zero L changes nothing); every other pixel sample is unchanged |
| PathIntegrator.MediumSampleStepNoEmissionAtMaxDepth | src/pbrt/gpu/media.cpp:78-80 | at depth >= maxDepth no pixel sample changes |
| PathIntegrator.AddToPixelCommutes | src/pbrt/gpu/media.cpp:152-157 | two successive additions to the pixel samples give the same result in either order |
| PathIntegrator.MediumSampleStepContinuesOnce | src/pbrt/gpu/media.cpp:159-225 | under the corrected routing, with an escaped-ray queue, each item continues in exactly one of the scatter, escaped, transition and material-eval queues |
| PathIntegrator.MediumSampleStageContinuesOnce | src/pbrt/gpu/media.cpp:24-226 | under the corrected routing, with an escaped-ray queue, the first kernel adds exactly one continuation per medium-sample item |
| PathIntegrator.MediumSampleStepAsWrittenContinues | src/pbrt/gpu/media.cpp:159-225 | under the routing as written, with an escaped-ray queue, an item continues once, or twice when its tMax is infinite and it did not scatter |
| PathIntegrator.MediumSampleStageAsWrittenContinues | src/pbrt/gpu/media.cpp:24-226 | under the routing as written, with an escaped-ray queue, the first kernel adds one continuation per item plus one per item that left the scene without scattering |
| PathIntegrator.MediumSampleStepMiss | src/pbrt/gpu/media.cpp:166-194 | a miss without a material that did not scatter gets the escaped item and the transition item (with the path state after free flight) as written, and only the escaped item under the corrected routing |
| PathIntegrator.MediumSampleStageRoutingsAgree | src/pbrt/gpu/media.cpp:159-225 | when every item hit a surface, the first kernel is the same under both routings |
| PathIntegrator.MediumSampleStageRayIndices | src/pbrt/gpu/media.cpp:109-111 | scatter items pushed by the first kernel name rays of the current ray queue, as their source items do |
| PathIntegrator.MediumScatterStep | src/pbrt/gpu/media.cpp:232-312 | one scatter item changes only the shadow-ray queue and the next bounce's ray queue, each keeping its old contents as a prefix and growing by at most one entry; the ray queue being traced is unchanged (the items pushed are stated by MediumScatterStepPushes) |
| PathIntegrator.MediumScatterStepPushes | src/pbrt/gpu/media.cpp:262-310 | the shadow-ray queue gains exactly the item's DirectLighting shadow ray, if any, and ray queue (depth+1)&1 exactly its surviving IndirectRay, if any |
| PathIntegrator.MediumScatterStageShadowRays | src/pbrt/gpu/media.cpp:230-277 | the second kernel appends to the shadow-ray queue the items' shadow rays in medium-scatter queue order |
| PathIntegrator.MediumScatterStageIndirectRays | src/pbrt/gpu/media.cpp:279-310 | the second kernel appends to ray queue (depth+1)&1 the items' surviving indirect rays in medium-scatter queue order |
| PathIntegrator.MediumScatterStage | src/pbrt/gpu/media.cpp:230-313 | the second kernel changes only the shadow-ray queue and the next bounce's ray queue; it never touches the ray queue being traced |
| PathIntegrator.MediumScatterStageAppends | src/pbrt/gpu/media.cpp:230-313 | the shadow-ray queue and the next ray queue keep their old contents as a prefix and grow by at most one entry per scatter item |
| PathIntegrator.SampleMediumInteractionStage | src/pbrt/gpu/media.cpp:23-314 | both kernels together keep the number of ray queues and pixels, and leave the ray queue being traced unchanged |
| PathIntegrator.TransitionRay | src/pbrt/gpu/media.cpp:325-328 | the ray-queue entry reads back as the transition item: every field is copied unchanged |
| PathIntegrator.TransitionRays | src/pbrt/gpu/media.cpp:317-331 | one entry per transition item, in order, each reading back as its item |
| PathIntegrator.Integrator.constructor | src/pbrt/gpu/media.cpp:23-26 | an integrator with the given depth limit, escaped-ray-queue presence, routing rule, pixel samples, medium-sample queue and ray samples; every other queue is empty |
| PathIntegrator.Integrator.SampleFreeFlight | src/pbrt/gpu/media.cpp:49-143 | running the callback over the majorant samples until it returns false yields FreeFlight |
| PathIntegrator.Integrator.AddEmission | src/pbrt/gpu/media.cpp:151-157 | only the pixel sample changes, and only when L is nonzero |
| PathIntegrator.Integrator.EnqueueMediumSample | src/pbrt/gpu/media.cpp:159-225 | the branching pushes equal Enqueue under the integrator's routing rule; with AsWritten the escaped push falls through to the surface checks as in the code |
| PathIntegrator.Integrator.EnqueueAtSurface | src/pbrt/gpu/media.cpp:177-225 | the pushes after the escaped-ray check equal the as-written routing's pushes other than the escaped one |
| PathIntegrator.Integrator.ProcessMediumSample | src/pbrt/gpu/media.cpp:26-225 | one item's processing equals MediumSampleStep on the integrator state, under the integrator's routing rule |
| PathIntegrator.Integrator.MediumSampleKernel | src/pbrt/gpu/media.cpp:24-226 | the loop over the medium-sample queue equals MediumSampleStage under the integrator's routing rule |
| PathIntegrator.Integrator.ProcessMediumScatter | src/pbrt/gpu/media.cpp:232-312 | one scatter item's processing reads its ray's samples from queue depth&1 and equals MediumScatterStep |
| PathIntegrator.Integrator.DirectIndirectKernel | src/pbrt/gpu/media.cpp:230-313 | the loop over the medium-scatter queue equals MediumScatterStage |
| PathIntegrator.Integrator.SampleMediumInteraction | src/pbrt/gpu/media.cpp:23-314 | both kernels in turn equal SampleMediumInteractionStage under the integrator's routing rule |
| PathIntegrator.Integrator.HandleMediumTransitions | src/pbrt/gpu/media.cpp:316-332 | the next ray queue gains TransitionRays of the transition queue, in order; nothing else changes |

What `MediumScatter.DirectLightingSpec` states about a pushed shadow ray:

- The ray runs from the scattering point toward the light point, in the
  item's medium, at time 0.
- Its tMax is 1 - ShadowEpsilon, which lies in (0, 1).
- Ld = beta * p * L, sample by sample.
- pdfNEE = pdfUni * ls.pdf * sampledLight.pdf.
- pdfUni = pdfUni * (0 for a delta light, else the phase density).

## Left out

- Parallel execution: `ForAllQueued` kernel launches, the atomic slot
  reservation behind `Push` and `PushIndirect`, and the queue capacity
  `maxQueueSize`. A push is a sequential append, and a kernel processes its
  items in queue order.
- `MediumSampleStage`, `MediumScatterStage`: these do not model the order in
  which GPU threads run, or their interleaving. `AddToPixelCommutes` shows
  only that two successive additions to the pixel samples commute. That the
  whole kernel's pixel result does not depend on item order is not proved.
  The read-modify-write at lines 153-154 is not atomic, which the model does
  not capture.
- The internals of `SampleTmaj`, `RNG`, `Hash` and `SampleDiscrete`. The
  majorant samples and the chosen event index are inputs.
  - An index other than 0 or 1 is handled as a null collision, as the code's
    `else` branch does.
  - `ModeConsistent` states what `SampleDiscrete` guarantees. It is required
    only by `TransparentMediumOnlyNullCollisions`.
- Light sampling (`lightSampler.Sample`, `SampleLi`) and the
  Henyey-Greenstein phase function (`p`, `PDF`, `Sample_p`). Their results
  are inputs in `ScatterSampling`.
- `Interaction::SpawnRay` is an input function.
- `Dispatch` to the material's concrete type and the per-type material-eval
  sub-queues: a material-eval push is one entry in the basic or universal
  queue. `CanEvaluateTextures` and `CanEvaluate` on the displacement are
  booleans carried by the material handle.
- IEEE floating point. The model uses reals.
  - `0x1p24f` rescaling is exact in floats (a power of two), and exact here.
  - `Spectra.DivScalar`: a zero divisor (which gives inf or NaN in IEEE)
    gives the zero spectrum. This affects the emission term when
    `sigma_maj[0] * avg(pdfUni)` is 0: the model adds no emission, where the
    float code adds inf or NaN. It also affects the roulette test when
    `avg(pdfUni * pdf)` is 0. The model's `rrBeta` is then 0, so at
    depth > 1 roulette applies with q = 1 and the indirect ray is always
    dropped. In the float code `rrBeta` is inf or NaN,
    `MaxComponentValue() < 1` is false, and the ray is kept.
  - `MediumEvents.Probabilities` requires `sigma_maj[0] != 0`. It is not used
    by the callback, because the event index is an input.
- `sigma_n()` is defined in a header that is not part of this model. It is
  taken as `max(0, sigma_maj - sigma_a - sigma_s)`, following pbrt's
  documented definition.
- `ShadowEpsilon` is defined in a header that is not part of this model. The
  value 0.0001 is pbrt's.
- An empty `sampledLight` optional, which line 243 dereferences without a
  check, is modelled as "no light chosen" (no shadow ray).
- The cast of the phase function to `HGPhaseFunction` at lines 106-107: the
  null result of a failed cast is not modelled. The interaction's phase
  function is taken as Henyey-Greenstein.
- The `time = 0` of the spawned rays is modelled as written. The `DBG`
  tracing and the `#if 0` block at lines 186-192 are left out.
- Geometry (points, normals, ray differentials) is kept only as far as the
  stages copy it. The escaped, hit-area-light and transition items carry the
  previous vertex as one `PrevVertex` value (`piPrev`, `nPrev`, `nsPrev`).

## Findings

| source | as written | input that shows it | evidently intended | confidence | as-written member | corrected member |
|---|---|---|---|---|---|---|
| src/pbrt/gpu/media.cpp:166-194 | after the escaped-ray push for `tMax == Infinity` there is no `return`, so routing falls through to the material checks | a ray that missed every surface (tMax infinite, no material), not scattered, with an escaped-ray queue: it is pushed to the escaped-ray queue AND a medium-transition item is spawned from the unset hit point | a ray that left the scene ends at the escaped-ray queue; each item continues in exactly one queue | not executed; high | Routing.RouteAsWrittenMissAlsoTransitions | Routing.Route |

`Routing.RouteAsWritten` is the routing as written and `Routing.Route` the
corrected one. The first kernel (`PathIntegrator.Enqueue`,
`MediumSampleStep`, `MediumSampleStage` and the `Integrator` methods) takes a
`RoutingRule` that selects either, and the `Integrator`'s `routing` field
fixes it. With `AsWritten`, `EnqueueMediumSample` has no `return` after the
escaped push, as in the code.

- `Routing.RouteAgreesOnHits` and `PathIntegrator.MediumSampleStageRoutingsAgree`
  show the two routings differ only for misses.
- `PathIntegrator.MediumSampleStepMiss` exhibits the double push at kernel
  level.
- `PathIntegrator.MediumSampleStageAsWrittenContinues` counts the extra
  continuations of the kernel as written.
- `PathIntegrator.MediumSampleStageContinuesOnce` proves one continuation per
  item for the corrected routing.
