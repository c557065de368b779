/** Geometry, handles and the work items carried by the wavefront queues.
    Geometry is kept as plain coordinates; only the fields the medium stages
    read or copy are modelled. */
module WorkItems {
  import opened Spectra

  datatype Option<+T> = None | Some(value: T)

  function OptionToSeq<T>(o: Option<T>): (s: seq<T>)
    ensures o.None? ==> s == []
    ensures o.Some? ==> s == [o.value]
  {
    if o.Some? then [o.value] else []
  }

  /** A point, vector or normal in 3-space. */
  datatype Vec3 = Vec3(x: real, y: real, z: real) {
    function Neg(): Vec3 {
      Vec3(-x, -y, -z)
    }

    function Minus(b: Vec3): Vec3 {
      Vec3(x - b.x, y - b.y, z - b.z)
    }
  }

  const ZERO_NORMAL: Vec3 := Vec3(0.0, 0.0, 0.0)

  datatype Point2 = Point2(u: real, v: real)

  /** A medium handle; None is the null handle (no participating medium). */
  type MediumRef = Option<nat>

  datatype Ray = Ray(o: Vec3, d: Vec3, time: real, medium: MediumRef)

  datatype MediumInterface = MediumInterface(inside: MediumRef, outside: MediumRef)

  /** The wavelengths a path carries; never changed by the medium stages. */
  datatype SampledWavelengths = SampledWavelengths(lambda: Spectrum, pdf: Spectrum)

  datatype HGPhaseFunction = HGPhaseFunction(g: real)

  /** The end of the ray segment in the medium: the distance to the surface
      hit, or Infinity when the ray missed every surface. */
  datatype Distance = Finite(t: real) | Infinity

  datatype LightType = DeltaPosition | DeltaDirection | Area | Infinite

  /** A light handle together with its type. */
  datatype Light = Light(id: nat, lightType: LightType)

  /** Point and directional lights are delta lights. */
  predicate IsDeltaLight(t: LightType) {
    t == DeltaPosition || t == DeltaDirection
  }

  /** A float texture handle; basicEvaluable is the answer of
      BasicTextureEvaluator().CanEvaluate for it. */
  datatype FloatTexture = FloatTexture(id: nat, basicEvaluable: bool)

  /** A material handle: its dynamic type tag, the answer of
      CanEvaluateTextures(BasicTextureEvaluator()), and its displacement. */
  datatype Material = Material(tag: nat, basicTextures: bool, displacement: Option<FloatTexture>)

  /** The previous path vertex kept for MIS at the next bounce. */
  datatype PrevVertex = PrevVertex(pi: Vec3, n: Vec3, ns: Vec3)

  /** The surface hit that ends a medium segment (meaningless for a miss). */
  datatype SurfaceHit = SurfaceHit(
    pi: Vec3, n: Vec3, ns: Vec3,
    dpdus: Vec3, dpdvs: Vec3, dndus: Vec3, dndvs: Vec3,
    uv: Point2)

  /** The per-ray uniform samples stored beside a ray queue. */
  datatype RaySamples = RaySamples(
    directUc: real, directU: Point2,
    indirectUc: real, indirectU: Point2, indirectRr: real)

  datatype MediumSampleWorkItem = MediumSampleWorkItem(
    ray: Ray, tMax: Distance, lambda: SampledWavelengths,
    beta: Spectrum, pdfUni: Spectrum, pdfNEE: Spectrum,
    rayIndex: nat, pixelIndex: nat,
    prev: PrevVertex, isSpecularBounce: bool, anyNonSpecularBounces: bool, etaScale: real,
    material: Option<Material>, areaLight: Option<Light>,
    hit: SurfaceHit, mediumInterface: MediumInterface)

  datatype MediumScatterWorkItem = MediumScatterWorkItem(
    p: Vec3, lambda: SampledWavelengths, beta: Spectrum, pdfUni: Spectrum,
    rayIndex: nat, phase: HGPhaseFunction, wo: Vec3, etaScale: real,
    medium: MediumRef, pixelIndex: nat)

  datatype EscapedRayWorkItem = EscapedRayWorkItem(
    beta: Spectrum, pdfUni: Spectrum, pdfNEE: Spectrum, lambda: SampledWavelengths,
    rayO: Vec3, rayD: Vec3, prev: PrevVertex, specularBounce: bool, pixelIndex: nat)

  datatype MediumTransitionWorkItem = MediumTransitionWorkItem(
    ray: Ray, lambda: SampledWavelengths,
    beta: Spectrum, pdfUni: Spectrum, pdfNEE: Spectrum,
    prev: PrevVertex, isSpecularBounce: bool, anyNonSpecularBounces: bool,
    etaScale: real, pixelIndex: nat)

  datatype HitAreaLightWorkItem = HitAreaLightWorkItem(
    areaLight: Light, lambda: SampledWavelengths,
    beta: Spectrum, pdfUni: Spectrum, pdfNEE: Spectrum,
    p: Vec3, n: Vec3, uv: Point2, wo: Vec3, prev: PrevVertex,
    rayD: Vec3, time: real, isSpecularBounce: bool, pixelIndex: nat)

  datatype MaterialEvalWorkItem = MaterialEvalWorkItem(
    material: Material, lambda: SampledWavelengths, beta: Spectrum, pdfUni: Spectrum,
    hit: SurfaceHit, wo: Vec3, time: real, anyNonSpecularBounces: bool, etaScale: real,
    mediumInterface: MediumInterface, rayIndex: nat, pixelIndex: nat)

  datatype ShadowRayWorkItem = ShadowRayWorkItem(
    ray: Ray, tMax: real, lambda: SampledWavelengths,
    Ld: Spectrum, pdfUni: Spectrum, pdfNEE: Spectrum, pixelIndex: nat)

  /** An entry of a ray queue, as written by RayQueue::PushIndirect. */
  datatype RayWorkItem = RayWorkItem(
    ray: Ray, prev: PrevVertex,
    beta: Spectrum, pdfUni: Spectrum, pdfNEE: Spectrum, lambda: SampledWavelengths,
    etaScale: real, isSpecularBounce: bool, anyNonSpecularBounces: bool, pixelIndex: nat)
}
