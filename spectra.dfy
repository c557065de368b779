/** Sampled spectra: every radiometric quantity of the wavefront integrator is
    carried at four wavelength samples, and the arithmetic on it is
    component-wise (pbrt's SampledSpectrum). */
module Spectra {

  /** Four wavelength samples (NSpectrumSamples). */
  type Spectrum = s: seq<real> | |s| == 4 witness [0.0, 0.0, 0.0, 0.0]

  function MaxReal(x: real, y: real): (m: real)
    ensures m >= x && m >= y && (m == x || m == y)
  {
    if x >= y then x else y
  }

  /** The spectrum with the same value at every sample. */
  function Const(c: real): (r: Spectrum)
    ensures forall i :: 0 <= i < 4 ==> r[i] == c
  {
    seq(4, i => c)
  }

  function Add(a: Spectrum, b: Spectrum): (r: Spectrum)
    ensures forall i :: 0 <= i < 4 ==> r[i] == a[i] + b[i]
  {
    seq(4, i requires 0 <= i < 4 => a[i] + b[i])
  }

  function Sub(a: Spectrum, b: Spectrum): (r: Spectrum)
    ensures forall i :: 0 <= i < 4 ==> r[i] == a[i] - b[i]
  {
    seq(4, i requires 0 <= i < 4 => a[i] - b[i])
  }

  function Mul(a: Spectrum, b: Spectrum): (r: Spectrum)
    ensures forall i :: 0 <= i < 4 ==> r[i] == a[i] * b[i]
  {
    seq(4, i requires 0 <= i < 4 => a[i] * b[i])
  }

  /** Multiplication by a scalar (SampledSpectrum * Float). */
  function Scale(a: Spectrum, k: real): (r: Spectrum)
    ensures forall i :: 0 <= i < 4 ==> r[i] == a[i] * k
  {
    seq(4, i requires 0 <= i < 4 => a[i] * k)
  }

  /** Division by a scalar (SampledSpectrum / Float). A zero divisor, which
      yields infinities or NaNs in IEEE arithmetic, gives the zero spectrum. */
  function DivScalar(a: Spectrum, d: real): (r: Spectrum)
    ensures d != 0.0 ==> forall i :: 0 <= i < 4 ==> r[i] == a[i] / d
    ensures d == 0.0 ==> r == Const(0.0)
  {
    if d == 0.0 then Const(0.0) else seq(4, i requires 0 <= i < 4 => a[i] / d)
  }

  /** Component-wise max(0, a[i]). */
  function ClampZero(a: Spectrum): (r: Spectrum)
    ensures forall i :: 0 <= i < 4 ==> r[i] >= 0.0 && r[i] >= a[i]
    ensures forall i :: 0 <= i < 4 ==> a[i] >= 0.0 ==> r[i] == a[i]
    ensures forall i :: 0 <= i < 4 ==> a[i] < 0.0 ==> r[i] == 0.0
  {
    seq(4, i requires 0 <= i < 4 => MaxReal(0.0, a[i]))
  }

  function Average(a: Spectrum): real {
    (a[0] + a[1] + a[2] + a[3]) / 4.0
  }

  /** SampledSpectrum::MaxComponentValue: the largest sample. */
  function MaxComponent(a: Spectrum): (m: real)
    ensures forall i :: 0 <= i < 4 ==> a[i] <= m
    ensures exists i :: 0 <= i < 4 && a[i] == m
  {
    MaxReal(MaxReal(a[0], a[1]), MaxReal(a[2], a[3]))
  }

  /** SampledSpectrum's conversion to bool: some sample is nonzero. */
  predicate NonZero(a: Spectrum)
    ensures NonZero(a) <==> exists i :: 0 <= i < 4 && a[i] != 0.0
  {
    a[0] != 0.0 || a[1] != 0.0 || a[2] != 0.0 || a[3] != 0.0
  }

  predicate NonNegative(a: Spectrum) {
    forall i :: 0 <= i < 4 ==> a[i] >= 0.0
  }

  /** Spectra are equal when all four samples are. */
  lemma Ext(a: Spectrum, b: Spectrum)
    requires forall i :: 0 <= i < 4 ==> a[i] == b[i]
    ensures a == b
  {
  }

  /** The largest sample exceeds t exactly when some sample does. */
  lemma MaxComponentExceeds(a: Spectrum, t: real)
    ensures MaxComponent(a) > t <==> exists i :: 0 <= i < 4 && a[i] > t
  {
  }

  lemma AverageNonNegative(a: Spectrum)
    requires NonNegative(a)
    ensures Average(a) >= 0.0
  {
  }

  lemma MulNonNegative(a: Spectrum, b: Spectrum)
    requires NonNegative(a) && NonNegative(b)
    ensures NonNegative(Mul(a, b))
  {
    forall i | 0 <= i < 4 ensures Mul(a, b)[i] >= 0.0 {
      assert Mul(a, b)[i] == a[i] * b[i];
    }
  }

  lemma ScaleNonNegative(a: Spectrum, k: real)
    requires NonNegative(a) && k >= 0.0
    ensures NonNegative(Scale(a, k))
  {
    forall i | 0 <= i < 4 ensures Scale(a, k)[i] >= 0.0 {
      assert Scale(a, k)[i] == a[i] * k;
    }
  }

  lemma DivScalarNonNegative(a: Spectrum, d: real)
    requires NonNegative(a) && d >= 0.0
    ensures NonNegative(DivScalar(a, d))
  {
    if d != 0.0 {
      forall i | 0 <= i < 4 ensures DivScalar(a, d)[i] >= 0.0 {
        assert DivScalar(a, d)[i] == a[i] / d;
      }
    }
  }
}
