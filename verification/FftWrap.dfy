/** fftwrap.c over kiss_fftr: the scaled forward and the unscaled inverse transform that
    the canceller and the preprocessor use, and their round trip. */
module FftWrap {
  import opened Options
  import opened Complex
  import opened Sums
  import opened RootsOfUnity
  import opened Fourier
  import opened Inversion
  import opened HalfComplex
  import opened KissFactor
  import opened MixedRadix
  import opened KissFftr

  // ---- what the two transforms compute ----

  /** The scale of the forward transform. */
  function OneOver(n: nat): real {
    if n == 0 then 0.0 else 1.0 / n as real
  }

  function ScaledBin(n: nat, w: int -> Cpx, x: int -> Cpx, k: int): Cpx {
    Scale(OneOver(n), Dft(n, w, x, k))
  }

  function ScaledSpectrum(n: nat, w: int -> Cpx, x: int -> Cpx): int -> Cpx {
    k => ScaledBin(n, w, x, k)
  }

  /** spx_fft: the packed transform of x over its length. */
  function Fft(w: int -> Cpx, x: seq<real>): (f: seq<real>)
    ensures |f| == |x|
  {
    Packed(|x|, ScaledSpectrum(|x|, w, RealSignal(x)))
  }

  /** spx_ifft: the real samples of the unscaled inverse transform. */
  function Ifft(w: int -> Cpx, f: seq<real>): (x: seq<real>)
    ensures |x| == |f|
  {
    seq(|f|, t => InverseDft(|f|, w, Unpacked(f), t).re)
  }

  lemma ScaledHermitian(n: nat, w: int -> Cpx, x: int -> Cpx)
    requires Root(n, w) && IsReal(x)
    ensures n > 0 && Hermitian(n, ScaledSpectrum(n, w, x))
  {
    hide Root, Mul, Dft, IsReal, Scale, Conj;
    RootUnit(n, w);
    RealHermitian(n, w, x);
    var c := OneOver(n);
    var u := Spectrum(n, w, x);
    var v := ScaledSpectrum(n, w, x);
    ScaleConj(c, u(0));
    forall k | 0 < k < n
      ensures v(n - k) == Conj(v(k))
    {
      HermitianAt(n, u, k);
      ScaleConj(c, u(k));
    }
  }

  lemma ScaleConj(c: real, a: Cpx)
    ensures Conj(Scale(c, a)) == Scale(c, Conj(a))
  {
  }

  /** What the forward transform writes where: N times entry 0 and entry N-1 are the sums of
      the samples against bins 0 and N/2, N times the entries 2k-1 and 2k the real and the
      imaginary part of bin k. */
  lemma FftWrites(w: int -> Cpx, x: seq<real>, k: int)
    requires |x| >= 2 && |x| % 2 == 0 && 0 <= k <= |x| / 2
    ensures var n, f := |x|, Fft(w, x);
            var bin := Sum(n, j => Mul(Real(RealAt(x, j)), w(j * k)));
            && (k == 0 ==> n as real * f[0] == bin.re)
            && (k == n / 2 ==> n as real * f[n - 1] == bin.re)
            && (0 < k < n / 2 ==> n as real * f[2 * k - 1] == bin.re && n as real * f[2 * k] == bin.im)
  {
    hide Mul, Sum, Scale;
    var n := |x|;
    var u := ScaledSpectrum(n, w, RealSignal(x));
    forall j | 0 <= j < n
      ensures RealSignal(x)(j) == Real(RealAt(x, j))
    {
    }
    SumExt(n, j => Mul(Real(RealAt(x, j)), w(j * k)), j => Mul(RealSignal(x)(j), w(j * k)));
    TimesOneOver(n, Dft(n, w, RealSignal(x), k));
    if 0 < k < n / 2 {
      PackedBin(n, u, k);
    }
  }

  lemma TimesOneOver(n: nat, a: Cpx)
    requires n > 0
    ensures n as real * Scale(OneOver(n), a).re == a.re && n as real * Scale(OneOver(n), a).im == a.im
  {
    var c := 1.0 / n as real;
    assert n as real * c == 1.0;
    assert n as real * (c * a.re) == n as real * c * a.re && n as real * (c * a.im) == n as real * c * a.im;
  }

  lemma FftBin(w: int -> Cpx, x: seq<real>, k: int)
    requires |x| >= 2 && |x| % 2 == 0 && Root(|x|, w) && 0 <= k < |x|
    ensures Unpacked(Fft(w, x))(k) == ScaledSpectrum(|x|, w, RealSignal(x))(k)
  {
    hide Root, IsReal, Hermitian, Unpacked, Packed, ScaledSpectrum, RealSignal;
    RealSignalIsReal(x);
    ScaledHermitian(|x|, w, RealSignal(x));
    UnpackPack(|x|, ScaledSpectrum(|x|, w, RealSignal(x)), k);
  }

  /** The inverse transform undoes the forward one exactly. */
  lemma IfftOfFft(w: int -> Cpx, x: seq<real>)
    requires |x| >= 2 && |x| % 2 == 0 && Root(|x|, w)
    ensures Ifft(w, Fft(w, x)) == x
  {
    hide Root, Unpacked, Packed, ScaledSpectrum, InverseDft, Dft, Mul, Fft;
    var n := |x|;
    forall t | 0 <= t < n
      ensures InverseDft(n, w, Unpacked(Fft(w, x)), t) == Real(x[t])
    {
      FftSample(w, x, t);
    }
  }

  lemma FftSample(w: int -> Cpx, x: seq<real>, t: int)
    requires |x| >= 2 && |x| % 2 == 0 && Root(|x|, w) && 0 <= t < |x|
    ensures InverseDft(|x|, w, Unpacked(Fft(w, x)), t) == Real(x[t])
  {
    hide Root, Unpacked, Packed, ScaledSpectrum, InverseDft, Dft, Mul, Fft;
    var n := |x|;
    var u := ScaledSpectrum(n, w, RealSignal(x));
    forall k | 0 <= k < n
      ensures Unpacked(Fft(w, x))(k) == u(k)
    {
      FftBin(w, x, k);
    }
    InverseExt(n, w, Unpacked(Fft(w, x)), u, t);
    InverseScaled(n, w, RealSignal(x), t);
    DftInverted(n, w, RealSignal(x), t);
    ScaleBack(n, x[t]);
  }

  lemma ScaleBack(n: nat, a: real)
    requires n > 0
    ensures Scale(OneOver(n), Scale(n as real, Real(a))) == Real(a)
  {
  }

  lemma InverseScaled(n: nat, w: int -> Cpx, x: int -> Cpx, t: int)
    requires n > 0
    ensures InverseDft(n, w, ScaledSpectrum(n, w, x), t)
         == Scale(OneOver(n), InverseDft(n, w, Spectrum(n, w, x), t))
  {
    hide Mul, Sum, Dft, Scale;
    var c := OneOver(n);
    var f := k => Mul(Spectrum(n, w, x)(k), w(-(k * t)));
    var g := k => Mul(ScaledSpectrum(n, w, x)(k), w(-(k * t)));
    forall k
      ensures g(k) == Mul(Real(c), f(k))
    {
      ScaledTerm(n, w, x, k, w(-(k * t)));
    }
    SumExt(n, g, k => Mul(Real(c), f(k)));
    SumMul(n, Real(c), f);
    MulReal(Sum(n, f), c);
  }

  lemma ScaledTerm(n: nat, w: int -> Cpx, x: int -> Cpx, k: int, z: Cpx)
    requires n > 0
    ensures Mul(ScaledSpectrum(n, w, x)(k), z) == Mul(Real(OneOver(n)), Mul(Spectrum(n, w, x)(k), z))
  {
    hide Mul, Dft, Scale;
    ScaleMul(OneOver(n), Dft(n, w, x, k), z);
  }

  lemma ScaleMul(c: real, a: Cpx, b: Cpx)
    ensures Mul(Scale(c, a), b) == Mul(Real(c), Mul(a, b)) == Scale(c, Mul(a, b))
  {
  }

  // ---- the other round trip ----

  /** The forward sum of an inverse transform is the inverse sum under the conjugate root. */
  lemma DftOfInverse(n: nat, w: int -> Cpx, u: int -> Cpx, k: int)
    requires Root(n, w) && 0 <= k < n
    ensures Dft(n, w, t => InverseDft(n, w, u, t), k) == Scale(n as real, u(k))
  {
    hide Root, Mul, Sum, InverseDft, Dft;
    var v := (e: int) => w(-e);
    ConjugateRoot(n, w);
    forall t
      ensures Dft(n, v, u, t) == InverseDft(n, w, u, t)
    {
      InverseIsDft(n, w, u, t);
    }
    DftExt(n, w, t => InverseDft(n, w, u, t), Spectrum(n, v, u), k);
    DftIsInverse(n, w, Spectrum(n, v, u), k);
    DftInverted(n, v, u, k);
  }

  lemma InverseIsDft(n: nat, w: int -> Cpx, u: int -> Cpx, t: int)
    ensures Dft(n, e => w(-e), u, t) == InverseDft(n, w, u, t)
  {
    hide Mul, Sum;
    SumExt(n, j => Mul(u(j), (e => w(-e))(j * t)), k => Mul(u(k), w(-(k * t))));
  }

  lemma DftIsInverse(n: nat, w: int -> Cpx, u: int -> Cpx, t: int)
    ensures InverseDft(n, e => w(-e), u, t) == Dft(n, w, u, t)
  {
    hide Mul, Sum;
    SumExt(n, k => Mul(u(k), (e => w(-e))(-(k * t))), j => Mul(u(j), w(j * t)));
  }

  lemma ConjugateRoot(n: nat, w: int -> Cpx)
    requires Root(n, w)
    ensures Root(n, e => w(-e))
  {
    hide Additive, OnCircle, Mul;
    var v := (e: int) => w(-e);
    ConjugateAdditive(w);
    ConjugateOnCircle(w);
    RootConj(n, w, n);
    forall e | 0 < e < n
      ensures v(e) != ONE
    {
      RootPrimitive(n, w, e);
      RootConj(n, w, e);
    }
  }

  lemma ConjugateAdditive(w: int -> Cpx)
    requires Additive(w)
    ensures Additive(e => w(-e))
  {
    hide Mul, Additive;
    var v := (e: int) => w(-e);
    forall a, b
      ensures v(a + b) == Mul(v(a), v(b))
    {
      assert -(a + b) == -a + -b;
      AdditiveAt(w, -a, -b);
    }
    IsAdditive(v);
  }

  lemma IsAdditive(v: int -> Cpx)
    requires forall a, b :: v(a + b) == Mul(v(a), v(b))
    ensures Additive(v)
  {
    hide Mul;
  }

  lemma AdditiveAt(w: int -> Cpx, a: int, b: int)
    requires Additive(w)
    ensures w(a + b) == Mul(w(a), w(b))
  {
  }

  lemma ConjugateOnCircle(w: int -> Cpx)
    requires OnCircle(w)
    ensures OnCircle(e => w(-e))
  {
    hide Conj;
    var v := (e: int) => w(-e);
    forall a
      ensures v(-a) == Conj(v(a))
    {
      CircleAt(w, -a);
    }
  }

  lemma CircleAt(w: int -> Cpx, a: int)
    requires OnCircle(w)
    ensures w(-a) == Conj(w(a))
  {
  }

  /** The forward transform undoes the inverse one, too. */
  lemma FftOfIfft(w: int -> Cpx, f: seq<real>)
    requires |f| >= 2 && |f| % 2 == 0 && Root(|f|, w)
    ensures Fft(w, Ifft(w, f)) == f
  {
    hide Root, Unpacked, Packed, ScaledSpectrum, InverseDft, Dft, Mul, Hermitian;
    var n := |f|;
    var u := Unpacked(f);
    var y := RealSignal(Ifft(w, f));
    UnpackedHermitian(f);
    forall t | 0 <= t < n
      ensures y(t) == InverseDft(n, w, u, t)
    {
      HermitianReal(n, w, u, t);
    }
    forall k | 0 <= k < n
      ensures ScaledSpectrum(n, w, y)(k) == u(k)
    {
      DftExt(n, w, y, t => InverseDft(n, w, u, t), k);
      DftOfInverse(n, w, u, k);
      ScaleDown(n, w, y, k, u(k));
    }
    PackedExt(n, ScaledSpectrum(n, w, y), u);
    PackUnpack(f);
  }

  lemma ScaleDown(n: nat, w: int -> Cpx, y: int -> Cpx, k: int, c: Cpx)
    requires n > 0 && Dft(n, w, y, k) == Scale(n as real, c)
    ensures ScaledSpectrum(n, w, y)(k) == c
  {
    hide Dft;
  }

  lemma PackedExt(n: nat, u: int -> Cpx, v: int -> Cpx)
    requires n >= 2 && forall k :: 0 <= k < n ==> u(k) == v(k)
    ensures Packed(n, u) == Packed(n, v)
  {
  }

  // ---- the two transforms as the library runs them ----

  /** The table of spx_fft_init: one configuration for each direction, or none where the size
      is odd. */
  datatype Table = Table(forward: Option<RealCfg>, backward: Option<RealCfg>, N: nat)

  /** A configuration for n real samples. */
  ghost predicate Fits(cfg: Option<RealCfg>, n: nat, w: int -> Cpx) {
    && n >= 2 && n % 2 == 0 && cfg.Some? && cfg.value.substate.nfft == n / 2
    && cfg.value.substate.factors == Factors(n / 2, 4) && ValidReal(cfg.value, w)
  }

  /** Both configurations are those of the table's size. */
  ghost predicate ValidTable(t: Table, w: int -> Cpx) {
    && Fits(t.forward, t.N, w) && Fits(t.backward, t.N, w)
    && !t.forward.value.substate.inverse && t.backward.value.substate.inverse
  }

  /** Half the length has no radix that the butterflies refuse. */
  predicate SizeSupported(n: nat) {
    n >= 2 && Supported(Factors(n / 2, 4))
  }

  /** For odd sizes the table holds no configurations, and the transforms would follow null
      pointers. */
  method SpxFftInit(size: nat, cis: real -> Cpx) returns (table: Table)
    requires 0 < size < 0x8000_0000 && IsCis(cis)
    ensures table.N == size
    ensures size % 2 == 1 ==> table.forward.None? && table.backward.None?
    ensures size % 2 == 0 ==> ValidTable(table, Powers(cis, size, false))
    ensures table.forward.Some? ==> fresh(table.forward.value.tmpbuf)
    ensures table.backward.Some? ==> fresh(table.backward.value.tmpbuf)
  {
    hide IsCis, ValidReal, Root, Powers, Factors, Oriented;
    var forward := KissFftrAlloc(size, false, cis);
    var backward := KissFftrAlloc(size, true, cis);
    table := Table(forward, backward, size);
  }

  lemma PackedScaled(n: nat, w: int -> Cpx, x: int -> Cpx, i: int)
    requires n > 0 && 0 <= i < n
    ensures Packed(n, Spectrum(n, w, x))[i] * OneOver(n) == Packed(n, ScaledSpectrum(n, w, x))[i]
  {
    hide Dft;
  }

  /** ok is false where the source stops the process: half the length has a prime factor
      above 17, or the configuration is for the other direction. */
  method SpxFft(table: Table, input: array<real>, output: array<real>, ghost w: int -> Cpx) returns (ok: bool)
    requires Fits(table.forward, table.N, w) && input.Length == output.Length == table.N
    modifies output, table.forward.value.tmpbuf
    ensures ok <==> !table.forward.value.substate.inverse && SizeSupported(table.N)
    ensures ok ==> output[..] == Fft(w, old(input[..]))
  {
    hide ValidReal, Root, Packed, Spectrum, ScaledSpectrum, RealSignal, Supported, Factors;
    ghost var x := RealSignal(input[..]);
    ok := KissFftr2(table.forward.value, input, output, w);
    if ok {
      ScaleAll(output, w, x);
    }
  }

  /** The scaling loop of the forward transform. */
  method ScaleAll(output: array<real>, ghost w: int -> Cpx, ghost x: int -> Cpx)
    requires output.Length > 0 && output[..] == Packed(output.Length, Spectrum(output.Length, w, x))
    modifies output
    ensures output[..] == Packed(output.Length, ScaledSpectrum(output.Length, w, x))
  {
    hide Packed, Spectrum, ScaledSpectrum;
    var n := output.Length;
    var scale := 1.0 / n as real;
    for i := 0 to n
      invariant forall j :: 0 <= j < i ==> output[j] == Packed(n, ScaledSpectrum(n, w, x))[j]
      invariant forall j :: i <= j < n ==> output[j] == Packed(n, Spectrum(n, w, x))[j]
    {
      PackedScaled(n, w, x, i);
      output[i] := output[i] * scale;
    }
  }

  method SpxIfft(table: Table, input: array<real>, output: array<real>, ghost w: int -> Cpx) returns (ok: bool)
    requires Fits(table.backward, table.N, w) && input.Length == output.Length == table.N
    modifies output, table.backward.value.tmpbuf
    ensures ok <==> table.backward.value.substate.inverse && SizeSupported(table.N)
    ensures ok ==> output[..] == Ifft(w, old(input[..]))
  {
    hide ValidReal, Root, Unpacked, InverseDft, Supported, Factors;
    ok := KissFftri2(table.backward.value, input, output, w);
  }
}
