/** Products of packed spectra and overlap-save filtering: the second half of the inverse
    transform of a product is a time-domain filter. */
module Convolution {
  import opened Arith
  import opened Complex
  import opened Sums
  import opened RootsOfUnity
  import opened Fourier
  import opened Inversion
  import opened HalfComplex
  import opened FftWrap

  // ---- real sums ----

  function RealSum(n: nat, f: int -> real): real {
    if n == 0 then 0.0 else RealSum(n - 1, f) + f(n - 1)
  }

  lemma {:induction false} RealSumExt(n: nat, f: int -> real, g: int -> real)
    requires forall i :: 0 <= i < n ==> f(i) == g(i)
    ensures RealSum(n, f) == RealSum(n, g)
  {
    if n > 0 {
      RealSumExt(n - 1, f, g);
    }
  }

  lemma {:induction false} RealSumConcat(a: nat, b: nat, f: int -> real)
    ensures RealSum(a + b, f) == RealSum(a, f) + RealSum(b, i => f(a + i))
  {
    if b > 0 {
      RealSumConcat(a, b - 1, f);
    }
  }

  lemma {:induction false} RealSumZero(n: nat, f: int -> real)
    requires forall i :: 0 <= i < n ==> f(i) == 0.0
    ensures RealSum(n, f) == 0.0
  {
    if n > 0 {
      RealSumZero(n - 1, f);
    }
  }

  lemma {:induction false} RealSumScale(n: nat, c: real, f: int -> real)
    ensures RealSum(n, i => SMul(f(i), c)) == SMul(RealSum(n, f), c)
  {
    hide SMul;
    SMulZero(c);
    if n > 0 {
      RealSumScale(n - 1, c, f);
      SMulAdd(RealSum(n - 1, f), f(n - 1), c);
    }
  }

  lemma RealSumParts(n: nat, f: int -> real)
    ensures RealSum(0, f) == 0.0
    ensures n > 0 ==> RealSum(n, f) == RealSum(n - 1, f) + f(n - 1)
  {
  }

  lemma {:induction false} RealSumAdd(n: nat, f: int -> real, g: int -> real)
    ensures RealSum(n, i => f(i) + g(i)) == RealSum(n, f) + RealSum(n, g)
  {
    if n > 0 {
      RealSumAdd(n - 1, f, g);
    }
  }

  /** Row j of m rows of p terms each. */
  function RowOf(p: nat, f: int -> real, j: int): real {
    RealSum(p, q => f(Times(p, j) + q))
  }

  lemma {:induction false} RealSumRows(p: nat, m: nat, f: int -> real)
    ensures RealSum(Times(p, m), f) == RealSum(m, j => RowOf(p, f, j))
  {
    hide Times, RealSum, RowOf;
    var rows := j => RowOf(p, f, j);
    RealSumParts(m, rows);
    if m == 0 {
      TimesZero(p);
      RealSumParts(0, f);
    } else {
      RealSumRows(p, m - 1, f);
      TimesSuc(p, m);
      RealSumConcat(Times(p, m - 1), p, f);
      RowMeans(p, f, m - 1);
    }
  }

  lemma RowMeans(p: nat, f: int -> real, j: int)
    ensures RowOf(p, f, j) == RealSum(p, q => f(Times(p, j) + q))
  {
    hide Times, RealSum;
  }

  /** Column q of m rows of p terms each. */
  function ColumnOf(p: nat, m: nat, f: int -> real, q: int): real {
    RealSum(m, j => f(Times(p, j) + q))
  }

  lemma ColumnOfParts(p: nat, m: nat, f: int -> real, q: int)
    ensures ColumnOf(p, 0, f, q) == 0.0
    ensures m > 0 ==> ColumnOf(p, m, f, q) == ColumnOf(p, m - 1, f, q) + f(Times(p, m - 1) + q)
  {
    hide Times;
  }

  lemma {:induction false} RealSumColumns(p: nat, m: nat, f: int -> real)
    ensures RealSum(Times(p, m), f) == RealSum(p, q => ColumnOf(p, m, f, q))
  {
    hide Times, RealSum, ColumnOf;
    forall q
      ensures ColumnOf(p, 0, f, q) == 0.0
      ensures m > 0 ==> ColumnOf(p, m, f, q) == ColumnOf(p, m - 1, f, q) + f(Times(p, m - 1) + q)
    {
      ColumnOfParts(p, m, f, q);
    }
    if m == 0 {
      TimesZero(p);
      RealSumParts(0, f);
      RealSumZero(p, q => ColumnOf(p, m, f, q));
    } else {
      var g := q => ColumnOf(p, m - 1, f, q);
      var h := q => f(Times(p, m - 1) + q);
      RealSumColumns(p, m - 1, f);
      TimesSuc(p, m);
      RealSumConcat(Times(p, m - 1), p, f);
      RealSumAdd(p, g, h);
      RealSumExt(p, q => ColumnOf(p, m, f, q), q => g(q) + h(q));
    }
  }

  /** A real sum is a complex sum of real terms. */
  lemma {:induction false} RealSumEmbeds(n: nat, f: int -> real)
    ensures Sum(n, i => Real(f(i))) == Real(RealSum(n, f))
  {
    if n > 0 {
      RealSumEmbeds(n - 1, f);
    }
  }

  // ---- packed spectra ----

  /** The product of two packed spectra: real at the two ends, complex in between. */
  function PackedMulAt(a: seq<real>, b: seq<real>, i: int): real
    requires |a| == |b| && 0 <= i < |a|
  {
    if i == 0 || i == |a| - 1 then SMul(a[i], b[i])
    else if i % 2 == 1 then SMul(a[i], b[i]) - SMul(RealAt(a, i + 1), RealAt(b, i + 1))
    else SMul(a[i], b[i - 1]) + SMul(a[i - 1], b[i])
  }

  function PackedMul(a: seq<real>, b: seq<real>): (r: seq<real>)
    requires |a| == |b|
    ensures |r| == |a|
  {
    seq(|a|, i requires 0 <= i < |a| => PackedMulAt(a, b, i))
  }

  function VecAdd(a: seq<real>, b: seq<real>): (r: seq<real>)
    requires |a| == |b|
    ensures |r| == |a|
  {
    seq(|a|, i requires 0 <= i < |a| => a[i] + b[i])
  }

  function Zeros(n: nat): (r: seq<real>)
    ensures |r| == n
  {
    seq(n, i => 0.0)
  }

  function Ones(n: nat): (r: seq<real>)
    ensures |r| == n
  {
    seq(n, i => 1.0)
  }

  /** Bin by bin, PackedMul is the complex product. */
  lemma UnpackedMul(a: seq<real>, b: seq<real>, k: int)
    requires |a| == |b| && |a| >= 2 && |a| % 2 == 0 && 0 <= k < |a|
    ensures Unpacked(PackedMul(a, b))(k) == Mul(Unpacked(a)(k), Unpacked(b)(k))
  {
    var n := |a|;
    if k == 0 || k == n / 2 {
    } else if k < n / 2 {
      MiddleMul(a, b, k);
    } else {
      MiddleMul(a, b, n - k);
      ConjMul(Cpx(a[2 * (n - k) - 1], a[2 * (n - k)]), Cpx(b[2 * (n - k) - 1], b[2 * (n - k)]));
    }
  }

  lemma MiddleMul(a: seq<real>, b: seq<real>, k: int)
    requires |a| == |b| && |a| % 2 == 0 && 0 < k < |a| / 2
    ensures Cpx(PackedMul(a, b)[2 * k - 1], PackedMul(a, b)[2 * k])
         == Mul(Cpx(a[2 * k - 1], a[2 * k]), Cpx(b[2 * k - 1], b[2 * k]))
  {
    assert (2 * k - 1) % 2 == 1 && (2 * k) % 2 == 0;
  }

  lemma UnpackedAdd(a: seq<real>, b: seq<real>, k: int)
    requires |a| == |b|
    ensures Unpacked(VecAdd(a, b))(k) == Add(Unpacked(a)(k), Unpacked(b)(k))
  {
    hide RealAt, VecAdd;
    EntriesAdd(a, b);
  }

  lemma EntriesAdd(a: seq<real>, b: seq<real>)
    requires |a| == |b|
    ensures forall i :: RealAt(VecAdd(a, b), i) == RealAt(a, i) + RealAt(b, i)
  {
  }

  /** The inverse transform is additive. */
  lemma IfftAdd(w: int -> Cpx, a: seq<real>, b: seq<real>)
    requires |a| == |b|
    ensures Ifft(w, VecAdd(a, b)) == VecAdd(Ifft(w, a), Ifft(w, b))
  {
    hide Unpacked, VecAdd, Mul, InverseDft;
    var n := |a|;
    forall t | 0 <= t < n
      ensures InverseDft(n, w, Unpacked(VecAdd(a, b)), t).re
           == InverseDft(n, w, Unpacked(a), t).re + InverseDft(n, w, Unpacked(b), t).re
    {
      InverseAdd(w, a, b, t);
    }
    VecAddAt(Ifft(w, a), Ifft(w, b));
  }

  lemma VecAddAt(a: seq<real>, b: seq<real>)
    requires |a| == |b|
    ensures forall i :: 0 <= i < |a| ==> VecAdd(a, b)[i] == a[i] + b[i]
  {
  }

  lemma InverseAdd(w: int -> Cpx, a: seq<real>, b: seq<real>, t: int)
    requires |a| == |b|
    ensures InverseDft(|a|, w, Unpacked(VecAdd(a, b)), t)
         == Add(InverseDft(|a|, w, Unpacked(a), t), InverseDft(|a|, w, Unpacked(b), t))
  {
    hide Unpacked, VecAdd, Mul, Add, Sum;
    var n := |a|;
    var f := k => Mul(Unpacked(a)(k), w(-(k * t)));
    var g := k => Mul(Unpacked(b)(k), w(-(k * t)));
    var h := k => Mul(Unpacked(VecAdd(a, b))(k), w(-(k * t)));
    forall k
      ensures h(k) == Add(f(k), g(k))
    {
      UnpackedAdd(a, b, k);
      MulAdd(w(-(k * t)), Unpacked(a)(k), Unpacked(b)(k));
    }
    SumExt(n, h, k => Add(f(k), g(k)));
    SumAdd(n, f, g);
  }

  lemma IfftZeros(w: int -> Cpx, n: nat)
    ensures Ifft(w, Zeros(n)) == Zeros(n)
  {
    hide Unpacked, Mul, Zeros, Sum;
    forall t | 0 <= t < n
      ensures InverseDft(n, w, Unpacked(Zeros(n)), t) == ZERO
    {
      forall k
        ensures Mul(Unpacked(Zeros(n))(k), w(-(k * t))) == ZERO
      {
        ZeroBin(n, k);
        MulOne(w(-(k * t)));
      }
      SumZero(n, k => Mul(Unpacked(Zeros(n))(k), w(-(k * t))));
    }
    ZerosAt(n);
  }

  lemma ZeroBin(n: nat, k: int)
    ensures Unpacked(Zeros(n))(k) == ZERO
  {
  }

  lemma ZerosAt(n: nat)
    ensures forall i :: 0 <= i < n ==> Zeros(n)[i] == 0.0
  {
  }

  /** The spectrum of silence is silent. */
  lemma FftZeros(w: int -> Cpx, n: nat)
    requires n >= 2 && n % 2 == 0 && Root(n, w)
    ensures Fft(w, Zeros(n)) == Zeros(n)
  {
    hide Root, Fft, Ifft, Zeros;
    IfftZeros(w, n);
    FftOfIfft(w, Zeros(n));
  }

  // ---- products are convolutions ----

  /** Sample b of h delays the other signal by b. */
  function DelayTerm(w: int -> Cpx, u: int -> Cpx, h: int -> Cpx, t: int, k: int, b: int): Cpx {
    Mul(h(b), Mul(u(k), w(-(k * (t - b)))))
  }

  lemma DelaySplit(n: nat, w: int -> Cpx, u: int -> Cpx, h: int -> Cpx, t: int, k: int, b: int)
    requires Root(n, w)
    ensures Mul(Mul(h(b), w(b * k)), Mul(u(k), w(-(k * t)))) == DelayTerm(w, u, h, t, k, b)
  {
    hide Root, Mul;
    RootAdd(n, w, b * k, -(k * t));
    assert b * k + -(k * t) == -(k * (t - b));
    DelayArithmetic(h(b), w(b * k), u(k), w(-(k * t)));
  }

  lemma DelayArithmetic(a: Cpx, b: Cpx, c: Cpx, d: Cpx)
    ensures Mul(Mul(a, b), Mul(c, d)) == Mul(a, Mul(c, Mul(b, d)))
  {
    hide Mul;
    MulAssoc(a, b, Mul(c, d));
    MulAssoc(b, c, d);
    MulComm(b, c);
    MulAssoc(c, b, d);
  }

  /** One bin of a product of transforms, spread over the samples of h. */
  lemma ProductBin(n: nat, w: int -> Cpx, u: int -> Cpx, h: int -> Cpx, t: int, k: int)
    requires Root(n, w)
    ensures Mul(Mul(u(k), Dft(n, w, h, k)), w(-(k * t))) == Sum(n, b => DelayTerm(w, u, h, t, k, b))
  {
    hide Root, Mul, Sum, DelayTerm, Dft;
    var c := Mul(u(k), w(-(k * t)));
    ProductRegroup(u(k), Dft(n, w, h, k), w(-(k * t)));
    DftTimes(n, w, h, k, c);
    forall b
      ensures Mul(Mul(h(b), w(b * k)), c) == DelayTerm(w, u, h, t, k, b)
    {
      DelaySplit(n, w, u, h, t, k, b);
    }
    SumExt(n, j => Mul(Mul(h(j), w(j * k)), c), b => DelayTerm(w, u, h, t, k, b));
  }

  lemma ProductRegroup(a: Cpx, b: Cpx, c: Cpx)
    ensures Mul(Mul(a, b), c) == Mul(b, Mul(a, c))
  {
    hide Mul;
    MulComm(a, b);
    MulAssoc(b, a, c);
  }

  /** The spectrum u times the transform of h. */
  function ProductAt(n: nat, w: int -> Cpx, u: int -> Cpx, h: int -> Cpx, k: int): Cpx {
    Mul(u(k), Dft(n, w, h, k))
  }

  function ProductWith(n: nat, w: int -> Cpx, u: int -> Cpx, h: int -> Cpx): int -> Cpx {
    k => ProductAt(n, w, u, h, k)
  }

  /** The inverse of a product is one delayed inverse for each sample of h. */
  lemma InverseProduct(n: nat, w: int -> Cpx, u: int -> Cpx, h: int -> Cpx, t: int)
    requires Root(n, w)
    ensures InverseDft(n, w, ProductWith(n, w, u, h), t)
         == Sum(n, b => Mul(h(b), InverseDft(n, w, u, t - b)))
  {
    hide Root, Mul, Sum, DelayTerm, Dft;
    var f := (k, b) => DelayTerm(w, u, h, t, k, b);
    var p := k => Mul(ProductWith(n, w, u, h)(k), w(-(k * t)));
    forall k
      ensures p(k) == RowSum(n, f, k)
    {
      ProductBin(n, w, u, h, t, k);
      assert ProductWith(n, w, u, h)(k) == ProductAt(n, w, u, h, k);
      assert p(k) == Sum(n, b => DelayTerm(w, u, h, t, k, b));
      SumExt(n, b => DelayTerm(w, u, h, t, k, b), b => f(k, b));
    }
    SumExt(n, p, k => RowSum(n, f, k));
    SumSwap(n, n, f);
    var g := b => Mul(h(b), InverseDft(n, w, u, t - b));
    forall b
      ensures ColumnSum(n, f, b) == g(b)
    {
      DelayedInverse(n, w, u, h, t, b);
      SumExt(n, k => f(k, b), k => DelayTerm(w, u, h, t, k, b));
    }
    SumExt(n, b => ColumnSum(n, f, b), g);
  }

  lemma DelayedInverse(n: nat, w: int -> Cpx, u: int -> Cpx, h: int -> Cpx, t: int, b: int)
    ensures Sum(n, k => DelayTerm(w, u, h, t, k, b)) == Mul(h(b), InverseDft(n, w, u, t - b))
  {
    hide Mul, Sum;
    var g := k => Mul(u(k), w(-(k * (t - b))));
    SumMul(n, h(b), g);
    SumExt(n, k => DelayTerm(w, u, h, t, k, b), k => Mul(h(b), g(k)));
  }

  // ---- overlap-save ----

  /** The last fs samples of a convolution that no wrap-around reaches. */
  function FilterSample(h: seq<real>, x: seq<real>, fs: nat, t: int): real {
    RealSum(fs, b => Tap(h, x, t, b))
  }

  /** Filter coefficient b times the sample b before position t. */
  function Tap(h: seq<real>, x: seq<real>, t: int, b: int): real {
    SMul(RealAt(h, b), RealAt(x, t - b))
  }

  /** If h is silent in its second half, the second half of the inverse transform of the
      product of the spectra of x and h is h applied to x, over the length. */
  lemma OverlapSave(w: int -> Cpx, x: seq<real>, h: seq<real>, t: int)
    requires |x| == |h| && |x| >= 2 && |x| % 2 == 0 && Root(|x|, w)
    requires forall b :: |h| / 2 <= b < |h| ==> h[b] == 0.0
    requires |x| / 2 <= t < |x|
    ensures Ifft(w, PackedMul(Fft(w, x), Fft(w, h)))[t] == SMul(FilterSample(h, x, |x| / 2, t), OneOver(|x|))
  {
    hide Root, Mul, Sum, Fft, Dft, Unpacked, PackedMul, InverseDft, RealSum, ProductWith, ScaledSpectrum, RealSignal, Scale, OneOver, Tap, ScaledSignal, SMul;
    var n := |x|;
    var c := OneOver(n);
    var u := ScaledSpectrum(n, w, RealSignal(x));
    var sh := ScaledSignal(c, h);
    forall k | 0 <= k < n
      ensures Unpacked(PackedMul(Fft(w, x), Fft(w, h)))(k) == ProductWith(n, w, u, sh)(k)
    {
      ProductSpectrum(w, x, h, k);
    }
    InverseExt(n, w, Unpacked(PackedMul(Fft(w, x), Fft(w, h))), ProductWith(n, w, u, sh), t);
    InverseProduct(n, w, u, sh, t);
    var g := b => Mul(sh(b), InverseDft(n, w, u, t - b));
    var r := b => Tap(h, x, t, b);
    forall b | 0 <= b < n
      ensures g(b) == Mul(Real(c), Real(if b < n / 2 then r(b) else 0.0))
    {
      OverlapTerm(w, x, h, t, b);
    }
    CollectTerms(n, c, g, r);
  }

  function ScaledSignal(c: real, h: seq<real>): int -> Cpx {
    b => Scale(c, RealSignal(h)(b))
  }

  lemma ScaledSignalAt(c: real, h: seq<real>, b: int)
    requires 0 <= b < |h|
    ensures ScaledSignal(c, h)(b) == Scale(c, Real(h[b]))
  {
    hide Scale;
    assert RealSignal(h)(b) == Real(h[b]);
  }

  lemma ProductSpectrum(w: int -> Cpx, x: seq<real>, h: seq<real>, k: int)
    requires |x| == |h| && |x| >= 2 && |x| % 2 == 0 && Root(|x|, w) && 0 <= k < |x|
    ensures Unpacked(PackedMul(Fft(w, x), Fft(w, h)))(k)
         == ProductWith(|x|, w, ScaledSpectrum(|x|, w, RealSignal(x)), ScaledSignal(OneOver(|x|), h))(k)
  {
    hide Root, Mul, Fft, Dft, Unpacked, PackedMul, RealSignal, Scale;
    UnpackedMul(Fft(w, x), Fft(w, h), k);
    FftBin(w, x, k);
    FftBin(w, h, k);
    ScaledDft(|x|, w, OneOver(|x|), RealSignal(h), k);
    DftExt(|x|, w, ScaledSignal(OneOver(|x|), h), b => Scale(OneOver(|x|), RealSignal(h)(b)), k);
  }

  lemma ScaledDft(n: nat, w: int -> Cpx, c: real, x: int -> Cpx, k: int)
    ensures Dft(n, w, b => Scale(c, x(b)), k) == Scale(c, Dft(n, w, x, k))
  {
    hide Mul, Sum, Scale;
    var f := j => Mul(x(j), w(j * k));
    var g := j => Mul((b => Scale(c, x(b)))(j), w(j * k));
    forall j
      ensures g(j) == Mul(Real(c), f(j))
    {
      ScaleMul(c, x(j), w(j * k));
    }
    SumExt(n, g, j => Mul(Real(c), f(j)));
    SumMul(n, Real(c), f);
    MulReal(Sum(n, f), c);
  }

  lemma OverlapTerm(w: int -> Cpx, x: seq<real>, h: seq<real>, t: int, b: int)
    requires |x| == |h| && |x| >= 2 && |x| % 2 == 0 && Root(|x|, w)
    requires forall b :: |h| / 2 <= b < |h| ==> h[b] == 0.0
    requires |x| / 2 <= t < |x| && 0 <= b < |x|
    ensures Mul(ScaledSignal(OneOver(|x|), h)(b), InverseDft(|x|, w, ScaledSpectrum(|x|, w, RealSignal(x)), t - b))
         == Mul(Real(OneOver(|x|)), Real(if b < |x| / 2 then Tap(h, x, t, b) else 0.0))
  {
    hide Root, Mul, InverseDft, Dft, ScaledSpectrum, Scale, OneOver, SMul;
    var n := |x|;
    var c := OneOver(n);
    if b < n / 2 {
      DelayedSample(w, x, t - b);
      RealProduct(c, h[b], x[t - b]);
      ScaledSignalAt(c, h, b);
    } else {
      ScaledSignalAt(c, h, b);
      ScaleZero(c);
      MulOne(InverseDft(n, w, ScaledSpectrum(n, w, RealSignal(x)), t - b));
      MulOne(Real(c));
    }
  }

  lemma DelayedSample(w: int -> Cpx, x: seq<real>, t: int)
    requires |x| >= 2 && Root(|x|, w) && 0 <= t < |x|
    ensures InverseDft(|x|, w, ScaledSpectrum(|x|, w, RealSignal(x)), t) == Real(x[t])
  {
    hide Root, Mul, InverseDft, Dft, ScaledSpectrum;
    InverseScaled(|x|, w, RealSignal(x), t);
    DftInverted(|x|, w, RealSignal(x), t);
    ScaleBack(|x|, x[t]);
  }

  lemma RealProduct(c: real, a: real, b: real)
    ensures Mul(Scale(c, Real(a)), Real(b)) == Mul(Real(c), Real(SMul(a, b)))
  {
  }

  lemma CollectTerms(n: nat, c: real, g: int -> Cpx, r: int -> real)
    requires n % 2 == 0
    requires forall b :: 0 <= b < n ==> g(b) == Mul(Real(c), Real(if b < n / 2 then r(b) else 0.0))
    ensures Sum(n, g) == Real(SMul(RealSum(n / 2, r), c))
  {
    hide Mul, Sum, RealSum, Scale, SMul;
    var q := b => if b < n / 2 then r(b) else 0.0;
    var rq := b => Real(q(b));
    SumExt(n, g, b => Mul(Real(c), rq(b)));
    SumMul(n, Real(c), rq);
    RealSumEmbeds(n, q);
    HalfSum(n, q, r);
    assert Sum(n, g) == Sum(n, b => Mul(Real(c), rq(b)));
    assert Sum(n, b => Mul(Real(c), rq(b))) == Mul(Real(c), Sum(n, rq));
    assert Sum(n, rq) == Real(RealSum(n, q));
    MulReal(Real(RealSum(n, q)), c);
    ScaleReal(c, RealSum(n / 2, r));
  }

  lemma HalfSum(n: nat, q: int -> real, r: int -> real)
    requires n % 2 == 0
    requires forall b :: 0 <= b < n ==> q(b) == if b < n / 2 then r(b) else 0.0
    ensures RealSum(n, q) == RealSum(n / 2, r)
  {
    hide RealSum;
    var m := n / 2;
    RealSumConcat(m, m, q);
    RealSumExt(m, q, r);
    RealSumZero(m, i => q(m + i));
  }

  lemma ScaleReal(c: real, a: real)
    ensures Scale(c, Real(a)) == Real(SMul(a, c))
  {
  }
}
