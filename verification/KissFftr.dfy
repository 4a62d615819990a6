/** kiss_fftr.c: the transform of 2*n real samples through a complex transform of n pairs,
    in the packed half-complex layout. The source views a real buffer as complex pairs by a
    pointer cast; here the pairs are copied. */
module KissFftr {
  import opened Arith
  import opened Options
  import opened Complex
  import opened Sums
  import opened RootsOfUnity
  import opened Fourier
  import opened Inversion
  import opened HalfComplex
  import opened KissFactor
  import opened MixedRadix

  /** The state that kiss_fftr_alloc builds; nfft of the substate is half the real length. */
  datatype RealCfg = RealCfg(substate: Cfg, tmpbuf: array<Cpx>, superTwiddles: seq<Cpx>)

  /** w is the forward root of the full length, whatever the direction of the transform. */
  ghost predicate ValidReal(st: RealCfg, w: int -> Cpx) {
    var n := st.substate.nfft;
    && n > 0
    && Root(2 * n, w)
    && ValidCfg(st.substate, HalfRoot(w, st.substate.inverse))
    && st.tmpbuf.Length == n
    && |st.superTwiddles| == n
    && forall k :: 0 <= k < n ==> st.superTwiddles[k] == SuperTwiddle(w, st.substate.inverse, k)
  }

  /** The root of the half-length substate. */
  function HalfRoot(w: int -> Cpx, inverse: bool): int -> Cpx {
    e => if inverse then w(-(2 * e)) else w(2 * e)
  }

  function SuperTwiddle(w: int -> Cpx, inverse: bool, k: int): Cpx {
    if inverse then Mul(I, w(-k)) else Mul(Neg(I), w(k))
  }

  // ---- the mathematics of the forward assembly ----

  function Even(w: int -> Cpx, x: int -> Cpx, n: nat, k: int): Cpx {
    NodeDft(w, x, 2, 0, n, k)
  }

  function Odd(w: int -> Cpx, x: int -> Cpx, n: nat, k: int): Cpx {
    NodeDft(w, x, 2, 1, n, k)
  }

  /** Samples 2j and 2j+1 as one complex sample. */
  function Pairs(x: int -> Cpx): int -> Cpx {
    j => Add(x(2 * j), Mul(I, x(2 * j + 1)))
  }

  /** The pair transform carries the transforms of the even and the odd samples. */
  lemma PairSpectrum(n: nat, w: int -> Cpx, x: int -> Cpx, k: int)
    ensures Dft(n, HalfRoot(w, false), Pairs(x), k) == Add(Even(w, x, n, k), Mul(I, Odd(w, x, n, k)))
  {
    hide Mul, Add, Sum, Term;
    var f := j => Term(w, x, 2, 0, k, j);
    var g := j => Term(w, x, 2, 1, k, j);
    var ig := j => Mul(I, g(j));
    var h := j => Mul(Pairs(x)(j), HalfRoot(w, false)(j * k));
    SumMul(n, I, g);
    SumAdd(n, f, ig);
    forall j
      ensures h(j) == Add(f(j), ig(j))
    {
      PairTerm(w, x, j, k);
    }
    SumExt(n, h, j => Add(f(j), ig(j)));
  }

  lemma PairTerm(w: int -> Cpx, x: int -> Cpx, j: int, k: int)
    ensures Mul(Pairs(x)(j), HalfRoot(w, false)(j * k)) == Add(Term(w, x, 2, 0, k, j), Mul(I, Term(w, x, 2, 1, k, j)))
  {
    hide Mul, Add;
    var c := w(2 * (j * k));
    assert 2 * j * k == 2 * (j * k);
    MulAdd(c, x(2 * j), Mul(I, x(2 * j + 1)));
    MulAssoc(I, x(2 * j + 1), c);
    assert x(0 + 2 * j) == x(2 * j) && x(1 + 2 * j) == x(2 * j + 1);
  }

  /** A real signal's even and odd transforms mirror into their conjugates. */
  lemma NodeMirror(n: nat, w: int -> Cpx, x: int -> Cpx, o: int, k: int)
    requires Root(2 * n, w) && IsReal(x)
    ensures NodeDft(w, x, 2, o, n, n - k) == Conj(NodeDft(w, x, 2, o, n, k))
  {
    hide Root, Mul, Conj, Sum;
    var f := j => Term(w, x, 2, o, k, j);
    SumConj(n, f);
    forall j
      ensures Conj(f(j)) == Term(w, x, 2, o, n - k, j)
    {
      ConjMul(x(o + 2 * j), w(2 * j * k));
      RootConj(2 * n, w, 2 * j * k);
      RootPeriod(2 * n, w, -(2 * j * k), j);
      assert 2 * j * (n - k) == -(2 * j * k) + 2 * n * j;
    }
    SumExt(n, j => Conj(f(j)), j => Term(w, x, 2, o, n - k, j));
  }

  /** A bin of the full transform from the even and the odd ones. */
  lemma FullBin(n: nat, w: int -> Cpx, x: int -> Cpx, k: int)
    requires n > 0 && Root(2 * n, w)
    ensures Dft(2 * n, w, x, k) == Add(Even(w, x, n, k % n), Mul(w(k), Odd(w, x, n, k % n)))
  {
    hide Root, Mul, Add, Sum, NodeDft, Dft;
    NodeRoot(2 * n, w, x, k);
    NodeStep(2 * n, w, x, 1, 0, 2, n, k);
    var g := q => Mul(w(1 * q * k), NodeDft(w, x, 1 * 2, 0 + 1 * q, n, k % n));
    SumParts(2, g);
    SumParts(1, g);
    SumParts(0, g);
    AddZero(g(0));
    RootZero(2 * n, w);
    MulOne(Even(w, x, n, k % n));
  }

  /** The arithmetic of kiss_fftr2 for one pair of bins: f1 and f2 separate even and odd, the
      super twiddle turns odd into place. */
  lemma ForwardArithmetic(e: Cpx, o: Cpx, t: Cpx)
    ensures var z, y := Add(e, Mul(I, o)), Add(Conj(e), Mul(I, Conj(o)));
            var f1 := Cpx(z.re + y.re, z.im - y.im);
            var f2 := Cpx(z.re - y.re, z.im + y.im);
            var tw := Mul(f2, Mul(Neg(I), t));
            && Cpx(0.5 * (f1.re + tw.re), 0.5 * (f1.im + tw.im)) == Add(e, Mul(t, o))
            && Cpx(0.5 * (f1.re - tw.re), 0.5 * (tw.im - f1.im)) == Conj(Sub(e, Mul(t, o)))
  {
  }

  /** What the loop of kiss_fftr2 computes for bins k and n-k. */
  lemma ForwardBins(n: nat, w: int -> Cpx, x: int -> Cpx, k: int)
    requires n > 0 && Root(2 * n, w) && IsReal(x) && 0 < k < n
    ensures var zk, y := Dft(n, HalfRoot(w, false), Pairs(x), k), Dft(n, HalfRoot(w, false), Pairs(x), n - k);
            var f1 := Cpx(zk.re + y.re, zk.im - y.im);
            var f2 := Cpx(zk.re - y.re, zk.im + y.im);
            var tw := Mul(f2, Mul(Neg(I), w(k)));
            && Cpx(0.5 * (f1.re + tw.re), 0.5 * (f1.im + tw.im)) == Dft(2 * n, w, x, k)
            && Cpx(0.5 * (f1.re - tw.re), 0.5 * (tw.im - f1.im)) == Dft(2 * n, w, x, n - k)
  {
    hide Root, Mul, Add, Sub, Neg, Conj, Sum, NodeDft, Dft, Pairs, HalfRoot;
    Residues(n, k);
    PairSpectrum(n, w, x, k);
    PairSpectrum(n, w, x, n - k);
    NodeMirror(n, w, x, 0, k);
    NodeMirror(n, w, x, 1, k);
    ForwardArithmetic(Even(w, x, n, k), Odd(w, x, n, k), w(k));
    FullBin(n, w, x, k);
    FullBin(n, w, x, n + k);
    RealMirror(2 * n, w, x, n + k);
    HalfTurn(n, w, k);
    SubNegMul(Even(w, x, n, k), w(k), Odd(w, x, n, k));
  }

  lemma Residues(n: nat, k: int)
    requires 0 < k < n
    ensures k % n == k && (n + k) % n == k
  {
    DivUnique(n + k, n, 1, k);
    DivUnique(k, n, 0, k);
  }

  lemma HalfTurn(n: nat, w: int -> Cpx, k: int)
    requires n > 0 && Root(2 * n, w)
    ensures w(n + k) == Neg(w(k))
  {
    hide Root;
    RootHalf(2 * n, w);
    RootAdd(2 * n, w, n, k);
  }

  lemma SubNegMul(a: Cpx, b: Cpx, c: Cpx)
    ensures Add(a, Mul(Neg(b), c)) == Sub(a, Mul(b, c))
  {
  }

  /** Bin zero of the pair transform holds the sums of the even and of the odd samples. */
  lemma ForwardEnds(n: nat, w: int -> Cpx, x: int -> Cpx)
    requires n > 0 && Root(2 * n, w) && IsReal(x)
    ensures var z := Dft(n, HalfRoot(w, false), Pairs(x), 0);
            && Dft(2 * n, w, x, 0) == Real(z.re + z.im)
            && Dft(2 * n, w, x, n) == Real(z.re - z.im)
  {
    hide Root, Mul, Sum, NodeDft, Dft, Pairs, HalfRoot;
    PairSpectrum(n, w, x, 0);
    NodeMirror(n, w, x, 0, 0);
    NodeMirror(n, w, x, 1, 0);
    NodePeriod(n, w, x, 0);
    NodePeriod(n, w, x, 1);
    FullBin(n, w, x, 0);
    FullBin(n, w, x, n);
    RootZero(2 * n, w);
    HalfTurn(n, w, 0);
    EndArithmetic(Even(w, x, n, 0), Odd(w, x, n, 0));
    assert 0 % n == 0 && n % n == 0;
  }

  lemma NodePeriod(n: nat, w: int -> Cpx, x: int -> Cpx, o: int)
    requires n > 0 && Root(2 * n, w)
    ensures NodeDft(w, x, 2, o, n, n - 0) == NodeDft(w, x, 2, o, n, 0)
  {
    hide Root, Mul, Sum;
    forall j
      ensures w(2 * j * n) == w(2 * j * 0)
    {
      RootPeriod(2 * n, w, 0, j);
      assert 2 * j * n == 0 + 2 * n * j;
    }
    SumExt(n, j => Term(w, x, 2, o, n, j), j => Term(w, x, 2, o, 0, j));
  }

  lemma EndArithmetic(e: Cpx, o: Cpx)
    requires Conj(e) == e && Conj(o) == o
    ensures var z := Add(e, Mul(I, o));
            && Add(e, Mul(ONE, o)) == Real(z.re + z.im)
            && Add(e, Mul(Neg(ONE), o)) == Real(z.re - z.im)
  {
  }

  // ---- kiss_fftr2 ----

  /** Bin k, for 0 < k < n, sits where the packed layout wants it. */
  ghost predicate BinStored(f: seq<real>, u: int -> Cpx, k: int) {
    0 < 2 * k - 1 + 1 < |f| && f[2 * k - 1] == u(k).re && f[2 * k] == u(k).im
  }

  /** Bins on either side, up to distance k from the ends, are stored. */
  ghost predicate BinsStored(f: seq<real>, n: nat, u: int -> Cpx, k: int) {
    forall b :: 0 < b < n && (b < k || n - k < b) ==> BinStored(f, u, b)
  }

  lemma PackedComplete(f: seq<real>, n: nat, u: int -> Cpx)
    requires n > 0 && |f| == 2 * n && f[0] == u(0).re && f[2 * n - 1] == u(n).re
    requires BinsStored(f, n, u, n / 2 + 1)
    ensures f == Packed(2 * n, u)
  {
    forall i | 0 < i < 2 * n - 1
      ensures f[i] == PackedAt(2 * n, u, i)
    {
      assert BinStored(f, u, (i + 1) / 2);
    }
  }

  /** Storing bins k and n-k, which are the same when k is half of n. */
  method StoreBins(freqdata: array<real>, n: nat, k: nat, a: Cpx, b: Cpx, ghost u: int -> Cpx)
    requires freqdata.Length == 2 * n && 0 < k <= n / 2
    requires a == u(k) && b == u(n - k) && BinsStored(freqdata[..], n, u, k)
    modifies freqdata
    ensures BinsStored(freqdata[..], n, u, k + 1)
    ensures freqdata[0] == old(freqdata[0]) && freqdata[2 * n - 1] == old(freqdata[2 * n - 1])
  {
    ghost var before := freqdata[..];
    freqdata[2 * k - 1] := a.re;
    freqdata[2 * k] := a.im;
    freqdata[2 * (n - k) - 1] := b.re;
    freqdata[2 * (n - k)] := b.im;
    forall i | 0 < i < n && (i < k + 1 || n - (k + 1) < i)
      ensures BinStored(freqdata[..], u, i)
    {
      if i != k && i != n - k {
        assert BinStored(before, u, i);
      }
    }
  }

  /** The pairs of a real buffer as the source's cast shows them. */
  method CastToPairs(timedata: array<real>, n: nat) returns (packed: array<Cpx>)
    requires timedata.Length == 2 * n
    ensures fresh(packed) && packed.Length == n
    ensures forall j :: 0 <= j < n ==> packed[j] == Pairs(RealSignal(timedata[..]))(j)
  {
    hide Mul;
    packed := new Cpx[n](_ => ZERO);
    for j := 0 to n
      invariant forall i :: 0 <= i < j ==> packed[i] == Pairs(RealSignal(timedata[..]))(i)
    {
      packed[j] := Cpx(timedata[2 * j], timedata[2 * j + 1]);
      PairOfReals(timedata[2 * j], timedata[2 * j + 1]);
    }
  }

  lemma PairOfReals(a: real, b: real)
    ensures Add(Real(a), Mul(I, Real(b))) == Cpx(a, b)
  {
  }

  lemma RealSignalIsReal(f: seq<real>)
    ensures IsReal(RealSignal(f))
  {
  }

  lemma RealParts(st: RealCfg, w: int -> Cpx)
    requires ValidReal(st, w)
    ensures var n := st.substate.nfft;
            && n > 0 && Root(2 * n, w) && st.tmpbuf.Length == n && |st.superTwiddles| == n
            && ValidCfg(st.substate, HalfRoot(w, st.substate.inverse))
            && forall k :: 0 <= k < n ==> st.superTwiddles[k] == SuperTwiddle(w, st.substate.inverse, k)
  {
  }

  /** The forward transform; ok is false where the source stops the process, because the
      configuration is an inverse one or a radix is above 17. */
  method KissFftr2(st: RealCfg, timedata: array<real>, freqdata: array<real>, ghost w: int -> Cpx) returns (ok: bool)
    requires ValidReal(st, w)
    requires timedata.Length == freqdata.Length == 2 * st.substate.nfft
    modifies freqdata, st.tmpbuf
    ensures ok <==> !st.substate.inverse && Supported(st.substate.factors)
    ensures ok ==> freqdata[..] == Packed(2 * st.substate.nfft,
                                          Spectrum(2 * st.substate.nfft, w, RealSignal(old(timedata[..]))))
  {
    hide ValidReal, ValidCfg, Root, Dft, Mul, Neg, Pairs, RealSignal, IsReal, Supported, Packed, BinsStored, HalfRoot;
    RealParts(st, w);
    if st.substate.inverse {
      return false;
    }
    var ncfft := st.substate.nfft;
    ghost var x := RealSignal(timedata[..]);
    ghost var u := Spectrum(2 * ncfft, w, x);
    RealSignalIsReal(timedata[..]);
    var packed := CastToPairs(timedata, ncfft);
    ok := KissFft(st.substate, packed, st.tmpbuf, HalfRoot(w, false), Pairs(x));
    if !ok {
      return;
    }
    var tdc := st.tmpbuf[0];
    ForwardEnds(ncfft, w, x);
    freqdata[0] := tdc.re + tdc.im;
    freqdata[2 * ncfft - 1] := tdc.re - tdc.im;
    BinsStart(freqdata[..], ncfft, u);
    for k := 1 to ncfft / 2 + 1
      invariant BinsStored(freqdata[..], ncfft, u, k)
      invariant freqdata[0] == u(0).re && freqdata[2 * ncfft - 1] == u(ncfft).re
      modifies freqdata
    {
      ForwardBins(ncfft, w, x, k);
      var zk, y := st.tmpbuf[k], st.tmpbuf[ncfft - k];
      var f2k := Cpx(zk.re - y.re, zk.im + y.im);
      var f1k := Cpx(zk.re + y.re, zk.im - y.im);
      var tw := Mul(f2k, st.superTwiddles[k]);
      StoreBins(freqdata, ncfft, k, Cpx(0.5 * (f1k.re + tw.re), 0.5 * (f1k.im + tw.im)),
                Cpx(0.5 * (f1k.re - tw.re), 0.5 * (tw.im - f1k.im)), u);
    }
    PackedComplete(freqdata[..], ncfft, u);
  }

  lemma BinsStart(f: seq<real>, n: nat, u: int -> Cpx)
    ensures BinsStored(f, n, u, 1)
  {
  }

  // ---- the mathematics of the inverse assembly ----

  /** Bin k of the half-length spectrum that kiss_fftri2 prepares. */
  function FoldedBin(w: int -> Cpx, u: int -> Cpx, n: nat, k: int): Cpx {
    Add(Add(u(k), u(n + k)), Mul(Sub(u(k), u(n + k)), Mul(I, w(-k))))
  }

  function Folded(w: int -> Cpx, u: int -> Cpx, n: nat): int -> Cpx {
    k => FoldedBin(w, u, n, k)
  }

  /** Contributions of bins k and n+k to an even and to an odd sample; e is k times t. */
  function EvenTerm(w: int -> Cpx, u: int -> Cpx, n: nat, k: int, e: int): Cpx {
    Mul(Add(u(k), u(n + k)), w(-(2 * e)))
  }

  function OddTerm(w: int -> Cpx, u: int -> Cpx, n: nat, k: int, e: int): Cpx {
    Mul(Mul(Sub(u(k), u(n + k)), w(-k)), w(-(2 * e)))
  }

  function InverseTerm(w: int -> Cpx, u: int -> Cpx, t: int, k: int): Cpx {
    Mul(u(k), w(-(k * t)))
  }

  /** An even sample of the inverse folds bins k and n+k together. */
  lemma InverseEven(n: nat, w: int -> Cpx, u: int -> Cpx, t: int)
    requires n > 0 && Root(2 * n, w)
    ensures InverseDft(2 * n, w, u, 2 * t) == Sum(n, k => EvenTerm(w, u, n, k, k * t))
  {
    hide Root, Add, Sum, EvenTerm, InverseTerm, Mul;
    var f := k => InverseTerm(w, u, 2 * t, k);
    var g := k => f(n + k);
    InverseTerms(2 * n, w, u, 2 * t);
    SumConcat(n, n, f);
    SumAdd(n, f, g);
    forall k
      ensures Add(f(k), g(k)) == EvenTerm(w, u, n, k, k * t)
    {
      EvenPair(n, w, u, t, k);
    }
    SumExt(n, k => Add(f(k), g(k)), k => EvenTerm(w, u, n, k, k * t));
  }

  lemma InverseTerms(n: nat, w: int -> Cpx, u: int -> Cpx, t: int)
    ensures InverseDft(n, w, u, t) == Sum(n, k => InverseTerm(w, u, t, k))
  {
    hide Mul, Sum;
    SumExt(n, k => Mul(u(k), w(-(k * t))), k => InverseTerm(w, u, t, k));
  }

  lemma EvenPair(n: nat, w: int -> Cpx, u: int -> Cpx, t: int, k: int)
    requires n > 0 && Root(2 * n, w)
    ensures Add(InverseTerm(w, u, 2 * t, k), InverseTerm(w, u, 2 * t, n + k)) == EvenTerm(w, u, n, k, k * t)
  {
    hide Root, Mul, Add;
    EvenExponents(n, w, k, t);
    MulAdd(w(-(2 * (k * t))), u(k), u(n + k));
  }

  lemma EvenExponents(n: nat, w: int -> Cpx, k: int, t: int)
    requires n > 0 && Root(2 * n, w)
    ensures w(-(k * (2 * t))) == w(-(2 * (k * t))) == w(-((n + k) * (2 * t)))
  {
    hide Root;
    assert k * (2 * t) == 2 * (k * t);
    RootPeriod(2 * n, w, -(2 * (k * t)), -t);
    assert -((n + k) * (2 * t)) == -(2 * (k * t)) + 2 * n * -t;
  }

  /** An odd sample folds them with the opposite sign and a twiddle. */
  lemma InverseOdd(n: nat, w: int -> Cpx, u: int -> Cpx, t: int)
    requires n > 0 && Root(2 * n, w)
    ensures InverseDft(2 * n, w, u, 2 * t + 1) == Sum(n, k => OddTerm(w, u, n, k, k * t))
  {
    hide Root, Add, Sum, OddTerm, InverseTerm, Mul;
    var f := k => InverseTerm(w, u, 2 * t + 1, k);
    var g := k => f(n + k);
    InverseTerms(2 * n, w, u, 2 * t + 1);
    SumConcat(n, n, f);
    SumAdd(n, f, g);
    forall k
      ensures Add(f(k), g(k)) == OddTerm(w, u, n, k, k * t)
    {
      OddPair(n, w, u, t, k);
    }
    SumExt(n, k => Add(f(k), g(k)), k => OddTerm(w, u, n, k, k * t));
  }

  lemma OddPair(n: nat, w: int -> Cpx, u: int -> Cpx, t: int, k: int)
    requires n > 0 && Root(2 * n, w)
    ensures Add(InverseTerm(w, u, 2 * t + 1, k), InverseTerm(w, u, 2 * t + 1, n + k)) == OddTerm(w, u, n, k, k * t)
  {
    hide Root, Mul, Add, Sub;
    OddExponents(n, w, k, t);
    OddArithmetic(u(k), u(n + k), w(-k), w(-(2 * (k * t))));
  }

  lemma OddExponents(n: nat, w: int -> Cpx, k: int, t: int)
    requires n > 0 && Root(2 * n, w)
    ensures w(-(k * (2 * t + 1))) == Mul(w(-k), w(-(2 * (k * t))))
    ensures w(-((n + k) * (2 * t + 1))) == Neg(Mul(w(-k), w(-(2 * (k * t)))))
  {
    hide Root, Mul;
    RootAdd(2 * n, w, -k, -(2 * (k * t)));
    assert -(k * (2 * t + 1)) == -k + -(2 * (k * t));
    HalfTurn(n, w, -(k * (2 * t + 1)));
    RootPeriod(2 * n, w, n + -(k * (2 * t + 1)), -(t + 1));
    assert -((n + k) * (2 * t + 1)) == n + -(k * (2 * t + 1)) + 2 * n * -(t + 1);
  }

  lemma OddArithmetic(a: Cpx, b: Cpx, c: Cpx, d: Cpx)
    ensures Add(Mul(a, Mul(c, d)), Mul(b, Neg(Mul(c, d)))) == Mul(Mul(Sub(a, b), c), d)
  {
    hide Mul;
    var e := Mul(c, d);
    MulAssoc(Sub(a, b), c, d);
    MulSub(e, a, b);
    MulNeg(b, e);
  }

  lemma MulNeg(a: Cpx, b: Cpx)
    ensures Mul(a, Neg(b)) == Neg(Mul(a, b))
  {
  }

  /** The half-length transform of the folded spectrum carries the even samples in its real
      part and the odd ones in its imaginary part. */
  lemma FoldedInverse(n: nat, w: int -> Cpx, u: int -> Cpx, t: int)
    requires n > 0 && Root(2 * n, w)
    ensures Dft(n, HalfRoot(w, true), Folded(w, u, n), t)
         == Add(InverseDft(2 * n, w, u, 2 * t), Mul(I, InverseDft(2 * n, w, u, 2 * t + 1)))
  {
    hide Root, Mul, Add, Sub, Sum, InverseDft, Folded, HalfRoot, EvenTerm, OddTerm;
    InverseEven(n, w, u, t);
    InverseOdd(n, w, u, t);
    var f := k => EvenTerm(w, u, n, k, k * t);
    var g := k => OddTerm(w, u, n, k, k * t);
    var ig := k => Mul(I, g(k));
    var h := k => Mul(Folded(w, u, n)(k), HalfRoot(w, true)(k * t));
    SumMul(n, I, g);
    SumAdd(n, f, ig);
    forall k
      ensures h(k) == Add(f(k), ig(k))
    {
      FoldedTerm(w, u, n, k, k * t);
    }
    SumExt(n, h, k => Add(f(k), ig(k)));
  }

  lemma FoldedAt(w: int -> Cpx, u: int -> Cpx, n: nat, k: int)
    ensures Folded(w, u, n)(k) == FoldedBin(w, u, n, k)
  {
    hide FoldedBin;
  }

  lemma HalfRootAt(w: int -> Cpx, e: int)
    ensures HalfRoot(w, true)(e) == w(-(2 * e)) && HalfRoot(w, false)(e) == w(2 * e)
  {
  }

  lemma FoldedTerm(w: int -> Cpx, u: int -> Cpx, n: nat, k: int, e: int)
    ensures Mul(Folded(w, u, n)(k), HalfRoot(w, true)(e)) == Add(EvenTerm(w, u, n, k, e), Mul(I, OddTerm(w, u, n, k, e)))
  {
    hide Mul, Add, Sub, Folded, HalfRoot;
    FoldedAt(w, u, n, k);
    HalfRootAt(w, e);
    FoldedArithmetic(Add(u(k), u(n + k)), Sub(u(k), u(n + k)), w(-k), w(-(2 * e)));
  }

  lemma FoldedArithmetic(a: Cpx, b: Cpx, c: Cpx, d: Cpx)
    ensures Mul(Add(a, Mul(b, Mul(I, c))), d) == Add(Mul(a, d), Mul(I, Mul(Mul(b, c), d)))
  {
    hide Mul, Add;
    MulAdd(d, a, Mul(b, Mul(I, c)));
    MulAssoc(b, I, c);
    MulComm(b, I);
    MulAssoc(I, b, c);
    MulAssoc(I, Mul(b, c), d);
  }

  /** Even and odd samples of a symmetric spectrum are real, so they separate. */
  lemma FoldedSamples(n: nat, w: int -> Cpx, u: int -> Cpx, t: int)
    requires n > 0 && Root(2 * n, w) && Hermitian(2 * n, u)
    ensures var y := Dft(n, HalfRoot(w, true), Folded(w, u, n), t);
            && InverseDft(2 * n, w, u, 2 * t) == Real(y.re)
            && InverseDft(2 * n, w, u, 2 * t + 1) == Real(y.im)
  {
    hide Root, Mul, Sum, InverseDft, Dft, Hermitian, Folded, HalfRoot;
    FoldedInverse(n, w, u, t);
    HermitianReal(2 * n, w, u, 2 * t);
    HermitianReal(2 * n, w, u, 2 * t + 1);
    Separate(InverseDft(2 * n, w, u, 2 * t), InverseDft(2 * n, w, u, 2 * t + 1));
  }

  lemma Separate(a: Cpx, b: Cpx)
    requires Conj(a) == a && Conj(b) == b
    ensures Add(a, Mul(I, b)) == Cpx(a.re, b.re) && a == Real(a.re) && b == Real(b.re)
  {
  }

  /** What the loop of kiss_fftri2 puts at k and, mirrored and conjugated, at n-k. */
  lemma FoldedBins(n: nat, w: int -> Cpx, u: int -> Cpx, k: int)
    requires n > 0 && Root(2 * n, w) && Hermitian(2 * n, u) && 0 < k < n
    ensures var fk, fnkc := u(k), Conj(u(n - k));
            var fek, fok := Add(fk, fnkc), Mul(Sub(fk, fnkc), Mul(I, w(-k)));
            && Folded(w, u, n)(k) == Add(fek, fok)
            && Folded(w, u, n)(n - k) == Conj(Sub(fek, fok))
  {
    hide Root, Mul, Hermitian, Add, Sub, Conj, Neg, Folded;
    FoldedAt(w, u, n, k);
    FoldedAt(w, u, n, n - k);
    MirrorFacts(n, w, u, k);
    ConjTwice(u(n + k));
    MirrorArithmetic(u(k), u(n + k), w(-k));
  }

  lemma ConjTwice(a: Cpx)
    ensures Conj(Conj(a)) == a
  {
  }

  lemma MirrorFacts(n: nat, w: int -> Cpx, u: int -> Cpx, k: int)
    requires n > 0 && Root(2 * n, w) && Hermitian(2 * n, u) && 0 < k < n
    ensures u(n - k) == Conj(u(n + k)) && u(n + (n - k)) == Conj(u(k))
    ensures w(-(n - k)) == Neg(Conj(w(-k)))
  {
    hide Root, Mul, Hermitian, Conj, Neg;
    HermitianAt(2 * n, u, n + k);
    HermitianAt(2 * n, u, k);
    RootConj(2 * n, w, -k);
    RootPeriod(2 * n, w, -(n - k), 1);
    HalfTurn(n, w, k);
  }

  lemma MirrorArithmetic(a: Cpx, b: Cpx, t: Cpx)
    ensures Add(Add(Conj(b), Conj(a)), Mul(Sub(Conj(b), Conj(a)), Mul(I, Neg(Conj(t)))))
         == Conj(Sub(Add(a, b), Mul(Sub(a, b), Mul(I, t))))
  {
    hide Mul;
    var d := Sub(a, b);
    ConjMul(d, Mul(I, t));
    ConjMul(I, t);
    MulNeg(I, Conj(t));
    MulNegNeg(Conj(d), Mul(I, Conj(t)));
    NegI(Conj(t));
    assert Sub(Conj(b), Conj(a)) == Neg(Conj(d));
  }

  lemma MulNegNeg(a: Cpx, b: Cpx)
    ensures Mul(Neg(a), Neg(b)) == Mul(a, b) && Mul(a, Neg(b)) == Neg(Mul(a, b))
  {
  }

  lemma NegI(a: Cpx)
    ensures Mul(Conj(I), a) == Neg(Mul(I, a))
  {
  }

  // ---- kiss_fftri2 ----

  /** Bins up to distance k from the ends are prepared. */
  ghost predicate FoldedUpTo(f: seq<Cpx>, n: nat, v: int -> Cpx, k: int) {
    |f| == n && forall b :: 0 <= b < n && (b < k || n - k < b) ==> f[b] == v(b)
  }

  lemma FoldedZero(n: nat, w: int -> Cpx, f: seq<real>)
    requires n > 0 && Root(2 * n, w) && |f| == 2 * n
    ensures Folded(w, Unpacked(f), n)(0) == Cpx(f[0] + f[2 * n - 1], f[0] - f[2 * n - 1])
  {
    hide Root, Mul;
    RootZero(2 * n, w);
    FoldedAt(w, Unpacked(f), n, 0);
    MulOne(I);
    ZeroArithmetic(f[0], f[2 * n - 1]);
  }

  lemma ZeroArithmetic(a: real, b: real)
    ensures Add(Add(Real(a), Real(b)), Mul(Sub(Real(a), Real(b)), I)) == Cpx(a + b, a - b)
  {
  }

  /** The buffer holds the unscaled inverse transform of u. */
  ghost predicate InverseSamples(f: seq<real>, w: int -> Cpx, u: int -> Cpx) {
    forall t :: 0 <= t < |f| ==> Real(f[t]) == InverseDft(|f|, w, u, t)
  }

  /** The unscaled inverse transform; ok is false where the source stops the process. */
  method KissFftri2(st: RealCfg, freqdata: array<real>, timedata: array<real>, ghost w: int -> Cpx) returns (ok: bool)
    requires ValidReal(st, w)
    requires timedata.Length == freqdata.Length == 2 * st.substate.nfft
    modifies timedata, st.tmpbuf
    ensures ok <==> st.substate.inverse && Supported(st.substate.factors)
    ensures ok ==> InverseSamples(timedata[..], w, Unpacked(old(freqdata[..])))
  {
    hide ValidReal, ValidCfg, Root, Dft, Mul, Supported, HalfRoot, Folded, FoldedUpTo, Unpacked, Hermitian, InverseSamples;
    RealParts(st, w);
    if !st.substate.inverse {
      return false;
    }
    var ncfft := st.substate.nfft;
    ghost var u := Unpacked(freqdata[..]);
    ghost var v := Folded(w, u, ncfft);
    UnpackedHermitian(freqdata[..]);
    Prepare(st.tmpbuf, st.superTwiddles, freqdata, ncfft, w);
    var pairs := new Cpx[ncfft](_ => ZERO);
    FoldedAll(st.tmpbuf[..], ncfft, v);
    ok := KissFft(st.substate, st.tmpbuf, pairs, HalfRoot(w, true), v);
    if ok {
      CopyPairs(pairs, timedata, ncfft, w, u);
    }
  }

  /** The table of an inverse configuration for n pairs. */
  ghost predicate InverseTwiddles(superTwiddles: seq<Cpx>, w: int -> Cpx, n: nat) {
    |superTwiddles| == n && forall k :: 0 <= k < n ==> superTwiddles[k] == SuperTwiddle(w, true, k)
  }

  /** The loop that folds the packed spectrum into half-length bins. */
  method Prepare(tmpbuf: array<Cpx>, superTwiddles: seq<Cpx>, freqdata: array<real>, n: nat, ghost w: int -> Cpx)
    requires n > 0 && Root(2 * n, w) && InverseTwiddles(superTwiddles, w, n)
    requires tmpbuf.Length == n && freqdata.Length == 2 * n
    modifies tmpbuf
    ensures FoldedUpTo(tmpbuf[..], n, Folded(w, Unpacked(freqdata[..]), n), n / 2 + 1)
  {
    hide InverseTwiddles, Root, Mul, HalfRoot, Folded, Unpacked, Hermitian;
    ghost var u := Unpacked(freqdata[..]);
    UnpackedHermitian(freqdata[..]);
    FoldedZero(n, w, freqdata[..]);
    tmpbuf[0] := Cpx(freqdata[0] + freqdata[2 * n - 1], freqdata[0] - freqdata[2 * n - 1]);
    for k := 1 to n / 2 + 1
      invariant FoldedUpTo(tmpbuf[..], n, Folded(w, u, n), k)
    {
      FoldStep(tmpbuf, superTwiddles, freqdata, n, k, w);
    }
  }

  /** The loop body for bins k and n-k, which are the same when k is half of n. */
  method FoldStep(tmpbuf: array<Cpx>, superTwiddles: seq<Cpx>, freqdata: array<real>, n: nat, k: nat, ghost w: int -> Cpx)
    requires n > 0 && Root(2 * n, w) && InverseTwiddles(superTwiddles, w, n)
    requires tmpbuf.Length == n && freqdata.Length == 2 * n && 0 < k <= n / 2
    requires FoldedUpTo(tmpbuf[..], n, Folded(w, Unpacked(freqdata[..]), n), k)
    modifies tmpbuf
    ensures FoldedUpTo(tmpbuf[..], n, Folded(w, Unpacked(freqdata[..]), n), k + 1)
  {
    hide Root, Mul, Add, Sub, HalfRoot, Folded, Unpacked, Hermitian;
    ghost var v := Folded(w, Unpacked(freqdata[..]), n);
    UnpackedHermitian(freqdata[..]);
    UnpackedMiddle(freqdata[..], k);
    UnpackedMiddle(freqdata[..], n - k);
    FoldedBins(n, w, Unpacked(freqdata[..]), k);
    var fk := Cpx(freqdata[2 * k - 1], freqdata[2 * k]);
    var fnkc := Cpx(freqdata[2 * (n - k) - 1], -freqdata[2 * (n - k)]);
    var fek := Add(fk, fnkc);
    var tmp := Sub(fk, fnkc);
    var fok := Mul(tmp, superTwiddles[k]);
    StoreFolded(tmpbuf, n, k, Add(fek, fok), Conj(Sub(fek, fok)), v);
  }

  method StoreFolded(tmpbuf: array<Cpx>, n: nat, k: nat, a: Cpx, b: Cpx, ghost v: int -> Cpx)
    requires 0 < k <= n / 2 && FoldedUpTo(tmpbuf[..], n, v, k) && a == v(k) && b == v(n - k)
    modifies tmpbuf
    ensures FoldedUpTo(tmpbuf[..], n, v, k + 1)
  {
    tmpbuf[k] := a;
    tmpbuf[n - k] := b;
  }

  lemma UnpackedMiddle(f: seq<real>, k: int)
    requires |f| >= 2 && |f| % 2 == 0 && 0 < k < |f| / 2
    ensures Unpacked(f)(k) == Cpx(f[2 * k - 1], f[2 * k])
  {
  }

  lemma FoldedAll(f: seq<Cpx>, n: nat, v: int -> Cpx)
    requires |f| == n && FoldedUpTo(f, n, v, n / 2 + 1)
    ensures forall k :: 0 <= k < n ==> f[k] == v(k)
  {
  }

  /** Writing the complex pairs back as real samples. */
  method CopyPairs(pairs: array<Cpx>, timedata: array<real>, n: nat, ghost w: int -> Cpx, ghost u: int -> Cpx)
    requires n > 0 && Root(2 * n, w) && Hermitian(2 * n, u)
    requires pairs.Length == n && timedata.Length == 2 * n
    requires forall t :: 0 <= t < n ==> pairs[t] == Dft(n, HalfRoot(w, true), Folded(w, u, n), t)
    modifies timedata
    ensures InverseSamples(timedata[..], w, u)
  {
    hide Root, Hermitian, Dft, InverseDft, HalfRoot, Folded;
    for t := 0 to n
      invariant forall i :: 0 <= i < 2 * t ==> Real(timedata[i]) == InverseDft(2 * n, w, u, i)
    {
      FoldedSamples(n, w, u, t);
      timedata[2 * t] := pairs[t].re;
      timedata[2 * t + 1] := pairs[t].im;
    }
  }

  // ---- allocation ----

  /** The phase of super twiddle i, in turns; n is half the real length. */
  function SuperPhase(i: int, n: nat, inverse: bool): real
    requires n > 0
  {
    var phase := (i as real / n as real + 0.5) / 2.0;
    if inverse then phase else -phase
  }

  lemma SuperPhaseParts(i: int, n: nat)
    requires n > 0
    ensures SuperPhase(i, n, true) == Phase(-i, 2 * n, false) + 0.25
    ensures SuperPhase(i, n, false) == Phase(i, 2 * n, false) + -0.25
    ensures Phase(2 * i, 2 * n, false) == Phase(i, n, false)
    ensures Phase(-(2 * i), 2 * n, false) == Phase(i, n, true)
  {
    var r := n as real;
    var c := 1.0 / r;
    var d := 1.0 / (2 * n) as real;
    assert d == c / 2.0;
    assert i as real / r == c * i as real;
  }

  lemma SuperIsTurned(cis: real -> Cpx, n: nat, inverse: bool, i: int)
    requires n > 0 && IsCis(cis)
    ensures cis(SuperPhase(i, n, inverse)) == SuperTwiddle(Powers(cis, 2 * n, false), inverse, i)
  {
    hide IsCis, Mul, Phase, SuperPhase;
    SuperPhaseParts(i, n);
    CisConj(cis, 0.25);
    CisAdd(cis, Phase(-i, 2 * n, false), 0.25);
    CisAdd(cis, Phase(i, 2 * n, false), -0.25);
    MulComm(cis(Phase(-i, 2 * n, false)), I);
    MulComm(cis(Phase(i, 2 * n, false)), Neg(I));
  }

  lemma HalfPowers(cis: real -> Cpx, n: nat, inverse: bool, e: int)
    requires n > 0
    ensures HalfRoot(Powers(cis, 2 * n, false), inverse)(e) == Powers(cis, n, inverse)(e)
  {
    hide Phase;
    SuperPhaseParts(e, n);
  }

  lemma ValidCfgExt(st: Cfg, w: int -> Cpx, v: int -> Cpx)
    requires ValidCfg(st, w) && forall e :: w(e) == v(e)
    ensures ValidCfg(st, v)
  {
    hide Mul;
  }

  /** No configuration for odd lengths, as in the source. */
  method KissFftrAlloc(nfft: nat, inverse: bool, cis: real -> Cpx) returns (st: Option<RealCfg>)
    requires 0 < nfft < 0x8000_0000 && IsCis(cis)
    ensures st.Some? <==> nfft % 2 == 0
    ensures st.Some? ==>
              && fresh(st.value.tmpbuf)
              && st.value.substate.nfft == nfft / 2 && st.value.substate.inverse == inverse
              && st.value.substate.factors == Factors(nfft / 2, 4)
              && ValidReal(st.value, Powers(cis, nfft, false))
  {
    hide IsCis, ValidCfg, Root, Oriented, HalfRoot, SuperTwiddle, SuperPhase, Powers;
    if nfft % 2 == 1 {
      return None;
    }
    var n := nfft / 2;
    var substate := KissFftAlloc(n, inverse, cis);
    var superTwiddles := seq(n, i => cis(SuperPhase(i, n, inverse)));
    var tmpbuf := new Cpx[n](_ => ZERO);
    st := Some(RealCfg(substate, tmpbuf, superTwiddles));
    ghost var w := Powers(cis, nfft, false);
    PowersRoot(cis, nfft, false);
    forall e
      ensures Powers(cis, n, inverse)(e) == HalfRoot(w, inverse)(e)
    {
      HalfPowers(cis, n, inverse, e);
    }
    ValidCfgExt(substate, Powers(cis, n, inverse), HalfRoot(w, inverse));
    forall i | 0 <= i < n
      ensures superTwiddles[i] == SuperTwiddle(w, inverse, i)
    {
      SuperIsTurned(cis, n, inverse, i);
    }
  }
}
