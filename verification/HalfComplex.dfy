/** Transforms of real signals: the packed half-complex layout, and how a transform of
    twice the length is assembled from one of complex pairs. */
module HalfComplex {
  import opened Complex
  import opened Sums
  import opened RootsOfUnity
  import opened Fourier
  import opened Inversion

  /** A real buffer as a complex signal. */
  function RealSignal(f: seq<real>): int -> Cpx {
    j => if 0 <= j < |f| then Real(f[j]) else ZERO
  }

  ghost predicate IsReal(x: int -> Cpx) {
    forall j :: Conj(x(j)) == x(j)
  }

  ghost predicate Hermitian(n: nat, u: int -> Cpx) {
    && Conj(u(0)) == u(0)
    && forall k :: 0 < k < n ==> u(n - k) == Conj(u(k))
  }

  /** Bins of the spectrum u in packed order: the real parts of bin 0 and bin n/2 at the two
      ends, real and imaginary parts of the bins between in the middle. */
  function PackedAt(n: nat, u: int -> Cpx, i: int): real {
    if i == 0 then u(0).re
    else if i == n - 1 then u(n / 2).re
    else if i % 2 == 1 then u((i + 1) / 2).re
    else u(i / 2).im
  }

  function Packed(n: nat, u: int -> Cpx): (r: seq<real>)
    ensures |r| == n
  {
    seq(n, i => PackedAt(n, u, i))
  }

  function RealAt(f: seq<real>, i: int): real {
    if 0 <= i < |f| then f[i] else 0.0
  }

  /** The spectrum that a packed buffer stands for. */
  function Unpacked(f: seq<real>): int -> Cpx {
    k => UnpackedAt(f, k)
  }

  function UnpackedAt(f: seq<real>, k: int): Cpx {
    var n := |f|;
    if k == 0 then Real(RealAt(f, 0))
    else if k == n / 2 then Real(RealAt(f, n - 1))
    else if 0 < k < n / 2 then Cpx(RealAt(f, 2 * k - 1), RealAt(f, 2 * k))
    else if n / 2 < k < n then Cpx(RealAt(f, 2 * (n - k) - 1), -RealAt(f, 2 * (n - k)))
    else ZERO
  }

  lemma UnpackedHermitian(f: seq<real>)
    requires |f| >= 2 && |f| % 2 == 0
    ensures Hermitian(|f|, Unpacked(f))
  {
  }

  lemma PackUnpack(f: seq<real>)
    requires |f| >= 2 && |f| % 2 == 0
    ensures Packed(|f|, Unpacked(f)) == f
  {
  }

  lemma HermitianAt(n: nat, u: int -> Cpx, k: int)
    requires Hermitian(n, u)
    ensures u(0).im == 0.0
    ensures 0 < k < n ==> u(n - k) == Conj(u(k))
  {
  }

  /** Unpacking recovers every bin of a symmetric spectrum. */
  lemma UnpackPack(n: nat, u: int -> Cpx, k: int)
    requires n >= 2 && n % 2 == 0 && Hermitian(n, u) && 0 <= k < n
    ensures Unpacked(Packed(n, u))(k) == u(k)
  {
    hide Hermitian;
    if k == 0 {
      HermitianAt(n, u, 0);
    } else if k < n / 2 {
      PackedBin(n, u, k);
    } else if k == n / 2 {
      HermitianAt(n, u, k);
    } else {
      HermitianAt(n, u, n - k);
      PackedBin(n, u, n - k);
    }
  }

  lemma PackedBin(n: nat, u: int -> Cpx, k: int)
    requires n % 2 == 0 && 0 < k < n / 2
    ensures Packed(n, u)[2 * k - 1] == u(k).re && Packed(n, u)[2 * k] == u(k).im
  {
  }

  /** A real signal has a symmetric spectrum. */
  lemma RealHermitian(n: nat, w: int -> Cpx, x: int -> Cpx)
    requires Root(n, w) && IsReal(x)
    ensures Hermitian(n, Spectrum(n, w, x))
  {
    hide Root, Mul, Conj, Sum;
    forall k
      ensures Dft(n, w, x, n - k) == Conj(Dft(n, w, x, k))
    {
      RealMirror(n, w, x, k);
    }
    assert Dft(n, w, x, n - 0) == Dft(n, w, x, 0) by {
      DftPeriod(n, w, x, 0);
    }
  }

  lemma DftPeriod(n: nat, w: int -> Cpx, x: int -> Cpx, k: int)
    requires Root(n, w)
    ensures Dft(n, w, x, k + n) == Dft(n, w, x, k)
  {
    hide Root, Mul, Sum;
    forall j
      ensures w(j * (k + n)) == w(j * k)
    {
      RootPeriod(n, w, j * k, j);
      assert j * (k + n) == j * k + n * j;
    }
    SumExt(n, j => Mul(x(j), w(j * (k + n))), j => Mul(x(j), w(j * k)));
  }

  lemma RealMirror(n: nat, w: int -> Cpx, x: int -> Cpx, k: int)
    requires Root(n, w) && IsReal(x)
    ensures Dft(n, w, x, n - k) == Conj(Dft(n, w, x, k))
  {
    hide Root, Mul, Conj, Sum;
    var f := j => Mul(x(j), w(j * k));
    SumConj(n, f);
    forall j
      ensures Conj(f(j)) == Mul(x(j), w(j * (n - k)))
    {
      ConjMul(x(j), w(j * k));
      RootConj(n, w, j * k);
      RootPeriod(n, w, -(j * k), j);
      assert j * (n - k) == -(j * k) + n * j;
    }
    SumExt(n, j => Conj(f(j)), j => Mul(x(j), w(j * (n - k))));
  }

  /** A symmetric spectrum has a real inverse. */
  lemma HermitianReal(n: nat, w: int -> Cpx, u: int -> Cpx, t: int)
    requires Root(n, w) && Hermitian(n, u)
    ensures Conj(InverseDft(n, w, u, t)) == InverseDft(n, w, u, t)
  {
    hide Root, Mul, Conj, Sum, Add, Hermitian;
    RootUnit(n, w);
    var f := k => Mul(u(k), w(-(k * t)));
    HermitianStart(n, w, u, t);
    forall k | 0 < k < n
      ensures Conj(f(k)) == f(n - k)
    {
      HermitianTerm(n, w, u, t, k);
    }
    MirrorSum(n, f);
  }

  /** A sum whose terms mirror into their conjugates is real. */
  lemma MirrorSum(n: nat, f: int -> Cpx)
    requires n > 0 && Conj(f(0)) == f(0)
    requires forall k :: 0 < k < n ==> Conj(f(k)) == f(n - k)
    ensures Conj(Sum(n, f)) == Sum(n, f)
  {
    hide Conj, Sum, Add;
    var g := k => Conj(f(k));
    var tail := i => f(1 + i);
    var conjTail := i => g(1 + i);
    var mirrored := Reversed(n - 1, tail);
    SumConj(n, f);
    SplitFirst(n, f);
    SplitFirst(n, g);
    forall i | 0 <= i < n - 1
      ensures conjTail(i) == mirrored(i)
    {
      assert Conj(f(1 + i)) == f(n - (1 + i));
    }
    SumReverse(n - 1, tail);
    SumExt(n - 1, conjTail, mirrored);
  }

  lemma HermitianStart(n: nat, w: int -> Cpx, u: int -> Cpx, t: int)
    requires Root(n, w) && Hermitian(n, u)
    ensures Conj(Mul(u(0), w(-(0 * t)))) == Mul(u(0), w(-(0 * t)))
  {
    hide Root, Mul;
    RootZero(n, w);
    MulOne(u(0));
    assert -(0 * t) == 0;
  }

  lemma HermitianTerm(n: nat, w: int -> Cpx, u: int -> Cpx, t: int, k: int)
    requires Root(n, w) && Hermitian(n, u) && 0 < k < n
    ensures Conj(Mul(u(k), w(-(k * t)))) == Mul(u(n - k), w(-((n - k) * t)))
  {
    hide Root, Mul, Conj;
    ConjMul(u(k), w(-(k * t)));
    RootConj(n, w, -(k * t));
    RootPeriod(n, w, k * t, -t);
    assert -((n - k) * t) == k * t + n * -t;
  }

  lemma SplitFirst(n: nat, f: int -> Cpx)
    requires n > 0
    ensures Sum(n, f) == Add(f(0), Sum(n - 1, i => f(1 + i)))
  {
    hide Add, Sum;
    SumConcat(1, n - 1, f);
    SumParts(1, f);
    SumParts(0, f);
    AddZero(f(0));
  }
}
