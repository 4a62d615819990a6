/** The unscaled inverse Fourier sum: it undoes the transform up to the length, and turns
    products of transforms into circular convolutions. */
module Inversion {
  import opened Complex
  import opened Sums
  import opened RootsOfUnity
  import opened Fourier

  /** Sample t of the unscaled inverse transform of the spectrum u. */
  function InverseDft(n: nat, w: int -> Cpx, u: int -> Cpx, t: int): Cpx {
    Sum(n, k => Mul(u(k), w(-(k * t))))
  }

  /** The plain transform as a function of the bin. */
  function Spectrum(n: nat, w: int -> Cpx, x: int -> Cpx): int -> Cpx {
    k => Dft(n, w, x, k)
  }

  lemma InverseExt(n: nat, w: int -> Cpx, u: int -> Cpx, v: int -> Cpx, t: int)
    requires forall k :: 0 <= k < n ==> u(k) == v(k)
    ensures InverseDft(n, w, u, t) == InverseDft(n, w, v, t)
  {
    hide Mul, Sum;
    SumExt(n, k => Mul(u(k), w(-(k * t))), k => Mul(v(k), w(-(k * t))));
  }

  /** Sum over all bins of one input sample's contribution: the length at j == t, else zero. */
  lemma Pulse(n: nat, w: int -> Cpx, c: Cpx, j: int, t: int)
    requires Root(n, w)
    ensures Sum(n, k => Mul(Mul(c, w(j * k)), w(-(k * t)))) == if (j - t) % n == 0 then Scale(n as real, c) else ZERO
  {
    hide Mul, Sum, Root;
    RootUnit(n, w);
    var f := k => Mul(Mul(c, w(j * k)), w(-(k * t)));
    var g := k => w(k * (j - t));
    forall k | 0 <= k < n
      ensures f(k) == Mul(c, g(k))
    {
      MulAssoc(c, w(j * k), w(-(k * t)));
      RootAdd(n, w, j * k, -(k * t));
      assert j * k + -(k * t) == k * (j - t);
    }
    SumExt(n, f, k => Mul(c, g(k)));
    SumMul(n, c, g);
    Orthogonal(n, w, j - t);
    MulReal(c, n as real);
    MulOne(c);
  }

  lemma MulReal(c: Cpx, r: real)
    ensures Mul(c, Real(r)) == Scale(r, c) == Mul(Real(r), c)
  {
  }

  lemma ScaleZero(r: real)
    ensures Scale(r, ZERO) == ZERO
  {
  }

  /** Exchanging the sums of a transform and its inverse. */
  lemma InverseOfDft(n: nat, w: int -> Cpx, x: int -> Cpx, t: int)
    ensures InverseDft(n, w, Spectrum(n, w, x), t)
         == Sum(n, j => Sum(n, k => Mul(Mul(x(j), w(j * k)), w(-(k * t)))))
  {
    hide Mul, Sum;
    var f := (k, j) => Mul(Mul(x(j), w(j * k)), w(-(k * t)));
    forall k
      ensures Mul(Spectrum(n, w, x)(k), w(-(k * t))) == RowSum(n, f, k)
    {
      DftTimes(n, w, x, k, w(-(k * t)));
      SumExt(n, j => Mul(Mul(x(j), w(j * k)), w(-(k * t))), j => f(k, j));
    }
    SumExt(n, k => Mul(Spectrum(n, w, x)(k), w(-(k * t))), k => RowSum(n, f, k));
    SumSwap(n, n, f);
    SumColumns(n, w, x, t, f);
  }

  lemma SumColumns(n: nat, w: int -> Cpx, x: int -> Cpx, t: int, f: (int, int) -> Cpx)
    requires forall k, j :: f(k, j) == Mul(Mul(x(j), w(j * k)), w(-(k * t)))
    ensures Sum(n, j => ColumnSum(n, f, j)) == Sum(n, j => Sum(n, k => Mul(Mul(x(j), w(j * k)), w(-(k * t)))))
  {
    hide Mul, Sum;
    var g := j => Sum(n, k => Mul(Mul(x(j), w(j * k)), w(-(k * t))));
    forall j
      ensures ColumnSum(n, f, j) == g(j)
    {
      SumExt(n, k => f(k, j), k => Mul(Mul(x(j), w(j * k)), w(-(k * t))));
    }
    SumExt(n, j => ColumnSum(n, f, j), g);
  }

  /** A factor goes into the Fourier sum. */
  lemma DftTimes(n: nat, w: int -> Cpx, x: int -> Cpx, k: int, c: Cpx)
    ensures Mul(Dft(n, w, x, k), c) == Sum(n, j => Mul(Mul(x(j), w(j * k)), c))
  {
    hide Mul, Sum;
    var f := j => Mul(x(j), w(j * k));
    SumMul(n, c, f);
    MulComm(Dft(n, w, x, k), c);
    forall j
      ensures Mul(c, f(j)) == Mul(f(j), c)
    {
      MulComm(c, f(j));
    }
    SumExt(n, j => Mul(c, f(j)), j => Mul(Mul(x(j), w(j * k)), c));
  }

  /** The inverse sum recovers every sample, scaled by the length. */
  lemma DftInverted(n: nat, w: int -> Cpx, x: int -> Cpx, t: int)
    requires Root(n, w) && 0 <= t < n
    ensures InverseDft(n, w, Spectrum(n, w, x), t) == Scale(n as real, x(t))
  {
    hide Mul, Sum, Root;
    InverseOfDft(n, w, x, t);
    var g := j => Sum(n, k => Mul(Mul(x(j), w(j * k)), w(-(k * t))));
    forall j | 0 <= j < n
      ensures g(j) == if j == t then Scale(n as real, x(j)) else ZERO
    {
      Pulse(n, w, x(j), j, t);
      SameResidue(j, t, n);
    }
    SumSingle(n, t, g);
  }

  lemma SameResidue(j: int, t: int, n: nat)
    requires 0 <= j < n && 0 <= t < n
    ensures (j - t) % n == 0 <==> j == t
  {
  }
}
