/** Twiddle factors. The source evaluates cos and sin of multiples of 2*pi/n; here the
    exponential is an abstract function of the phase counted in turns, and all that is
    used of it is stated in IsCis. */
module RootsOfUnity {
  import opened Complex
  import opened Sums

  /** cis(t) stands for exp(2*pi*i*t). */
  ghost predicate IsCis(cis: real -> Cpx) {
    && (forall a, b, c :: c == a + b ==> cis(c) == Mul(cis(a), cis(b)))
    && cis(1.0) == ONE
    && cis(0.25) == I
    && (forall a, b :: b == -a ==> cis(b) == Conj(cis(a)))
    && (forall a :: 0.0 < a < 1.0 ==> cis(a) != ONE)
  }

  /** w(e) is the e-th power of a primitive n-th root of unity. */
  ghost predicate Root(n: nat, w: int -> Cpx) {
    && n > 0
    && Additive(w)
    && w(n) == ONE
    && OnCircle(w)
    && (forall e :: 0 < e < n ==> w(e) != ONE)
  }

  ghost predicate Additive(w: int -> Cpx) {
    forall a, b, c :: c == a + b ==> w(c) == Mul(w(a), w(b))
  }

  ghost predicate OnCircle(w: int -> Cpx) {
    forall a, b :: b == -a ==> w(b) == Conj(w(a))
  }

  /** A quarter turn is -i for a forward table and i for an inverse one. */
  ghost predicate Oriented(n: nat, w: int -> Cpx, inverse: bool) {
    n % 4 == 0 ==> w(n / 4) == if inverse then I else Neg(I)
  }

  lemma RootAdd(n: nat, w: int -> Cpx, a: int, b: int)
    requires Root(n, w)
    ensures w(a + b) == Mul(w(a), w(b))
  {
  }

  lemma RootUnit(n: nat, w: int -> Cpx)
    requires Root(n, w)
    ensures n > 0 && w(n) == ONE
  {
  }

  lemma RootConj(n: nat, w: int -> Cpx, a: int)
    requires Root(n, w)
    ensures w(-a) == Conj(w(a))
  {
  }

  lemma RootPrimitive(n: nat, w: int -> Cpx, e: int)
    requires Root(n, w) && 0 < e < n
    ensures w(e) != ONE
  {
  }

  lemma RootZero(n: nat, w: int -> Cpx)
    requires Root(n, w)
    ensures w(0) == ONE
  {
    hide Mul, Root;
    RootUnit(n, w);
    RootAdd(n, w, n, 0);
    MulOne(w(0));
  }

  lemma {:induction false} RootPeriod(n: nat, w: int -> Cpx, a: int, c: int)
    requires Root(n, w)
    ensures w(a + n * c) == w(a)
    decreases if c < 0 then -c else c
  {
    hide Mul, Root;
    RootUnit(n, w);
    if c > 0 {
      RootPeriod(n, w, a, c - 1);
      assert a + n * c == a + n * (c - 1) + n;
      RootAdd(n, w, a + n * (c - 1), n);
      MulOne(w(a));
    } else if c < 0 {
      RootPeriod(n, w, a, c + 1);
      assert a + n * (c + 1) == a + n * c + n;
      RootAdd(n, w, a + n * c, n);
      MulOne(w(a + n * c));
    }
  }

  lemma RootMod(n: nat, w: int -> Cpx, a: int)
    requires Root(n, w)
    ensures w(a % n) == w(a)
  {
    hide Mul, Root;
    RootUnit(n, w);
    RootPeriod(n, w, a % n, a / n);
  }

  /** Powers of w(1) are exhausted by 0..n-1: w(e) is one exactly at the multiples of n. */
  lemma RootOne(n: nat, w: int -> Cpx, e: int)
    requires Root(n, w)
    ensures n > 0 && (w(e) == ONE <==> e % n == 0)
  {
    hide Mul, Root;
    RootUnit(n, w);
    RootMod(n, w, e);
    RootZero(n, w);
    if e % n != 0 {
      RootPrimitive(n, w, e % n);
    }
  }

  lemma RootHalf(n: nat, w: int -> Cpx)
    requires Root(n, w) && n % 2 == 0
    ensures w(n / 2) == Neg(ONE)
  {
    hide Root;
    var z := w(n / 2);
    RootUnit(n, w);
    RootPrimitive(n, w, n / 2);
    RootAdd(n, w, n / 2, n / 2);
    assert Mul(Sub(z, ONE), Add(z, ONE)) == ZERO;
    ZeroProduct(Sub(z, ONE), Add(z, ONE));
  }

  lemma RootThird(n: nat, w: int -> Cpx)
    requires Root(n, w) && n % 3 == 0
    ensures w(n / 3).re == -0.5
    ensures w(2 * (n / 3)) == Conj(w(n / 3))
  {
    hide Root, Mul;
    var t := n / 3;
    var z := w(t);
    RootUnit(n, w);
    RootPrimitive(n, w, t);
    RootAdd(n, w, t, t);
    RootAdd(n, w, 2 * t, t);
    RootPeriod(n, w, -t, 1);
    RootConj(n, w, t);
    MulComm(z, Conj(z));
    CubeRoot(z);
  }

  lemma CubeRoot(z: Cpx)
    requires Mul(z, z) == Conj(z) && z != ONE && Mul(z, Conj(z)) == ONE
    ensures z.re == -0.5
  {
    hide Mul;
    CubeFactor(z);
    ZeroProduct(Sub(z, ONE), Add(Add(z, Conj(z)), ONE));
  }

  lemma CubeFactor(z: Cpx)
    requires Mul(z, z) == Conj(z) && Mul(z, Conj(z)) == ONE
    ensures Mul(Sub(z, ONE), Add(Add(z, Conj(z)), ONE)) == ZERO
  {
    hide Mul;
    var c := Conj(z);
    MulSub(Add(Add(z, c), ONE), z, ONE);
    MulAdd(z, Add(z, c), ONE);
    MulAdd(z, z, c);
    MulOne(z);
    MulOne(Add(Add(z, c), ONE));
  }

  /** Orthogonality: the powers of w(k) sum to n when n divides k and to zero otherwise. */
  lemma Orthogonal(n: nat, w: int -> Cpx, k: int)
    requires Root(n, w)
    ensures Sum(n, j => w(j * k)) == if k % n == 0 then Real(n as real) else ZERO
  {
    hide Mul, Sum, Root;
    RootUnit(n, w);
    var f := j => w(j * k);
    if k % n == 0 {
      forall j | 0 <= j < n
        ensures f(j) == ONE
      {
        RootZero(n, w);
        RootPeriod(n, w, 0, j * (k / n));
        assert j * k == n * (j * (k / n));
      }
      SumOnes(n, f);
    } else {
      GeometricShift(n, w, k);
      var s := Sum(n, f);
      MulSub(s, w(k), ONE);
      MulOne(s);
      assert Mul(Sub(w(k), ONE), s) == Sub(Mul(w(k), s), Mul(ONE, s)) == ZERO;
      ZeroProduct(Sub(w(k), ONE), s);
      RootOne(n, w, k);
    }
  }

  lemma {:induction false} SumOnes(n: nat, f: int -> Cpx)
    requires forall j :: 0 <= j < n ==> f(j) == ONE
    ensures Sum(n, f) == Real(n as real)
  {
    if n > 0 {
      SumOnes(n - 1, f);
    }
  }

  /** Multiplying the geometric sum by w(k) only rotates its terms. */
  lemma GeometricShift(n: nat, w: int -> Cpx, k: int)
    requires Root(n, w)
    ensures Mul(w(k), Sum(n, j => w(j * k))) == Sum(n, j => w(j * k))
  {
    hide Mul, Add, Sum, Root;
    var f := j => w(j * k);
    var g := j => Mul(w(k), f(j));
    SumMul(n, w(k), f);
    forall j | 0 <= j < n
      ensures g(j) == f(1 + j)
    {
      RootAdd(n, w, k, j * k);
      assert (1 + j) * k == k + j * k;
    }
    SumExt(n, g, j => f(1 + j));
    SumConcat(1, n, f);
    SumParts(1, f);
    SumParts(0, f);
    SumParts(n + 1, f);
    RootZero(n, w);
    RootPeriod(n, w, 0, k);
    AddZero(ONE);
    assert f(0) == ONE && f(n) == ONE;
    AddCancel(ONE, Sum(n, j => f(1 + j)), Sum(n, f));
  }

  lemma AddCancel(a: Cpx, b: Cpx, c: Cpx)
    requires Add(a, b) == Add(c, a)
    ensures b == c
  {
  }
}
