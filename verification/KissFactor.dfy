/** kf_factor: the chain of radices and remaining lengths that drives the transform. */
module KissFactor {
  import opened Arith
  import opened Divisors

  const MAXFACTORS := 32

  /** From this candidate on, kf_factor gives up and takes what is left as the radix. */
  const LIMIT := 32000

  datatype Factor = Factor(p: nat, m: nat)

  /** p[0]*m[0] is n, p[i]*m[i] is m[i-1], and the last m is one. */
  predicate Chain(n: nat, fs: seq<Factor>)
    decreases |fs|
  {
    && |fs| > 0
    && Times(fs[0].p, fs[0].m) == n
    && if fs[0].m == 1 then |fs| == 1 else Chain(fs[0].m, fs[1..])
  }

  /** The candidate after p. */
  function NextCandidate(n: nat, p: nat): nat {
    var q := if p == 4 then 2 else if p == 2 then 3 else p + 2;
    if q > LIMIT || Times(q, q) > n then n else q
  }

  /** Candidates run 4, 2, 3, 5, 7, ... up to the limit. */
  function Ahead(p: nat): nat {
    if p == 4 then LIMIT + 3 else if p > LIMIT then 0 else LIMIT + 2 - p
  }

  /** The radix at which the inner loop of kf_factor stops. */
  function Radix(n: nat, p: nat): (r: nat)
    requires n > 0 && p > 1
    ensures r > 0
    decreases Ahead(p)
  {
    if Divides(p, n) then p
    else
      var q := NextCandidate(n, p);
      if q == n then n else Radix(n, q)
  }

  /** One unfolding of Radix. */
  lemma RadixStep(n: nat, p: nat)
    requires n > 0
    ensures p > 1 && Divides(p, n) ==> Radix(n, p) == p
    ensures p > 1 && !Divides(p, n) ==>
              var q := NextCandidate(n, p);
              q == n == Radix(n, p) || (q > 1 && Radix(n, p) == Radix(n, q) && Ahead(q) < Ahead(p))
  {
    hide Divides, Times;
  }

  lemma {:induction false} RadixDivides(n: nat, p: nat)
    requires n > 0 && p > 1
    ensures var r := Radix(n, p); Divides(r, n) && r > 0 && (n > 1 ==> r > 1)
    decreases Ahead(p)
  {
    hide Divides, Times;
    if !Divides(p, n) {
      var q := NextCandidate(n, p);
      if q == n {
        SelfDivides(n);
      } else {
        RadixDivides(n, q);
      }
    }
  }

  /** The pairs that kf_factor writes for n when its candidate is p. */
  function Factors(n: nat, p: nat): seq<Factor>
    requires n > 0 && p > 1
    decreases n
  {
    RadixDivides(n, p);
    QuotientExact(n, Radix(n, p));
    var r := Radix(n, p);
    var m := Quotient(n, r);
    [Factor(r, m)] + if m > 1 then Factors(m, r) else []
  }

  /** One unfolding of Factors. */
  lemma FactorsParts(n: nat, p: nat)
    requires n > 0 && p > 1
    ensures var r, m, fs := Radix(n, p), Quotient(n, Radix(n, p)), Factors(n, p);
            && Times(r, m) == n && 0 < m <= n
            && (n > 1 ==> r > 1 && m < n)
            && |fs| > 0 && fs[0] == Factor(r, m)
            && fs[1..] == if m > 1 then Factors(m, r) else []
  {
    hide Divides, Times, Quotient, Radix;
    RadixDivides(n, p);
    QuotientExact(n, Radix(n, p));
  }

  /** Fours come first, then a two. */
  lemma FoursFirst(n: nat)
    requires n > 1
    ensures n % 4 == 0 ==> Factors(n, 4)[0].p == 4
    ensures n % 4 == 2 ==> Factors(n, 4)[0].p == 2
  {
    hide Factors, Quotient, Times;
    FactorsParts(n, 4);
    RadixStep(n, 4);
    RadixStep(n, 2);
    SmallSquare();
  }

  lemma SmallSquare()
    ensures Times(2, 2) == 4
  {
  }

  lemma {:induction false} FactorsChain(n: nat, p: nat)
    requires n > 0 && p > 1
    ensures Chain(n, Factors(n, p))
    decreases n
  {
    hide Divides, Times, Quotient, Radix, Factors;
    FactorsParts(n, p);
    var r := Radix(n, p);
    var m := Quotient(n, r);
    if m > 1 {
      FactorsChain(m, r);
    }
  }

  /** For n above one, every pair at least halves what is left. */
  lemma {:induction false} FactorsCount(n: nat, p: nat)
    requires n > 1 && p > 1
    ensures Pow2(|Factors(n, p)|) <= n
    decreases n
  {
    hide Divides, Times, Quotient, Radix, Factors;
    FactorsParts(n, p);
    var r := Radix(n, p);
    var m := Quotient(n, r);
    TimesMonotone(2, m, r, m);
    TwiceIs(m);
    if m > 1 {
      FactorsCount(m, r);
    } else {
      assert Pow2(1) == 2;
    }
  }

  lemma TwiceIs(m: nat)
    ensures Times(2, m) == 2 * m
  {
  }

  /** A positive 32-bit length needs at most 30 of the MAXFACTORS pairs. */
  lemma FactorsFit(n: nat)
    requires 0 < n < 0x8000_0000
    ensures |Factors(n, 4)| <= 30
  {
    hide Divides, Times, Quotient, Radix, Factors;
    FactorsParts(n, 4);
    if n > 1 {
      FactorsCount(n, 4);
      if |Factors(n, 4)| > 30 {
        Pow2Monotone(31, |Factors(n, 4)|);
        Pow2Values();
      }
    }
  }

  /** The nested loops of kf_factor over the caller's buffer. */
  method KfFactor(nfft: nat, facbuf: array<int>) returns (pairs: nat)
    requires 0 < nfft < 0x8000_0000
    requires facbuf.Length == 2 * MAXFACTORS
    modifies facbuf
    ensures pairs == |Factors(nfft, 4)| <= MAXFACTORS
    ensures forall i :: 0 <= i < pairs ==>
              facbuf[2 * i] == Factors(nfft, 4)[i].p && facbuf[2 * i + 1] == Factors(nfft, 4)[i].m
  {
    hide Divides, Times, Quotient, Factors, Radix, NextCandidate;
    ghost var all := Factors(nfft, 4);
    FactorsFit(nfft);
    FactorsParts(nfft, 4);
    var n, p := nfft, 4;
    pairs := 0;
    while true
      invariant 0 < n <= nfft && p > 1
      invariant pairs < |all| && all[pairs..] == Factors(n, p)
      invariant forall i :: 0 <= i < pairs ==> facbuf[2 * i] == all[i].p && facbuf[2 * i + 1] == all[i].m
      decreases n
    {
      ghost var r := Radix(n, p);
      FactorsParts(n, p);
      SelfDivides(n);
      while !Divides(p, n)
        invariant (p > 1 && Radix(n, p) == r) || p == n == r
        modifies {}
        decreases if p == n then 0 else 1, Ahead(p)
      {
        RadixStep(n, p);
        p := NextCandidate(n, p);
      }
      RadixStep(n, p);
      assert all[pairs] == all[pairs..][0] == Factor(p, Quotient(n, p));
      n := Quotient(n, p);
      facbuf[2 * pairs] := p;
      facbuf[2 * pairs + 1] := n;
      pairs := pairs + 1;
      if n <= 1 {
        break;
      }
      FactorsParts(n, p);
    }
  }

  // ---- which radices come out ----

  /** No number from 2 up to the candidate divides what is left; nothing is known while
      the candidate is still 4. */
  ghost predicate Sieved(n: nat, p: nat) {
    p == 4 || p == 2 || (p > 2 && p % 2 == 1 && forall d :: 2 <= d < p ==> !Divides(d, n))
  }

  ghost predicate Rough(n: nat) {
    forall d :: 2 <= d <= LIMIT ==> !Divides(d, n)
  }

  lemma SieveStep(n: nat, p: nat)
    requires n > 0 && Sieved(n, p) && !Divides(p, n)
    ensures p != 4 ==> Sieved(n, if p == 2 then 3 else p + 2)
  {
    hide Divides, Times;
    if p > 2 && p != 4 && Divides(p + 1, n) {
      EvenDivides(p + 1);
      DividesTrans(2, p + 1, n);
      assert false;
    }
  }

  lemma EvenDivides(a: nat)
    requires a % 2 == 0
    ensures Divides(2, a)
  {
  }

  /** A radix is 4, a prime up to the limit, or the whole of what is left; in the last
      case what is left is prime or has no divisor up to the limit. */
  lemma {:induction false} RadixKind(n: nat, p: nat)
    requires n > 1 && p > 1 && Sieved(n, p) && p <= LIMIT
    ensures var r := Radix(n, p);
            && (r == 4 || (Prime(r) && r <= LIMIT) || (r == n && (Prime(n) || Rough(n))))
            && (r == n || (r <= LIMIT && Sieved(n, r)))
    decreases Ahead(p)
  {
    hide Divides, Times;
    var q := NextCandidate(n, p);
    if Divides(p, n) {
      if p != 4 {
        SievedDivisorPrime(n, p);
      }
    } else {
      SieveStep(n, p);
      if q != n {
        RadixKind(n, q);
      } else {
        StopKind(n, p);
      }
    }
  }

  lemma SievedDivisorPrime(n: nat, p: nat)
    requires n > 1 && p > 1 && p != 4 && Sieved(n, p) && Divides(p, n)
    ensures Prime(p)
  {
    hide Divides;
    forall d | 2 <= d < p
      ensures !Divides(d, p)
    {
      if Divides(d, p) {
        DividesTrans(d, p, n);
      }
    }
  }

  /** Why the search stops with the whole of n. */
  lemma StopKind(n: nat, p: nat)
    requires n > 1 && 1 < p <= LIMIT && Sieved(n, p) && !Divides(p, n) && NextCandidate(n, p) == n
    ensures Prime(n) || Rough(n)
  {
    hide Divides, Times;
    SieveStep(n, p);
    var q := if p == 4 then 2 else if p == 2 then 3 else p + 2;
    SquareGrows(q);
    if Times(q, q) > n {
      SievedPrime(n, q);
    }
  }

  lemma SquareGrows(q: nat)
    requires q > 1
    ensures Times(q, q) > q
  {
    Grow(q, q);
  }

  predicate AllFourOrPrime(fs: seq<Factor>) {
    forall i :: 0 <= i < |fs| ==> fs[i].p == 4 || Prime(fs[i].p)
  }

  predicate Supported(fs: seq<Factor>) {
    forall i :: 0 <= i < |fs| ==> fs[i].p <= 17
  }

  /** n is a multiple of the product of two primes above the limit. */
  ghost predicate TwoLargePrimes(n: nat) {
    exists a: nat, b: nat :: LargePair(a, b, n)
  }

  ghost predicate LargePair(a: nat, b: nat, n: nat) {
    a > LIMIT && b > LIMIT && Prime(a) && Prime(b) && Divides(Times(a, b), n)
  }

  lemma LargeDescends(a: nat, b: nat, r: nat, m: nat)
    requires 0 < r <= LIMIT && m > 0 && LargePair(a, b, Times(r, m))
    ensures LargePair(a, b, m)
  {
    hide Divides, Times, Prime;
    TimesPositive(a, b);
    TimesPositive(r, m);
    MultipleDivides(a, b);
    DividesTrans(a, Times(a, b), Times(r, m));
    Euclid(a, r, m);
    var c := DividesWitness(a, m);
    TimesAssoc(r, a, c);
    TimesAssoc(a, r, c);
    TimesPositive(r, c);
    DividesCancel(a, b, Times(r, c));
    Euclid(b, r, c);
    SelfDivides(a);
    DividesTimes(a, b, a, c);
  }

  lemma LargeAscends(a: nat, b: nat, r: nat, m: nat)
    requires 0 < r && m > 0 && LargePair(a, b, m)
    ensures LargePair(a, b, Times(r, m))
  {
    hide Divides, Times, Prime;
    TimesPositive(a, b);
    TimesPositive(r, m);
    MultipleDivides(m, r);
    DividesTrans(Times(a, b), m, Times(r, m));
  }

  /** What is left as the last radix is bad exactly when it hides two large primes. */
  lemma LastRadix(n: nat)
    requires n > 1 && (n == 4 || Prime(n) || Rough(n))
    ensures (n == 4 || Prime(n)) <==> !TwoLargePrimes(n)
  {
    hide Divides, Times, Prime;
    if n == 4 || Prime(n) {
      forall a: nat, b: nat
        ensures !LargePair(a, b, n)
      {
        if LargePair(a, b, n) {
          TimesPositive(a, b);
          MultipleDivides(a, b);
          QuotientSize(a, b);
          DividesLeq(Times(a, b), n);
          DividesTrans(a, Times(a, b), n);
          PrimeNotDivided(n, a);
        }
      }
    } else {
      var d := ProperDivisor(n);
      var e := DividesWitness(d, n);
      var a := PrimeDivisor(d, 2);
      var b := PrimeDivisor(e, 2);
      DividesTrans(a, d, n);
      DividesTrans(b, e, n);
      PrimeAboveOne(a);
      PrimeAboveOne(b);
      DividesTimes(a, b, d, e);
      assert LargePair(a, b, n);
    }
  }

  lemma PrimeAboveOne(p: nat)
    requires Prime(p)
    ensures p >= 2
  {
  }

  lemma PrimeNotDivided(p: nat, d: nat)
    requires Prime(p) && 2 <= d < p
    ensures !Divides(d, p)
  {
  }

  lemma ProperDivisor(n: nat) returns (d: nat)
    requires n > 1 && !Prime(n)
    ensures 2 <= d < n && Divides(d, n)
  {
    hide Divides;
    d :| 2 <= d < n && Divides(d, n);
  }

  /** The radices are 4 or prime exactly when no two primes above 32000 have a product
      that divides n. */
  lemma {:induction false} RadixesPrimeFrom(n: nat, p: nat)
    requires n > 1 && p > 1 && Sieved(n, p) && p <= LIMIT
    ensures AllFourOrPrime(Factors(n, p)) <==> !TwoLargePrimes(n)
    decreases n
  {
    hide Divides, Times, Quotient, Radix, Factors, Prime, TwoLargePrimes;
    FactorsParts(n, p);
    RadixKind(n, p);
    var fs := Factors(n, p);
    var r := Radix(n, p);
    var m := Quotient(n, r);
    QuotientIsOne(r, m, n);
    if r == n {
      LastRadix(n);
    } else {
      SieveDescends(n, r, m);
      RadixesPrimeFrom(m, r);
      LargePrimesStep(r, m);
      AllSplit(fs);
    }
  }

  lemma AllSplit(fs: seq<Factor>)
    requires |fs| > 0
    ensures AllFourOrPrime(fs) <==> (fs[0].p == 4 || Prime(fs[0].p)) && AllFourOrPrime(fs[1..])
    ensures Supported(fs) <==> fs[0].p <= 17 && Supported(fs[1..])
  {
    hide Prime;
    assert fs == [fs[0]] + fs[1..];
  }

  lemma QuotientIsOne(r: nat, m: nat, n: nat)
    requires Times(r, m) == n && n > 0
    ensures m == 1 <==> r == n
  {
    QuotientSize(r, m);
  }

  lemma SieveDescends(n: nat, r: nat, m: nat)
    requires n > 0 && r > 0 && m > 0 && Times(r, m) == n && Sieved(n, r)
    ensures Sieved(m, r)
  {
    hide Divides, Times;
    MultipleDivides(m, r);
    forall d | 2 <= d < r && Divides(d, m)
      ensures Divides(d, n)
    {
      DividesTrans(d, m, n);
    }
  }

  lemma LargePrimesStep(r: nat, m: nat)
    requires 0 < r <= LIMIT && m > 0
    ensures TwoLargePrimes(Times(r, m)) <==> TwoLargePrimes(m)
  {
    hide Divides, Times, Prime, LargePair;
    if TwoLargePrimes(Times(r, m)) {
      var a: nat, b: nat :| LargePair(a, b, Times(r, m));
      LargeDescends(a, b, r, m);
    }
    if TwoLargePrimes(m) {
      var a: nat, b: nat :| LargePair(a, b, m);
      LargeAscends(a, b, r, m);
    }
  }

  lemma RadixesPrime(n: nat)
    requires n > 1
    ensures AllFourOrPrime(Factors(n, 4)) <==> !TwoLargePrimes(n)
  {
    RadixesPrimeFrom(n, 4);
  }

  /** Below 32001 squared the radices are 4 or prime without condition. */
  lemma RadixesPrimeBelow(n: nat)
    requires 1 < n < 32001 * 32001
    ensures AllFourOrPrime(Factors(n, 4))
  {
    hide Divides, Prime, Factors, Times;
    RadixesPrime(n);
    forall a: nat, b: nat
      ensures !LargePair(a, b, n)
    {
      if LargePair(a, b, n) {
        LargeProduct(a, b, n);
        assert false;
      }
    }
  }

  lemma LargeProduct(a: nat, b: nat, n: nat)
    requires n > 0 && LargePair(a, b, n)
    ensures n >= 32001 * 32001
  {
    hide Divides, Prime;
    TimesMonotone(32001, 32001, a, b);
    DividesLeq(Times(a, b), n);
  }

  lemma None32003(d: nat, e: nat)
    requires 2 <= d < 179
    ensures Times(d, e) != 32003
  {
  }

  lemma Square179()
    ensures Times(179, 179) == 32041
  {
  }

  lemma Prime32003()
    ensures Prime(32003)
  {
    hide Divides, Times;
    forall d | 2 <= d < 179
      ensures !Divides(d, 32003)
    {
      if Divides(d, 32003) {
        var e := DividesWitness(d, 32003);
        None32003(d, e);
      }
    }
    assert Times(179, 179) > 32003 by {
      Square179();
    }
    SievedPrime(32003, 179);
  }

  /** The source means to take out powers of 4, powers of 2 and then the remaining primes. At
      the length 32003 * 32003 the whole length, the square of a prime, is taken as one radix. */
  lemma CompositeRadix()
    ensures 32003 * 32003 < 0x4000_0000
    ensures !AllFourOrPrime(Factors(32003 * 32003, 4))
  {
    hide Divides, Prime, Factors;
    var p := 32003;
    Prime32003();
    SelfDivides(Times(p, p));
    assert LargePair(p, p, Times(p, p));
    RadixesPrime(p * p);
  }

  // ---- which lengths the butterflies support ----

  ghost predicate OnlySmallPrimes(n: nat) {
    forall d: nat :: Prime(d) && Divides(d, n) ==> d <= 17
  }

  /** No radix exceeds 17, the largest the generic butterfly accepts, exactly when no
      prime factor does. */
  lemma SupportedExactly(n: nat)
    requires n > 1
    ensures Supported(Factors(n, 4)) <==> OnlySmallPrimes(n)
  {
    SupportedFrom(n, 4);
  }

  lemma {:induction false} SupportedFrom(n: nat, p: nat)
    requires n > 1 && p > 1 && Sieved(n, p) && p <= LIMIT
    ensures Supported(Factors(n, p)) <==> OnlySmallPrimes(n)
    decreases n
  {
    hide Divides, Times, Quotient, Radix, Factors, Prime, OnlySmallPrimes;
    FactorsParts(n, p);
    RadixKind(n, p);
    var r := Radix(n, p);
    var m := Quotient(n, r);
    QuotientIsOne(r, m, n);
    AllSplit(Factors(n, p));
    if r == n {
      LastSupported(n);
    } else {
      SieveDescends(n, r, m);
      SupportedFrom(m, r);
      SmallPrimesStep(r, m);
    }
  }

  lemma LastSupported(n: nat)
    requires n > 1 && (n == 4 || Prime(n) || Rough(n))
    ensures n <= 17 <==> OnlySmallPrimes(n)
  {
    hide Divides, Prime;
    if n <= 17 {
      forall d: nat | Prime(d) && Divides(d, n)
        ensures d <= 17
      {
        DividesLeq(d, n);
      }
    } else if Prime(n) {
      SelfDivides(n);
    } else {
      var d := PrimeDivisor(n, 2);
      PrimeAboveOne(d);
    }
  }

  lemma SmallPrimesStep(r: nat, m: nat)
    requires r > 0 && m > 0 && (r == 4 || Prime(r))
    ensures OnlySmallPrimes(Times(r, m)) <==> r <= 17 && OnlySmallPrimes(m)
  {
    hide Divides, Prime, Times;
    TimesPositive(r, m);
    MultipleDivides(m, r);
    MultipleDivides(r, m);
    if r <= 17 && OnlySmallPrimes(m) {
      forall d: nat | Prime(d) && Divides(d, Times(r, m))
        ensures d <= 17
      {
        if d > r {
          Euclid(d, r, m);
        }
      }
    }
    if OnlySmallPrimes(Times(r, m)) {
      forall d: nat | Prime(d) && Divides(d, m)
        ensures d <= 17
      {
        PrimeAboveOne(d);
        DividesTrans(d, m, Times(r, m));
      }
    }
  }
}
