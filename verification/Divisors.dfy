/** Divisors and primes of positive numbers. */
module Divisors {
  import opened Arith

  predicate Divides(d: nat, n: nat) {
    d > 0 && n % d == 0
  }

  function Quotient(n: nat, d: nat): nat
    requires d > 0
  {
    n / d
  }

  predicate Prime(p: nat) {
    p >= 2 && forall d :: 2 <= d < p ==> !Divides(d, p)
  }

  lemma QuotientExact(n: nat, d: nat)
    requires n > 0 && d > 0 && Divides(d, n)
    ensures Times(d, Quotient(n, d)) == n
    ensures 1 <= Quotient(n, d) <= n
    ensures d > 1 ==> Quotient(n, d) < n
    ensures Quotient(n, d) == 1 <==> d == n
  {
    hide Times, Quotient, Divides;
    QuotientOf(n, d);
    QuotientSize(d, Quotient(n, d));
  }

  lemma QuotientOf(n: nat, d: nat)
    requires n > 0 && d > 0 && Divides(d, n)
    ensures Times(d, Quotient(n, d)) == n
  {
  }

  lemma QuotientSize(d: nat, q: nat)
    requires d > 0 && Times(d, q) > 0
    ensures 1 <= q <= Times(d, q)
    ensures d > 1 ==> q < Times(d, q)
    ensures q == 1 <==> d == Times(d, q)
  {
    assert q > 0;
    Grow(d, q);
    assert q == 1 ==> d * q == d;
    if d == 1 {
      assert d * q == q;
    } else if q > 1 {
      Grow(d, q);
    }
  }

  lemma MultipleDivides(d: nat, e: nat)
    requires d > 0
    ensures Divides(d, Times(d, e)) && Divides(d, Times(e, d))
  {
    DivUnique(Times(d, e), d, e, 0);
    TimesAssoc(d, e, 0);
  }

  lemma DividesWitness(d: nat, n: nat) returns (e: nat)
    requires d > 0 && n > 0 && Divides(d, n)
    ensures Times(d, e) == n && 1 <= e <= n && Divides(e, n)
    ensures d > 1 ==> e < n
    ensures d < n ==> e > 1
  {
    hide Divides, Times, Quotient;
    QuotientExact(n, d);
    e := Quotient(n, d);
    MultipleDivides(e, d);
  }

  lemma DividesTrans(a: nat, b: nat, c: nat)
    requires a > 0 && b > 0 && c > 0 && Divides(a, b) && Divides(b, c)
    ensures Divides(a, c)
  {
    hide Divides, Times, Quotient;
    var x := DividesWitness(a, b);
    var y := DividesWitness(b, c);
    TimesAssoc(a, x, y);
    MultipleDivides(a, Times(x, y));
  }

  lemma DividesLeq(d: nat, n: nat)
    requires n > 0 && Divides(d, n)
    ensures 1 <= d <= n
  {
  }

  /** A number whose divisors below q are only one, with q*q above it, is prime. */
  lemma SievedPrime(n: nat, q: nat)
    requires n > 1 && Times(q, q) > n
    requires forall d :: 2 <= d < q ==> !Divides(d, n)
    ensures Prime(n)
  {
    hide Divides, Times;
    forall d | 2 <= d < n
      ensures !Divides(d, n)
    {
      if Divides(d, n) {
        var e := DividesWitness(d, n);
        TimesMonotone(q, q, d, e);
      }
    }
  }

  /** Every number above one has a prime divisor. */
  lemma {:induction false} PrimeDivisor(n: nat, from: nat) returns (p: nat)
    requires n > 1 && 2 <= from <= n
    requires forall d :: 2 <= d < from ==> !Divides(d, n)
    ensures Prime(p) && Divides(p, n) && p >= from
    decreases n - from
  {
    hide Divides;
    if Divides(from, n) {
      p := from;
      forall d | 2 <= d < p
        ensures !Divides(d, p)
      {
        if Divides(d, p) {
          DividesTrans(d, p, n);
        }
      }
    } else {
      SelfDivides(n);
      p := PrimeDivisor(n, from + 1);
    }
  }

  lemma SelfDivides(n: nat)
    requires n > 0
    ensures Divides(n, n) && Divides(1, n)
  {
  }

  /** Euclid's lemma, for a factor below the prime. */
  lemma {:induction false} Euclid(a: nat, x: nat, y: nat)
    requires Prime(a) && 0 < x < a && y > 0 && Divides(a, Times(x, y))
    ensures Divides(a, y)
    decreases x
  {
    hide Divides, Times;
    if x == 1 {
      OneTimes(y);
    } else {
      var r := EuclidStep(a, x, y);
      Euclid(a, r, y);
    }
  }

  lemma OneTimes(y: nat)
    ensures Times(1, y) == y == Times(y, 1)
  {
  }

  lemma EuclidStep(a: nat, x: nat, y: nat) returns (r: nat)
    requires Prime(a) && 1 < x < a && y > 0 && Divides(a, Times(x, y))
    ensures 0 < r < x && Divides(a, Times(r, y))
  {
    hide Divides, Prime, Times;
    var q := a / x;
    r := a % x;
    NotDivided(a, x);
    TimesPositive(x, y);
    TimesPositive(r, y);
    var c := DividesWitness(a, Times(x, y));
    Remainder(a, x, y, q, r, c);
    var d := y - Times(q, c);
    NonPositive(a, d);
    MultipleDivides(a, d);
  }

  lemma Remainder(a: int, x: int, y: int, q: int, r: int, c: int)
    requires a == x * q + r && Times(a, c) == Times(x, y)
    ensures Times(r, y) == Times(a, y - Times(q, c))
  {
    assert (x * q + r) * y == q * (x * y) + r * y;
    assert q * (a * c) == a * (q * c);
    assert a * (y - q * c) == a * y - a * (q * c);
  }

  lemma TimesPositive(a: int, b: int)
    requires a > 0 && b > 0
    ensures Times(a, b) > 0
  {
  }

  lemma NotDivided(a: nat, x: nat)
    requires Prime(a) && 1 < x < a
    ensures a % x != 0
  {
    assert !Divides(x, a);
  }

  lemma NonPositive(a: int, d: int)
    requires a > 0 && Times(a, d) > 0
    ensures d > 0
  {
  }

  /** Cancelling a common factor. */
  lemma DividesCancel(a: nat, b: nat, z: nat)
    requires a > 0 && b > 0 && z > 0 && Divides(Times(a, b), Times(a, z))
    ensures Divides(b, z)
  {
    hide Divides, Times;
    TimesPositive(a, b);
    TimesPositive(a, z);
    var e := DividesWitness(Times(a, b), Times(a, z));
    TimesAssoc(a, b, e);
    CancelFactor(a, Times(b, e), z);
    MultipleDivides(b, e);
  }

  lemma CancelFactor(a: int, u: int, v: int)
    requires a > 0 && Times(a, u) == Times(a, v)
    ensures u == v
  {
    assert a * (u - v) == 0;
    SmallMultiple(a, u - v);
  }

  lemma DividesTimes(a: nat, b: nat, x: nat, y: nat)
    requires a > 0 && b > 0 && x > 0 && y > 0 && Divides(a, x) && Divides(b, y)
    ensures Times(a, b) > 0 && Times(x, y) > 0 && Divides(Times(a, b), Times(x, y))
  {
    hide Divides, Times;
    var c := DividesWitness(a, x);
    var d := DividesWitness(b, y);
    TimesPositive(a, b);
    TimesPositive(x, y);
    TimesFour(a, c, b, d);
    MultipleDivides(Times(a, b), Times(c, d));
  }

  lemma TimesFour(a: int, c: int, b: int, d: int)
    ensures Times(Times(a, c), Times(b, d)) == Times(Times(a, b), Times(c, d))
  {
    hide Times;
    TimesAssoc(a, c, Times(b, d));
    TimesAssoc(c, b, d);
    TimesAssoc(b, c, d);
    TimesAssoc(a, b, Times(c, d));
  }
}
