/** The butterflies of the mixed-radix transform. A butterfly of radix p turns p
    sub-blocks of length m into one block; column j of it rewrites, in place, the p
    entries that sit at position j of the sub-blocks. */
module Butterflies {
  import opened Arith
  import opened Complex
  import opened Sums
  import opened RootsOfUnity
  import opened Fourier

  /** Entry i of sub-block u of the block that starts at base. */
  function Ix(base: int, m: int, u: int, i: int): int {
    base + u * m + i
  }

  lemma IxBounds(base: int, m: nat, p: nat, u: int, i: int)
    requires 0 <= u < p && 0 <= i < m
    ensures base <= Ix(base, m, u, i) < base + p * m
  {
    SubIndex(0, p, m, u, i);
  }

  lemma IxInjective(base: int, m: nat, u: int, i: int, u': int, i': int)
    requires 0 <= i < m && 0 <= i' < m && Ix(base, m, u, i) == Ix(base, m, u', i')
    ensures u == u' && i == i'
  {
    assert m * (u - u') == i' - i;
    SmallMultiple(m, u - u');
  }

  lemma IxSplit(base: int, m: nat, p: nat, k: int) returns (u: int, i: int)
    requires m > 0 && base <= k < base + p * m
    ensures 0 <= u < p && 0 <= i < m && Ix(base, m, u, i) == k
  {
    u, i := (k - base) / m, (k - base) % m;
    assert k - base == m * u + i;
    assert u * m < p * m;
    QuotientBelow(u, p, m);
  }

  lemma QuotientBelow(u: int, p: int, m: int)
    requires m > 0 && u * m < p * m
    ensures u < p
  {
  }

  /** The entry that column j of a butterfly puts into sub-block u, from the entries a of
      that column. */
  function ColumnOut(w: int -> Cpx, s: int, p: nat, m: int, a: seq<Cpx>, j: int, u: int): Cpx {
    Sum(p, q => Mul(At(a, q), w(s * q * (u * m + j))))
  }

  /** Entries of column j. */
  function Column(f: seq<Cpx>, base: int, p: nat, m: int, j: int): (r: seq<Cpx>)
    ensures |r| == p
  {
    seq(p, q => At(f, Ix(base, m, q, j)))
  }

  /** The inputs scaled by their twiddles: the scratch values of every butterfly. */
  function Scaled(w: int -> Cpx, s: int, a: seq<Cpx>, j: int, q: int): Cpx {
    Mul(At(a, q), w(s * q * j))
  }

  lemma TwiddleParts(n: nat, w: int -> Cpx, s: int, m: int, q: int, u: int, j: int)
    requires Root(n, w)
    ensures w(s * q * (u * m + j)) == Mul(w(s * q * j), w(s * m * (q * u)))
  {
    hide Root, Mul;
    RootAdd(n, w, s * q * j, s * m * (q * u));
    assert s * q * (u * m + j) == s * q * j + s * m * (q * u) by {
      assert s * q * (u * m + j) == s * q * (u * m) + s * q * j;
      assert s * q * (u * m) == s * m * (q * u);
    }
  }

  /** A column is the transform of length p of its scaled inputs. */
  lemma ColumnIsSmallDft(n: nat, w: int -> Cpx, s: int, p: nat, m: int, a: seq<Cpx>, j: int, u: int)
    requires Root(n, w)
    ensures ColumnOut(w, s, p, m, a, j, u) == Sum(p, q => Mul(Scaled(w, s, a, j, q), w(s * m * (q * u))))
  {
    hide Root, Mul, Sum, At;
    var f := q => Mul(At(a, q), w(s * q * (u * m + j)));
    var g := q => Mul(Scaled(w, s, a, j, q), w(s * m * (q * u)));
    forall q | 0 <= q < p
      ensures f(q) == g(q)
    {
      TwiddleParts(n, w, s, m, q, u, j);
      MulAssoc(At(a, q), w(s * q * j), w(s * m * (q * u)));
    }
    SumExt(p, f, g);
  }

  /** Combined, the specification of a stage, one column at a time. */
  lemma CombinedIsColumn(w: int -> Cpx, s: int, p: nat, m: nat, f: seq<Cpx>, base: int, j: nat, u: nat)
    requires j < m && u < p && 0 <= base && base + p * m <= |f|
    ensures Combined(w, s, p, m, f[base..base + p * m], Ix(0, m, u, j))
         == ColumnOut(w, s, p, m, Column(f, base, p, m, j), j, u)
  {
    hide Mul, Sum, At, Column, Ix;
    var blk := f[base..base + p * m];
    var a := Column(f, base, p, m, j);
    var k := Ix(0, m, u, j);
    IxMod(m, u, j);
    var g := q => Mul(At(blk, q * m + k % m), w(s * q * k));
    var h := q => Mul(At(a, q), w(s * q * (u * m + j)));
    forall q | 0 <= q < p
      ensures g(q) == h(q)
    {
      ColumnEntry(p, m, f, base, j, q);
    }
    SumExt(p, g, h);
  }

  lemma IxMod(m: nat, u: nat, j: nat)
    requires j < m
    ensures Ix(0, m, u, j) % m == j && Ix(0, m, u, j) == u * m + j
  {
    DivUnique(u * m + j, m, u, j);
  }

  lemma ColumnEntry(p: nat, m: nat, f: seq<Cpx>, base: int, j: nat, q: int)
    requires j < m && 0 <= q < p && 0 <= base && base + p * m <= |f|
    ensures At(f[base..base + p * m], q * m + j) == At(Column(f, base, p, m, j), q)
  {
    IxBounds(0, m, p, q, j);
    IxBounds(base, m, p, q, j);
    assert base + (q * m + j) == base + q * m + j;
  }

  lemma UnitTwiddle(n: nat, w: int -> Cpx, s: int, m: int, a: Cpx)
    requires Root(n, w)
    ensures Mul(a, w(s * m * 0)) == a
  {
    hide Root, Mul;
    RootZero(n, w);
    MulOne(a);
  }

  /** The first scaled input is the input itself. */
  lemma ScaledZero(n: nat, w: int -> Cpx, s: int, a: seq<Cpx>, j: int)
    requires Root(n, w)
    ensures Scaled(w, s, a, j, 0) == At(a, 0)
  {
    hide Root, Mul;
    RootZero(n, w);
    assert s * 0 * j == 0;
    MulOne(At(a, 0));
  }

  lemma Sum2(f: int -> Cpx)
    ensures Sum(2, f) == Add(f(0), f(1))
  {
    hide Add;
    SumParts(1, f);
    SumParts(0, f);
    AddZero(f(0));
  }

  // ---- radix 2 ----

  lemma Radix2(n: nat, w: int -> Cpx, s: int, m: int, a: seq<Cpx>, j: int)
    requires Root(n, w) && 2 * (s * m) == n
    ensures var a0, t := At(a, 0), Mul(At(a, 1), w(s * j));
            && ColumnOut(w, s, 2, m, a, j, 0) == Add(a0, t)
            && ColumnOut(w, s, 2, m, a, j, 1) == Sub(a0, t)
  {
    hide Root, Mul, Sum, Scaled, ColumnOut;
    ScaledZero(n, w, s, a, j);
    ScaledOne(w, s, a, j, 1);
    RootHalf(n, w);
    forall u | u == 0 || u == 1
      ensures ColumnOut(w, s, 2, m, a, j, u) == Add(At(a, 0), Mul(Mul(At(a, 1), w(s * j)), w(s * m * u)))
    {
      ColumnIsSmallDft(n, w, s, 2, m, a, j, u);
      var g := q => Mul(Scaled(w, s, a, j, q), w(s * m * (q * u)));
      Sum2(g);
      UnitTwiddle(n, w, s, m, At(a, 0));
      assert g(0) == At(a, 0) && g(1) == Mul(Mul(At(a, 1), w(s * j)), w(s * m * u));
    }
    UnitTwiddle(n, w, s, m, Mul(At(a, 1), w(s * j)));
    MulMinusOne(Mul(At(a, 1), w(s * j)));
  }

  lemma ScaledOne(w: int -> Cpx, s: int, a: seq<Cpx>, j: int, q: int)
    ensures Scaled(w, s, a, j, q) == Mul(At(a, q), w(q * (s * j)))
  {
    assert s * q * j == q * (s * j);
  }

  lemma MulMinusOne(a: Cpx)
    ensures Mul(a, Neg(ONE)) == Neg(a)
  {
  }

  // ---- radix 3 ----

  lemma Sum3(f: int -> Cpx)
    ensures Sum(3, f) == Add(Add(f(0), f(1)), f(2))
  {
    hide Add;
    Sum2(f);
  }

  /** t1 and t2 are the scaled inputs, e the twiddle of a third of a turn. */
  lemma Radix3(n: nat, w: int -> Cpx, s: int, m: int, a: seq<Cpx>, j: int)
    requires Root(n, w) && 3 * (s * m) == n
    ensures var a0, t1, t2, e := At(a, 0), Mul(At(a, 1), w(s * j)), Mul(At(a, 2), w(2 * (s * j))), w(s * m);
            && e.re == -0.5
            && ColumnOut(w, s, 3, m, a, j, 0) == Add(Add(a0, t1), t2)
            && ColumnOut(w, s, 3, m, a, j, 1) == Add(Add(a0, Mul(t1, e)), Mul(t2, Conj(e)))
            && ColumnOut(w, s, 3, m, a, j, 2) == Add(Add(a0, Mul(t1, Conj(e))), Mul(t2, e))
  {
    hide Root, Mul, Sum, Scaled, ColumnOut, Add;
    var t := s * m;
    RootThird(n, w);
    RootZero(n, w);
    RootPeriod(n, w, t, 1);
    SmallColumn3(n, w, s, m, a, j, 0);
    SmallColumn3(n, w, s, m, a, j, 1);
    SmallColumn3(n, w, s, m, a, j, 2);
    MulOne(Mul(At(a, 1), w(s * j)));
    MulOne(Mul(At(a, 2), w(2 * (s * j))));
  }

  lemma SmallColumn3(n: nat, w: int -> Cpx, s: int, m: int, a: seq<Cpx>, j: int, u: int)
    requires Root(n, w)
    ensures ColumnOut(w, s, 3, m, a, j, u)
         == Add(Add(At(a, 0), Mul(Mul(At(a, 1), w(s * j)), w(s * m * u))),
                Mul(Mul(At(a, 2), w(2 * (s * j))), w(s * m * (2 * u))))
  {
    hide Root, Mul, Sum, Scaled, ColumnOut, Add;
    ColumnIsSmallDft(n, w, s, 3, m, a, j, u);
    Sum3(q => Mul(Scaled(w, s, a, j, q), w(s * m * (q * u))));
    UnitTwiddle(n, w, s, m, At(a, 0));
    ScaledZero(n, w, s, a, j);
    ScaledOne(w, s, a, j, 1);
    ScaledOne(w, s, a, j, 2);
  }

  // ---- radix 4 ----

  lemma Sum4(f: int -> Cpx)
    ensures Sum(4, f) == Add(Add(Add(f(0), f(1)), f(2)), f(3))
  {
    hide Add;
    Sum3(f);
  }

  lemma SmallColumn4(n: nat, w: int -> Cpx, s: int, m: int, a: seq<Cpx>, j: int, u: int)
    requires Root(n, w)
    ensures ColumnOut(w, s, 4, m, a, j, u)
         == Add(Add(Add(At(a, 0), Mul(Mul(At(a, 1), w(s * j)), w(s * m * u))),
                    Mul(Mul(At(a, 2), w(2 * (s * j))), w(s * m * (2 * u)))),
                Mul(Mul(At(a, 3), w(3 * (s * j))), w(s * m * (3 * u))))
  {
    hide Root, Mul, Sum, Scaled, ColumnOut, Add;
    ColumnIsSmallDft(n, w, s, 4, m, a, j, u);
    Sum4(q => Mul(Scaled(w, s, a, j, q), w(s * m * (q * u))));
    UnitTwiddle(n, w, s, m, At(a, 0));
    ScaledZero(n, w, s, a, j);
    ScaledOne(w, s, a, j, 1);
    ScaledOne(w, s, a, j, 2);
    ScaledOne(w, s, a, j, 3);
  }

  /** g is the twiddle of a quarter turn: i for an inverse table, -i for a forward one. */
  lemma Radix4(n: nat, w: int -> Cpx, inverse: bool, s: int, m: int, a: seq<Cpx>, j: int)
    requires Root(n, w) && Oriented(n, w, inverse) && 4 * (s * m) == n
    ensures var a0, t1 := At(a, 0), Mul(At(a, 1), w(s * j));
            var t2, t3 := Mul(At(a, 2), w(2 * (s * j))), Mul(At(a, 3), w(3 * (s * j)));
            var d := if inverse then Mul(I, Sub(t1, t3)) else Neg(Mul(I, Sub(t1, t3)));
            && ColumnOut(w, s, 4, m, a, j, 0) == Add(Add(a0, t2), Add(t1, t3))
            && ColumnOut(w, s, 4, m, a, j, 1) == Add(Sub(a0, t2), d)
            && ColumnOut(w, s, 4, m, a, j, 2) == Sub(Add(a0, t2), Add(t1, t3))
            && ColumnOut(w, s, 4, m, a, j, 3) == Sub(Sub(a0, t2), d)
  {
    hide Root, Mul, Sum, Scaled, ColumnOut, Add, Sub, Neg;
    var t := s * m;
    var t1, t2, t3 := Mul(At(a, 1), w(s * j)), Mul(At(a, 2), w(2 * (s * j))), Mul(At(a, 3), w(3 * (s * j)));
    QuarterTurns(n, w, t);
    SmallColumn4(n, w, s, m, a, j, 0);
    SmallColumn4(n, w, s, m, a, j, 1);
    SmallColumn4(n, w, s, m, a, j, 2);
    SmallColumn4(n, w, s, m, a, j, 3);
    FourPointEven(At(a, 0), t1, t2, t3);
    FourPointOdd(At(a, 0), t1, t2, t3);
    SubNeg(Sub(At(a, 0), t2), Mul(I, Sub(t1, t3)));
    SubNeg(At(a, 0), I);
  }

  lemma FourPointEven(a0: Cpx, t1: Cpx, t2: Cpx, t3: Cpx)
    ensures Add(Add(Add(a0, Mul(t1, ONE)), Mul(t2, ONE)), Mul(t3, ONE)) == Add(Add(a0, t2), Add(t1, t3))
    ensures Add(Add(Add(a0, Mul(t1, Neg(ONE))), Mul(t2, ONE)), Mul(t3, Neg(ONE))) == Sub(Add(a0, t2), Add(t1, t3))
  {
    hide Mul;
    MulTurns(t1);
    MulTurns(t2);
    MulTurns(t3);
  }

  lemma FourPointOdd(a0: Cpx, t1: Cpx, t2: Cpx, t3: Cpx)
    ensures Add(Add(Add(a0, Mul(t1, I)), Mul(t2, Neg(ONE))), Mul(t3, Neg(I))) == Add(Sub(a0, t2), Mul(I, Sub(t1, t3)))
    ensures Add(Add(Add(a0, Mul(t1, Neg(I))), Mul(t2, Neg(ONE))), Mul(t3, I)) == Sub(Sub(a0, t2), Mul(I, Sub(t1, t3)))
  {
    hide Mul;
    MulTurns(t1);
    MulTurns(t2);
    MulTurns(t3);
    MulTurns(Sub(t1, t3));
  }

  lemma SubNeg(a: Cpx, b: Cpx)
    ensures Sub(a, Neg(b)) == Add(a, b) && Add(a, Neg(b)) == Sub(a, b) && Neg(Neg(b)) == b
  {
  }

  lemma QuarterTurns(n: nat, w: int -> Cpx, t: int)
    requires Root(n, w) && 4 * t == n
    ensures w(t * 0) == ONE && w(t * 2) == Neg(ONE) && w(t * 3) == Neg(w(t)) && w(t * 1) == w(t)
    ensures w(t * 4) == ONE && w(t * 6) == Neg(ONE) && w(t * 9) == w(t)
  {
    hide Root, Mul, Neg;
    RootZero(n, w);
    HalfAndThreeQuarters(n, w, t);
    RootPeriod(n, w, 0, 1);
    RootPeriod(n, w, 2 * t, 1);
    RootPeriod(n, w, t, 2);
  }

  lemma HalfTurn(n: nat, w: int -> Cpx, t: int)
    requires Root(n, w) && 4 * t == n
    ensures w(2 * t) == Neg(ONE)
  {
    hide Root, Mul, Neg;
    assert n / 2 == 2 * t && n % 2 == 0;
    RootHalf(n, w);
  }

  lemma HalfAndThreeQuarters(n: nat, w: int -> Cpx, t: int)
    requires Root(n, w) && 4 * t == n
    ensures w(2 * t) == Neg(ONE) && w(3 * t) == Neg(w(t))
  {
    hide Root, Mul, Neg;
    HalfTurn(n, w, t);
    assert 3 * t == 2 * t + t;
    RootAdd(n, w, 2 * t, t);
    MulComm(w(t), Neg(ONE));
    MulMinusOne(w(t));
  }

  lemma MulTurns(x: Cpx)
    ensures Mul(x, ONE) == x && Mul(x, Neg(ONE)) == Neg(x)
    ensures Mul(x, I) == Mul(I, x) == Cpx(-x.im, x.re) && Mul(x, Neg(I)) == Cpx(x.im, -x.re)
  {
  }

  // ---- radix 5 ----

  lemma Sum5(f: int -> Cpx)
    ensures Sum(5, f) == Add(Add(Add(Add(f(0), f(1)), f(2)), f(3)), f(4))
  {
    hide Add;
    Sum4(f);
  }

  lemma SmallColumn5(n: nat, w: int -> Cpx, s: int, m: int, a: seq<Cpx>, j: int, u: int)
    requires Root(n, w)
    ensures ColumnOut(w, s, 5, m, a, j, u)
         == Add(Add(Add(Add(At(a, 0), Mul(Mul(At(a, 1), w(s * j)), w(s * m * u))),
                        Mul(Mul(At(a, 2), w(2 * (s * j))), w(s * m * (2 * u)))),
                    Mul(Mul(At(a, 3), w(3 * (s * j))), w(s * m * (3 * u)))),
                Mul(Mul(At(a, 4), w(4 * (s * j))), w(s * m * (4 * u))))
  {
    hide Root, Mul, Sum, Scaled, ColumnOut, Add;
    ColumnIsSmallDft(n, w, s, 5, m, a, j, u);
    Sum5(q => Mul(Scaled(w, s, a, j, q), w(s * m * (q * u))));
    UnitTwiddle(n, w, s, m, At(a, 0));
    ScaledZero(n, w, s, a, j);
    ScaledOne(w, s, a, j, 1);
    ScaledOne(w, s, a, j, 2);
    ScaledOne(w, s, a, j, 3);
    ScaledOne(w, s, a, j, 4);
  }

  lemma FifthTurns(n: nat, w: int -> Cpx, t: int)
    requires Root(n, w) && 5 * t == n
    ensures w(t * 0) == ONE && w(t * 3) == Conj(w(t * 2)) && w(t * 4) == Conj(w(t * 1))
    ensures w(t * 6) == w(t * 1) && w(t * 8) == w(t * 3) && w(t * 9) == w(t * 4)
    ensures w(t * 12) == w(t * 2) && w(t * 16) == w(t * 1)
  {
    hide Root, Mul;
    RootZero(n, w);
    RootConj(n, w, 2 * t);
    RootConj(n, w, t);
    RootPeriod(n, w, -(2 * t), 1);
    RootPeriod(n, w, -t, 1);
    RootPeriod(n, w, t, 1);
    RootPeriod(n, w, 3 * t, 1);
    RootPeriod(n, w, 4 * t, 1);
    RootPeriod(n, w, 2 * t, 2);
    RootPeriod(n, w, t, 3);
  }

  function Five(a0: Cpx, a1: Cpx, a2: Cpx, a3: Cpx, a4: Cpx): Cpx {
    Add(Add(Add(Add(a0, a1), a2), a3), a4)
  }

  /** ya and yb are the twiddles of one and two fifths of a turn. */
  lemma Radix5(n: nat, w: int -> Cpx, s: int, m: int, a: seq<Cpx>, j: int)
    requires Root(n, w) && 5 * (s * m) == n
    ensures var a0, t1, t2 := At(a, 0), Mul(At(a, 1), w(s * j)), Mul(At(a, 2), w(2 * (s * j)));
            var t3, t4 := Mul(At(a, 3), w(3 * (s * j))), Mul(At(a, 4), w(4 * (s * j)));
            var ya, yb := w(s * m), w(2 * (s * m));
            && ColumnOut(w, s, 5, m, a, j, 0) == Five(a0, t1, t2, t3, t4)
            && ColumnOut(w, s, 5, m, a, j, 1) == Five(a0, Mul(t1, ya), Mul(t2, yb), Mul(t3, Conj(yb)), Mul(t4, Conj(ya)))
            && ColumnOut(w, s, 5, m, a, j, 2) == Five(a0, Mul(t1, yb), Mul(t2, Conj(ya)), Mul(t3, ya), Mul(t4, Conj(yb)))
            && ColumnOut(w, s, 5, m, a, j, 3) == Five(a0, Mul(t1, Conj(yb)), Mul(t2, ya), Mul(t3, Conj(ya)), Mul(t4, yb))
            && ColumnOut(w, s, 5, m, a, j, 4) == Five(a0, Mul(t1, Conj(ya)), Mul(t2, Conj(yb)), Mul(t3, yb), Mul(t4, ya))
  {
    hide Root, Mul, Sum, Scaled, ColumnOut, Add, Conj;
    var t := s * m;
    FifthTurns(n, w, t);
    SmallColumn5(n, w, s, m, a, j, 0);
    SmallColumn5(n, w, s, m, a, j, 1);
    SmallColumn5(n, w, s, m, a, j, 2);
    SmallColumn5(n, w, s, m, a, j, 3);
    SmallColumn5(n, w, s, m, a, j, 4);
    MulOne(Mul(At(a, 1), w(s * j)));
    MulOne(Mul(At(a, 2), w(2 * (s * j))));
    MulOne(Mul(At(a, 3), w(3 * (s * j))));
    MulOne(Mul(At(a, 4), w(4 * (s * j))));
  }
}
