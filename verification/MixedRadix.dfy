/** The in-place mixed-radix transform of kiss_fft.c: digit-reversal shuffle, butterflies
    and the breadth-wise recursion, proved to be the plain Fourier sum. */
module MixedRadix {
  import opened Arith
  import opened Complex
  import opened Sums
  import opened RootsOfUnity
  import opened Fourier
  import opened KissFactor
  import opened Butterflies

  /** A transform as kiss_fft_alloc leaves it. */
  datatype Cfg = Cfg(nfft: nat, inverse: bool, factors: seq<Factor>, twiddles: seq<Cpx>)

  /** The table holds the powers of w, and the radices multiply up to the length. */
  ghost predicate ValidCfg(st: Cfg, w: int -> Cpx) {
    && Root(st.nfft, w)
    && Oriented(st.nfft, w, st.inverse)
    && |st.twiddles| == st.nfft
    && (forall e :: 0 <= e < st.nfft ==> st.twiddles[e] == w(e))
    && Chain(st.nfft, st.factors)
  }

  lemma CfgTwiddle(st: Cfg, w: int -> Cpx, e: nat)
    requires ValidCfg(st, w) && e < st.nfft
    ensures |st.twiddles| == st.nfft && st.twiddles[e] == w(e)
  {
  }

  lemma CfgParts(st: Cfg, w: int -> Cpx)
    requires ValidCfg(st, w)
    ensures st.nfft > 0 && |st.twiddles| == st.nfft
    ensures Root(st.nfft, w) && Oriented(st.nfft, w, st.inverse)
  {
  }

  // ---- one column of one butterfly ----

  ghost predicate InColumn(base: int, p: nat, m: int, j: int, k: int) {
    exists u :: 0 <= u < p && k == Ix(base, m, u, j)
  }

  /** Column j holds the small transforms of what it held before; nothing else moved. */
  ghost predicate ColumnDone(w: int -> Cpx, s: int, base: int, p: nat, m: int, j: int,
                             before: seq<Cpx>, after: seq<Cpx>) {
    && |after| == |before|
    && (forall u :: 0 <= u < p ==>
          At(after, Ix(base, m, u, j)) == ColumnOut(w, s, p, m, Column(before, base, p, m, j), j, u))
    && (forall k :: 0 <= k < |after| && !InColumn(base, p, m, j, k) ==> after[k] == before[k])
  }

  lemma ScaledIndex(s: nat, m: nat, p: nat, j: nat, q: nat)
    requires p * (s * m) > 0 && j < m && q < p
    ensures 0 <= s * j && 0 <= q * (s * j) < p * (s * m)
  {
    var e := s * m;
    assert s * j <= e by {
      assert s * m == s * j + s * (m - j);
    }
    assert q * (s * j) <= q * e;
    assert p * e == q * e + (p - q) * e;
    assert e > 0;
    assert (p - q) * e > 0;
  }

  method Bfly2Column(Fout: array<Cpx>, base: nat, fstride: nat, st: Cfg, m: nat, j: nat, ghost w: int -> Cpx)
    requires ValidCfg(st, w) && 2 * (fstride * m) == st.nfft
    requires j < m && base + 2 * m <= Fout.Length
    modifies Fout
    ensures ColumnDone(w, fstride, base, 2, m, j, old(Fout[..]), Fout[..])
  {
    hide ValidCfg, Root, ColumnOut, Mul, Add, Sub;
    ghost var f := Fout[..];
    ghost var a := Column(f, base, 2, m, j);
    CfgParts(st, w);
    Radix2(st.nfft, w, fstride, m, a, j);
    ScaledIndex(fstride, m, 2, j, 1);
    CfgTwiddle(st, w, fstride * j);
    var t := Mul(Fout[base + m + j], st.twiddles[fstride * j]);
    var a0 := Fout[base + j];
    Fout[base + m + j] := Sub(a0, t);
    Fout[base + j] := Add(a0, t);
    assert Ix(base, m, 0, j) == base + j && Ix(base, m, 1, j) == base + m + j;
    assert a[0] == a0;
  }

  /** y on one input and its conjugate on the mirrored one, with half the products. */
  lemma MirrorPair(t: Cpx, u: Cpx, y: Cpx)
    ensures var even, odd := Add(t, u), Sub(t, u);
            && Add(Mul(t, y), Mul(u, Conj(y)))
               == Cpx(SMul(even.re, y.re) - SMul(odd.im, y.im), SMul(even.im, y.re) + SMul(odd.re, y.im))
            && Add(Mul(t, Conj(y)), Mul(u, y))
               == Cpx(SMul(even.re, y.re) + SMul(odd.im, y.im), SMul(even.im, y.re) - SMul(odd.re, y.im))
  {
    hide Mul, SMul;
    MulParts(t, y);
    MulParts(u, y);
    SMulAdd(t.re, u.re, y.re);
    SMulAdd(t.im, u.im, y.re);
    SMulAdd(t.re, u.re, y.im);
    SMulAdd(t.im, u.im, y.im);
  }

  lemma MulParts(a: Cpx, b: Cpx)
    ensures Mul(a, b) == Cpx(SMul(a.re, b.re) - SMul(a.im, b.im), SMul(a.re, b.im) + SMul(a.im, b.re))
    ensures Mul(a, Conj(b)) == Cpx(SMul(a.re, b.re) + SMul(a.im, b.im), SMul(a.im, b.re) - SMul(a.re, b.im))
  {
  }

  /** The multiplication-saving form of the three-point transform. */
  lemma ThreePoint(a0: Cpx, t1: Cpx, t2: Cpx, e: Cpx)
    requires e.re == -0.5
    ensures var s3, d := Add(t1, t2), Sub(t1, t2);
            var s0 := Cpx(SMul(d.re, e.im), SMul(d.im, e.im));
            var h := Cpx(a0.re - SMul(s3.re, 0.5), a0.im - SMul(s3.im, 0.5));
            && Add(Add(a0, Mul(t1, e)), Mul(t2, Conj(e))) == Cpx(h.re - s0.im, h.im + s0.re)
            && Add(Add(a0, Mul(t1, Conj(e))), Mul(t2, e)) == Cpx(h.re + s0.im, h.im - s0.re)
            && Add(Add(a0, t1), t2) == Add(a0, s3)
  {
    hide Mul, SMul;
    MirrorPair(t1, t2, e);
    SMulHalf(t1.re + t2.re);
    SMulHalf(t1.im + t2.im);
    AddAssoc(a0, Mul(t1, e), Mul(t2, Conj(e)));
    AddAssoc(a0, Mul(t1, Conj(e)), Mul(t2, e));
    AddAssoc(a0, t1, t2);
  }

  lemma SMulHalf(a: real)
    ensures SMul(a, -0.5) == -SMul(a, 0.5)
  {
  }

  method Bfly3Column(Fout: array<Cpx>, base: nat, fstride: nat, st: Cfg, m: nat, j: nat, ghost w: int -> Cpx)
    requires ValidCfg(st, w) && 3 * (fstride * m) == st.nfft
    requires j < m && base + 3 * m <= Fout.Length
    modifies Fout
    ensures ColumnDone(w, fstride, base, 3, m, j, old(Fout[..]), Fout[..])
  {
    hide ValidCfg, Root, ColumnOut, Mul, Add, Sub, SMul, Conj;
    ghost var f := Fout[..];
    ghost var a := Column(f, base, 3, m, j);
    CfgParts(st, w);
    Radix3(st.nfft, w, fstride, m, a, j);
    ScaledIndex(fstride, m, 3, j, 2);
    var e := fstride * j;
    CfgTwiddle(st, w, e);
    CfgTwiddle(st, w, 2 * e);
    CfgTwiddle(st, w, fstride * m);
    var epi3 := st.twiddles[fstride * m];
    var a0 := Fout[base + j];
    var t1 := Mul(Fout[base + m + j], st.twiddles[e]);
    var t2 := Mul(Fout[base + 2 * m + j], st.twiddles[2 * e]);
    assert Ix(base, m, 0, j) == base + j && Ix(base, m, 1, j) == base + m + j && Ix(base, m, 2, j) == base + 2 * m + j;
    assert a[0] == a0 && a[1] == Fout[base + m + j] && a[2] == Fout[base + 2 * m + j];
    ThreePoint(a0, t1, t2, epi3);
    var s3 := Add(t1, t2);
    var d := Sub(t1, t2);
    var s0 := Cpx(SMul(d.re, epi3.im), SMul(d.im, epi3.im));
    var h := Cpx(a0.re - SMul(s3.re, 0.5), a0.im - SMul(s3.im, 0.5));
    Fout[base + j] := Add(a0, s3);
    Fout[base + 2 * m + j] := Cpx(h.re + s0.im, h.im - s0.re);
    Fout[base + m + j] := Cpx(h.re - s0.im, h.im + s0.re);
  }

  /** The inputs of column j, scaled by their twiddles. */
  method Scratch4(Fout: array<Cpx>, base: nat, fstride: nat, st: Cfg, m: nat, j: nat, ghost w: int -> Cpx)
    returns (a0: Cpx, t1: Cpx, t2: Cpx, t3: Cpx)
    requires ValidCfg(st, w) && 4 * (fstride * m) == st.nfft
    requires j < m && base + 4 * m <= Fout.Length
    ensures var a := Column(Fout[..], base, 4, m, j);
            && a0 == At(a, 0) && t1 == Mul(At(a, 1), w(fstride * j))
            && t2 == Mul(At(a, 2), w(2 * (fstride * j))) && t3 == Mul(At(a, 3), w(3 * (fstride * j)))
  {
    hide ValidCfg, Root, Mul;
    CfgParts(st, w);
    ScaledIndex(fstride, m, 4, j, 3);
    var e := fstride * j;
    CfgTwiddle(st, w, e);
    CfgTwiddle(st, w, 2 * e);
    CfgTwiddle(st, w, 3 * e);
    a0 := Fout[base + j];
    t1 := Mul(Fout[base + m + j], st.twiddles[e]);
    t2 := Mul(Fout[base + 2 * m + j], st.twiddles[2 * e]);
    t3 := Mul(Fout[base + 3 * m + j], st.twiddles[3 * e]);
    ghost var a := Column(Fout[..], base, 4, m, j);
    assert a[0] == a0 && a[1] == Fout[base + m + j] && a[2] == Fout[base + 2 * m + j] && a[3] == Fout[base + 3 * m + j];
  }

  method Store4(Fout: array<Cpx>, base: nat, m: nat, j: nat, o0: Cpx, o1: Cpx, o2: Cpx, o3: Cpx)
    requires j < m && base + 4 * m <= Fout.Length
    modifies Fout
    ensures var f := Fout[..];
            && At(f, Ix(base, m, 0, j)) == o0 && At(f, Ix(base, m, 1, j)) == o1
            && At(f, Ix(base, m, 2, j)) == o2 && At(f, Ix(base, m, 3, j)) == o3
    ensures forall k :: 0 <= k < Fout.Length && !InColumn(base, 4, m, j, k) ==> Fout[k] == old(Fout[k])
  {
    Fout[base + 2 * m + j] := o2;
    Fout[base + j] := o0;
    Fout[base + m + j] := o1;
    Fout[base + 3 * m + j] := o3;
    assert Ix(base, m, 0, j) == base + j && Ix(base, m, 1, j) == base + m + j;
    assert Ix(base, m, 2, j) == base + 2 * m + j && Ix(base, m, 3, j) == base + 3 * m + j;
  }

  method Bfly4Column(Fout: array<Cpx>, base: nat, fstride: nat, st: Cfg, m: nat, j: nat, ghost w: int -> Cpx)
    requires ValidCfg(st, w) && 4 * (fstride * m) == st.nfft
    requires j < m && base + 4 * m <= Fout.Length
    modifies Fout
    ensures ColumnDone(w, fstride, base, 4, m, j, old(Fout[..]), Fout[..])
  {
    hide ValidCfg, Root, ColumnOut, Mul, Add, InColumn, At, Column, Ix;
    CfgParts(st, w);
    Radix4(st.nfft, w, st.inverse, fstride, m, Column(Fout[..], base, 4, m, j), j);
    var a0, t1, t2, t3 := Scratch4(Fout, base, fstride, st, m, j, w);
    var s5 := Sub(a0, t2);
    var s4 := Sub(t1, t3);
    QuarterForms(s5, s4);
    var up := Cpx(s5.re - s4.im, s5.im + s4.re);
    var down := Cpx(s5.re + s4.im, s5.im - s4.re);
    var o0 := Add(Add(a0, t2), Add(t1, t3));
    var o2 := Sub(Add(a0, t2), Add(t1, t3));
    if st.inverse {
      Store4(Fout, base, m, j, o0, up, o2, down);
    } else {
      Store4(Fout, base, m, j, o0, down, o2, up);
    }
  }

  /** Adding or subtracting i times a number by swapping its parts. */
  lemma QuarterForms(a: Cpx, b: Cpx)
    ensures Add(a, Mul(I, b)) == Cpx(a.re - b.im, a.im + b.re) == Sub(a, Neg(Mul(I, b)))
    ensures Sub(a, Mul(I, b)) == Cpx(a.re + b.im, a.im - b.re) == Add(a, Neg(Mul(I, b)))
  {
    hide Mul;
    MulTurns(b);
  }

  /** The even part of a five-point output: kf_bfly5's scratch 5 and 11. */
  function EvenPart(a0: Cpx, s7: Cpx, s8: Cpx, y: real, z: real): Cpx {
    Cpx(a0.re + SMul(s7.re, y) + SMul(s8.re, z), a0.im + SMul(s7.im, y) + SMul(s8.im, z))
  }

  lemma FiveRegroup(a0: Cpx, a1: Cpx, a2: Cpx, a3: Cpx, a4: Cpx)
    ensures Five(a0, a1, a2, a3, a4) == Add(a0, Add(Add(a1, a4), Add(a2, a3)))
  {
  }

  /** Outputs 1 and 4. */
  lemma FivePointOuter(a0: Cpx, t1: Cpx, t2: Cpx, t3: Cpx, t4: Cpx, ya: Cpx, yb: Cpx)
    ensures var s5 := EvenPart(a0, Add(t1, t4), Add(t2, t3), ya.re, yb.re);
            var s10, s9 := Sub(t1, t4), Sub(t2, t3);
            var s6 := Cpx(SMul(s10.im, ya.im) + SMul(s9.im, yb.im), -SMul(s10.re, ya.im) - SMul(s9.re, yb.im));
            && Five(a0, Mul(t1, ya), Mul(t2, yb), Mul(t3, Conj(yb)), Mul(t4, Conj(ya))) == Sub(s5, s6)
            && Five(a0, Mul(t1, Conj(ya)), Mul(t2, Conj(yb)), Mul(t3, yb), Mul(t4, ya)) == Add(s5, s6)
  {
    hide Mul, SMul, Five;
    FiveRegroup(a0, Mul(t1, ya), Mul(t2, yb), Mul(t3, Conj(yb)), Mul(t4, Conj(ya)));
    FiveRegroup(a0, Mul(t1, Conj(ya)), Mul(t2, Conj(yb)), Mul(t3, yb), Mul(t4, ya));
    MirrorPair(t1, t4, ya);
    MirrorPair(t2, t3, yb);
  }

  /** Outputs 2 and 3. */
  lemma FivePointInner(a0: Cpx, t1: Cpx, t2: Cpx, t3: Cpx, t4: Cpx, ya: Cpx, yb: Cpx)
    ensures var s11 := EvenPart(a0, Add(t1, t4), Add(t2, t3), yb.re, ya.re);
            var s10, s9 := Sub(t1, t4), Sub(t2, t3);
            var s12 := Cpx(-SMul(s10.im, yb.im) + SMul(s9.im, ya.im), SMul(s10.re, yb.im) - SMul(s9.re, ya.im));
            && Five(a0, Mul(t1, yb), Mul(t2, Conj(ya)), Mul(t3, ya), Mul(t4, Conj(yb))) == Add(s11, s12)
            && Five(a0, Mul(t1, Conj(yb)), Mul(t2, ya), Mul(t3, Conj(ya)), Mul(t4, yb)) == Sub(s11, s12)
  {
    hide Mul, SMul, Five;
    FiveRegroup(a0, Mul(t1, yb), Mul(t2, Conj(ya)), Mul(t3, ya), Mul(t4, Conj(yb)));
    FiveRegroup(a0, Mul(t1, Conj(yb)), Mul(t2, ya), Mul(t3, Conj(ya)), Mul(t4, yb));
    MirrorPair(t1, t4, yb);
    MirrorPair(t2, t3, ya);
  }

  method FivePoint(a0: Cpx, t1: Cpx, t2: Cpx, t3: Cpx, t4: Cpx, ya: Cpx, yb: Cpx)
    returns (o0: Cpx, o1: Cpx, o2: Cpx, o3: Cpx, o4: Cpx)
    ensures o0 == Five(a0, t1, t2, t3, t4)
    ensures o1 == Five(a0, Mul(t1, ya), Mul(t2, yb), Mul(t3, Conj(yb)), Mul(t4, Conj(ya)))
    ensures o2 == Five(a0, Mul(t1, yb), Mul(t2, Conj(ya)), Mul(t3, ya), Mul(t4, Conj(yb)))
    ensures o3 == Five(a0, Mul(t1, Conj(yb)), Mul(t2, ya), Mul(t3, Conj(ya)), Mul(t4, yb))
    ensures o4 == Five(a0, Mul(t1, Conj(ya)), Mul(t2, Conj(yb)), Mul(t3, yb), Mul(t4, ya))
  {
    hide Mul, Add, Sub, Conj, SMul, EvenPart, Five;
    FivePointOuter(a0, t1, t2, t3, t4, ya, yb);
    FivePointInner(a0, t1, t2, t3, t4, ya, yb);
    FiveRegroup(a0, t1, t2, t3, t4);
    var s7, s10 := Add(t1, t4), Sub(t1, t4);
    var s8, s9 := Add(t2, t3), Sub(t2, t3);
    o0 := Add(a0, Add(s7, s8));
    var s5 := EvenPart(a0, s7, s8, ya.re, yb.re);
    var s6 := Cpx(SMul(s10.im, ya.im) + SMul(s9.im, yb.im), -SMul(s10.re, ya.im) - SMul(s9.re, yb.im));
    o1, o4 := Sub(s5, s6), Add(s5, s6);
    var s11 := EvenPart(a0, s7, s8, yb.re, ya.re);
    var s12 := Cpx(-SMul(s10.im, yb.im) + SMul(s9.im, ya.im), SMul(s10.re, yb.im) - SMul(s9.re, ya.im));
    o2, o3 := Add(s11, s12), Sub(s11, s12);
  }

  /** The inputs of column j, scaled by their twiddles. */
  method Scratch5(Fout: array<Cpx>, base: nat, fstride: nat, st: Cfg, m: nat, j: nat, ghost w: int -> Cpx)
    returns (a0: Cpx, t1: Cpx, t2: Cpx, t3: Cpx, t4: Cpx)
    requires ValidCfg(st, w) && 5 * (fstride * m) == st.nfft
    requires j < m && base + 5 * m <= Fout.Length
    ensures var a := Column(Fout[..], base, 5, m, j);
            && a0 == At(a, 0) && t1 == Mul(At(a, 1), w(fstride * j)) && t2 == Mul(At(a, 2), w(2 * (fstride * j)))
            && t3 == Mul(At(a, 3), w(3 * (fstride * j))) && t4 == Mul(At(a, 4), w(4 * (fstride * j)))
  {
    hide ValidCfg, Root, Mul;
    CfgParts(st, w);
    ScaledIndex(fstride, m, 5, j, 4);
    var e := fstride * j;
    CfgTwiddle(st, w, e);
    CfgTwiddle(st, w, 2 * e);
    CfgTwiddle(st, w, 3 * e);
    CfgTwiddle(st, w, 4 * e);
    a0 := Fout[base + j];
    t1 := Mul(Fout[base + m + j], st.twiddles[e]);
    t2 := Mul(Fout[base + 2 * m + j], st.twiddles[2 * e]);
    t3 := Mul(Fout[base + 3 * m + j], st.twiddles[3 * e]);
    t4 := Mul(Fout[base + 4 * m + j], st.twiddles[4 * e]);
    ghost var a := Column(Fout[..], base, 5, m, j);
    assert a[0] == a0 && a[1] == Fout[base + m + j] && a[2] == Fout[base + 2 * m + j];
    assert a[3] == Fout[base + 3 * m + j] && a[4] == Fout[base + 4 * m + j];
  }

  method Bfly5Column(Fout: array<Cpx>, base: nat, fstride: nat, st: Cfg, m: nat, j: nat, ghost w: int -> Cpx)
    requires ValidCfg(st, w) && 5 * (fstride * m) == st.nfft
    requires j < m && base + 5 * m <= Fout.Length
    modifies Fout
    ensures ColumnDone(w, fstride, base, 5, m, j, old(Fout[..]), Fout[..])
  {
    hide ValidCfg, Root, ColumnOut, Mul, Conj, Five, InColumn, At, Column, Ix;
    CfgParts(st, w);
    Radix5(st.nfft, w, fstride, m, Column(Fout[..], base, 5, m, j), j);
    FifthTurnIndices(st, w, fstride, m);
    var a0, t1, t2, t3, t4 := Scratch5(Fout, base, fstride, st, m, j, w);
    var o0, o1, o2, o3, o4 := FivePoint(a0, t1, t2, t3, t4, st.twiddles[fstride * m], st.twiddles[2 * (fstride * m)]);
    Store5(Fout, base, m, j, o0, o1, o2, o3, o4);
  }

  method Store5(Fout: array<Cpx>, base: nat, m: nat, j: nat, o0: Cpx, o1: Cpx, o2: Cpx, o3: Cpx, o4: Cpx)
    requires j < m && base + 5 * m <= Fout.Length
    modifies Fout
    ensures var f := Fout[..];
            && At(f, Ix(base, m, 0, j)) == o0 && At(f, Ix(base, m, 1, j)) == o1 && At(f, Ix(base, m, 2, j)) == o2
            && At(f, Ix(base, m, 3, j)) == o3 && At(f, Ix(base, m, 4, j)) == o4
    ensures forall k :: 0 <= k < Fout.Length && !InColumn(base, 5, m, j, k) ==> Fout[k] == old(Fout[k])
  {
    Fout[base + j] := o0;
    Fout[base + m + j] := o1;
    Fout[base + 4 * m + j] := o4;
    Fout[base + 2 * m + j] := o2;
    Fout[base + 3 * m + j] := o3;
    assert Ix(base, m, 0, j) == base + j && Ix(base, m, 1, j) == base + m + j && Ix(base, m, 2, j) == base + 2 * m + j;
    assert Ix(base, m, 3, j) == base + 3 * m + j && Ix(base, m, 4, j) == base + 4 * m + j;
  }

  lemma FifthTurnIndices(st: Cfg, w: int -> Cpx, s: nat, m: nat)
    requires ValidCfg(st, w) && 5 * (s * m) == st.nfft
    ensures 0 <= s * m && 2 * (s * m) < st.nfft && |st.twiddles| == st.nfft
    ensures st.twiddles[s * m] == w(s * m) && st.twiddles[2 * (s * m)] == w(2 * (s * m))
  {
    hide ValidCfg, Root;
    CfgParts(st, w);
    CfgTwiddle(st, w, s * m);
    CfgTwiddle(st, w, 2 * (s * m));
  }

  // ---- the generic butterfly ----

  /** twidx walks through q*d modulo the length, one conditional subtraction at a time;
      it stays below the length, and the sum before the subtraction below twice that. */
  lemma TwidxStep(n: int, d: int, q: int, twidx: int)
    requires n > 0 && 0 <= d < n && twidx == Times(q, d) % n
    ensures var next := if twidx + d >= n then twidx + d - n else twidx + d;
            0 <= next < n && next == Times(q + 1, d) % n
  {
    var c := Times(q, d) / n;
    var next := if twidx + d >= n then twidx + d - n else twidx + d;
    var e := if twidx + d >= n then c + 1 else c;
    assert Times(q + 1, d) == Times(q, d) + d;
    assert Times(q + 1, d) == Times(n, e) + next;
    DivUnique(Times(q + 1, d), n, e, next);
  }

  lemma GenericTerm(st: Cfg, w: int -> Cpx, s: int, q: int, k: int, twidx: int)
    requires ValidCfg(st, w) && 0 <= twidx < st.nfft && twidx == Times(q, s * k) % st.nfft
    ensures |st.twiddles| == st.nfft && st.twiddles[twidx] == w(s * q * k)
  {
    hide ValidCfg, Root;
    CfgParts(st, w);
    CfgTwiddle(st, w, twidx);
    RootMod(st.nfft, w, q * (s * k));
    assert q * (s * k) == s * q * k;
  }

  /** The terms of one output of a butterfly, from the inputs a. */
  function BinTerm(w: int -> Cpx, s: int, a: seq<Cpx>, k: int, q: int): Cpx {
    Mul(At(a, q), w(s * q * k))
  }

  lemma BinStart(n: nat, w: int -> Cpx, s: int, a: seq<Cpx>, k: int)
    requires Root(n, w) && |a| > 0
    ensures Sum(1, q => BinTerm(w, s, a, k, q)) == a[0]
  {
    hide Root, Mul, Add, Sum;
    var g := q => BinTerm(w, s, a, k, q);
    RootZero(n, w);
    MulOne(a[0]);
    SumParts(0, g);
    SumParts(1, g);
    AddZero(a[0]);
    assert s * 0 * k == 0;
  }

  /** One output of the generic butterfly: the inner loop over q. */
  method GenericBin(scratch: array<Cpx>, fstride: nat, st: Cfg, p: nat, k: nat, ghost w: int -> Cpx, ghost a: seq<Cpx>)
    returns (acc: Cpx)
    requires ValidCfg(st, w) && 1 <= p <= scratch.Length && |a| == p
    requires fstride * k < st.nfft
    requires forall q :: 0 <= q < p ==> scratch[q] == a[q]
    ensures acc == Sum(p, q => BinTerm(w, fstride, a, k, q))
  {
    hide ValidCfg, Root, Mul, Add, Sum, Times;
    ghost var g := q => BinTerm(w, fstride, a, k, q);
    CfgParts(st, w);
    BinStart(st.nfft, w, fstride, a, k);
    var d := fstride * k;
    var twidx := 0;
    acc := scratch[0];
    TimesZero(d);
    for q := 1 to p
      invariant 0 <= twidx < st.nfft && twidx == Times(q - 1, d) % st.nfft
      invariant acc == Sum(q, g)
    {
      TwidxStep(st.nfft, d, q - 1, twidx);
      twidx := twidx + d;
      if twidx >= st.nfft {
        twidx := twidx - st.nfft;
      }
      GenericTerm(st, w, fstride, q, k, twidx);
      SumParts(q + 1, g);
      var t := Mul(scratch[q], st.twiddles[twidx]);
      acc := Add(acc, t);
    }
  }

  /** Column j by kf_bfly_generic: the inputs are copied out first, so that the outputs can
      overwrite them. The scratch buffer has room for 17. */
  method GenericColumn(Fout: array<Cpx>, base: nat, fstride: nat, st: Cfg, m: nat, p: nat, j: nat, ghost w: int -> Cpx)
    requires ValidCfg(st, w) && 1 <= p <= 17 && p * (fstride * m) == st.nfft
    requires j < m && base + p * m <= Fout.Length
    modifies Fout
    ensures ColumnDone(w, fstride, base, p, m, j, old(Fout[..]), Fout[..])
  {
    hide ValidCfg, Root, Mul, Sum, Column, ColumnOut, InColumn, Ix;
    CfgParts(st, w);
    ghost var before := Fout[..];
    ghost var a := Column(before, base, p, m, j);
    var scratch := new Cpx[17](_ => ZERO);
    for q1 := 0 to p
      invariant forall q :: 0 <= q < q1 ==> scratch[q] == a[q]
      modifies scratch
    {
      ColumnPlace(base, p, m, j, q1, Fout.Length);
      ColumnAt(before, base, p, m, j, q1);
      scratch[q1] := Fout[Ix(base, m, q1, j)];
    }
    for q1 := 0 to p
      invariant forall q :: 0 <= q < p ==> scratch[q] == a[q]
      invariant forall u :: 0 <= u < q1 ==> At(Fout[..], Ix(base, m, u, j)) == ColumnOut(w, fstride, p, m, a, j, u)
      invariant forall k :: 0 <= k < Fout.Length && !InColumn(base, p, m, j, k) ==> Fout[k] == before[k]
      modifies Fout
    {
      ColumnPlace(base, p, m, j, q1, Fout.Length);
      GenericIndex(st.nfft, fstride, m, p, j, q1);
      var t := GenericBin(scratch, fstride, st, p, Ix(0, m, q1, j), w, a);
      GenericSum(w, fstride, p, m, a, j, q1);
      ghost var now := Fout[..];
      var place := Ix(base, m, q1, j);
      Fout[place] := t;
      forall u | 0 <= u < q1
        ensures At(Fout[..], Ix(base, m, u, j)) == At(now, Ix(base, m, u, j))
      {
        if Ix(base, m, u, j) == place {
          IxInjective(base, m, u, j, q1, j);
        }
      }
    }
  }

  lemma ColumnPlace(base: nat, p: nat, m: nat, j: nat, q: int, length: nat)
    requires j < m && 0 <= q < p && base + p * m <= length
    ensures 0 <= Ix(base, m, q, j) < length && InColumn(base, p, m, j, Ix(base, m, q, j))
  {
    IxBounds(base, m, p, q, j);
  }

  lemma ColumnAt(f: seq<Cpx>, base: nat, p: nat, m: nat, j: nat, q: int)
    requires j < m && 0 <= q < p && base + p * m <= |f|
    ensures |Column(f, base, p, m, j)| == p
    ensures 0 <= Ix(base, m, q, j) < |f| && Column(f, base, p, m, j)[q] == f[Ix(base, m, q, j)]
  {
    IxBounds(base, m, p, q, j);
  }

  lemma GenericIndex(n: nat, s: nat, m: nat, p: nat, j: nat, q: int)
    requires p * (s * m) == n && n > 0 && j < m && 0 <= q < p
    ensures 0 <= Ix(0, m, q, j) && 0 <= s * Ix(0, m, q, j) < n
  {
    hide Ix;
    IxBounds(0, m, p, q, j);
    SwapFactors(p, s, m);
    ScaledBelow(s, Ix(0, m, q, j), p * m);
  }

  lemma SwapFactors(p: nat, s: nat, m: nat)
    ensures p * (s * m) == s * (p * m)
    ensures s == 0 ==> p * (s * m) == 0
  {
    TimesAssoc(p, s, m);
    TimesAssoc(s, p, m);
    assert p * (s * m) == Times(p, Times(s, m)) && s * (p * m) == Times(s, Times(p, m));
    assert Times(p, s) == Times(s, p);
  }

  lemma ScaledBelow(s: nat, k: nat, b: nat)
    requires k < b
    ensures 0 <= s * k && s * k + s <= s * b
  {
    var e: nat := b - 1 - k;
    assert s * e >= 0 && s * k >= 0;
    assert b == k + 1 + e;
    assert s * (k + 1 + e) == s * k + s + s * e;
  }

  lemma GenericSum(w: int -> Cpx, s: int, p: nat, m: int, a: seq<Cpx>, j: int, u: int)
    ensures Sum(p, q => BinTerm(w, s, a, Ix(0, m, u, j), q)) == ColumnOut(w, s, p, m, a, j, u)
  {
    hide Mul, Sum;
    SumExt(p, q => BinTerm(w, s, a, Ix(0, m, u, j), q), q => Mul(At(a, q), w(s * q * (u * m + j))));
  }

  // ---- a whole butterfly ----

  /** Columns 0..j-1 are transformed and the others untouched, as is all outside the block. */
  ghost predicate Progress(w: int -> Cpx, s: int, base: int, p: nat, m: nat, j: int,
                           before: seq<Cpx>, now: seq<Cpx>) {
    && |now| == |before|
    && (forall u, i :: 0 <= u < p && 0 <= i < m ==>
          At(now, Ix(base, m, u, i)) ==
          if i < j then ColumnOut(w, s, p, m, Column(before, base, p, m, i), i, u)
          else At(before, Ix(base, m, u, i)))
    && (forall k :: 0 <= k < |now| && !(base <= k < base + p * m) ==> now[k] == before[k])
  }

  lemma ProgressStep(w: int -> Cpx, s: int, base: nat, p: nat, m: nat, j: int,
                     before: seq<Cpx>, now: seq<Cpx>, next: seq<Cpx>)
    requires 0 <= j < m && base + p * m <= |before|
    requires Progress(w, s, base, p, m, j, before, now) && ColumnDone(w, s, base, p, m, j, now, next)
    ensures Progress(w, s, base, p, m, j + 1, before, next)
  {
    hide ColumnOut, Ix, InColumn;
    assert Column(now, base, p, m, j) == Column(before, base, p, m, j) by {
      forall q | 0 <= q < p
        ensures Column(now, base, p, m, j)[q] == Column(before, base, p, m, j)[q]
      {
      }
    }
    forall u, i | 0 <= u < p && 0 <= i < m
      ensures At(next, Ix(base, m, u, i)) ==
              if i < j + 1 then ColumnOut(w, s, p, m, Column(before, base, p, m, i), i, u)
              else At(before, Ix(base, m, u, i))
    {
      IxBounds(base, m, p, u, i);
      if i != j {
        OtherColumn(base, p, m, i, j, u);
      }
    }
    forall k | 0 <= k < |next| && !(base <= k < base + p * m)
      ensures next[k] == before[k]
    {
      OutsideColumn(base, p, m, j, k);
    }
  }

  lemma OtherColumn(base: int, p: nat, m: nat, i: int, j: int, u: int)
    requires 0 <= i < m && 0 <= j < m && i != j
    ensures !InColumn(base, p, m, j, Ix(base, m, u, i))
  {
    hide Ix;
    if v :| 0 <= v < p && Ix(base, m, u, i) == Ix(base, m, v, j) {
      IxInjective(base, m, u, i, v, j);
    }
  }

  lemma OutsideColumn(base: int, p: nat, m: nat, j: int, k: int)
    requires 0 <= j < m && !(base <= k < base + p * m)
    ensures !InColumn(base, p, m, j, k)
  {
    hide Ix;
    if v :| 0 <= v < p && k == Ix(base, m, v, j) {
      IxBounds(base, m, p, v, j);
    }
  }

  lemma ProgressStart(w: int -> Cpx, s: int, base: int, p: nat, m: nat, f: seq<Cpx>)
    ensures Progress(w, s, base, p, m, 0, f, f)
  {
  }

  /** When all columns are done the block is the stage of what it was. */
  lemma ProgressEnd(w: int -> Cpx, s: int, base: nat, p: nat, m: nat, before: seq<Cpx>, now: seq<Cpx>)
    requires m > 0 && base + p * m <= |before|
    requires Progress(w, s, base, p, m, m, before, now)
    ensures |now| == |before|
    ensures now[base..base + p * m] == Stage(w, s, p, m, before[base..base + p * m])
  {
    hide ColumnOut, Ix, Combined, At, Column;
    var blk := before[base..base + p * m];
    forall k | 0 <= k < p * m
      ensures now[base + k] == Combined(w, s, p, m, blk, k)
    {
      var u, i := IxSplit(base, m, p, base + k);
      IxShift(base, m, u, i);
      CombinedIsColumn(w, s, p, m, before, base, i, u);
      AtInside(now, base + k);
    }
  }

  lemma IxShift(base: int, m: int, u: int, i: int)
    ensures Ix(base, m, u, i) == base + Ix(0, m, u, i)
  {
  }

  lemma AtInside(f: seq<Cpx>, k: int)
    requires 0 <= k < |f|
    ensures At(f, k) == f[k]
  {
  }

  /** The butterfly of radix p over one block. */
  method Butterfly(Fout: array<Cpx>, base: nat, fstride: nat, st: Cfg, m: nat, p: nat, ghost w: int -> Cpx)
    requires ValidCfg(st, w) && 1 <= p <= 17 && m > 0 && p * (fstride * m) == st.nfft
    requires base + p * m <= Fout.Length
    modifies Fout
    ensures Fout[base..base + p * m] == Stage(w, fstride, p, m, old(Fout[base..base + p * m]))
    ensures forall k :: 0 <= k < Fout.Length && !(base <= k < base + p * m) ==> Fout[k] == old(Fout[k])
  {
    hide ValidCfg, ColumnDone, Progress, Stage;
    ghost var before := Fout[..];
    ProgressStart(w, fstride, base, p, m, before);
    for j := 0 to m
      invariant Progress(w, fstride, base, p, m, j, before, Fout[..])
    {
      ghost var now := Fout[..];
      match p {
        case 2 => Bfly2Column(Fout, base, fstride, st, m, j, w);
        case 3 => Bfly3Column(Fout, base, fstride, st, m, j, w);
        case 4 => Bfly4Column(Fout, base, fstride, st, m, j, w);
        case 5 => Bfly5Column(Fout, base, fstride, st, m, j, w);
        case _ => GenericColumn(Fout, base, fstride, st, m, p, j, w);
      }
      ProgressStep(w, fstride, base, p, m, j, before, now, Fout[..]);
    }
    ProgressEnd(w, fstride, base, p, m, before, Fout[..]);
    ProgressFrame(w, fstride, base, p, m, before, Fout[..]);
    assert before[base..base + p * m] == old(Fout[base..base + p * m]);
  }

  lemma ProgressFrame(w: int -> Cpx, s: int, base: int, p: nat, m: nat, before: seq<Cpx>, now: seq<Cpx>)
    requires Progress(w, s, base, p, m, m, before, now)
    ensures |now| == |before|
    ensures forall k :: 0 <= k < |now| && !(base <= k < base + p * m) ==> now[k] == before[k]
  {
  }

  // ---- digit-reversal shuffle ----

  /** Which sample, counted in strides of s, the shuffle puts at position i. */
  function ShuffleIndex(s: int, fs: seq<Factor>, i: int): int
    decreases |fs|
  {
    if |fs| == 0 || fs[0].m == 0 then 0
    else i / fs[0].m * s + ShuffleIndex(s * fs[0].p, fs[1..], i % fs[0].m)
  }

  lemma ChainParts(l: nat, fs: seq<Factor>)
    requires Chain(l, fs) && l > 0
    ensures |fs| > 0 && fs[0].p > 0 && fs[0].m > 0 && fs[0].p * fs[0].m == l
    ensures if fs[0].m == 1 then |fs| == 1 && fs[0].p == l else Chain(fs[0].m, fs[1..])
  {
    hide Times;
    TimesMeans(fs[0].p, fs[0].m);
  }

  lemma TimesMeans(p: nat, m: nat)
    ensures Times(p, m) == p * m
    ensures Times(p, m) > 0 ==> p > 0 && m > 0
    ensures m == 1 ==> Times(p, m) == p
  {
  }

  lemma ShuffleChild(s: int, fs: seq<Factor>, j: nat, i: nat)
    requires |fs| > 0 && i < fs[0].m
    ensures ShuffleIndex(s, fs, j * fs[0].m + i) == j * s + ShuffleIndex(s * fs[0].p, fs[1..], i)
  {
    var m := fs[0].m;
    DivUnique(j * m + i, m, j, i);
  }

  /** Position i of the output gets sample fpos + inStride*ShuffleIndex(i). */
  function Sample(f: seq<Cpx>, fpos: int, inStride: int, fstride: int, fs: seq<Factor>, i: int): Cpx {
    At(f, fpos + inStride * ShuffleIndex(fstride, fs, i))
  }

  /** The first n places from pos on are filled as the shuffle promises. */
  ghost predicate Filled(out: seq<Cpx>, pos: int, n: int, f: seq<Cpx>, fpos: int, inStride: int, fstride: int,
                         fs: seq<Factor>) {
    forall i :: 0 <= i < n ==> At(out, pos + i) == Sample(f, fpos, inStride, fstride, fs, i)
  }

  lemma SampleChild(f: seq<Cpx>, fpos: int, inStride: int, fstride: int, fs: seq<Factor>, j: nat, i: nat)
    requires |fs| > 0 && i < fs[0].m
    ensures Sample(f, fpos, inStride, fstride, fs, j * fs[0].m + i)
         == Sample(f, fpos + j * (fstride * inStride), inStride, fstride * fs[0].p, fs[1..], i)
  {
    hide ShuffleIndex, At;
    ShuffleChild(fstride, fs, j, i);
    var e := ShuffleIndex(fstride * fs[0].p, fs[1..], i);
    assert inStride * (j * fstride + e) == j * (fstride * inStride) + inStride * e;
  }

  lemma SampleLeaf(f: seq<Cpx>, fpos: int, inStride: int, fstride: int, fs: seq<Factor>, j: nat)
    requires |fs| == 1 && fs[0].m == 1
    ensures Sample(f, fpos, inStride, fstride, fs, j) == At(f, fpos + j * (fstride * inStride))
  {
    hide At;
    SampleChild(f, fpos, inStride, fstride, fs, j, 0);
    assert fs[1..] == [];
  }

  /** The last sample that child j of a node reads is not behind the last one of the node. */
  lemma ShuffleBounds(d: nat, p: nat, m: nat, j: nat)
    requires j < p && m > 0
    ensures j * d + d * p * (m - 1) <= d * (p * m - 1)
  {
    LastOfChild(d * p, m);
    LastOfNode(d, p, m);
    RoomForChild(d, p, j);
  }

  lemma LastOfChild(a: nat, m: nat)
    ensures a * (m - 1) == a * m - a
  {
  }

  lemma LastOfNode(d: nat, p: nat, m: nat)
    ensures d * (p * m - 1) == d * p * m - d
  {
    TimesAssoc(d, p, m);
    LastOfChild(d, p * m);
    assert d * p * m == Times(Times(d, p), m) && d * (p * m) == Times(d, Times(p, m));
  }

  lemma RoomForChild(d: nat, p: nat, j: nat)
    requires j < p
    ensures j * d + d <= d * p
  {
    var e: nat := p - 1 - j;
    assert e * d >= 0;
    assert p == j + 1 + e;
    assert d * (j + 1 + e) == j * d + d + e * d;
  }

  /** The innermost level: p samples, a stride apart. */
  method ShuffleLeaf(Fout: array<Cpx>, pos: nat, f: array<Cpx>, fpos: nat, fstride: nat, inStride: nat,
                     factors: seq<Factor>, p: nat)
    requires Fout != f && |factors| == 1 && factors[0] == Factor(p, 1) && p > 0
    requires pos + p <= Fout.Length && fpos + fstride * inStride * (p - 1) < f.Length
    modifies Fout
    ensures Filled(Fout[..], pos, p, f[..], fpos, inStride, fstride, factors)
    ensures forall k :: 0 <= k < Fout.Length && !(pos <= k < pos + p) ==> Fout[k] == old(Fout[k])
  {
    hide Sample;
    var step := fstride * inStride;
    var fp := fpos;
    for j := 0 to p
      invariant fp == fpos + j * step
      invariant Filled(Fout[..], pos, j, f[..], fpos, inStride, fstride, factors)
      invariant forall k :: 0 <= k < Fout.Length && !(pos <= k < pos + p) ==> Fout[k] == old(Fout[k])
    {
      LeafRoom(fpos, step, p, j, f.Length);
      SampleLeaf(f[..], fpos, inStride, fstride, factors, j);
      Fout[pos + j] := f[fp];
      fp := fp + step;
    }
  }

  lemma LeafRoom(fpos: nat, step: nat, p: nat, j: nat, length: nat)
    requires j < p && fpos + step * (p - 1) < length
    ensures 0 <= fpos + j * step < length
    ensures j * step + step == (j + 1) * step
  {
    var d: nat := p - 1 - j;
    assert step * d >= 0 && j * step >= 0;
    assert p - 1 == j + d;
    assert step * (j + d) == j * step + step * d;
  }

  method Shuffle(Fout: array<Cpx>, pos: nat, f: array<Cpx>, fpos: nat, fstride: nat, inStride: nat,
                 factors: seq<Factor>, ghost l: nat)
    requires Fout != f && l > 0 && Chain(l, factors)
    requires pos + l <= Fout.Length && fpos + fstride * inStride * (l - 1) < f.Length
    modifies Fout
    ensures Filled(Fout[..], pos, l, f[..], fpos, inStride, fstride, factors)
    ensures forall k :: 0 <= k < Fout.Length && !(pos <= k < pos + l) ==> Fout[k] == old(Fout[k])
    decreases |factors|, 0
  {
    hide Chain, Sample, Times;
    ChainParts(l, factors);
    var p, m := factors[0].p, factors[0].m;
    if m == 1 {
      ShuffleLeaf(Fout, pos, f, fpos, fstride, inStride, factors, p);
    } else {
      ghost var before := Fout[..];
      var fp, fo := fpos, pos;
      TimesZero(m);
      TimesZero(fstride * inStride);
      TimesMeans(p, m);
      for j := 0 to p
        invariant fp == fpos + Times(j, fstride * inStride) && fo == pos + Times(j, m)
        invariant Filled(Fout[..], pos, Times(j, m), f[..], fpos, inStride, fstride, factors)
        invariant forall k :: 0 <= k < Fout.Length && !(pos <= k < pos + l) ==> Fout[k] == before[k]
      {
        ShuffleRoom(fpos, fstride * inStride, fstride, inStride, p, m, j, l, f.Length);
        ghost var now := Fout[..];
        Shuffle(Fout, fo, f, fp, fstride * p, inStride, factors[1..], m);
        ShuffleMerge(Fout[..], now, f[..], pos, fpos, fstride, inStride, factors, j, fo, fp);
        fp := fp + fstride * inStride;
        fo := fo + m;
      }
    }
  }

  lemma ShuffleRoom(fpos: nat, step: nat, fstride: nat, inStride: nat, p: nat, m: nat, j: nat, l: nat, length: nat)
    requires step == fstride * inStride && l == p * m && m > 0 && j < p
    requires fpos + step * (l - 1) < length
    ensures fpos + Times(j, step) + fstride * p * inStride * (m - 1) < length
    ensures 0 <= Times(j, m) && Times(j, m) + m == Times(j + 1, m) <= l
    ensures 0 <= Times(j, step) && Times(j, step) + step == Times(j + 1, step)
  {
    ShuffleBounds(step, p, m, j);
    assert fstride * p * inStride == step * p;
    SubIndex(0, p, m, j, m - 1);
  }

  /** What the recursive call for child j adds to the part already done. */
  lemma ShuffleMerge(after: seq<Cpx>, now: seq<Cpx>, f: seq<Cpx>, pos: nat, fpos: nat, fstride: nat, inStride: nat,
                     fs: seq<Factor>, j: nat, fo: nat, fp: nat)
    requires |fs| > 0 && fs[0].m > 0 && |after| == |now|
    requires fo == pos + Times(j, fs[0].m) && fp == fpos + Times(j, fstride * inStride) && fo + fs[0].m <= |now|
    requires Filled(now, pos, Times(j, fs[0].m), f, fpos, inStride, fstride, fs)
    requires Filled(after, fo, fs[0].m, f, fp, inStride, fstride * fs[0].p, fs[1..])
    requires forall k :: 0 <= k < |now| && !(fo <= k < fo + fs[0].m) ==> after[k] == now[k]
    ensures Filled(after, pos, Times(j, fs[0].m) + fs[0].m, f, fpos, inStride, fstride, fs)
  {
    hide Sample, Times;
    var m := fs[0].m;
    forall i | 0 <= i < Times(j, m) + m
      ensures At(after, pos + i) == Sample(f, fpos, inStride, fstride, fs, i)
    {
      if i >= Times(j, m) {
        var k := i - Times(j, m);
        TimesMeans(j, m);
        TimesMeans(j, fstride * inStride);
        SampleChild(f, fpos, inStride, fstride, fs, j, k);
        assert At(after, fo + k) == Sample(f, fp, inStride, fstride * fs[0].p, fs[1..], k);
      }
    }
  }

  // ---- breadth-wise recursion ----

  /** A block as the shuffle leaves it. */
  function Scrambled(x: int -> Cpx, s: int, fs: seq<Factor>, o: int, l: nat): (r: seq<Cpx>)
    ensures |r| == l
  {
    seq(l, i => x(o + ShuffleIndex(s, fs, i)))
  }

  /** The offsets of the p children of every node. */
  function Children(offs: seq<int>, s: int, p: nat): (r: seq<int>)
    requires p > 0
    ensures |r| == |offs| * p
  {
    seq(|offs| * p, c requires 0 <= c < |offs| * p => ChildOffset(offs, s, p, c))
  }

  function ChildOffset(offs: seq<int>, s: int, p: nat, c: int): int
    requires p > 0 && 0 <= c < |offs| * p
  {
    BelowProduct(c, |offs|, p);
    offs[c / p] + s * (c % p)
  }

  lemma BelowProduct(c: int, n: nat, p: nat)
    requires p > 0 && 0 <= c < n * p
    ensures 0 <= c / p < n && 0 <= c % p < p
  {
    assert c == p * (c / p) + c % p;
    QuotientBelow(c / p, n, p);
  }

  lemma ChildOf(offs: seq<int>, s: int, p: nat, b: nat, q: nat)
    requires b < |offs| && q < p
    ensures 0 <= b * p + q < |offs| * p && Children(offs, s, p)[b * p + q] == offs[b] + s * q
  {
    SubIndex(0, |offs|, p, b, q);
    DivUnique(b * p + q, p, b, q);
  }

  /** All blocks of length l hold what the shuffle put there. */
  ghost predicate AllScrambled(f: seq<Cpx>, x: int -> Cpx, s: int, fs: seq<Factor>, offs: seq<int>, l: nat) {
    forall b :: 0 <= b < |offs| ==> Block(f, b, l) == Scrambled(x, s, fs, offs[b], l)
  }

  /** All blocks of length l hold the transforms of their nodes. */
  ghost predicate AllNodes(f: seq<Cpx>, w: int -> Cpx, x: int -> Cpx, s: int, offs: seq<int>, l: nat) {
    forall b :: 0 <= b < |offs| ==> Block(f, b, l) == NodeSeq(w, x, s, offs[b], l)
  }

  /** A scrambled block is made of the scrambled blocks of its children. */
  lemma ScrambledChildren(f: seq<Cpx>, x: int -> Cpx, s: int, fs: seq<Factor>, offs: seq<int>, l: nat)
    requires |fs| > 0 && fs[0].p > 0 && fs[0].m > 0 && fs[0].p * fs[0].m == l
    requires AllScrambled(f, x, s, fs, offs, l)
    ensures AllScrambled(f, x, s * fs[0].p, fs[1..], Children(offs, s, fs[0].p), fs[0].m)
  {
    hide ShuffleIndex, Block, Scrambled, Children;
    var p, m := fs[0].p, fs[0].m;
    var kids := Children(offs, s, p);
    forall c | 0 <= c < |kids|
      ensures Block(f, c, m) == Scrambled(x, s * p, fs[1..], kids[c], m)
    {
      BelowProduct(c, |offs|, p);
      var b, q := c / p, c % p;
      assert c == b * p + q;
      ChildOf(offs, s, p, b, q);
      BlockOfBlock(f, b, p, m, q);
      ScrambledChild(x, s, fs, offs[b], q);
    }
  }

  lemma ScrambledChild(x: int -> Cpx, s: int, fs: seq<Factor>, o: int, q: nat)
    requires |fs| > 0 && fs[0].m > 0 && q < fs[0].p
    ensures Block(Scrambled(x, s, fs, o, fs[0].p * fs[0].m), q, fs[0].m)
         == Scrambled(x, s * fs[0].p, fs[1..], o + s * q, fs[0].m)
  {
    hide ShuffleIndex;
    var p, m := fs[0].p, fs[0].m;
    var blk := Scrambled(x, s, fs, o, p * m);
    forall i | 0 <= i < m
      ensures Block(blk, q, m)[i] == x(o + s * q + ShuffleIndex(s * p, fs[1..], i))
    {
      SubIndex(0, p, m, q, i);
      ShuffleChild(s, fs, q, i);
      assert blk[q * m + i] == x(o + ShuffleIndex(s, fs, q * m + i));
    }
  }

  /** At the innermost level the shuffled samples are nodes of length one. */
  lemma ScrambledLeaves(n: nat, w: int -> Cpx, f: seq<Cpx>, x: int -> Cpx, s: int, offs: seq<int>)
    requires Root(n, w) && AllScrambled(f, x, s, [], offs, 1)
    ensures AllNodes(f, w, x, s, offs, 1)
  {
    hide Root, NodeSeq, Block;
    forall b | 0 <= b < |offs|
      ensures Block(f, b, 1) == NodeSeq(w, x, s, offs[b], 1)
    {
      NodeLeaf(n, w, x, s, offs[b]);
      assert Scrambled(x, s, [], offs[b], 1) == [x(offs[b])];
    }
  }

  /** The butterfly turns a block of finished children into a finished node. */
  lemma BlockDone(n: nat, w: int -> Cpx, x: int -> Cpx, s: nat, offs: seq<int>, p: nat, m: nat, f: seq<Cpx>, b: nat)
    requires Root(n, w) && p > 0 && m > 0 && s * p * m == n && b < |offs|
    requires AllNodes(f, w, x, s * p, Children(offs, s, p), m)
    ensures Stage(w, s, p, m, Block(f, b, p * m)) == NodeSeq(w, x, s, offs[b], p * m)
  {
    hide Root, NodeSeq, Block, Children, Stage;
    forall q | 0 <= q < p
      ensures Block(Block(f, b, p * m), q, m) == NodeSeq(w, x, s * p, offs[b] + s * q, m)
    {
      ChildOf(offs, s, p, b, q);
      BlockOfBlock(f, b, p, m, q);
    }
    StageCorrect(n, w, x, s, offs[b], p, m, Block(f, b, p * m));
  }

  /** Blocks 0..i-1 are finished, the others as they were in mid. */
  ghost predicate Sweep(f: seq<Cpx>, mid: seq<Cpx>, w: int -> Cpx, x: int -> Cpx, s: int, offs: seq<int>, l: nat, i: int) {
    && |f| == |mid|
    && (forall b :: 0 <= b < i && b < |offs| ==> Block(f, b, l) == NodeSeq(w, x, s, offs[b], l))
    && (forall b :: i <= b < |offs| ==> Block(f, b, l) == Block(mid, b, l))
  }

  lemma BlockSlice(f: seq<Cpx>, b: nat, l: nat)
    requires b * l + l <= |f|
    ensures Block(f, b, l) == f[b * l..b * l + l]
  {
  }

  lemma BlocksApart(b: int, c: int, l: nat)
    requires b != c
    ensures b < c ==> b * l + l <= c * l
    ensures c < b ==> c * l + l <= b * l
  {
    if b < c {
      LaterBlock(b, c, l);
    } else {
      LaterBlock(c, b, l);
    }
  }

  lemma LaterBlock(b: int, c: int, l: nat)
    requires b < c
    ensures b * l + l <= c * l
  {
    assert c * l == b * l + l + (c - b - 1) * l;
    assert (c - b - 1) * l >= 0;
  }

  lemma SweepStep(f: seq<Cpx>, g: seq<Cpx>, mid: seq<Cpx>, w: int -> Cpx, x: int -> Cpx, s: int, offs: seq<int>,
                  l: nat, i: nat)
    requires Sweep(f, mid, w, x, s, offs, l, i) && i < |offs|
    requires |offs| * l == |f| == |g| && i * l + l <= |f|
    requires g[i * l..i * l + l] == NodeSeq(w, x, s, offs[i], l)
    requires forall k :: 0 <= k < |g| && !(i * l <= k < i * l + l) ==> g[k] == f[k]
    ensures Sweep(g, mid, w, x, s, offs, l, i + 1)
  {
    hide NodeSeq, Block;
    forall b | 0 <= b < |offs|
      ensures b != i ==> Block(g, b, l) == Block(f, b, l)
      ensures b == i ==> Block(g, b, l) == g[i * l..i * l + l]
    {
      BlockInside(b, |offs|, l);
      BlockSlice(g, b, l);
      BlockSlice(f, b, l);
      if b != i {
        BlocksApart(b, i, l);
        assert g[b * l..b * l + l] == f[b * l..b * l + l];
      }
    }
  }

  lemma BlockInside(b: nat, n: nat, l: nat)
    requires b < n
    ensures 0 <= b * l && b * l + l <= n * l
  {
    var d: nat := n - 1 - b;
    assert d * l >= 0 && b * l >= 0;
    assert n == b + 1 + d;
    assert (b + 1 + d) * l == b * l + l + d * l;
  }

  /** One level of kf_work. N is the number of blocks and always equals fstride; m2 is the
      distance between them. The result is false where the source stops the process
      because a radix is above 17. */
  method Work(Fout: array<Cpx>, fstride: nat, factors: seq<Factor>, st: Cfg, N: nat, m2: nat,
              ghost l: nat, ghost w: int -> Cpx, ghost x: int -> Cpx, ghost offs: seq<int>)
    returns (ok: bool)
    requires ValidCfg(st, w) && Fout.Length == st.nfft
    requires Chain(l, factors) && fstride * l == st.nfft
    requires N == fstride == |offs| && (N > 1 ==> m2 == l)
    requires AllScrambled(Fout[..], x, fstride, factors, offs, l)
    modifies Fout
    ensures ok <==> Supported(factors)
    ensures ok ==> AllNodes(Fout[..], w, x, fstride, offs, l)
    decreases |factors|
  {
    hide ValidCfg, Root, Chain, Children, AllScrambled, AllNodes, Stage, Sweep, Supported, NodeSeq;
    CfgParts(st, w);
    WorkSizes(st.nfft, fstride, l, factors);
    var p, m := factors[0].p, factors[0].m;
    ghost var kids := Children(offs, fstride, p);
    ScrambledChildren(Fout[..], x, fstride, factors, offs, l);
    SupportedSplit(factors);
    if m == 1 {
      assert factors[1..] == [];
      ScrambledLeaves(st.nfft, w, Fout[..], x, fstride * p, kids);
    } else {
      var inner := Work(Fout, fstride * p, factors[1..], st, N * p, m, m, w, x, kids);
      if !inner {
        return false;
      }
    }
    if p > 17 {
      return false;
    }
    ghost var mid := Fout[..];
    SweepStart(mid, w, x, fstride, offs, l);
    for i := 0 to N
      invariant Sweep(Fout[..], mid, w, x, fstride, offs, l, i)
    {
      ghost var now := Fout[..];
      WorkBase(N, m2, l, i);
      BlockInside(i, N, l);
      Butterfly(Fout, i * m2, fstride, st, m, p, w);
      BlockDone(st.nfft, w, x, fstride, offs, p, m, mid, i);
      SweepBlock(now, mid, w, x, fstride, offs, l, i);
      BlockSlice(now, i, l);
      SweepStep(now, Fout[..], mid, w, x, fstride, offs, l, i);
    }
    SweepEnd(Fout[..], mid, w, x, fstride, offs, l, N);
    return true;
  }

  lemma SupportedSplit(fs: seq<Factor>)
    requires |fs| > 0
    ensures Supported(fs) <==> fs[0].p <= 17 && Supported(fs[1..])
    ensures |fs| == 1 ==> Supported(fs[1..])
  {
    AllSplit(fs);
  }

  lemma WorkSizes(n: nat, fstride: nat, l: nat, fs: seq<Factor>)
    requires n > 0 && fstride * l == n && Chain(l, fs)
    ensures l > 0 && |fs| > 0 && fs[0].p > 0 && fs[0].m > 0 && fs[0].p * fs[0].m == l
    ensures if fs[0].m == 1 then |fs| == 1 else Chain(fs[0].m, fs[1..])
    ensures fs[0].p * (fstride * fs[0].m) == n && fstride * fs[0].p * fs[0].m == n
  {
    hide Chain;
    assert l > 0;
    ChainParts(l, fs);
    Reassociate(fstride, fs[0].p, fs[0].m);
  }

  lemma Reassociate(a: int, b: int, c: int)
    ensures a * (b * c) == a * b * c == b * (a * c)
  {
  }

  lemma WorkBase(N: nat, m2: nat, l: nat, i: nat)
    requires i < N && (N > 1 ==> m2 == l)
    ensures i * m2 == i * l
  {
  }

  lemma SweepStart(f: seq<Cpx>, w: int -> Cpx, x: int -> Cpx, s: int, offs: seq<int>, l: nat)
    ensures Sweep(f, f, w, x, s, offs, l, 0)
  {
  }

  lemma SweepBlock(f: seq<Cpx>, mid: seq<Cpx>, w: int -> Cpx, x: int -> Cpx, s: int, offs: seq<int>, l: nat, i: nat)
    requires Sweep(f, mid, w, x, s, offs, l, i) && i < |offs|
    ensures Block(f, i, l) == Block(mid, i, l)
  {
  }

  lemma SweepEnd(f: seq<Cpx>, mid: seq<Cpx>, w: int -> Cpx, x: int -> Cpx, s: int, offs: seq<int>, l: nat, i: nat)
    requires Sweep(f, mid, w, x, s, offs, l, i) && i == |offs|
    ensures AllNodes(f, w, x, s, offs, l)
  {
  }

  // ---- the whole transform ----

  /** The samples a strided read of f delivers. */
  function Strided(f: seq<Cpx>, inStride: int): int -> Cpx {
    j => At(f, inStride * j)
  }

  lemma WholeScrambled(out: seq<Cpx>, f: seq<Cpx>, inStride: int, fs: seq<Factor>, n: nat)
    requires Filled(out, 0, n, f, 0, inStride, 1, fs)
    ensures AllScrambled(out, Strided(f, inStride), 1, fs, [0], n)
  {
    hide ShuffleIndex, At;
    var x := Strided(f, inStride);
    forall i | 0 <= i < n
      ensures Block(out, 0, n)[i] == Scrambled(x, 1, fs, 0, n)[i]
    {
      assert At(out, 0 + i) == Sample(f, 0, inStride, 1, fs, i);
    }
  }

  lemma WholeNode(out: seq<Cpx>, n: nat, w: int -> Cpx, x: int -> Cpx)
    requires |out| == n && AllNodes(out, w, x, 1, [0], n)
    ensures forall k :: 0 <= k < n ==> out[k] == Dft(n, w, x, k)
  {
    hide NodeDft, Dft;
    forall k | 0 <= k < n
      ensures out[k] == Dft(n, w, x, k)
    {
      assert 0 * n + k == k;
      assert Block(out, 0, n)[k] == At(out, k) == out[k];
      assert NodeSeq(w, x, 1, 0, n)[k] == NodeDft(w, x, 1, 0, n, k);
      NodeRoot(n, w, x, k);
    }
  }

  /** The transform. The source stops the process, here ok is false, when asked to work in
      place or when a radix is above 17; otherwise the output is the plain Fourier sum. */
  method KissFftStride(st: Cfg, fin: array<Cpx>, fout: array<Cpx>, inStride: nat, ghost w: int -> Cpx)
    returns (ok: bool)
    requires ValidCfg(st, w) && fout.Length == st.nfft
    requires inStride * (st.nfft - 1) < fin.Length
    modifies fout
    ensures ok <==> fin != fout && Supported(st.factors)
    ensures ok ==> forall k :: 0 <= k < st.nfft ==>
                     fout[k] == Dft(st.nfft, w, Strided(old(fin[..]), inStride), k)
  {
    hide Root, Chain, AllScrambled, AllNodes, Filled, Supported, Dft, Oriented;
    if fin == fout {
      return false;
    }
    CfgParts(st, w);
    ghost var x := Strided(fin[..], inStride);
    assert 1 * inStride * (st.nfft - 1) == inStride * (st.nfft - 1);
    Shuffle(fout, 0, fin, 0, 1, inStride, st.factors, st.nfft);
    WholeScrambled(fout[..], fin[..], inStride, st.factors, st.nfft);
    ok := Work(fout, 1, st.factors, st, 1, 1, st.nfft, w, x, [0]);
    if ok {
      WholeNode(fout[..], st.nfft, w, x);
    }
  }

  /** The transform of adjacent samples. */
  method KissFft(st: Cfg, fin: array<Cpx>, fout: array<Cpx>, ghost w: int -> Cpx, ghost x: int -> Cpx)
    returns (ok: bool)
    requires ValidCfg(st, w) && fout.Length == fin.Length == st.nfft
    requires forall j :: 0 <= j < st.nfft ==> fin[j] == x(j)
    modifies fout
    ensures ok <==> fin != fout && Supported(st.factors)
    ensures ok ==> forall k :: 0 <= k < st.nfft ==> fout[k] == Dft(st.nfft, w, x, k)
  {
    hide Root, Chain, Supported, Dft, Oriented;
    ghost var y := Strided(fin[..], 1);
    CfgParts(st, w);
    ok := KissFftStride(st, fin, fout, 1, w);
    if ok {
      forall k
        ensures Dft(st.nfft, w, y, k) == Dft(st.nfft, w, x, k)
      {
        DftExt(st.nfft, w, y, x, k);
      }
    }
  }

  // ---- allocation ----

  /** The phase of twiddle i, in turns. */
  function Phase(i: int, n: nat, inverse: bool): real
    requires n > 0
  {
    var phase := (-1.0 / n as real) * i as real;
    if inverse then phase * -1.0 else phase
  }

  function Powers(cis: real -> Cpx, n: nat, inverse: bool): int -> Cpx
    requires n > 0
  {
    e => cis(Phase(e, n, inverse))
  }

  /** The forward transform turns clockwise, the inverse one the other way. */
  lemma PowersDirection(cis: real -> Cpx, n: nat, e: int)
    requires n > 0
    ensures Powers(cis, n, false)(e) == cis(-(e as real / n as real))
    ensures Powers(cis, n, true)(e) == cis(e as real / n as real)
  {
    var d, r := n as real, e as real;
    var c, q := -1.0 / d, 1.0 / d;
    TurnsOf(r, d);
    TurnsOf(-1.0, d);
    SignedTurns(c, q, r);
    assert r / d == r * q;
    assert c == -1.0 * q;
    assert c * r == -(r / d);
    assert Phase(e, n, false) == c * r;
    assert Phase(e, n, true) == c * r * -1.0;
  }

  lemma SignedTurns(c: real, q: real, e: real)
    requires c == -1.0 * q
    ensures c * e == -(e * q) && c * e * -1.0 == e * q
  {
  }

  lemma TurnsOf(a: real, d: real)
    requires d > 0.0
    ensures a / d == a * (1.0 / d)
  {
  }

  lemma PhaseFacts(n: nat, inverse: bool, a: int, b: int)
    requires n > 0
    ensures Phase(a + b, n, inverse) == Phase(a, n, inverse) + Phase(b, n, inverse)
    ensures Phase(-a, n, inverse) == -Phase(a, n, inverse)
    ensures Phase(a, n, false) == -Phase(a, n, true)
    ensures Phase(n, n, true) == 1.0
    ensures 0 < a < n ==> 0.0 < Phase(a, n, true) < 1.0
    ensures n % 4 == 0 ==> Phase(n / 4, n, true) == 0.25
  {
    var c := 1.0 / n as real;
    assert c * n as real == 1.0 && c > 0.0;
    assert Phase(a, n, true) == c * a as real;
    if 0 < a < n {
      Between(c, a as real, n as real, 1.0);
    }
    if n % 4 == 0 {
      assert c * (n / 4) as real * 4.0 == 1.0;
    }
  }

  lemma Between(c: real, a: real, n: real, one: real)
    requires c > 0.0 && 0.0 < a < n && c * n == one
    ensures 0.0 < c * a < one
  {
    assert c * (n - a) > 0.0;
    assert c * (n - a) == c * n - c * a;
  }

  /** A table built from an exponential holds the powers of a primitive root. */
  lemma PowersRoot(cis: real -> Cpx, n: nat, inverse: bool)
    requires n > 0 && IsCis(cis)
    ensures Root(n, Powers(cis, n, inverse)) && Oriented(n, Powers(cis, n, inverse), inverse)
  {
    hide Mul, Phase, IsCis;
    var w := Powers(cis, n, inverse);
    forall a, b
      ensures w(a + b) == Mul(w(a), w(b))
    {
      PhaseFacts(n, inverse, a, b);
      CisAdd(cis, Phase(a, n, inverse), Phase(b, n, inverse));
    }
    forall a
      ensures w(-a) == Conj(w(a))
    {
      PhaseFacts(n, inverse, a, 0);
      CisConj(cis, Phase(a, n, inverse));
    }
    PhaseFacts(n, inverse, n, 0);
    CisConj(cis, Phase(n, n, true));
    forall e | 0 < e < n
      ensures w(e) != ONE
    {
      PhaseFacts(n, inverse, e, 0);
      CisConj(cis, Phase(e, n, true));
      CisPrimitive(cis, Phase(e, n, true));
    }
    PhaseFacts(n, inverse, n / 4, 0);
    CisConj(cis, Phase(n / 4, n, true));
  }

  lemma CisAdd(cis: real -> Cpx, a: real, b: real)
    requires IsCis(cis)
    ensures cis(a + b) == Mul(cis(a), cis(b))
  {
  }

  lemma CisConj(cis: real -> Cpx, a: real)
    requires IsCis(cis)
    ensures cis(-a) == Conj(cis(a)) && cis(1.0) == ONE && cis(0.25) == I
  {
  }

  lemma CisPrimitive(cis: real -> Cpx, a: real)
    requires IsCis(cis) && 0.0 < a < 1.0
    ensures cis(a) != ONE
  {
  }

  method KissFftAlloc(nfft: nat, inverse: bool, cis: real -> Cpx) returns (st: Cfg)
    requires 0 < nfft < 0x8000_0000 && IsCis(cis)
    ensures st.nfft == nfft && st.inverse == inverse && st.factors == Factors(nfft, 4)
    ensures ValidCfg(st, Powers(cis, nfft, inverse))
    ensures forall e :: 0 <= e < nfft ==>
              st.twiddles[e] == if inverse then cis(e as real / nfft as real) else cis(-(e as real / nfft as real))
  {
    hide Root, Oriented, Chain, IsCis, Factors;
    var twiddles := seq(nfft, i => cis(Phase(i, nfft, inverse)));
    var facbuf := new int[2 * MAXFACTORS];
    var pairs := KfFactor(nfft, facbuf);
    var factors: seq<Factor> := [];
    for i := 0 to pairs
      invariant factors == Factors(nfft, 4)[..i]
    {
      factors := factors + [Factor(facbuf[2 * i], facbuf[2 * i + 1])];
    }
    st := Cfg(nfft, inverse, factors, twiddles);
    FactorsChain(nfft, 4);
    PowersRoot(cis, nfft, inverse);
    forall e | 0 <= e < nfft
      ensures st.twiddles[e] == if inverse then cis(e as real / nfft as real) else cis(-(e as real / nfft as real))
    {
      PowersDirection(cis, nfft, e);
    }
  }
}
