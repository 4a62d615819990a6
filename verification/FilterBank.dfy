/** The Bark filter bank of filterbank.c: how bins are spread over bands, and back. */
module FilterBank {
  import opened Complex
  import opened HalfComplex
  import opened Convolution

  /** What is needed of the toBARK macro. */
  ghost predicate IsBark(toBark: real -> real) {
    && toBark(0.0) == 0.0
    && (forall x :: 0.0 < x ==> 0.0 < toBark(x))
    && forall x, y :: 0.0 <= x <= y ==> toBark(x) <= toBark(y)
  }

  /** Where bin i lies: two neighbouring bands, and the share of each. */
  datatype Place = Place(left: nat, right: nat, filterLeft: real, filterRight: real)

  /** Shares of one, between neighbouring bands. */
  predicate ValidPlace(p: Place, banks: nat) {
    p.right == p.left + 1 && p.right < banks && p.filterLeft + p.filterRight == 1.0 && 0.0 <= p.filterLeft <= 1.0
  }

  predicate ValidBank(bank: seq<Place>, banks: nat) {
    forall i :: 0 <= i < |bank| ==> ValidPlace(bank[i], banks)
  }

  /** The centre of gravity of a bin's bands, in bands. */
  function Centre(p: Place): real {
    SMul(p.left as real, p.filterLeft) + SMul(p.right as real, p.filterRight)
  }

  /** The frequency of bin i. */
  function BinFrequency(i: int, sampling: real, len: nat): real
    requires len > 0
  {
    SMul(i as real, sampling / (2 * len) as real)
  }

  /** The bins divide the range up to half the sampling rate into equal steps. */
  lemma BinFrequencyIs(i: int, sampling: real, len: nat)
    requires len > 0
    ensures BinFrequency(i, sampling, len) * (2 * len) as real == i as real * sampling
  {
    var n := (2 * len) as real;
    var q := sampling / n;
    assert q * n == sampling;
    assert i as real * q * n == i as real * (q * n);
  }

  lemma BinBelowHalf(i: int, sampling: real, len: nat)
    requires 0 <= i < len && sampling > 0.0
    ensures 0.0 <= BinFrequency(i, sampling, len) <= sampling / 2.0
  {
    var df := sampling / (2 * len) as real;
    assert df > 0.0;
    assert (2 * len) as real * df == sampling;
    assert i as real * df <= len as real * df;
  }

  lemma Ratio(mel: real, interval: real, banks: nat)
    requires banks >= 2 && interval > 0.0 && 0.0 <= mel <= SMul((banks - 1) as real, interval)
    ensures 0.0 <= mel / interval <= (banks - 1) as real
  {
    var q := mel / interval;
    assert q * interval == mel;
    if q > (banks - 1) as real {
      assert q * interval > (banks - 1) as real * interval;
    }
  }

  lemma ShareOf(mel: real, interval: real, id1: int)
    requires interval > 0.0
    ensures (mel - SMul(id1 as real, interval)) / interval == mel / interval - id1 as real
  {
    var q := mel / interval;
    assert q * interval == mel;
    assert (q - id1 as real) * interval == mel - id1 as real * interval;
    QuotientUnique(mel - id1 as real * interval, interval, q - id1 as real);
  }

  lemma QuotientUnique(a: real, d: real, q: real)
    requires d > 0.0 && q * d == a
    ensures a / d == q
  {
    var e := a / d - q;
    assert e * d == 0.0;
    assert e > 0.0 ==> e * d > 0.0;
    assert e < 0.0 ==> (-e) * d > 0.0;
  }

  /** Every bin finds its place: no bin lies above the last band, so the loop never stops
      early, and the shares put the bin exactly where its frequency is on the Bark scale. */
  method FilterbankNew(banks: nat, sampling: real, len: nat, toBark: real -> real) returns (bank: array<Place>)
    requires banks >= 2 && len >= 1 && sampling > 0.0 && IsBark(toBark)
    ensures fresh(bank) && bank.Length == len && ValidBank(bank[..], banks)
    ensures forall i :: 0 <= i < len ==>
              SMul(Centre(bank[i]), toBark(sampling / 2.0)) == SMul(toBark(BinFrequency(i, sampling, len)), (banks - 1) as real)
  {
    hide SMul, IsBark, BinFrequency, Centre, ValidPlace;
    var df := sampling / (2 * len) as real;
    var maxMel := toBark(sampling / 2.0);
    BarkAt(toBark, sampling);
    var interval := maxMel / (banks - 1) as real;
    IntervalPositive(maxMel, banks);
    bank := new Place[len](_ => Place(0, 0, 0.0, 0.0));
    for i := 0 to len
      invariant forall k :: 0 <= k < i ==> ValidPlace(bank[k], banks)
      invariant forall k :: 0 <= k < i ==>
                  SMul(Centre(bank[k]), maxMel) == SMul(toBark(BinFrequency(k, sampling, len)), (banks - 1) as real)
    {
      var freq := BinFrequency(i, sampling, len);
      var mel := toBark(freq);
      BinInRange(i, sampling, len, toBark);
      if mel > maxMel {
        assert false;
        break;
      }
      bank[i] := FindPlace(mel, interval, banks);
      CentreScaled(bank[i], mel, interval, maxMel, banks);
    }
  }

  method FindPlace(mel: real, interval: real, banks: nat) returns (p: Place)
    requires banks >= 2 && interval > 0.0 && 0.0 <= mel <= SMul((banks - 1) as real, interval)
    ensures ValidPlace(p, banks) && Centre(p) == mel / interval
  {
    hide SMul;
    Ratio(mel, interval, banks);
    var id1 := (mel / interval).Floor;
    var val: real;
    if id1 > banks - 2 {
      id1 := banks - 2;
      val := 1.0;
    } else {
      ShareOf(mel, interval, id1);
      val := (mel - SMul(id1 as real, interval)) / interval;
    }
    p := Place(id1, id1 + 1, 1.0 - val, val);
    CentreOf(id1, val);
  }

  lemma CentreOf(id: nat, val: real)
    ensures Centre(Place(id, id + 1, 1.0 - val, val)) == id as real + val
  {
    assert id as real * (1.0 - val) + (id + 1) as real * val == id as real + val;
  }

  lemma BarkAt(toBark: real -> real, sampling: real)
    requires IsBark(toBark) && sampling > 0.0
    ensures toBark(sampling / 2.0) > 0.0
  {
  }

  lemma BinInRange(i: int, sampling: real, len: nat, toBark: real -> real)
    requires IsBark(toBark) && sampling > 0.0 && 0 <= i < len
    ensures 0.0 <= toBark(BinFrequency(i, sampling, len)) <= toBark(sampling / 2.0)
  {
    hide BinFrequency;
    BinBelowHalf(i, sampling, len);
    assert 0.0 == toBark(0.0) <= toBark(BinFrequency(i, sampling, len));
  }

  lemma IntervalPositive(maxMel: real, banks: nat)
    requires banks >= 2 && maxMel > 0.0
    ensures maxMel / (banks - 1) as real > 0.0
    ensures SMul((banks - 1) as real, maxMel / (banks - 1) as real) == maxMel
  {
  }

  lemma CentreScaled(p: Place, mel: real, interval: real, maxMel: real, banks: nat)
    requires banks >= 2 && interval > 0.0 && SMul((banks - 1) as real, interval) == maxMel && Centre(p) == mel / interval
    ensures SMul(Centre(p), maxMel) == SMul(mel, (banks - 1) as real)
  {
    var b := (banks - 1) as real;
    var c := Centre(p);
    assert c * interval == mel;
    assert c * (b * interval) == (c * interval) * b;
  }

  // ---- spreading ----

  /** One bin's energy added to its two bands. */
  function Spread(mel: seq<real>, p: Place, e: real): (r: seq<real>)
    requires ValidPlace(p, |mel|)
    ensures |r| == |mel|
  {
    var once := mel[p.left := mel[p.left] + SMul(p.filterLeft, e)];
    once[p.right := once[p.right] + SMul(p.filterRight, e)]
  }

  /** The bands after the first k bins. */
  function Bands(bank: seq<Place>, ps: seq<real>, banks: nat, k: nat): (mel: seq<real>)
    requires ValidBank(bank, banks) && k <= |bank| == |ps|
    ensures |mel| == banks
  {
    if k == 0 then Zeros(banks) else Spread(Bands(bank, ps, banks, k - 1), bank[k - 1], ps[k - 1])
  }

  function BandGain(p: Place, mel: seq<real>): real {
    SMul(RealAt(mel, p.left), p.filterLeft) + SMul(RealAt(mel, p.right), p.filterRight)
  }

  /** Spreading the band numbers themselves puts every bin at its own place between them. */
  lemma RampGain(p: Place, m: seq<real>)
    requires ValidPlace(p, |m|) && forall b :: 0 <= b < |m| ==> m[b] == b as real
    ensures BandGain(p, m) == Centre(p)
  {
    hide SMul;
    assert RealAt(m, p.left) == p.left as real && RealAt(m, p.right) == p.right as real;
  }

  method ComputeBank32(bank: array<Place>, ps: array<real>, mel: array<real>)
    requires ValidBank(bank[..], mel.Length) && ps.Length == bank.Length && mel != ps
    modifies mel
    ensures mel[..] == Bands(bank[..], ps[..], mel.Length, bank.Length)
  {
    hide SMul;
    for i := 0 to mel.Length
      invariant forall k :: 0 <= k < i ==> mel[k] == 0.0
    {
      mel[i] := 0.0;
    }
    assert mel[..] == Zeros(mel.Length);
    for i := 0 to bank.Length
      invariant mel[..] == Bands(bank[..], ps[..], mel.Length, i)
      modifies mel
    {
      AddBin(bank[i], ps[i], mel);
    }
  }

  method AddBin(p: Place, e: real, mel: array<real>)
    requires ValidPlace(p, mel.Length)
    modifies mel
    ensures mel[..] == Spread(old(mel[..]), p, e)
  {
    hide SMul;
    var id := p.left;
    mel[id] := mel[id] + SMul(p.filterLeft, e);
    id := p.right;
    mel[id] := mel[id] + SMul(p.filterRight, e);
  }

  method ComputePsd16(bank: array<Place>, mel: array<real>, ps: array<real>)
    requires ValidBank(bank[..], mel.Length) && ps.Length == bank.Length && mel != ps
    modifies ps
    ensures forall i :: 0 <= i < bank.Length ==> ps[i] == BandGain(bank[i], mel[..])
  {
    hide SMul;
    for i := 0 to bank.Length
      invariant forall k :: 0 <= k < i ==> ps[k] == BandGain(bank[k], mel[..])
    {
      var tmp := SMul(mel[bank[i].left], bank[i].filterLeft);
      tmp := tmp + SMul(mel[bank[i].right], bank[i].filterRight);
      ps[i] := tmp;
    }
  }

  // ---- what the two are to each other ----

  function ProductAt(a: seq<real>, b: seq<real>, i: int): real {
    SMul(RealAt(a, i), RealAt(b, i))
  }

  /** The inner product of the first n entries. */
  function Inner(a: seq<real>, b: seq<real>, n: nat): real {
    RealSum(n, i => ProductAt(a, b, i))
  }

  lemma InnerStep(a: seq<real>, b: seq<real>, n: nat)
    requires n > 0
    ensures Inner(a, b, n) == Inner(a, b, n - 1) + ProductAt(a, b, n - 1)
  {
    hide ProductAt, RealSum;
    var f := i => ProductAt(a, b, i);
    RealSumParts(n, f);
  }

  lemma {:induction false} InnerBump(a: seq<real>, b: seq<real>, n: nat, id: nat, d: real)
    requires id < |a| && n <= |a|
    ensures Inner(a[id := a[id] + d], b, n) == Inner(a, b, n) + if id < n then SMul(d, RealAt(b, id)) else 0.0
  {
    hide Inner, SMul;
    var c := a[id := a[id] + d];
    if n == 0 {
      InnerEmpty(a, b);
      InnerEmpty(c, b);
    } else {
      InnerBump(a, b, n - 1, id, d);
      InnerStep(a, b, n);
      InnerStep(c, b, n);
      SMulAdd(RealAt(a, n - 1), d, RealAt(b, n - 1));
    }
  }

  lemma InnerEmpty(a: seq<real>, b: seq<real>)
    ensures Inner(a, b, 0) == 0.0
  {
  }

  lemma {:induction false} InnerZeros(n: nat, b: seq<real>, k: nat)
    requires k <= n
    ensures Inner(Zeros(n), b, k) == 0.0
  {
    hide Inner, SMul;
    if k == 0 {
      InnerEmpty(Zeros(n), b);
    } else {
      InnerZeros(n, b, k - 1);
      InnerStep(Zeros(n), b, k);
      SMulZero(RealAt(b, k - 1));
    }
  }

  /** Spreading one bin changes an inner product by that bin's energy times what the other
      vector spreads back to it. */
  lemma SpreadInner(mel: seq<real>, p: Place, e: real, m: seq<real>)
    requires ValidPlace(p, |mel|)
    ensures Inner(Spread(mel, p, e), m, |mel|) == Inner(mel, m, |mel|) + SMul(e, BandGain(p, m))
  {
    hide Inner, SMul;
    var once := mel[p.left := mel[p.left] + SMul(p.filterLeft, e)];
    InnerBump(mel, m, |mel|, p.left, SMul(p.filterLeft, e));
    InnerBump(once, m, |mel|, p.right, SMul(p.filterRight, e));
    Distribute(p, e, m);
  }

  lemma Distribute(p: Place, e: real, m: seq<real>)
    ensures SMul(SMul(p.filterLeft, e), RealAt(m, p.left)) + SMul(SMul(p.filterRight, e), RealAt(m, p.right))
         == SMul(e, BandGain(p, m))
  {
    var a, b := RealAt(m, p.left), RealAt(m, p.right);
    assert p.filterLeft * e * a == e * (a * p.filterLeft);
    assert p.filterRight * e * b == e * (b * p.filterRight);
  }

  function Spectrum(bank: seq<Place>, m: seq<real>): (r: seq<real>)
    ensures |r| == |bank|
  {
    seq(|bank|, i requires 0 <= i < |bank| => BandGain(bank[i], m))
  }

  /** The two maps are transposes of each other: weighing the bands of a spectrum is the
      same as weighing the spectrum with the spread weights. */
  lemma {:induction false} Transposed(bank: seq<Place>, ps: seq<real>, m: seq<real>, banks: nat, k: nat)
    requires ValidBank(bank, banks) && k <= |bank| == |ps|
    ensures Inner(Bands(bank, ps, banks, k), m, banks) == Inner(ps, Spectrum(bank, m), k)
  {
    hide Inner, SMul, Spread, BandGain, ValidPlace;
    if k == 0 {
      InnerZeros(banks, m, banks);
      InnerEmpty(ps, Spectrum(bank, m));
    } else {
      Transposed(bank, ps, m, banks, k - 1);
      SpreadInner(Bands(bank, ps, banks, k - 1), bank[k - 1], ps[k - 1], m);
      InnerStep(ps, Spectrum(bank, m), k);
      assert RealAt(Spectrum(bank, m), k - 1) == BandGain(bank[k - 1], m);
    }
  }

  function Total(a: seq<real>): real {
    RealSum(|a|, i => RealAt(a, i))
  }

  lemma {:induction false} InnerOnes(a: seq<real>, ones: seq<real>, k: nat)
    requires k <= |ones| && forall i :: 0 <= i < |ones| ==> ones[i] == 1.0
    ensures Inner(a, ones, k) == RealSum(k, i => RealAt(a, i))
  {
    hide Inner, RealSum, RealAt, SMul;
    var f := i => RealAt(a, i);
    RealSumParts(k, f);
    if k == 0 {
      InnerEmpty(a, ones);
    } else {
      InnerOnes(a, ones, k - 1);
      InnerStep(a, ones, k);
      OneAt(ones, k - 1);
      TimesOne(RealAt(a, k - 1));
    }
  }

  lemma TimesOne(x: real)
    ensures SMul(x, 1.0) == x
  {
  }

  lemma OneAt(ones: seq<real>, i: nat)
    requires i < |ones| && ones[i] == 1.0
    ensures RealAt(ones, i) == 1.0
  {
  }

  /** Spreading a spectrum over the bands loses no energy and adds none. */
  lemma EnergyConserved(bank: seq<Place>, ps: seq<real>, banks: nat)
    requires ValidBank(bank, banks) && |bank| == |ps|
    ensures Total(Bands(bank, ps, banks, |bank|)) == Total(ps)
  {
    hide Inner, SMul, RealSum, Bands;
    var m := Ones(banks);
    forall i | 0 <= i < |bank|
      ensures Spectrum(bank, m)[i] == 1.0
    {
      BandGainBetween(bank[i], m, 1.0, 1.0);
    }
    Transposed(bank, ps, m, banks, |bank|);
    InnerOnes(Bands(bank, ps, banks, |bank|), m, banks);
    InnerOnes(ps, Spectrum(bank, m), |bank|);
  }

  /** Band gains between two bounds spread to bin gains between them; in particular gains in
      [0, 1] stay there. */
  lemma BandGainBetween(p: Place, m: seq<real>, lo: real, hi: real)
    requires ValidPlace(p, |m|) && forall b :: 0 <= b < |m| ==> lo <= m[b] <= hi
    ensures lo <= BandGain(p, m) <= hi
  {
    Convex(m[p.left], m[p.right], p.filterLeft, p.filterRight, lo, hi);
  }

  lemma Convex(a: real, b: real, u: real, v: real, lo: real, hi: real)
    requires lo <= a <= hi && lo <= b <= hi && u + v == 1.0 && 0.0 <= u && 0.0 <= v
    ensures lo <= SMul(a, u) + SMul(b, v) <= hi
  {
    hide SMul;
    Monotone(lo, a, u);
    Monotone(lo, b, v);
    Monotone(a, hi, u);
    Monotone(b, hi, v);
    WholeShare(lo, u, v);
    WholeShare(hi, u, v);
  }

  lemma WholeShare(a: real, u: real, v: real)
    requires u + v == 1.0
    ensures SMul(a, u) + SMul(a, v) == a
  {
    assert a * (u + v) == a * u + a * v;
  }

  lemma Monotone(a: real, b: real, u: real)
    requires a <= b && 0.0 <= u
    ensures SMul(a, u) <= SMul(b, u)
  {
    assert 0.0 <= (b - a) * u;
  }
}
