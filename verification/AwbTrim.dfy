/** The white-balance correction of cmdq_event_shim.c: the property parser, the multipliers,
    and the in-place scan that remembers what it wrote. */
module AwbTrim {
  import opened Arith

  const WRAP := 0x1_0000_0000
  const WORDS := 40
  const B_COOL := 640
  const B_WARM := 835

  function Wrapped(x: int): U32 {
    x % WRAP
  }

  // ---- trim_prop ----

  predicate IsDigit(c: char) {
    '0' <= c <= '9'
  }

  /** The number that the leading digits spell, and how many there are. */
  function Leading(v: string): (k: nat)
    ensures k <= |v| && (forall i :: 0 <= i < k ==> IsDigit(v[i])) && (k < |v| ==> !IsDigit(v[k]))
  {
    if v == [] || !IsDigit(v[0]) then 0 else 1 + Leading(v[1..])
  }

  function Digit(c: char): (d: nat)
    requires IsDigit(c)
    ensures d <= 9
  {
    c as int - '0' as int
  }

  function Number(v: string, k: nat): nat
    requires k <= |v| && forall i :: 0 <= i < k ==> IsDigit(v[i])
  {
    if k == 0 then 0 else Number(v, k - 1) * 10 + Digit(v[k - 1])
  }

  function Accepted(n: int): (r: int)
    ensures 128 <= r <= 2048
  {
    if 128 <= n <= 2048 then n else 512
  }

  /** The number is read modulo the word size, and replaced by 512 outside 128..2048. */
  method TrimProp(v: string) returns (r: U32)
    ensures r == Accepted(Number(v, Leading(v)) % WRAP)
    ensures 128 <= r <= 2048
  {
    hide Number, Leading, Wrapped;
    NumberParts(v, 0);
    assert v[0..] == v;
    if |v| == 0 {
      LeadingStop(v, 0);
      return 512;
    }
    var n: U32 := 0;
    var p := 0;
    while p < |v| && IsDigit(v[p])
      invariant 0 <= p <= |v| && p <= Leading(v) && Leading(v[p..]) == Leading(v) - p
      invariant forall i :: 0 <= i < p ==> IsDigit(v[i])
      invariant n == Number(v, p) % WRAP
    {
      LeadingNext(v, p);
      NumberParts(v, p);
      WrapStep(Number(v, p), Digit(v[p]));
      n := Wrapped(n * 10 + Digit(v[p]));
      p := p + 1;
    }
    LeadingStop(v, p);
    r := if n >= 128 && n <= 2048 then n else 512;
  }

  lemma NumberParts(v: string, p: nat)
    requires p <= |v| && forall i :: 0 <= i < p ==> IsDigit(v[i])
    ensures Number(v, 0) == 0
    ensures p < |v| && IsDigit(v[p]) ==> Number(v, p + 1) == Number(v, p) * 10 + Digit(v[p])
  {
  }

  lemma LeadingStop(v: string, p: nat)
    requires p <= |v| && (p < |v| ==> !IsDigit(v[p]))
    ensures Leading(v[p..]) == 0
  {
  }

  lemma LeadingNext(v: string, p: nat)
    requires p < |v| && IsDigit(v[p])
    ensures Leading(v[p..]) == 1 + Leading(v[p + 1..])
  {
    assert v[p..][1..] == v[p + 1..];
  }

  lemma WrapStep(n: nat, d: int)
    requires 0 <= d <= 9
    ensures Wrapped(n % WRAP * 10 + d) == (n * 10 + d) % WRAP
  {
    var q := n / WRAP;
    assert n == WRAP * q + n % WRAP;
    assert n * 10 + d == (n % WRAP * 10 + d) + WRAP * (q * 10);
    ModDrop(n % WRAP * 10 + d, q * 10);
  }

  lemma {:induction false} ModDrop(x: nat, k: nat)
    ensures (x + WRAP * k) % WRAP == x % WRAP
  {
    if k > 0 {
      ModDrop(x, k - 1);
      assert x + WRAP * k == x + WRAP * (k - 1) + WRAP;
    }
  }

  /** What is read is what the digits say exactly when they stay below the word size, or what
      is left of them is out of the accepted range like themselves. */
  lemma TrimPropExact(n: nat)
    ensures Accepted(n % WRAP) == Accepted(n) <==> n < WRAP || Accepted(n % WRAP) == 512
  {
  }

  /** The reading wraps: a ten-digit number can pass for a small one. */
  lemma TrimPropWraps()
    ensures Number("4294967696", 10) == 4294967696 && Accepted(4294967696 % WRAP) == 400
  {
  }

  // ---- the multipliers ----

  datatype Trims = Trims(r: int, b: int, rWarm: int, bWarm: int)

  const NEUTRAL := Trims(512, 512, 512, 512)

  predicate ValidTrims(t: Trims) {
    128 <= t.r <= 2048 && 128 <= t.b <= 2048 && 128 <= t.rWarm <= 2048 && 128 <= t.bWarm <= 2048
  }

  /** How warm the light is, in 256ths. */
  function Warmth(bg: int): (t: int)
    ensures 0 <= t <= 256
  {
    if bg <= B_COOL then 0 else if bg >= B_WARM then 256 else (bg - B_COOL) * 256 / (B_WARM - B_COOL)
  }

  /** The blend of two anchors, in 256ths. */
  function Blended(cool: int, warm: int, t: int): int {
    cool * (256 - t) + warm * t
  }

  function Multiplier(cool: int, warm: int, bg: int): int {
    Blended(cool, warm, Warmth(bg)) / 256
  }

  lemma WarmthMonotone(a: int, b: int)
    requires a <= b
    ensures Warmth(a) <= Warmth(b)
  {
  }

  lemma BlendedBetween(cool: int, warm: int, t: int)
    requires 0 <= t <= 256
    ensures cool <= warm ==> cool * 256 <= Blended(cool, warm, t) <= warm * 256
    ensures cool >= warm ==> warm * 256 <= Blended(cool, warm, t) <= cool * 256
    ensures Blended(cool, warm, 0) == cool * 256 && Blended(cool, warm, 256) == warm * 256
  {
    BlendedMonotone(cool, warm, 0, t);
    BlendedMonotone(cool, warm, t, 256);
  }

  lemma BlendedMonotone(cool: int, warm: int, s: int, t: int)
    requires s <= t
    ensures cool <= warm ==> Blended(cool, warm, s) <= Blended(cool, warm, t)
    ensures cool >= warm ==> Blended(cool, warm, s) >= Blended(cool, warm, t)
  {
    var d, e := warm - cool, t - s;
    assert Blended(cool, warm, t) - Blended(cool, warm, s) == d * e;
    assert d >= 0 ==> d * e >= 0;
    assert d <= 0 ==> (-d) * e >= 0;
  }

  /** A multiplier lies between its two anchors, is the cool one up to B_COOL and the warm
      one from B_WARM on. */
  lemma MultiplierBetween(cool: int, warm: int, bg: int)
    ensures if cool <= warm then cool <= Multiplier(cool, warm, bg) <= warm else warm <= Multiplier(cool, warm, bg) <= cool
    ensures bg <= B_COOL ==> Multiplier(cool, warm, bg) == cool
    ensures bg >= B_WARM ==> Multiplier(cool, warm, bg) == warm
  {
    hide Blended;
    BlendedBetween(cool, warm, Warmth(bg));
  }

  /** It moves from the cool to the warm anchor and never back as B grows. */
  lemma MultiplierMonotone(cool: int, warm: int, a: int, b: int)
    requires a <= b
    ensures cool <= warm ==> Multiplier(cool, warm, a) <= Multiplier(cool, warm, b)
    ensures cool >= warm ==> Multiplier(cool, warm, a) >= Multiplier(cool, warm, b)
  {
    hide Blended, Warmth;
    WarmthMonotone(a, b);
    BlendedMonotone(cool, warm, Warmth(a), Warmth(b));
  }

  function GainR(t: Trims, r: int, b: int): int {
    Times(r, Multiplier(t.r, t.rWarm, b)) / 512
  }

  function GainB(t: Trims, b: int): int {
    Times(b, Multiplier(t.b, t.bWarm, b)) / 512
  }

  /** With every anchor at 512 the gains stay as they are. */
  lemma NeutralGains(r: int, b: int)
    ensures GainR(NEUTRAL, r, b) == r && GainB(NEUTRAL, b) == b
  {
    MultiplierBetween(512, 512, b);
  }

  // ---- what a gain is scaled to ----

  /** The gain g scaled between its cool and its warm anchor at the blue gain b, with all the
      roundings down: t 256ths of the way, times m, in 512ths. */
  ghost predicate ScaledBy(g': int, g: int, cool: int, warm: int, b: int, m: int, t: int) {
    && (b <= 640 ==> t == 0) && (b >= 835 ==> t == 256)
    && (640 < b < 835 ==> 195 * t <= 256 * (b - 640) < 195 * t + 195)
    && 256 * m <= Times(cool, 256 - t) + Times(warm, t) < 256 * m + 256
    && 512 * g' <= Times(g, m) < 512 * g' + 512
  }

  ghost predicate Scales(g': int, g: int, cool: int, warm: int, b: int) {
    exists m, t :: ScaledBy(g', g, cool, warm, b, m, t)
  }

  lemma BlendedIs(cool: int, warm: int, t: int)
    ensures Blended(cool, warm, t) == Times(cool, 256 - t) + Times(warm, t)
  {
  }

  lemma GainsScale(t: Trims, r: int, b: int)
    ensures Scales(GainR(t, r, b), r, t.r, t.rWarm, b)
    ensures Scales(GainB(t, b), b, t.b, t.bWarm, b)
  {
    hide Times, Blended, Warmth;
    WarmthIs(b);
    BlendedIs(t.r, t.rWarm, Warmth(b));
    BlendedIs(t.b, t.bWarm, Warmth(b));
    assert ScaledBy(GainR(t, r, b), r, t.r, t.rWarm, b, Multiplier(t.r, t.rWarm, b), Warmth(b));
    assert ScaledBy(GainB(t, b), b, t.b, t.bWarm, b, Multiplier(t.b, t.bWarm, b), Warmth(b));
  }

  lemma WarmthIs(b: int)
    ensures b <= 640 ==> Warmth(b) == 0
    ensures b >= 835 ==> Warmth(b) == 256
    ensures 640 < b < 835 ==> 195 * Warmth(b) <= 256 * (b - 640) < 195 * Warmth(b) + 195
  {
  }

  /** At and below 640 only the cool anchor counts, from 835 on only the warm one, and between
      them the scaled gain lies between the two products. */
  lemma ScalesBetween(g': int, g: int, cool: int, warm: int, b: int)
    requires Scales(g', g, cool, warm, b) && g >= 0
    ensures b <= 640 ==> g' == Times(g, cool) / 512
    ensures b >= 835 ==> g' == Times(g, warm) / 512
    ensures cool <= warm ==> Times(g, cool) / 512 <= g' <= Times(g, warm) / 512
    ensures warm <= cool ==> Times(g, warm) / 512 <= g' <= Times(g, cool) / 512
  {
    hide Times;
    var m, t :| ScaledBy(g', g, cool, warm, b, m, t);
    BlendEnds(cool, warm, t);
    if cool <= warm {
      ScaledOrder(g, cool, m);
      ScaledOrder(g, m, warm);
    } else {
      ScaledOrder(g, warm, m);
      ScaledOrder(g, m, cool);
    }
  }

  lemma BlendEnds(cool: int, warm: int, t: int)
    ensures t == 0 ==> Times(cool, 256 - t) + Times(warm, t) == 256 * cool
    ensures t == 256 ==> Times(cool, 256 - t) + Times(warm, t) == 256 * warm
    ensures 0 <= t <= 256 && cool <= warm ==> 256 * cool <= Times(cool, 256 - t) + Times(warm, t) <= 256 * warm
    ensures 0 <= t <= 256 && warm <= cool ==> 256 * warm <= Times(cool, 256 - t) + Times(warm, t) <= 256 * cool
  {
    hide Blended;
    BlendedIs(cool, warm, t);
    BlendedIs(cool, warm, 0);
    BlendedIs(cool, warm, 256);
    if 0 <= t <= 256 {
      BlendedBetween(cool, warm, t);
    }
    BlendedBetween(cool, warm, 0);
    BlendedBetween(cool, warm, 256);
  }

  lemma ScaledOrder(g: int, m: int, n: int)
    requires g >= 0 && m <= n
    ensures Times(g, m) <= Times(g, n)
  {
    assert g * (n - m) >= 0;
    assert g * n == g * m + g * (n - m);
  }

  /** Warmer light moves the multiplier towards the warm anchor and never back: a gain that is
      no smaller scales to no less where the warm anchor is the larger one, and the same gain to
      no more where it is the smaller one. */
  lemma ScalesMonotone(g1': int, g2': int, g1: int, g2: int, cool: int, warm: int, b1: int, b2: int)
    requires Scales(g1', g1, cool, warm, b1) && Scales(g2', g2, cool, warm, b2) && 0 <= g1 <= g2 && b1 <= b2
    requires 0 <= cool && 0 <= warm
    ensures cool <= warm ==> g1' <= g2'
    ensures cool >= warm && g1 == g2 ==> g1' >= g2'
  {
    hide Times, Blended;
    var m1, t1 :| ScaledBy(g1', g1, cool, warm, b1, m1, t1);
    var m2, t2 :| ScaledBy(g2', g2, cool, warm, b2, m2, t2);
    assert 0 <= t1 <= t2 <= 256;
    BlendedIs(cool, warm, t1);
    BlendedIs(cool, warm, t2);
    BlendedMonotone(cool, warm, t1, t2);
    if cool <= warm {
      BlendedBetween(cool, warm, t1);
      TimesMonotone(g1, m1, g2, m2);
    } else {
      ScaledOrder(g1, m2, m1);
    }
    if cool == warm && g1 == g2 {
      ScaledOrder(g1, m2, m1);
    }
  }

  /** So the anchors and the blue gain determine what a gain is scaled to. */
  lemma ScalesUnique(x: int, y: int, g: int, cool: int, warm: int, b: int)
    requires Scales(x, g, cool, warm, b) && Scales(y, g, cool, warm, b) && g >= 0 && 0 <= cool && 0 <= warm
    ensures x == y
  {
    hide Scales;
    ScalesMonotone(x, y, g, g, cool, warm, b, b);
    ScalesMonotone(y, x, g, g, cool, warm, b, b);
  }

  lemma PairScales(t: Trims, r: nat, b: nat)
    ensures Scales(GainR(t, r, b), r, t.r, t.rWarm, b) && Scales(GainB(t, b), b, t.b, t.bWarm, b)
    ensures b <= 640 ==> GainR(t, r, b) == Times(r, t.r) / 512 && GainB(t, b) == Times(b, t.b) / 512
    ensures b >= 835 ==> GainR(t, r, b) == Times(r, t.rWarm) / 512 && GainB(t, b) == Times(b, t.bWarm) / 512
  {
    hide GainR, GainB, Scales, Times;
    GainsScale(t, r, b);
    ScalesBetween(GainR(t, r, b), r, t.r, t.rWarm, b);
    ScalesBetween(GainB(t, b), b, t.b, t.bWarm, b);
  }

  /** The scaling as the source computes it, in 32-bit words: nothing wraps. */
  method ScaledPair(t: Trims, r: U32, b: U32) returns (r': U32, b': U32)
    requires ValidTrims(t) && InRange(r) && InRange(b)
    ensures r' == GainR(t, r, b) && b' == GainB(t, b)
    ensures Scales(r', r, t.r, t.rWarm, b) && Scales(b', b, t.b, t.bWarm, b)
    ensures b <= 640 ==> r' == Times(r, t.r) / 512 && b' == Times(b, t.b) / 512
    ensures b >= 835 ==> r' == Times(r, t.rWarm) / 512 && b' == Times(b, t.bWarm) / 512
  {
    hide Times, Blended, Warmth, Wrapped, Scales;
    PairScales(t, r, b);
    var t256 := WarmthOf(b);
    var tr := Interpolated(t.r, t.rWarm, t256);
    var tb := Interpolated(t.b, t.bWarm, t256);
    ProductBound(r, tr);
    ProductBound(b, tb);
    NoWrap(Times(r, tr));
    NoWrap(Times(b, tb));
    r' := Wrapped(Times(r, tr)) / 512;
    b' := Wrapped(Times(b, tb)) / 512;
  }

  method WarmthOf(b: U32) returns (t256: U32)
    requires InRange(b)
    ensures t256 == Warmth(b) && t256 <= 256
  {
    hide Wrapped;
    if b <= B_COOL {
      t256 := 0;
    } else if b >= B_WARM {
      t256 := 256;
    } else {
      NoWrap(b - B_COOL);
      NoWrap((b - B_COOL) * 256);
      t256 := Wrapped(Wrapped(b - B_COOL) * 256) / (B_WARM - B_COOL);
    }
  }

  lemma NoWrap(x: int)
    requires 0 <= x < WRAP
    ensures Wrapped(x) == x
  {
  }

  lemma ProductBound(x: int, m: int)
    requires 0 <= x <= 1400 && 0 <= m <= 2048
    ensures 0 <= Times(x, m) <= 1400 * 2048
  {
    TimesMonotone(0, 0, x, m);
    TimesMonotone(x, m, 1400, 2048);
  }

  method Interpolated(cool: U32, warm: U32, t: U32) returns (m: U32)
    requires cool <= 2048 && warm <= 2048 && t <= 256
    ensures m == Blended(cool, warm, t) / 256 && m <= 2048
  {
    hide Times, Wrapped, Blended;
    var p, q := Times(cool, 256 - t), Times(warm, t);
    AnchorBound(cool, 256 - t);
    AnchorBound(warm, t);
    TimesIs(cool, warm, t);
    NoWrap(p);
    NoWrap(q);
    NoWrap(p + q);
    m := Wrapped(Wrapped(p) + Wrapped(q)) / 256;
  }

  lemma AnchorBound(x: int, t: int)
    requires 0 <= x <= 2048 && 0 <= t <= 256
    ensures 0 <= Times(x, t) <= 2048 * t
  {
    TimesMonotone(0, 0, x, t);
    TimesMonotone(x, t, 2048, t);
  }

  lemma TimesIs(cool: int, warm: int, t: int)
    ensures Times(cool, 256 - t) + Times(warm, t) == Blended(cool, warm, t)
  {
  }

  // ---- the scan ----

  predicate InRange(x: int) {
    300 <= x <= 1400
  }

  /** The output words, and what was last written where. */
  datatype Words = Words(o: seq<int>, lastR: seq<int>, lastB: seq<int>)

  predicate ValidWords(s: Words) {
    |s.o| == |s.lastR| == |s.lastB| == WORDS
  }

  /** Two gains around a green gain of one. */
  predicate IsTriple(o: seq<int>, i: nat)
    requires i + 2 < |o|
  {
    o[i + 1] == 512 && InRange(o[i]) && InRange(o[i + 2])
  }

  predicate OwnValue(s: Words, i: nat)
    requires ValidWords(s) && i + 2 < WORDS
  {
    s.o[i] == s.lastR[i] && s.o[i + 2] == s.lastB[i]
  }

  function Rescaled(s: Words, t: Trims, i: nat): (s': Words)
    requires ValidWords(s) && i + 2 < WORDS
    ensures ValidWords(s')
  {
    var r, b := GainR(t, s.o[i], s.o[i + 2]), GainB(t, s.o[i + 2]);
    Words(s.o[i := r][i + 2 := b], s.lastR[i := r], s.lastB[i := b])
  }

  /** The scan from word i on. */
  function Scan(s: Words, t: Trims, i: nat): (s': Words)
    requires ValidWords(s)
    ensures ValidWords(s')
    decreases WORDS + 2 - i
  {
    if i + 2 >= WORDS then s
    else if !IsTriple(s.o, i) then Scan(s, t, i + 1)
    else if OwnValue(s, i) then Scan(s, t, i + 3)
    else Scan(Rescaled(s, t, i), t, i + 3)
  }

  /** No gain that this scan writes leaves the range or turns into the 512 that marks the
      middle of a triple. */
  predicate StaysPut(s: Words, t: Trims, i: nat)
    requires ValidWords(s)
    decreases WORDS + 2 - i
  {
    if i + 2 >= WORDS then true
    else if !IsTriple(s.o, i) then StaysPut(s, t, i + 1)
    else if OwnValue(s, i) then StaysPut(s, t, i + 3)
    else
      var r, b := GainR(t, s.o[i], s.o[i + 2]), GainB(t, s.o[i + 2]);
      InRange(r) && InRange(b) && r != 512 && b != 512 && StaysPut(Rescaled(s, t, i), t, i + 3)
  }

  lemma ScanStep(s: Words, t: Trims, i: nat)
    requires ValidWords(s) && i + 2 < WORDS
    ensures Scan(s, t, i) ==
            if !IsTriple(s.o, i) then Scan(s, t, i + 1)
            else Scan(if OwnValue(s, i) then s else Rescaled(s, t, i), t, i + 3)
  {
    hide Rescaled;
  }

  lemma ScanEnd(s: Words, t: Trims, i: nat)
    requires ValidWords(s) && i + 2 >= WORDS
    ensures Scan(s, t, i) == s
  {
  }

  lemma RescaledAt(s: Words, t: Trims, i: nat)
    requires ValidWords(s) && i + 2 < WORDS
    ensures var s' := Rescaled(s, t, i);
            && s'.o[i] == s'.lastR[i] == GainR(t, s.o[i], s.o[i + 2])
            && s'.o[i + 2] == s'.lastB[i] == GainB(t, s.o[i + 2])
            && (forall k :: 0 <= k < WORDS && k != i ==>
                  && (k != i + 2 ==> s'.o[k] == s.o[k]) && s'.lastR[k] == s.lastR[k] && s'.lastB[k] == s.lastB[k])
  {
    hide GainR, GainB;
  }

  lemma {:induction false} ScanKeepsBefore(s: Words, t: Trims, i: nat)
    requires ValidWords(s)
    ensures var s' := Scan(s, t, i);
            forall k :: 0 <= k < i && k < WORDS ==> s'.o[k] == s.o[k] && s'.lastR[k] == s.lastR[k] && s'.lastB[k] == s.lastB[k]
    decreases WORDS + 2 - i
  {
    hide GainR, GainB, Scan, Rescaled;
    if i + 2 >= WORDS {
      ScanEnd(s, t, i);
    } else {
      ScanStep(s, t, i);
      RescaledAt(s, t, i);
      if !IsTriple(s.o, i) {
        ScanKeepsBefore(s, t, i + 1);
      } else if OwnValue(s, i) {
        ScanKeepsBefore(s, t, i + 3);
      } else {
        ScanKeepsBefore(Rescaled(s, t, i), t, i + 3);
      }
    }
  }

  /** Of the next two words, one that the scan changed was a gain and is none that marks the
      middle of a triple. */
  lemma NextWords(s: Words, t: Trims, i: nat)
    requires ValidWords(s) && StaysPut(s, t, i)
    ensures i < WORDS ==> WordKept(s.o[i], Scan(s, t, i).o[i])
    ensures i + 1 < WORDS ==> WordKept(s.o[i + 1], Scan(s, t, i).o[i + 1])
  {
    hide GainR, GainB, Scan, Rescaled;
    if i + 2 >= WORDS {
      ScanEnd(s, t, i);
    } else {
      ScanStep(s, t, i);
      RescaledAt(s, t, i);
      if !IsTriple(s.o, i) {
        ScanKeepsBefore(s, t, i + 1);
        FirstWord(s, t, i + 1);
      } else if OwnValue(s, i) {
        ScanKeepsBefore(s, t, i + 3);
      } else {
        ScanKeepsBefore(Rescaled(s, t, i), t, i + 3);
      }
    }
  }

  predicate WordKept(before: int, after: int) {
    after == before || (InRange(before) && after != 512)
  }

  lemma FirstWord(s: Words, t: Trims, i: nat)
    requires ValidWords(s) && StaysPut(s, t, i)
    ensures i < WORDS ==> WordKept(s.o[i], Scan(s, t, i).o[i])
  {
    hide GainR, GainB, Scan, Rescaled;
    if i + 2 >= WORDS {
      ScanEnd(s, t, i);
    } else {
      ScanStep(s, t, i);
      RescaledAt(s, t, i);
      if !IsTriple(s.o, i) {
        ScanKeepsBefore(s, t, i + 1);
      } else if OwnValue(s, i) {
        ScanKeepsBefore(s, t, i + 3);
      } else {
        ScanKeepsBefore(Rescaled(s, t, i), t, i + 3);
      }
    }
  }

  /** A second scan visits the same positions and, whatever its trims, changes nothing. */
  lemma {:induction false} SecondScan(s: Words, t: Trims, t': Trims, i: nat)
    requires ValidWords(s) && StaysPut(s, t, i)
    ensures Scan(Scan(s, t, i), t', i) == Scan(s, t, i)
    decreases WORDS + 2 - i
  {
    hide GainR, GainB, Scan, Rescaled;
    if i + 2 >= WORDS {
      ScanEnd(s, t, i);
      ScanEnd(s, t', i);
    } else {
      ScanStep(s, t, i);
      RescaledAt(s, t, i);
      var s' := Scan(s, t, i);
      ScanStep(s', t', i);
      if !IsTriple(s.o, i) {
        SecondScan(s, t, t', i + 1);
        ScanKeepsBefore(s, t, i + 1);
        NextWords(s, t, i + 1);
        assert !IsTriple(s'.o, i);
      } else if OwnValue(s, i) {
        SecondScan(s, t, t', i + 3);
        ScanKeepsBefore(s, t, i + 3);
        assert IsTriple(s'.o, i) && OwnValue(s', i);
      } else {
        SecondScan(Rescaled(s, t, i), t, t', i + 3);
        ScanKeepsBefore(Rescaled(s, t, i), t, i + 3);
        assert IsTriple(s'.o, i) && OwnValue(s', i);
      }
    }
  }

  // ---- what a scan does to the words ----

  /** Three neighbouring words: a gain of one between two gains in the scan's range. */
  predicate Gains(o: seq<int>, i: nat)
    requires i + 2 < |o|
  {
    300 <= o[i] <= 1400 && o[i + 1] == 512 && 300 <= o[i + 2] <= 1400
  }

  /** Whether a scan from word i stops at gains in word k: it goes on by one word after a miss
      and by three after a hit. */
  predicate Visits(o: seq<int>, i: nat, k: nat)
    decreases |o| - i
  {
    i + 2 < |o| && if Gains(o, i) then k == i || Visits(o, i + 3, k) else Visits(o, i + 1, k)
  }

  lemma {:induction false} VisitsInside(o: seq<int>, i: nat, k: nat)
    requires Visits(o, i, k)
    ensures i <= k && k + 2 < |o| && Gains(o, k)
    decreases |o| - i
  {
    if !Gains(o, i) {
      VisitsInside(o, i + 1, k);
    } else if k != i {
      VisitsInside(o, i + 3, k);
    }
  }

  /** What a scan will visit depends on the words ahead only. */
  lemma {:induction false} VisitsAhead(o: seq<int>, o': seq<int>, i: nat, k: nat)
    requires |o| == |o'| && forall x :: i <= x < |o| ==> o[x] == o'[x]
    ensures Visits(o, i, k) <==> Visits(o', i, k)
    decreases |o| - i
  {
    if i + 2 < |o| {
      VisitsAhead(o, o', if Gains(o, i) then i + 3 else i + 1, k);
    }
  }

  /** A visited pair that is not what was written last is scaled, red between the red anchors
      and blue between the blue ones, and remembered; one that is stays. */
  ghost predicate PairDone(s: Words, s': Words, t: Trims, k: nat)
    requires ValidWords(s) && ValidWords(s') && k + 2 < WORDS
  {
    if s.o[k] == s.lastR[k] && s.o[k + 2] == s.lastB[k]
    then s'.o[k] == s.o[k] && s'.o[k + 2] == s.o[k + 2] && s'.lastR[k] == s.lastR[k] && s'.lastB[k] == s.lastB[k]
    else
      && Scales(s'.o[k], s.o[k], t.r, t.rWarm, s.o[k + 2])
      && Scales(s'.o[k + 2], s.o[k + 2], t.b, t.bWarm, s.o[k + 2])
      && s'.lastR[k] == s'.o[k] && s'.lastB[k] == s'.o[k + 2]
  }

  /** Every visited pair is done, every other word stays, and so does what was remembered at
      positions that were not visited. */
  ghost predicate Corrected(s: Words, s': Words, t: Trims, i: nat)
    requires ValidWords(s) && ValidWords(s')
  {
    forall k: nat :: i <= k < WORDS ==> WordDone(s, s', t, i, k)
  }

  ghost predicate WordDone(s: Words, s': Words, t: Trims, i: nat, k: nat)
    requires ValidWords(s) && ValidWords(s') && k < WORDS
  {
    && (Visits(s.o, i, k) ==> k + 2 < WORDS && PairDone(s, s', t, k))
    && (!Visits(s.o, i, k) ==> s'.lastR[k] == s.lastR[k] && s'.lastB[k] == s.lastB[k])
    && (!Visits(s.o, i, k) && !(k >= 2 && Visits(s.o, i, k - 2)) ==> s'.o[k] == s.o[k])
  }

  lemma {:induction false} ScanCorrects(s: Words, t: Trims, i: nat)
    requires ValidWords(s)
    ensures Corrected(s, Scan(s, t, i), t, i)
    decreases WORDS + 2 - i
  {
    hide GainR, GainB, Scan, Rescaled, Scales;
    var s' := Scan(s, t, i);
    if i + 2 >= WORDS {
      ScanEnd(s, t, i);
    } else {
      ScanStep(s, t, i);
      RescaledAt(s, t, i);
      var s1 := if IsTriple(s.o, i) && !OwnValue(s, i) then Rescaled(s, t, i) else s;
      var j := if IsTriple(s.o, i) then i + 3 else i + 1;
      ScanCorrects(s1, t, j);
      ScanKeepsBefore(s1, t, j);
      GainsScale(t, s.o[i], s.o[i + 2]);
      forall k: nat | i <= k < WORDS
        ensures WordDone(s, s', t, i, k)
      {
        WordCarried(s, s1, s', t, i, j, k);
      }
    }
  }

  /** One word of the induction: behind j the step has decided it, ahead the rest of the scan. */
  lemma WordCarried(s: Words, s1: Words, s': Words, t: Trims, i: nat, j: nat, k: nat)
    requires ValidWords(s) && ValidWords(s1) && ValidWords(s') && i <= k < WORDS && i + 2 < WORDS
    requires j == if IsTriple(s.o, i) then i + 3 else i + 1
    requires forall x :: j <= x < WORDS ==> s1.o[x] == s.o[x]
    requires forall x :: i < x < WORDS ==> s1.lastR[x] == s.lastR[x] && s1.lastB[x] == s.lastB[x]
    requires forall x :: 0 <= x < j && x < WORDS ==> s'.o[x] == s1.o[x] && s'.lastR[x] == s1.lastR[x] && s'.lastB[x] == s1.lastB[x]
    requires IsTriple(s.o, i) ==> PairDone(s, s1, t, i) && s1.o[i + 1] == s.o[i + 1]
    requires !IsTriple(s.o, i) ==> s1 == s
    requires Corrected(s1, s', t, j)
    ensures WordDone(s, s', t, i, k)
  {
    hide Scales;
    VisitsAhead(s.o, s1.o, j, k);
    if k >= 2 {
      VisitsAhead(s.o, s1.o, j, k - 2);
      if Visits(s.o, j, k - 2) {
        VisitsInside(s.o, j, k - 2);
      }
    }
    if Visits(s.o, j, k) {
      VisitsInside(s.o, j, k);
    }
    if k >= j {
      assert WordDone(s1, s', t, j, k);
    }
  }

  // ---- when a buffer is left alone ----

  /** Every triple that a scan visits still holds what was written last. */
  predicate Settled(s: Words, i: nat)
    requires ValidWords(s)
    decreases WORDS + 2 - i
  {
    i + 2 < WORDS ==> if IsTriple(s.o, i) then OwnValue(s, i) && Settled(s, i + 3) else Settled(s, i + 1)
  }

  /** Every triple that a scan visits still holds what was written last, or has gains that
      these trims map to themselves. */
  predicate SettledFor(s: Words, t: Trims, i: nat)
    requires ValidWords(s)
    decreases WORDS + 2 - i
  {
    i + 2 < WORDS ==>
      if IsTriple(s.o, i)
      then (OwnValue(s, i) || (GainR(t, s.o[i], s.o[i + 2]) == s.o[i] && GainB(t, s.o[i + 2]) == s.o[i + 2]))
           && SettledFor(s, t, i + 3)
      else SettledFor(s, t, i + 1)
  }

  lemma {:induction false} SettledScan(s: Words, t: Trims, i: nat)
    requires ValidWords(s) && Settled(s, i)
    ensures Scan(s, t, i) == s
    decreases WORDS + 2 - i
  {
    hide Rescaled;
    if i + 2 < WORDS {
      SettledScan(s, t, if IsTriple(s.o, i) then i + 3 else i + 1);
    }
  }

  /** Whether what lies ahead is settled does not depend on what lies behind. */
  lemma {:induction false} AheadOnly(s: Words, s': Words, t: Trims, i: nat)
    requires ValidWords(s) && ValidWords(s')
    requires forall k :: i <= k < WORDS ==> s'.o[k] == s.o[k] && s'.lastR[k] == s.lastR[k] && s'.lastB[k] == s.lastB[k]
    ensures SettledFor(s', t, i) <==> SettledFor(s, t, i)
    decreases WORDS + 2 - i
  {
    hide GainR, GainB;
    if i + 2 < WORDS {
      AheadOnly(s, s', t, if IsTriple(s.o, i) then i + 3 else i + 1);
    }
  }

  /** A scan leaves the words alone exactly when they are settled for its trims, and what it
      leaves is then settled for all. */
  lemma {:induction false} ScanUnchanged(s: Words, t: Trims, i: nat)
    requires ValidWords(s)
    ensures Scan(s, t, i).o == s.o <==> SettledFor(s, t, i)
    ensures SettledFor(s, t, i) ==> Settled(Scan(s, t, i), i)
    decreases WORDS + 2 - i
  {
    hide GainR, GainB, Scan, Rescaled;
    if i + 2 >= WORDS {
      ScanEnd(s, t, i);
    } else {
      ScanStep(s, t, i);
      RescaledAt(s, t, i);
      if !IsTriple(s.o, i) {
        ScanUnchanged(s, t, i + 1);
      } else if OwnValue(s, i) {
        ScanUnchanged(s, t, i + 3);
        ScanKeepsBefore(s, t, i + 3);
      } else {
        var s1 := Rescaled(s, t, i);
        ScanUnchanged(s1, t, i + 3);
        ScanKeepsBefore(s1, t, i + 3);
        AheadOnly(s, s1, t, i + 3);
        if s1.o[i] == s.o[i] && s1.o[i + 2] == s.o[i + 2] {
          assert s1.o == s.o;
        }
      }
    }
  }

  const HALVING := Trims(256, 256, 256, 256)

  lemma HalvedGain(r: int, b: int)
    requires InRange(r)
    ensures GainR(HALVING, r, b) != r
  {
    hide Times;
    MultiplierBetween(256, 256, b);
    HalfOf(r);
  }

  lemma HalfOf(r: int)
    ensures Times(r, 256) == 256 * r
  {
  }

  lemma {:induction false} SettledForHalving(s: Words, i: nat)
    requires ValidWords(s)
    ensures SettledFor(s, HALVING, i) <==> Settled(s, i)
    decreases WORDS + 2 - i
  {
    hide GainR, GainB;
    if i + 2 < WORDS {
      if IsTriple(s.o, i) {
        HalvedGain(s.o[i], s.o[i + 2]);
        SettledForHalving(s, i + 3);
      } else {
        SettledForHalving(s, i + 1);
      }
    }
  }

  /** A buffer is left alone by a scan with any trims that the properties can give exactly when
      it is settled. */
  lemma SettledExactly(s: Words)
    requires ValidWords(s)
    ensures (forall t :: ValidTrims(t) ==> Scan(s, t, 0).o == s.o) <==> Settled(s, 0)
  {
    hide Scan, Settled, SettledFor;
    ScanUnchanged(s, HALVING, 0);
    SettledForHalving(s, 0);
    assert ValidTrims(HALVING);
    if Settled(s, 0) {
      forall t
        ensures Scan(s, t, 0).o == s.o
      {
        SettledScan(s, t, 0);
      }
    }
  }

  /** A scan whose gains stay in range and apart from 512 settles the buffer. */
  lemma {:induction false} StayingSettles(s: Words, t: Trims)
    requires ValidWords(s) && StaysPut(s, t, 0)
    ensures Settled(Scan(s, t, 0), 0)
  {
    hide Scan, Settled, SettledFor, StaysPut;
    var s' := Scan(s, t, 0);
    SecondScan(s, t, HALVING, 0);
    ScanUnchanged(s', HALVING, 0);
    SettledForHalving(s', 0);
  }

  // ---- whole calls ----

  /** The property strings, as they are at one call. */
  datatype Props = Props(r: string, b: string, rWarm: string, bWarm: string)

  function Read(v: string): int {
    Accepted(Number(v, Leading(v)) % WRAP)
  }

  function TrimsOf(p: Props): (t: Trims)
    ensures ValidTrims(t)
  {
    Trims(Read(p.r), Read(p.b), Read(p.rWarm), Read(p.bWarm))
  }

  /** The anchor that a property string gives: its leading decimal digits in 32 bits, if that is
      within 128..2048, and 512 otherwise. */
  predicate Gives(v: string, x: int) {
    var n := Number(v, Leading(v)) % 0x1_0000_0000;
    if 128 <= n <= 2048 then x == n else x == 512
  }

  /** Each of the four properties feeds its own anchor. */
  predicate AnchorsRead(t: Trims, p: Props) {
    Gives(p.r, t.r) && Gives(p.b, t.b) && Gives(p.rWarm, t.rWarm) && Gives(p.bWarm, t.bWarm)
  }

  lemma AnchorsAre(p: Props)
    ensures AnchorsRead(TrimsOf(p), p)
  {
    hide Number, Leading;
  }

  /** What survives between calls, and the words of the output buffer. */
  datatype Memory = Memory(trims: Trims, calls: int, words: Words)

  /** One call on a buffer that the library left as it was. */
  function Call(m: Memory, p: Props): (m': Memory)
    requires ValidWords(m.words)
    ensures ValidWords(m'.words)
  {
    var t := CurrentTrims(m, p);
    Memory(t, (m.calls + 1) % WRAP, if t == NEUTRAL then m.words else Scan(m.words, t, 0))
  }

  /** The trims are read again every 64 calls. */
  function CurrentTrims(m: Memory, p: Props): Trims {
    if m.calls % 64 == 0 then TrimsOf(p) else m.trims
  }

  function Calls(m: Memory, ps: seq<Props>): (m': Memory)
    requires ValidWords(m.words)
    ensures ValidWords(m'.words)
    decreases |ps|
  {
    if ps == [] then m else Calls(Call(m, ps[0]), ps[1..])
  }

  /** The state in which no further call changes a word: settled, where the next trims can be
      anything the properties give, and settled for the current trims, where these are still in
      force for the next call. */
  predicate LeftAlone(m: Memory)
    requires ValidWords(m.words)
  {
    if m.calls % 64 == 0 || m.trims == NEUTRAL then Settled(m.words, 0) else SettledFor(m.words, m.trims, 0)
  }

  /** Any number of further calls on the same buffer, whatever the properties become, leave all
      its words alone exactly when the state says so. */
  lemma LeftAloneExactly(m: Memory)
    requires ValidWords(m.words)
    ensures (forall ps :: Calls(m, ps).words.o == m.words.o) <==> LeftAlone(m)
  {
    hide Scan, Settled, SettledFor, TrimsOf;
    if LeftAlone(m) {
      forall ps
        ensures Calls(m, ps).words.o == m.words.o
      {
        LeftAloneCalls(m, ps);
      }
    } else {
      var ps := DisturbingCalls(m);
    }
  }

  lemma LeftAloneCalls(m: Memory, ps: seq<Props>)
    requires ValidWords(m.words) && LeftAlone(m)
    ensures Calls(m, ps).words.o == m.words.o
  {
    hide Scan, Settled, SettledFor, TrimsOf;
    if ps != [] {
      if m.calls % 64 == 0 || m.trims == NEUTRAL {
        SettledCalls(m, ps);
      } else {
        ScanUnchanged(m.words, m.trims, 0);
        SettledCalls(Call(m, ps[0]), ps[1..]);
      }
    }
  }

  /** A settled buffer stays as it is, memory included. */
  lemma {:induction false} SettledCalls(m: Memory, ps: seq<Props>)
    requires ValidWords(m.words) && Settled(m.words, 0)
    ensures Calls(m, ps).words == m.words
    decreases |ps|
  {
    hide Scan, Settled, TrimsOf;
    if ps != [] {
      SettledScan(m.words, CurrentTrims(m, ps[0]), 0);
      SettledCalls(Call(m, ps[0]), ps[1..]);
    }
  }

  const HALVING_PROPS := Props("256", "256", "256", "256")

  lemma HalvingRead()
    ensures TrimsOf(HALVING_PROPS) == HALVING
  {
    assert Leading("256"[3..]) == 0;
    assert "256"[1..] == "56" && "56"[1..] == "6" && "6"[1..] == "";
    assert Leading("") == 0 && Leading("6") == 1 && Leading("56") == 2 && Leading("256") == 3;
    assert Number("256", 1) == 2;
    assert Number("256", 2) == 25;
    assert Number("256", 3) == 256;
  }

  /** Calls that change a word of any buffer that is not left alone. */
  lemma DisturbingCalls(m: Memory) returns (ps: seq<Props>)
    requires ValidWords(m.words) && !LeftAlone(m)
    ensures Calls(m, ps).words.o != m.words.o
  {
    hide Scan, Settled, SettledFor, TrimsOf;
    if m.calls % 64 != 0 && m.trims != NEUTRAL {
      ps := [HALVING_PROPS];
      ScanUnchanged(m.words, m.trims, 0);
      assert Calls(Call(m, ps[0]), ps[1..]) == Call(m, ps[0]);
    } else {
      ps := NextRefresh(m, 64 - m.calls % 64);
    }
  }

  /** Neutral trims change nothing until the properties are read again. */
  lemma {:induction false} NextRefresh(m: Memory, d: nat) returns (ps: seq<Props>)
    requires ValidWords(m.words) && !Settled(m.words, 0)
    requires (m.calls + d) % 64 == 0 && (m.calls % 64 == 0 || m.trims == NEUTRAL)
    ensures Calls(m, ps).words.o != m.words.o
    decreases d
  {
    hide Scan, Settled, SettledFor, TrimsOf;
    if m.calls % 64 == 0 {
      HalvingRead();
      ps := [HALVING_PROPS];
      ScanUnchanged(m.words, HALVING, 0);
      SettledForHalving(m.words, 0);
      assert Calls(Call(m, ps[0]), ps[1..]) == Call(m, ps[0]);
    } else {
      var m1 := Call(m, HALVING_PROPS);
      NextCallNumber(m.calls, d);
      var rest := NextRefresh(m1, d - 1);
      ps := [HALVING_PROPS] + rest;
      assert ps[1..] == rest;
    }
  }

  lemma NextCallNumber(calls: int, d: nat)
    requires (calls + d) % 64 == 0 && calls % 64 != 0
    ensures d > 0 && ((calls + 1) % WRAP + (d - 1)) % 64 == 0
  {
    var q := (calls + 1) / WRAP;
    assert calls + 1 == WRAP * q + (calls + 1) % WRAP;
    assert WRAP * q == 64 * (0x400_0000 * q);
    var k := (calls + d) / 64;
    assert (calls + 1) % WRAP + (d - 1) == 64 * (k - 0x400_0000 * q);
  }

  /** The correction does not compound: after a call that corrected, and whose gains stayed in
      range and apart from 512, further calls on the same buffer leave words and memory alone. */
  lemma NoCompounding(m: Memory, p: Props, ps: seq<Props>)
    requires ValidWords(m.words)
    requires CurrentTrims(m, p) != NEUTRAL && StaysPut(m.words, CurrentTrims(m, p), 0)
    ensures Calls(Call(m, p), ps).words == Call(m, p).words
  {
    hide Scan, StaysPut, Settled, TrimsOf;
    StayingSettles(m.words, CurrentTrims(m, p));
    SettledCalls(Call(m, p), ps);
  }

  // ---- three buffers that are not left alone ----

  function Padded(head: seq<int>): (o: seq<int>)
    requires |head| <= WORDS
    ensures |o| == WORDS
  {
    head + seq(WORDS - |head|, _ => 0)
  }

  function Fresh(head: seq<int>): (s: Words)
    requires |head| <= WORDS
    ensures ValidWords(s)
  {
    Words(Padded(head), seq(WORDS, _ => 0), seq(WORDS, _ => 0))
  }

  const DEFAULTS := Trims(390, 532, 431, 412)

  lemma {:induction false} QuietTail(s: Words, t: Trims, i: nat)
    requires ValidWords(s) && forall k :: i <= k < WORDS ==> s.o[k] == 0
    ensures Scan(s, t, i) == s
    decreases WORDS + 2 - i
  {
    if i + 2 < WORDS {
      QuietTail(s, t, i + 1);
    }
  }

  /** A scan that meets one triple first and then only zeros. */
  lemma ScanOnce(s: Words, t: Trims, i: nat)
    requires ValidWords(s) && i + 2 < WORDS && IsTriple(s.o, i) && !OwnValue(s, i)
    requires forall k :: i + 3 <= k < WORDS ==> s.o[k] == 0
    ensures Scan(s, t, i) == Rescaled(s, t, i)
  {
    hide Scan, GainR, GainB, Rescaled;
    ScanStep(s, t, i);
    RescaledAt(s, t, i);
    QuietTail(Rescaled(s, t, i), t, i + 3);
  }

  lemma SampleGains()
    ensures GainR(DEFAULTS, 400, 600) == 304 && GainB(DEFAULTS, 600) == 623
    ensures GainR(DEFAULTS, 300, 600) == 228
    ensures GainR(DEFAULTS, 623, 700) == 489
    ensures GainR(DEFAULTS, 673, 600) == 512
    ensures GainR(DEFAULTS, 400, 512) == 304
  {
    hide Blended, Warmth, Multiplier;
    MultiplierBetween(390, 431, 600);
    MultiplierBetween(390, 431, 512);
    MultiplierBetween(532, 412, 600);
    WarmMultiplier();
  }

  lemma WarmMultiplier()
    ensures Multiplier(390, 431, 700) == 402
  {
    assert Warmth(700) == 78;
  }

  /** A call with neutral trims remembers nothing, so the next trims apply once more. */
  lemma NeutralFirstCallForgets()
    ensures Scan(Fresh([400, 512, 600]), DEFAULTS, 0).o[0] == 304
    ensures forall p :: Call(Memory(NEUTRAL, 63, Fresh([400, 512, 600])), p).words == Fresh([400, 512, 600])
  {
    hide Scan, GainR, GainB, Rescaled;
    var s := Fresh([400, 512, 600]);
    SampleGains();
    ScanOnce(s, DEFAULTS, 0);
    RescaledAt(s, DEFAULTS, 0);
  }

  /** A gain scaled out of the range moves the second scan to another triple. */
  lemma OutOfRangeCompounds()
    ensures var once := Scan(Fresh([300, 512, 600, 512, 700]), DEFAULTS, 0);
            once.o[2] == 623 && Scan(once, DEFAULTS, 0).o[2] == 489
  {
    hide Scan, GainR, GainB, Rescaled;
    var s := Fresh([300, 512, 600, 512, 700]);
    var s1 := Rescaled(s, DEFAULTS, 0);
    SampleGains();
    RescaledAt(s, DEFAULTS, 0);
    ScanStep(s, DEFAULTS, 0);
    ScanStep(s1, DEFAULTS, 3);
    ScanStep(s1, DEFAULTS, 4);
    QuietTail(s1, DEFAULTS, 5);
    ScanStep(s1, DEFAULTS, 0);
    ScanStep(s1, DEFAULTS, 1);
    ScanOnce(s1, DEFAULTS, 2);
    RescaledAt(s1, DEFAULTS, 2);
  }

  /** A gain that becomes 512 poses as the middle of a triple. */
  lemma Becoming512Compounds()
    ensures var once := Scan(Fresh([400, 673, 512, 600]), DEFAULTS, 0);
            once.o[0] == 400 && Scan(once, DEFAULTS, 0).o[0] == 304
  {
    hide Scan, GainR, GainB, Rescaled;
    var s := Fresh([400, 673, 512, 600]);
    var s1 := Rescaled(s, DEFAULTS, 1);
    SampleGains();
    RescaledAt(s, DEFAULTS, 1);
    ScanStep(s, DEFAULTS, 0);
    ScanOnce(s, DEFAULTS, 1);
    ScanStep(s1, DEFAULTS, 0);
    RescaledAt(s1, DEFAULTS, 0);
    ScanKeepsBefore(Rescaled(s1, DEFAULTS, 0), DEFAULTS, 3);
  }

  // ---- the call as it runs ----

  class AwbHook {
    var trims: Trims
    var calls: int
    const lastR: array<U32>
    const lastB: array<U32>

    ghost predicate Valid()
      reads this
    {
      && lastR.Length == lastB.Length == WORDS && lastR != lastB
      && ValidTrims(trims) && 0 <= calls < WRAP
    }

    ghost function MemoryWith(o: array<U32>): (m: Memory)
      requires o.Length == WORDS && lastR.Length == lastB.Length == WORDS
      reads this, lastR, lastB, o
      ensures ValidWords(m.words)
    {
      Memory(trims, calls, Words(o[..], lastR[..], lastB[..]))
    }

    constructor ()
      ensures Valid() && trims == NEUTRAL && calls == 0 && fresh(lastR) && fresh(lastB)
    {
      trims := NEUTRAL;
      calls := 0;
      lastR := new U32[WORDS](_ => 0);
      lastB := new U32[WORDS](_ => 0);
    }

    /** o holds the words as the wrapped library call left them; rc is what it returned, or
        nothing when the library function could not be found. */
    method HandleAwb(o: array?<U32>, found: bool, rc: int, p: Props) returns (r: int)
      requires Valid() && (o != null ==> o.Length == WORDS && o != lastR && o != lastB)
      modifies this, lastR, lastB, o
      ensures Valid() && r == if found then rc else -1
      ensures !found ==> unchanged(this) && unchanged(lastR) && unchanged(lastB) && (o != null ==> unchanged(o))
      ensures found && o != null ==> MemoryWith(o) == Call(old(MemoryWith(o)), p)
      ensures found ==> calls == if old(calls) == 0xffff_ffff then 0 else old(calls) + 1
      ensures found ==> if old(calls) % 64 == 0 then AnchorsRead(trims, p) else trims == old(trims)
      ensures found && o != null ==>
                if trims == Trims(512, 512, 512, 512) then unchanged(o) && unchanged(lastR) && unchanged(lastB)
                else Corrected(old(MemoryWith(o).words), MemoryWith(o).words, trims, 0)
      ensures found && o == null ==> unchanged(lastR) && unchanged(lastB)
    {
      hide Scan, TrimsOf, ValidTrims, AnchorsRead, Corrected;
      if !found {
        return -1;
      }
      r := rc;
      var refresh := calls % 64 == 0;
      calls := Wrapped(calls + 1);
      if refresh {
        trims := ReadTrims(p);
        AnchorsAre(p);
      }
      if o != null && trims != NEUTRAL {
        ghost var s := MemoryWith(o).words;
        ScanWords(o);
        ScanCorrects(s, trims, 0);
      }
    }

    method ReadTrims(p: Props) returns (t: Trims)
      ensures t == TrimsOf(p)
    {
      hide Number, Leading;
      var r := TrimProp(p.r);
      var b := TrimProp(p.b);
      var rWarm := TrimProp(p.rWarm);
      var bWarm := TrimProp(p.bWarm);
      t := Trims(r, b, rWarm, bWarm);
    }

    method ScanWords(o: array<U32>)
      requires Valid() && o.Length == WORDS && o != lastR && o != lastB
      modifies lastR, lastB, o
      ensures Words(o[..], lastR[..], lastB[..]) == Scan(old(Words(o[..], lastR[..], lastB[..])), trims, 0)
    {
      hide GainR, GainB, Scan, Rescaled;
      ghost var s := Words(o[..], lastR[..], lastB[..]);
      var i := 0;
      while i + 2 < WORDS
        invariant 0 <= i <= WORDS + 2
        invariant Scan(Words(o[..], lastR[..], lastB[..]), trims, i) == Scan(s, trims, 0)
        modifies lastR, lastB, o
      {
        ScanStep(Words(o[..], lastR[..], lastB[..]), trims, i);
        if o[i + 1] != 512 || !InRange(o[i]) || !InRange(o[i + 2]) {
          i := i + 1;
        } else if o[i] == lastR[i] && o[i + 2] == lastB[i] {
          i := i + 3;
        } else {
          RescaleAt(o, i);
          i := i + 3;
        }
      }
      ScanEnd(Words(o[..], lastR[..], lastB[..]), trims, i);
    }

    method RescaleAt(o: array<U32>, i: nat)
      requires Valid() && o.Length == WORDS && o != lastR && o != lastB && i + 2 < WORDS
      requires InRange(o[i]) && InRange(o[i + 2])
      modifies lastR, lastB, o
      ensures Words(o[..], lastR[..], lastB[..]) == Rescaled(old(Words(o[..], lastR[..], lastB[..])), trims, i)
    {
      hide GainR, GainB;
      var r, b := ScaledPair(trims, o[i], o[i + 2]);
      o[i] := r;
      o[i + 2] := b;
      lastR[i] := o[i];
      lastB[i] := o[i + 2];
    }
  }
}
