/** The window with which mdf.c fades from one filter's output to the other's. */
module CrossFading {
  import opened Complex
  import opened HalfComplex

  /** The old foreground's output faded into the new one's. */
  function Mixed(e: seq<real>, y: seq<real>, window: seq<real>, fs: nat): (r: seq<real>)
    ensures |r| == fs
  {
    seq(fs, i => MixedAt(e, y, window, fs, i))
  }

  function MixedAt(e: seq<real>, y: seq<real>, window: seq<real>, fs: nat, i: int): real {
    SMul(RealAt(window, i + fs), RealAt(e, i)) + SMul(RealAt(window, i), RealAt(y, i))
  }

  lemma MixedSample(e: seq<real>, y: seq<real>, window: seq<real>, fs: nat, i: nat)
    requires |e| == |y| == fs && |window| == 2 * fs && i < fs
    ensures MixedAt(e, y, window, fs, i) == SMul(window[i + fs], e[i]) + SMul(window[i], y[i])
  {
    hide SMul;
  }

  /** What is needed of the cosine of the cross-fade window, of an argument in turns. */
  ghost predicate IsCosineOfTurns(cosine: real -> real) {
    && cosine(0.0) == 1.0 && (forall x :: -1.0 <= cosine(x) <= 1.0)
    && forall x, y :: y == x + 0.5 ==> cosine(y) == -cosine(x)
  }

  /** The window rises from zero; its halves add up to one. */
  ghost predicate Fades(window: seq<real>, fs: nat) {
    && |window| == 2 * fs && (fs > 0 ==> window[0] == 0.0)
    && forall i :: 0 <= i < fs ==> 0.0 <= window[i] <= 1.0 && RealAt(window, i) + RealAt(window, i + fs) == 1.0
  }

  lemma HalfATurn(i: int, fs: nat)
    requires fs > 0
    ensures (i + fs) as real / (2 * fs) as real == i as real / (2 * fs) as real + 0.5
  {
    var n := (2 * fs) as real;
    assert (i + fs) as real == i as real + 0.5 * n;
    HalfQuotient(i as real, n);
  }

  lemma HalfQuotient(a: real, n: real)
    requires n > 0.0
    ensures (a + 0.5 * n) / n == a / n + 0.5
  {
    var q := a / n;
    assert q * n == a;
    assert (q + 0.5) * n == a + 0.5 * n;
    QuotientIs(a + 0.5 * n, n, q + 0.5);
  }

  lemma QuotientIs(a: real, n: real, q: real)
    requires n > 0.0 && q * n == a
    ensures a / n == q
  {
  }

  /** The window of the constructor. */
  method FadeWindow(fs: nat, cosine: real -> real) returns (window: array<real>)
    requires fs > 0 && IsCosineOfTurns(cosine)
    ensures fresh(window) && Fades(window[..], fs)
  {
    hide FadeValue, IsCosineOfTurns;
    window := new real[2 * fs](_ => 0.0);
    for i := 0 to 2 * fs
      invariant forall k :: 0 <= k < i ==> window[k] == FadeValue(k, fs, cosine)
    {
      window[i] := FadeValue(i, fs, cosine);
    }
    forall i | 0 <= i < fs
      ensures 0.0 <= window[i] <= 1.0 && RealAt(window[..], i) + RealAt(window[..], i + fs) == 1.0
    {
      FadePair(i, fs, cosine);
    }
    FadePair(0, fs, cosine);
  }

  function FadeValue(i: int, fs: nat, cosine: real -> real): real
    requires fs > 0
  {
    0.5 - 0.5 * cosine(i as real / (2 * fs) as real)
  }

  lemma FadePair(i: nat, fs: nat, cosine: real -> real)
    requires fs > 0 && IsCosineOfTurns(cosine)
    ensures 0.0 <= FadeValue(i, fs, cosine) <= 1.0
    ensures FadeValue(i, fs, cosine) + FadeValue(i + fs, fs, cosine) == 1.0
    ensures i == 0 ==> FadeValue(i, fs, cosine) == 0.0
  {
    HalfATurn(i, fs);
  }

  /** The cross-fade starts from the old output and moves towards the new one by the window,
      never outside the two. */
  lemma MixedFades(e: seq<real>, y: seq<real>, window: seq<real>, fs: nat, i: nat)
    requires |e| == |y| == fs && Fades(window, fs) && i < fs
    ensures Mixed(e, y, window, fs)[i] == e[i] + SMul(window[i], y[i] - e[i])
    ensures Mixed(e, y, window, fs)[0] == e[0]
    ensures e[i] <= y[i] ==> e[i] <= Mixed(e, y, window, fs)[i] <= y[i]
    ensures y[i] <= e[i] ==> y[i] <= Mixed(e, y, window, fs)[i] <= e[i]
  {
    hide SMul;
    MixedSample(e, y, window, fs, i);
    MixedSample(e, y, window, fs, 0);
    assert RealAt(window, i) == window[i] && RealAt(window, i + fs) == window[i + fs];
    assert RealAt(window, 0) == window[0] && RealAt(window, 0 + fs) == window[fs];
    FadeAt(e[i], y[i], window[i + fs], window[i]);
    FadeAt(e[0], y[0], window[fs], window[0]);
    SMulZero(y[0] - e[0]);
  }

  lemma FadeAt(e: real, y: real, u: real, v: real)
    requires u + v == 1.0 && 0.0 <= v <= 1.0
    ensures SMul(u, e) + SMul(v, y) == e + SMul(v, y - e)
    ensures e <= y ==> 0.0 <= SMul(v, y - e) <= y - e
    ensures y <= e ==> y - e <= SMul(v, y - e) <= 0.0
  {
    var d := y - e;
    assert u * e + v * y == e + v * d;
    assert (1.0 - v) * d == d - v * d;
    if e <= y {
      SharesOf(v, d);
      SharesOf(1.0 - v, d);
    } else {
      SharesOf(v, -d);
      SharesOf(1.0 - v, -d);
    }
  }

  lemma SharesOf(v: real, d: real)
    requires 0.0 <= v && 0.0 <= d
    ensures 0.0 <= v * d
    ensures v * -d == -(v * d)
  {
  }

  method CrossFade(e: seq<real>, y: seq<real>, window: seq<real>, fs: nat) returns (out: array<real>)
    requires |e| == |y| == fs && |window| == 2 * fs
    ensures fresh(out) && out.Length == fs && out[..] == Mixed(e, y, window, fs)
  {
    hide SMul, MixedAt;
    out := new real[fs](_ => 0.0);
    for i := 0 to fs
      invariant forall k :: 0 <= k < i ==> out[k] == MixedAt(e, y, window, fs, k)
    {
      MixedSample(e, y, window, fs, i);
      out[i] := SMul(window[i + fs], e[i]) + SMul(window[i], y[i]);
    }
  }
}
