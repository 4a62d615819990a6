/** The minimum statistics of preprocess.c: the smoothed spectrum S, its minima over two
    consecutive windows, and the counters that end a window. */
module MinimumTracking {
  import opened Complex
  import opened HalfComplex
  import opened Convolution

  // ---- smoothing ----

  function EndSmoothed(s: real, p: real): real {
    SMul(0.8, s) + SMul(0.2, p)
  }

  /** One bin after smoothing. A spectrum of a single bin is smoothed twice, once as the
      first bin and once as the last. */
  function SmoothedAt(s: seq<real>, ps: seq<real>, i: int): real {
    if i == 0 && |s| == 1 then EndSmoothed(EndSmoothed(RealAt(s, 0), RealAt(ps, 0)), RealAt(ps, 0))
    else if i == 0 || i == |s| - 1 then EndSmoothed(RealAt(s, i), RealAt(ps, i))
    else SMul(0.8, RealAt(s, i)) + SMul(0.05, RealAt(ps, i - 1)) + SMul(0.1, RealAt(ps, i)) + SMul(0.05, RealAt(ps, i + 1))
  }

  function Smoothed(s: seq<real>, ps: seq<real>): (r: seq<real>)
    ensures |r| == |s|
  {
    seq(|s|, i => SmoothedAt(s, ps, i))
  }

  /** Smoothing is an average: bounds on both spectra are kept, so a power spectrum stays
      nonnegative. */
  lemma SmoothedBetween(s: seq<real>, ps: seq<real>, lo: real, hi: real, i: int)
    requires |s| == |ps| && 0 <= i < |s|
    requires forall k :: 0 <= k < |s| ==> lo <= s[k] <= hi && lo <= ps[k] <= hi
    ensures lo <= SmoothedAt(s, ps, i) <= hi
  {
  }

  predicate Flat(ps: seq<real>, p: real) {
    forall i :: 0 <= i < |ps| ==> ps[i] == p
  }

  /** Every bin has come a fifth of the way to p; a single bin two such steps. */
  predicate Approaches(before: seq<real>, after: seq<real>, p: real) {
    && |before| == |after|
    && forall i :: 0 <= i < |before| ==> after[i] - p == (if |before| == 1 then 0.64 else 0.8) * (before[i] - p)
  }

  /** Under flat power every bin decays towards it at the same rate. */
  lemma FlatDecay(s: seq<real>, ps: seq<real>, p: real)
    requires |s| == |ps| && Flat(ps, p)
    ensures Approaches(s, Smoothed(s, ps), p)
  {
  }

  lemma DecayAll(s: seq<real>, ps: seq<real>)
    requires |s| == |ps|
    ensures forall p :: Flat(ps, p) ==> Approaches(s, Smoothed(s, ps), p)
  {
    hide Flat, Approaches, Smoothed;
    forall p | Flat(ps, p)
      ensures Approaches(s, Smoothed(s, ps), p)
    {
      FlatDecay(s, ps, p);
    }
  }

  /** How much of a bin's power counts where: a fifth at the two ends, nothing of a neighbour's;
      a tenth inside, and half of that from either neighbour. A single bin counts 0.36. */
  function Share(n: nat, i: int, j: int): real {
    if n == 1 then (if i == j then 0.36 else 0.0)
    else if i == 0 || i == n - 1 then (if i == j then 0.2 else 0.0)
    else if i == j then 0.1 else if i == j - 1 || i == j + 1 then 0.05 else 0.0
  }

  /** Raising the power of one bin raises the smoothed bins by their shares of it. */
  lemma RaisedPower(s: seq<real>, ps: seq<real>, j: nat, d: real, i: nat)
    requires |s| == |ps| && j < |s| && i < |s|
    ensures Smoothed(s, ps[j := ps[j] + d])[i] - Smoothed(s, ps)[i] == Share(|s|, i, j) * d
  {
  }

  // ---- minima of columns ----

  function Min(a: real, b: real): real {
    if a < b then a else b
  }

  /** The least value of bin i in the spectra from..upto-1. */
  function MinOver(h: seq<seq<real>>, from: nat, upto: nat, i: int): (m: real)
    requires from < upto <= |h|
    ensures forall t :: from <= t < upto ==> m <= RealAt(h[t], i)
    ensures (exists t :: from <= t < upto && m == RealAt(h[t], i))
    decreases upto
  {
    if from + 1 == upto then
      assert RealAt(h[from], i) == RealAt(h[upto - 1], i);
      RealAt(h[from], i)
    else Min(MinOver(h, from, upto - 1, i), RealAt(h[upto - 1], i))
  }

  lemma {:induction false} MinOverExtends(h: seq<seq<real>>, s: seq<real>, from: nat, upto: nat, i: int)
    requires from < upto <= |h|
    ensures MinOver(h + [s], from, upto, i) == MinOver(h, from, upto, i)
    decreases upto
  {
    if from + 1 != upto {
      MinOverExtends(h, s, from, upto - 1, i);
    }
  }

  lemma MinOverNext(h: seq<seq<real>>, s: seq<real>, from: nat, i: int)
    requires from < |h|
    ensures MinOver(h + [s], from, |h| + 1, i) == Min(MinOver(h, from, |h|, i), RealAt(s, i))
  {
    MinOverExtends(h, s, from, |h|, i);
  }

  lemma MinOverSmaller(h: seq<seq<real>>, from: nat, later: nat, upto: nat, i: int)
    requires from <= later < upto <= |h|
    ensures MinOver(h, from, upto, i) <= MinOver(h, later, upto, i)
  {
    var t :| later <= t < upto && MinOver(h, later, upto, i) == RealAt(h[t], i);
  }

  // ---- the counters ----

  function MinRange(nbAdapt: int): (r: int)
    ensures 15 <= r <= 300
  {
    if nbAdapt < 100 then 15 else if nbAdapt < 1000 then 50 else if nbAdapt < 10000 then 150 else 300
  }

  function NextCount(nbAdapt: int): int {
    if nbAdapt + 1 > 20000 then 20000 else nbAdapt + 1
  }

  /** The longest run without a new window grows at 100, 1000 and 10000 frames and at no other
      point. */
  lemma Ranges(a: int, b: int)
    ensures a <= b ==> MinRange(a) <= MinRange(b)
    ensures MinRange(0) == 15 == MinRange(99) && MinRange(100) == 50 == MinRange(999)
    ensures MinRange(1000) == 150 == MinRange(9999) && MinRange(10000) == 300 == MinRange(20000)
  {
  }

  /** Every bin of m holds the least value of that bin since from. */
  ghost predicate Minima(m: seq<real>, h: seq<seq<real>>, from: nat, n: nat)
    requires from < |h|
  {
    |m| == n && forall i :: 0 <= i < n ==> m[i] == MinOver(h, from, |h|, i)
  }

  class NoiseTracker {
    const n: nat
    const S: array<real>
    const Smin: array<real>
    const Stmp: array<real>
    const updateProb: array<bool>
    var nbAdapt: int
    var minCount: int
    /** Every smoothed spectrum so far, after the zeros that the arrays started with. */
    ghost var history: seq<seq<real>>
    /** Where in the history the previous and the current window start. */
    ghost var previous: nat
    ghost var current: nat

    ghost predicate Shape() {
      && n > 0 && S.Length == Smin.Length == Stmp.Length == updateProb.Length == n
      && S != Smin && S != Stmp && Smin != Stmp
    }

    ghost predicate Counters()
      reads this
    {
      && previous <= current < |history|
      && |history| - current == minCount + 1
      && 0 <= minCount <= MinRange(nbAdapt) && 0 <= nbAdapt <= 20000
      && (current > 0 ==> 16 <= current - previous <= 301)
      && (previous > 0 || current > 0 ==> nbAdapt > 1)
      && (nbAdapt == 0 ==> |history| == 1)
    }

    /** Stmp is the minimum over the current window, Smin over the current and the previous
        one; the zeros at the start count in the first window. No window is longer than 301
        frames, and a completed one is no shorter than 16. */
    ghost predicate Valid()
      reads this, S, Smin, Stmp
    {
      && Shape() && Counters()
      && S[..] == history[|history| - 1]
      && history[0] == Zeros(n)
      && Minima(Stmp[..], history, current, n)
      && Minima(Smin[..], history, previous, n)
    }

    constructor (n: nat)
      requires n > 0
      ensures Valid() && this.n == n && history == [Zeros(n)] && nbAdapt == 0 && minCount == 0
      ensures fresh(S) && fresh(Smin) && fresh(Stmp) && fresh(updateProb)
    {
      this.n := n;
      S := new real[n](_ => 0.0);
      Smin := new real[n](_ => 0.0);
      Stmp := new real[n](_ => 0.0);
      updateProb := new bool[n](_ => true);
      nbAdapt := 0;
      minCount := 0;
      history := [Zeros(n)];
      previous := 0;
      current := 0;
      new;
      assert S[..] == Zeros(n);
    }

    method Smooth(ps: array<real>)
      requires Shape() && ps.Length == n && ps != S
      modifies S
      ensures S[..] == Smoothed(old(S[..]), ps[..])
      ensures forall p :: Flat(ps[..], p) ==> Approaches(old(S[..]), S[..], p)
    {
      hide SMul;
      ghost var s := S[..];
      var i := 1;
      while i < n - 1
        invariant 1 <= i && (n > 1 ==> i <= n - 1)
        invariant forall k :: 1 <= k < i && k < n - 1 ==> S[k] == SmoothedAt(s, ps[..], k)
        invariant forall k :: 0 <= k < n && !(1 <= k < i && k < n - 1) ==> S[k] == s[k]
        modifies S
      {
        S[i] := SMul(0.8, S[i]) + SMul(0.05, ps[i - 1]) + SMul(0.1, ps[i]) + SMul(0.05, ps[i + 1]);
        i := i + 1;
      }
      S[0] := SMul(0.8, S[0]) + SMul(0.2, ps[0]);
      S[n - 1] := SMul(0.8, S[n - 1]) + SMul(0.2, ps[n - 1]);
      assert S[..] == Smoothed(s, ps[..]);
      DecayAll(s, ps[..]);
    }

    /** The counters of speex_preprocess_run and then update_noise_prob. */
    method Update(ps: array<real>)
      requires Valid() && ps.Length == n && ps !in {S, Smin, Stmp}
      modifies this, S, Smin, Stmp, updateProb
      ensures Valid() && nbAdapt == NextCount(old(nbAdapt))
      ensures nbAdapt == if old(nbAdapt) < 20000 then old(nbAdapt) + 1 else 20000
      ensures history == old(history) + [Smoothed(old(S[..]), ps[..])]
      ensures S[..] == Smoothed(old(S[..]), ps[..])
      ensures forall p :: Flat(ps[..], p) ==> Approaches(old(S[..]), S[..], p)
      ensures if old(minCount) + 1 > MinRange(nbAdapt)
              then minCount == 0 && previous == old(current) && current == |old(history)|
              else minCount == old(minCount) + 1 && previous == old(previous) && current == old(current)
      ensures forall i :: 0 <= i < n ==> Smin[i] <= Stmp[i] <= S[i]
      ensures forall i :: 0 <= i < n ==> (updateProb[i] <==> SMul(0.4, S[i]) > Smin[i])
    {
      hide MinOver, SMul, Minima, Smoothed, Zeros, MinRange, NextCount, Flat, Approaches;
      CountFrame();
      ghost var h := history;
      Smooth(ps);
      ghost var s := S[..];
      if nbAdapt == 1 {
        ClearMinima(h);
      }
      UpdateMinima(h, s);
      history := h + [s];
      MinimaOrdered(Smin[..], Stmp[..], history, previous, current, n);
      MarkBins();
    }

    method CountFrame()
      requires 0 <= nbAdapt <= 20000
      modifies this`nbAdapt, this`minCount
      ensures nbAdapt == if old(nbAdapt) < 20000 then old(nbAdapt) + 1 else 20000
      ensures nbAdapt == NextCount(old(nbAdapt)) && minCount == old(minCount) + 1
      ensures MinRange(old(nbAdapt)) <= MinRange(nbAdapt)
      ensures 0 < nbAdapt <= 20000 && (nbAdapt == 1 <==> old(nbAdapt) == 0)
    {
      nbAdapt := nbAdapt + 1;
      if nbAdapt > 20000 {
        nbAdapt := 20000;
      }
      minCount := minCount + 1;
    }

    /** The end of a window, or one more frame of it. */
    method UpdateMinima(ghost h: seq<seq<real>>, ghost s: seq<real>)
      requires Shape() && previous <= current < |h| && S[..] == s
      requires Minima(Stmp[..], h, current, n) && Minima(Smin[..], h, previous, n)
      modifies this`minCount, this`previous, this`current, Smin, Stmp
      ensures if old(minCount) > MinRange(nbAdapt)
              then minCount == 0 && previous == old(current) && current == |h|
              else minCount == old(minCount) && previous == old(previous) && current == old(current)
      ensures Minima(Stmp[..], h + [s], current, n) && Minima(Smin[..], h + [s], previous, n)
    {
      hide Minima, Min;
      ghost var min0, tmp0 := Smin[..], Stmp[..];
      if minCount > MinRange(nbAdapt) {
        minCount := 0;
        StartWindow();
        previous := current;
        current := |h|;
        NextMinima(tmp0, Smin[..], h, s, previous, n);
        FreshMinima(Stmp[..], h, s, n);
      } else {
        LowerMinima();
        NextMinima(min0, Smin[..], h, s, previous, n);
        NextMinima(tmp0, Stmp[..], h, s, current, n);
      }
    }

    /** In the first call both minima are set to zero, which is what they are. */
    method ClearMinima(ghost h: seq<seq<real>>)
      requires Shape() && h == [Zeros(n)] && Minima(Stmp[..], h, 0, n) && Minima(Smin[..], h, 0, n)
      modifies Smin, Stmp
      ensures Smin[..] == old(Smin[..]) && Stmp[..] == old(Stmp[..])
    {
      for i := 0 to n
        invariant Smin[..] == old(Smin[..]) && Stmp[..] == old(Stmp[..])
        modifies Smin, Stmp
      {
        assert MinOver(h, 0, 1, i) == 0.0;
        Stmp[i] := 0.0;
        Smin[i] := 0.0;
      }
    }

    method StartWindow()
      requires Shape()
      modifies Smin, Stmp
      ensures forall i :: 0 <= i < n ==> Smin[i] == Min(old(Stmp[i]), S[i]) && Stmp[i] == S[i]
    {
      for i := 0 to n
        invariant forall k :: 0 <= k < i ==> Smin[k] == Min(old(Stmp[k]), S[k]) && Stmp[k] == S[k]
        invariant forall k :: i <= k < n ==> Stmp[k] == old(Stmp[k])
        modifies Smin, Stmp
      {
        Smin[i] := Min(Stmp[i], S[i]);
        Stmp[i] := S[i];
      }
    }

    method LowerMinima()
      requires Shape()
      modifies Smin, Stmp
      ensures forall i :: 0 <= i < n ==> Smin[i] == Min(old(Smin[i]), S[i]) && Stmp[i] == Min(old(Stmp[i]), S[i])
    {
      for i := 0 to n
        invariant forall k :: 0 <= k < i ==> Smin[k] == Min(old(Smin[k]), S[k]) && Stmp[k] == Min(old(Stmp[k]), S[k])
        invariant forall k :: i <= k < n ==> Smin[k] == old(Smin[k]) && Stmp[k] == old(Stmp[k])
        modifies Smin, Stmp
      {
        Smin[i] := Min(Smin[i], S[i]);
        Stmp[i] := Min(Stmp[i], S[i]);
      }
    }

    method MarkBins()
      requires Shape()
      modifies updateProb
      ensures forall i :: 0 <= i < n ==> (updateProb[i] <==> SMul(0.4, S[i]) > Smin[i])
    {
      hide SMul;
      for i := 0 to n
        invariant forall k :: 0 <= k < i ==> (updateProb[k] <==> SMul(0.4, S[k]) > Smin[k])
        modifies updateProb
      {
        updateProb[i] := SMul(0.4, S[i]) > Smin[i];
      }
    }
  }

  lemma NextMinima(m: seq<real>, next: seq<real>, h: seq<seq<real>>, s: seq<real>, from: nat, n: nat)
    requires from < |h| && |m| == |s| == |next| == n && Minima(m, h, from, n)
    requires forall i :: 0 <= i < n ==> next[i] == Min(m[i], s[i])
    ensures Minima(next, h + [s], from, n)
  {
    hide MinOver;
    forall i | 0 <= i < n
      ensures next[i] == MinOver(h + [s], from, |h| + 1, i)
    {
      MinOverNext(h, s, from, i);
    }
  }

  lemma FreshMinima(m: seq<real>, h: seq<seq<real>>, s: seq<real>, n: nat)
    requires |s| == |m| == n && forall i :: 0 <= i < n ==> m[i] == s[i]
    ensures Minima(m, h + [s], |h|, n)
  {
  }

  lemma MinimaOrdered(smin: seq<real>, stmp: seq<real>, h: seq<seq<real>>, previous: nat, current: nat, n: nat)
    requires previous <= current < |h| && Minima(smin, h, previous, n) && Minima(stmp, h, current, n)
    ensures forall i :: 0 <= i < n ==> smin[i] <= stmp[i] <= RealAt(h[|h| - 1], i)
  {
    forall i | 0 <= i < n
      ensures smin[i] <= stmp[i] <= RealAt(h[|h| - 1], i)
    {
      MinOverSmaller(h, previous, current, |h|, i);
    }
  }
}
