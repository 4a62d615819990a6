/** Flat real buffers seen as blocks of equal length, the way mdf.c lays out partitions,
    speakers and microphones one after the other. */
module Blocks {
  import opened Arith
  import opened HalfComplex

  /** Block b of length n. */
  function Blk(f: seq<real>, b: int, n: nat): (r: seq<real>)
    ensures |r| == n
  {
    seq(n, i => RealAt(f, b * n + i))
  }

  /** Only block `to` differs. */
  ghost predicate OnlyBlock(before: seq<real>, after: seq<real>, to: int, n: nat) {
    && |after| == |before|
    && forall b :: b != to ==> Blk(after, b, n) == Blk(before, b, n)
  }

  lemma Apart(b: int, c: int, n: nat)
    requires b != c
    ensures b * n + n <= c * n || c * n + n <= b * n
  {
    if b < c {
      BlocksBetween(b, c, n);
    } else {
      BlocksBetween(c, b, n);
    }
  }

  lemma BlocksBetween(b: int, c: int, n: nat)
    requires b < c
    ensures b * n + n <= c * n
  {
    var d: nat := c - b - 1;
    assert d * n >= 0;
    assert c == b + 1 + d;
    assert (b + 1 + d) * n == b * n + n + d * n;
  }

  lemma OtherBlock(before: seq<real>, after: seq<real>, to: int, b: int, n: nat)
    requires |after| == |before| && b != to
    requires forall k :: 0 <= k < |after| && !(to * n <= k < to * n + n) ==> after[k] == before[k]
    ensures Blk(after, b, n) == Blk(before, b, n)
  {
    Apart(b, to, n);
    var base := b * n;
    BlkAt(after, b, n, base);
    BlkAt(before, b, n, base);
    forall i | 0 <= i < n
      ensures Blk(after, b, n)[i] == Blk(before, b, n)[i]
    {
    }
  }

  lemma BlkAt(f: seq<real>, b: int, n: nat, base: int)
    requires base == b * n
    ensures forall i :: 0 <= i < n ==> Blk(f, b, n)[i] == RealAt(f, base + i)
    ensures 0 <= base && base + n <= |f| ==> Blk(f, b, n) == f[base..base + n]
  {
  }

  lemma OtherBlocks(before: seq<real>, after: seq<real>, to: int, n: nat)
    requires |after| == |before|
    requires forall k :: 0 <= k < |after| && !(to * n <= k < to * n + n) ==> after[k] == before[k]
    ensures OnlyBlock(before, after, to, n)
  {
    hide Blk;
    forall b | b != to
      ensures Blk(after, b, n) == Blk(before, b, n)
    {
      OtherBlock(before, after, to, b, n);
    }
  }

  /** Room for block b among count blocks. */
  lemma Room(b: nat, count: nat, n: nat, length: nat)
    requires b < count && length == count * n
    ensures 0 <= b * n && b * n + n <= length
  {
    assert count * n == b * n + n + (count - 1 - b) * n;
    assert (count - 1 - b) * n >= 0 && b * n >= 0;
  }

  /** Putting a block in place. */
  method Store(a: array<real>, to: nat, values: seq<real>, count: nat)
    requires to < count && a.Length == count * |values|
    modifies a
    ensures Blk(a[..], to, |values|) == values
    ensures OnlyBlock(old(a[..]), a[..], to, |values|)
  {
    hide Blk, OnlyBlock;
    var n := |values|;
    Room(to, count, n, a.Length);
    var base := to * n;
    ghost var before := a[..];
    StoreAt(a, base, values);
    BlkAt(a[..], to, n, base);
    OtherBlocks(before, a[..], to, n);
  }

  method StoreAt(a: array<real>, base: nat, values: seq<real>)
    requires base + |values| <= a.Length
    modifies a
    ensures a[base..base + |values|] == values
    ensures forall k :: 0 <= k < a.Length && !(base <= k < base + |values|) ==> a[k] == old(a[k])
  {
    for i := 0 to |values|
      invariant forall k :: 0 <= k < i ==> a[base + k] == values[k]
      invariant forall k :: 0 <= k < a.Length && !(base <= k < base + |values|) ==> a[k] == old(a[k])
    {
      a[base + i] := values[i];
    }
  }

  /** A block's contents, where the source passes a pointer into the buffer. */
  method Load(a: array<real>, from: nat, n: nat, count: nat) returns (values: seq<real>)
    requires from < count && a.Length == count * n
    ensures |values| == n && values == Blk(a[..], from, n)
  {
    hide Blk;
    Room(from, count, n, a.Length);
    var base := from * n;
    BlkAt(a[..], from, n, base);
    values := a[base..base + n];
  }

  /** One block copied over another of the same buffer. */
  method CopyBlock(a: array<real>, from: nat, to: nat, n: nat, count: nat)
    requires from != to && from < count && to < count && a.Length == count * n
    modifies a
    ensures Blk(a[..], to, n) == old(Blk(a[..], from, n))
    ensures OnlyBlock(old(a[..]), a[..], to, n)
  {
    hide Blk, OnlyBlock;
    var values := Load(a, from, n, count);
    Store(a, to, values, count);
  }

  // ---- partitions ----

  /** The weight block of microphone c, partition j and speaker s. */
  function Wx(m: nat, k: nat, c: int, j: int, s: int): int {
    (c * m + j) * k + s
  }

  lemma WxInjective(m: nat, k: nat, c: int, j: int, s: int, c': int, j': int, s': int)
    requires 0 <= j < m && 0 <= j' < m && 0 <= s < k && 0 <= s' < k
    requires Wx(m, k, c, j, s) == Wx(m, k, c', j', s')
    ensures c == c' && j == j' && s == s'
  {
    assert k * ((c * m + j) - (c' * m + j')) == s' - s;
    SmallMultiple(k, (c * m + j) - (c' * m + j'));
    assert m * (c - c') == j' - j;
    SmallMultiple(m, c - c');
  }

  lemma WxBounds(m: nat, k: nat, count: nat, c: int, j: int, s: int)
    requires 0 <= c < count && 0 <= j < m && 0 <= s < k
    ensures 0 <= Wx(m, k, c, j, s) < count * m * k
    ensures Wx(m, k, c, j, s) == c * m * k + (j * k + s)
    ensures 0 <= j * k + s < m * k
  {
    SubIndex(0, count, m, c, j);
    SubIndex(0, count * m, k, c * m + j, s);
    SubIndex(0, m, k, j, s);
    assert (c * m + j) * k == c * m * k + j * k;
  }

  /** Sweeping over all partitions, microphone by microphone and speaker by speaker: those
      of (chan, speak) still to be visited are lo..hi-1. Visited partitions hold their
      target, the others what they held in w0. */
  ghost predicate Swept(now: seq<real>, w0: seq<real>, count: nat, m: nat, k: nat, n: nat,
                        target: (int, int, int) -> seq<real>, chan: int, speak: int, lo: int, hi: int) {
    && |now| == |w0|
    && forall c, j, s :: 0 <= c < count && 0 <= j < m && 0 <= s < k ==>
         Blk(now, Wx(m, k, c, j, s), n) ==
         if Visited(c, j, s, chan, speak, lo, hi) then target(c, j, s) else Blk(w0, Wx(m, k, c, j, s), n)
  }

  ghost predicate Visited(c: int, j: int, s: int, chan: int, speak: int, lo: int, hi: int) {
    c < chan || (c == chan && (s < speak || (s == speak && !(lo <= j < hi))))
  }

  ghost predicate AllHold(now: seq<real>, count: nat, m: nat, k: nat, n: nat, target: (int, int, int) -> seq<real>) {
    forall c, j, s :: 0 <= c < count && 0 <= j < m && 0 <= s < k ==> Blk(now, Wx(m, k, c, j, s), n) == target(c, j, s)
  }

  lemma AllHoldAt(now: seq<real>, count: nat, m: nat, k: nat, n: nat, target: (int, int, int) -> seq<real>, c: int, j: int,
                  s: int)
    requires AllHold(now, count, m, k, n, target) && 0 <= c < count && 0 <= j < m && 0 <= s < k
    ensures Blk(now, Wx(m, k, c, j, s), n) == target(c, j, s)
  {
    hide Blk, Wx;
  }

  lemma SweptStart(w0: seq<real>, count: nat, m: nat, k: nat, n: nat, target: (int, int, int) -> seq<real>)
    ensures Swept(w0, w0, count, m, k, n, target, 0, 0, 0, m)
  {
    hide Blk, Wx;
  }

  lemma SweptNextSpeaker(now: seq<real>, w0: seq<real>, count: nat, m: nat, k: nat, n: nat,
                         target: (int, int, int) -> seq<real>, chan: int, speak: int, lo: int, hi: int)
    requires Swept(now, w0, count, m, k, n, target, chan, speak, lo, hi) && hi <= lo
    ensures Swept(now, w0, count, m, k, n, target, chan, speak + 1, 0, m)
  {
    hide Blk, Wx;
  }

  lemma SweptNextMic(now: seq<real>, w0: seq<real>, count: nat, m: nat, k: nat, n: nat,
                     target: (int, int, int) -> seq<real>, chan: int)
    requires Swept(now, w0, count, m, k, n, target, chan, k, 0, m)
    ensures Swept(now, w0, count, m, k, n, target, chan + 1, 0, 0, m)
  {
    hide Blk, Wx;
  }

  lemma SweptStep(now: seq<real>, next: seq<real>, w0: seq<real>, count: nat, m: nat, k: nat, n: nat,
                  target: (int, int, int) -> seq<real>, chan: int, speak: int, lo: int, hi: int, j: int, lo': int, hi': int)
    requires 0 <= chan < count && 0 <= speak < k && 0 <= lo < hi <= m
    requires (j == lo && lo' == lo + 1 && hi' == hi) || (j == hi - 1 && lo' == lo && hi' == hi - 1)
    requires Swept(now, w0, count, m, k, n, target, chan, speak, lo, hi)
    requires OnlyBlock(now, next, Wx(m, k, chan, j, speak), n)
    requires Blk(next, Wx(m, k, chan, j, speak), n) == target(chan, j, speak)
    ensures Swept(next, w0, count, m, k, n, target, chan, speak, lo', hi')
  {
    hide Blk, Wx;
    forall c, i, s | 0 <= c < count && 0 <= i < m && 0 <= s < k
      ensures Blk(next, Wx(m, k, c, i, s), n) ==
              if Visited(c, i, s, chan, speak, lo', hi') then target(c, i, s) else Blk(w0, Wx(m, k, c, i, s), n)
    {
      if Wx(m, k, c, i, s) == Wx(m, k, chan, j, speak) {
        WxInjective(m, k, c, i, s, chan, j, speak);
      }
    }
  }

  /** What is still to be visited is as it was. */
  lemma SweptPending(now: seq<real>, w0: seq<real>, count: nat, m: nat, k: nat, n: nat,
                     target: (int, int, int) -> seq<real>, chan: int, speak: int, lo: int, hi: int, j: int)
    requires Swept(now, w0, count, m, k, n, target, chan, speak, lo, hi)
    requires 0 <= chan < count && 0 <= speak < k && 0 <= lo <= j < hi <= m
    ensures Blk(now, Wx(m, k, chan, j, speak), n) == Blk(w0, Wx(m, k, chan, j, speak), n)
  {
    hide Blk, Wx;
  }

  lemma SweptEnd(now: seq<real>, w0: seq<real>, count: nat, m: nat, k: nat, n: nat,
                 target: (int, int, int) -> seq<real>)
    requires Swept(now, w0, count, m, k, n, target, count, 0, 0, m)
    ensures |now| == |w0| && AllHold(now, count, m, k, n, target)
  {
    hide Blk, Wx;
  }
}
