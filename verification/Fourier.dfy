/** The discrete Fourier sum and its decimation in time: the mathematics that one
    stage of the mixed-radix transform carries out. */
module Fourier {
  import opened Arith
  import opened Complex
  import opened Sums
  import opened RootsOfUnity

  /** Term j of bin k of the transform of x(o), x(o+s), x(o+2s), ... */
  function Term(w: int -> Cpx, x: int -> Cpx, s: int, o: int, k: int, j: int): Cpx {
    Mul(x(o + s * j), w(s * j * k))
  }

  /** Bin k of the transform of the l samples x(o), x(o+s), ..., x(o+s*(l-1)), where w
      has order s*l. */
  function NodeDft(w: int -> Cpx, x: int -> Cpx, s: int, o: int, l: nat, k: int): Cpx {
    Sum(l, j => Term(w, x, s, o, k, j))
  }

  /** The plain transform: bin k is the sum over j of x(j) * w(j*k). */
  function Dft(n: nat, w: int -> Cpx, x: int -> Cpx, k: int): Cpx {
    Sum(n, j => Mul(x(j), w(j * k)))
  }

  /** Only the first n samples matter. */
  lemma DftExt(n: nat, w: int -> Cpx, x: int -> Cpx, y: int -> Cpx, k: int)
    requires forall j :: 0 <= j < n ==> x(j) == y(j)
    ensures Dft(n, w, x, k) == Dft(n, w, y, k)
  {
    hide Mul, Sum;
    SumExt(n, j => Mul(x(j), w(j * k)), j => Mul(y(j), w(j * k)));
  }

  /** All bins of a node. */
  function NodeSeq(w: int -> Cpx, x: int -> Cpx, s: int, o: int, l: nat): (r: seq<Cpx>)
    ensures |r| == l
  {
    seq(l, k => NodeDft(w, x, s, o, l, k))
  }

  function At(a: seq<Cpx>, i: int): Cpx {
    if 0 <= i < |a| then a[i] else ZERO
  }

  /** What one butterfly stage makes of bin k: it combines bin k%m of each of the p
      children, which lie one after the other in blk. */
  function Combined(w: int -> Cpx, s: int, p: nat, m: nat, blk: seq<Cpx>, k: int): Cpx
    requires m > 0
  {
    Sum(p, q => Mul(At(blk, q * m + k % m), w(s * q * k)))
  }

  /** The node of length 1 is its only sample. */
  lemma NodeLeaf(n: nat, w: int -> Cpx, x: int -> Cpx, s: int, o: int)
    requires Root(n, w)
    ensures NodeSeq(w, x, s, o, 1) == [x(o)]
  {
    hide Mul, Add, Root, Sum;
    var f := j => Term(w, x, s, o, 0, j);
    assert NodeSeq(w, x, s, o, 1)[0] == NodeDft(w, x, s, o, 1, 0) == Sum(1, f);
    SumParts(1, f);
    SumParts(0, f);
    AddZero(f(0));
    RootZero(n, w);
    MulOne(x(o));
    assert o + s * 0 == o && s * 0 * 0 == 0;
  }

  /** The node of stride 1 and offset 0 is the plain transform. */
  lemma NodeRoot(n: nat, w: int -> Cpx, x: int -> Cpx, k: int)
    ensures NodeDft(w, x, 1, 0, n, k) == Dft(n, w, x, k)
  {
    hide Mul, Sum;
    SumExt(n, j => Term(w, x, 1, 0, k, j), j => Mul(x(j), w(j * k)));
  }

  /** Sample q + p*j of the parent contributes, up to the factor w(s*q*k), what sample
      j of child q contributes to bin k%m. */
  lemma ChildTerm(n: nat, w: int -> Cpx, x: int -> Cpx, s: nat, o: int, p: nat, m: nat, k: int, q: int, j: int)
    requires Root(n, w) && m > 0 && s * p * m == n
    ensures Term(w, x, s, o, k, q + p * j) == Mul(w(s * q * k), Term(w, x, s * p, o + s * q, k % m, j))
  {
    hide Mul, Root;
    var c := Term(w, x, s * p, o + s * q, k % m, j);
    assert o + s * (q + p * j) == o + s * q + s * p * j by {
      assert s * (p * j) == s * p * j;
    }
    TwiddleSplit(n, w, s, p, m, k, q, j);
    var y := x(o + s * q + s * p * j);
    MulComm(w(s * q * k), w(s * p * j * (k % m)));
    MulAssoc(y, w(s * p * j * (k % m)), w(s * q * k));
    MulComm(c, w(s * q * k));
  }

  lemma TwiddleSplit(n: nat, w: int -> Cpx, s: nat, p: nat, m: nat, k: int, q: int, j: int)
    requires Root(n, w) && m > 0 && s * p * m == n
    ensures w(s * (q + p * j) * k) == Mul(w(s * q * k), w(s * p * j * (k % m)))
  {
    hide Mul, Root;
    var u := k / m;
    RootAdd(n, w, s * q * k, s * p * j * k);
    ExponentSplit(n, s, p, m, k, q, j, u);
    RootPeriod(n, w, s * p * j * (k % m), j * u);
  }

  lemma ExponentSplit(n: int, s: int, p: int, m: int, k: int, q: int, j: int, u: int)
    requires m > 0 && s * p * m == n && u == k / m
    ensures s * (q + p * j) * k == s * q * k + s * p * j * k
    ensures s * p * j * k == s * p * j * (k % m) + n * (j * u)
  {
    var a := s * p;
    assert s * (q + p * j) == s * q + a * j by {
      assert s * (p * j) == a * j;
    }
    assert (s * q + a * j) * k == s * q * k + a * j * k;
    assert k == k % m + m * u;
    assert a * j * k == a * j * (k % m) + a * j * (m * u);
    assert a * j * (m * u) == (a * m) * (j * u);
  }

  /** Decimation in time, for one bin. */
  lemma NodeStep(n: nat, w: int -> Cpx, x: int -> Cpx, s: nat, o: int, p: nat, m: nat, k: int)
    requires Root(n, w) && m > 0 && s * p * m == n
    ensures NodeDft(w, x, s, o, p * m, k)
         == Sum(p, q => Mul(w(s * q * k), NodeDft(w, x, s * p, o + s * q, m, k % m)))
  {
    hide Mul, Sum, Root, Term;
    var f := j => Term(w, x, s, o, k, j);
    SumRadix(p, m, f);
    forall q | 0 <= q < p
      ensures StridedSum(p, m, f, q) == Mul(w(s * q * k), NodeDft(w, x, s * p, o + s * q, m, k % m))
    {
      var g := j => Term(w, x, s * p, o + s * q, k % m, j);
      forall j | 0 <= j < m
        ensures f(q + Times(p, j)) == Mul(w(s * q * k), g(j))
      {
        ChildTerm(n, w, x, s, o, p, m, k, q, j);
      }
      SumExt(m, j => f(q + Times(p, j)), j => Mul(w(s * q * k), g(j)));
      SumMul(m, w(s * q * k), g);
    }
    SumExt(p, q => StridedSum(p, m, f, q),
           q => Mul(w(s * q * k), NodeDft(w, x, s * p, o + s * q, m, k % m)));
  }

  /** Block i of the array contents f, cut into blocks of length l. */
  function Block(f: seq<Cpx>, i: int, l: nat): (r: seq<Cpx>)
    ensures |r| == l
  {
    seq(l, k => At(f, i * l + k))
  }

  /** One butterfly stage over a block of p sub-blocks of length m. */
  function Stage(w: int -> Cpx, s: int, p: nat, m: nat, blk: seq<Cpx>): (r: seq<Cpx>)
    requires m > 0
    ensures |r| == p * m
  {
    seq(p * m, k => Combined(w, s, p, m, blk, k))
  }

  /** Sub-block q of block b is block b*p + q of the finer cut. */
  lemma BlockOfBlock(f: seq<Cpx>, b: int, p: nat, m: nat, q: int)
    requires 0 <= q < p
    ensures Block(Block(f, b, p * m), q, m) == Block(f, b * p + q, m)
  {
    var coarse := Block(f, b, p * m);
    forall k | 0 <= k < m
      ensures Block(coarse, q, m)[k] == Block(f, b * p + q, m)[k]
    {
      SubIndex(b, p, m, q, k);
      assert coarse[q * m + k] == At(f, b * (p * m) + (q * m + k));
    }
  }

  /** A block whose p sub-blocks of length m hold the children of a node is turned by
      the butterfly into the node itself. */
  lemma StageCorrect(n: nat, w: int -> Cpx, x: int -> Cpx, s: nat, o: int, p: nat, m: nat, blk: seq<Cpx>)
    requires Root(n, w) && m > 0 && s * p * m == n
    requires forall q :: 0 <= q < p ==> Block(blk, q, m) == NodeSeq(w, x, s * p, o + s * q, m)
    ensures Stage(w, s, p, m, blk) == NodeSeq(w, x, s, o, p * m)
  {
    hide Mul, Root, Sum, NodeDft, Combined;
    forall k | 0 <= k < p * m
      ensures Combined(w, s, p, m, blk, k) == NodeDft(w, x, s, o, p * m, k)
    {
      StageBin(n, w, x, s, o, p, m, blk, k);
    }
  }

  lemma StageBin(n: nat, w: int -> Cpx, x: int -> Cpx, s: nat, o: int, p: nat, m: nat, blk: seq<Cpx>, k: int)
    requires Root(n, w) && m > 0 && s * p * m == n
    requires forall q :: 0 <= q < p ==> Block(blk, q, m) == NodeSeq(w, x, s * p, o + s * q, m)
    ensures Combined(w, s, p, m, blk, k) == NodeDft(w, x, s, o, p * m, k)
  {
    hide Mul, Sum, Root, NodeDft, At;
    NodeStep(n, w, x, s, o, p, m, k);
    var f := q => Mul(At(blk, q * m + k % m), w(s * q * k));
    var g := q => Mul(w(s * q * k), NodeDft(w, x, s * p, o + s * q, m, k % m));
    forall q | 0 <= q < p
      ensures f(q) == g(q)
    {
      assert Block(blk, q, m)[k % m] == At(blk, q * m + k % m);
      assert NodeSeq(w, x, s * p, o + s * q, m)[k % m] == NodeDft(w, x, s * p, o + s * q, m, k % m);
      MulComm(At(blk, q * m + k % m), w(s * q * k));
    }
    SumExt(p, f, g);
  }
}
