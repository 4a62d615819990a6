/** Finite sums of complex sequences given as functions of the index. */
module Sums {
  import opened Arith
  import opened Complex

  function Sum(n: nat, f: int -> Cpx): Cpx {
    if n == 0 then ZERO else Add(Sum(n - 1, f), f(n - 1))
  }

  /** One unfolding of Sum, for proofs that hide its definition. */
  lemma SumParts(n: nat, f: int -> Cpx)
    ensures n == 0 ==> Sum(n, f) == ZERO
    ensures n > 0 ==> Sum(n, f) == Add(Sum(n - 1, f), f(n - 1))
  {
  }

  lemma {:induction false} SumExt(n: nat, f: int -> Cpx, g: int -> Cpx)
    requires forall i :: 0 <= i < n ==> f(i) == g(i)
    ensures Sum(n, f) == Sum(n, g)
  {
    hide Add, Sum;
    SumParts(n, f);
    SumParts(n, g);
    if n > 0 {
      SumExt(n - 1, f, g);
    }
  }

  lemma {:induction false} SumZero(n: nat, f: int -> Cpx)
    requires forall i :: 0 <= i < n ==> f(i) == ZERO
    ensures Sum(n, f) == ZERO
  {
    if n > 0 {
      SumZero(n - 1, f);
    }
  }

  /** Only the term at index k survives. */
  lemma {:induction false} SumSingle(n: nat, k: nat, f: int -> Cpx)
    requires k < n
    requires forall i :: 0 <= i < n && i != k ==> f(i) == ZERO
    ensures Sum(n, f) == f(k)
  {
    if k == n - 1 {
      SumZero(n - 1, f);
    } else {
      SumSingle(n - 1, k, f);
    }
  }

  lemma {:induction false} SumAdd(n: nat, f: int -> Cpx, g: int -> Cpx)
    ensures Sum(n, i => Add(f(i), g(i))) == Add(Sum(n, f), Sum(n, g))
  {
    hide Add, Sum;
    SumParts(n, f);
    SumParts(n, g);
    SumParts(n, i => Add(f(i), g(i)));
    AddZero(ZERO);
    if n > 0 {
      SumAdd(n - 1, f, g);
      AddSwap(Sum(n - 1, f), Sum(n - 1, g), f(n - 1), g(n - 1));
    }
  }

  lemma {:induction false} SumMul(n: nat, c: Cpx, f: int -> Cpx)
    ensures Sum(n, i => Mul(c, f(i))) == Mul(c, Sum(n, f))
  {
    hide Add, Mul, Sum;
    SumParts(n, f);
    SumParts(n, i => Mul(c, f(i)));
    if n == 0 {
      MulOne(c);
    } else {
      SumMul(n - 1, c, f);
      MulAdd(c, Sum(n - 1, f), f(n - 1));
    }
  }

  lemma {:induction false} SumConj(n: nat, f: int -> Cpx)
    ensures Sum(n, i => Conj(f(i))) == Conj(Sum(n, f))
  {
    hide Add, Conj, Sum;
    SumParts(n, f);
    SumParts(n, i => Conj(f(i)));
    ConjReal(0.0);
    if n > 0 {
      SumConj(n - 1, f);
      ConjAdd(Sum(n - 1, f), f(n - 1));
    }
  }

  lemma {:induction false} SumConcat(a: nat, b: nat, f: int -> Cpx)
    ensures Sum(a + b, f) == Add(Sum(a, f), Sum(b, i => f(a + i)))
  {
    hide Add, Sum;
    var g := i => f(a + i);
    SumParts(b, g);
    SumParts(a + b, f);
    if b == 0 {
      AddZero(Sum(a, f));
    } else {
      SumConcat(a, b - 1, f);
      AddAssoc(Sum(a, f), Sum(b - 1, g), f(a + b - 1));
    }
  }

  /** f read backwards over the indices 0..n-1. */
  function Reversed(n: nat, f: int -> Cpx): int -> Cpx {
    i => f(n - 1 - i)
  }

  lemma {:induction false} SumReverse(n: nat, f: int -> Cpx)
    ensures Sum(n, Reversed(n, f)) == Sum(n, f)
  {
    hide Add, Sum;
    var g := Reversed(n, f);
    SumParts(n, f);
    SumParts(n, g);
    if n > 0 {
      SumReverse(n - 1, f);
      SumConcat(1, n - 1, g);
      SumParts(1, g);
      SumParts(0, g);
      AddZero(f(n - 1));
      AddComm(f(n - 1), Sum(n - 1, f));
      SumExt(n - 1, Reversed(n - 1, f), i => g(1 + i));
    }
  }

  function RowSum(m: nat, f: (int, int) -> Cpx, i: int): Cpx {
    Sum(m, j => f(i, j))
  }

  function ColumnSum(n: nat, f: (int, int) -> Cpx, j: int): Cpx {
    Sum(n, i => f(i, j))
  }

  lemma ColumnParts(n: nat, f: (int, int) -> Cpx, j: int)
    ensures n == 0 ==> ColumnSum(n, f, j) == ZERO
    ensures n > 0 ==> ColumnSum(n, f, j) == Add(ColumnSum(n - 1, f, j), f(n - 1, j))
  {
    hide Add;
  }

  lemma {:induction false} SumSwap(n: nat, m: nat, f: (int, int) -> Cpx)
    ensures Sum(n, i => RowSum(m, f, i)) == Sum(m, j => ColumnSum(n, f, j))
  {
    hide Add, Sum, ColumnSum;
    SumParts(n, i => RowSum(m, f, i));
    forall j {
      ColumnParts(n, f, j);
    }
    if n == 0 {
      SumZero(m, j => ColumnSum(n, f, j));
    } else {
      SumSwap(n - 1, m, f);
      var g := j => ColumnSum(n - 1, f, j);
      var h := j => f(n - 1, j);
      SumAdd(m, g, h);
      SumExt(m, j => ColumnSum(n, f, j), j => Add(g(j), h(j)));
    }
  }

  /** The terms of f whose index is q modulo p: q, q + p, ..., q + p*(m-1). */
  function StridedSum(p: nat, m: nat, f: int -> Cpx, q: int): Cpx {
    Sum(m, j => f(q + Times(p, j)))
  }

  lemma StridedStep(p: nat, m: nat, f: int -> Cpx, q: int)
    requires m > 0
    ensures StridedSum(p, m, f, q) == Add(StridedSum(p, m - 1, f, q), f(Times(p, m - 1) + q))
  {
    hide Add, Times;
  }

  lemma StridedEmpty(p: nat, f: int -> Cpx, q: int)
    ensures StridedSum(p, 0, f, q) == ZERO
  {
  }

  /** Decimation in time: index i of a sum of length p*m is q + p*j. */
  lemma {:induction false} SumRadix(p: nat, m: nat, f: int -> Cpx)
    ensures Sum(Times(p, m), f) == Sum(p, q => StridedSum(p, m, f, q))
  {
    hide Add, Times, Sum, StridedSum;
    if m == 0 {
      TimesZero(p);
      SumParts(0, f);
      forall q ensures StridedSum(p, m, f, q) == ZERO {
        StridedEmpty(p, f, q);
      }
      SumZero(p, q => StridedSum(p, m, f, q));
    } else {
      var g := q => StridedSum(p, m - 1, f, q);
      var h := q => f(Times(p, m - 1) + q);
      SumRadix(p, m - 1, f);
      TimesSuc(p, m);
      SumConcat(Times(p, m - 1), p, f);
      forall q ensures StridedSum(p, m, f, q) == Add(g(q), h(q)) {
        StridedStep(p, m, f, q);
      }
      SumExt(p, q => StridedSum(p, m, f, q), q => Add(g(q), h(q)));
      SumAdd(p, g, h);
    }
  }
}
