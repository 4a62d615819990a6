/** Exact complex numbers: the kiss_fft_cpx pairs with real components, and the
    field operations that the C_ADD, C_SUB and C_MUL macros spell out. */
module Complex {

  datatype Cpx = Cpx(re: real, im: real)

  const ZERO := Real(0.0)
  const ONE := Real(1.0)
  const I := Cpx(0.0, 1.0)

  function Add(a: Cpx, b: Cpx): Cpx {
    Cpx(a.re + b.re, a.im + b.im)
  }

  function Sub(a: Cpx, b: Cpx): Cpx {
    Cpx(a.re - b.re, a.im - b.im)
  }

  function Mul(a: Cpx, b: Cpx): Cpx {
    Cpx(a.re * b.re - a.im * b.im, a.re * b.im + a.im * b.re)
  }

  function Scale(c: real, a: Cpx): Cpx {
    Cpx(c * a.re, c * a.im)
  }

  function Neg(a: Cpx): Cpx {
    Cpx(-a.re, -a.im)
  }

  function Conj(a: Cpx): Cpx {
    Cpx(a.re, -a.im)
  }

  function Real(x: real): Cpx {
    Cpx(x, 0.0)
  }

  lemma AddZero(a: Cpx)
    ensures Add(a, ZERO) == a == Add(ZERO, a)
  {
  }

  lemma AddComm(a: Cpx, b: Cpx)
    ensures Add(a, b) == Add(b, a)
  {
  }

  lemma AddAssoc(a: Cpx, b: Cpx, c: Cpx)
    ensures Add(Add(a, b), c) == Add(a, Add(b, c))
  {
  }

  lemma AddSwap(a: Cpx, b: Cpx, c: Cpx, d: Cpx)
    ensures Add(Add(a, b), Add(c, d)) == Add(Add(a, c), Add(b, d))
  {
  }

  lemma ConjAdd(a: Cpx, b: Cpx)
    ensures Conj(Add(a, b)) == Add(Conj(a), Conj(b))
  {
  }

  lemma ConjReal(x: real)
    ensures Conj(Real(x)) == Real(x)
  {
  }

  lemma MulComm(a: Cpx, b: Cpx)
    ensures Mul(a, b) == Mul(b, a)
  {
  }

  lemma MulAssoc(a: Cpx, b: Cpx, c: Cpx)
    ensures Mul(Mul(a, b), c) == Mul(a, Mul(b, c))
  {
  }

  lemma MulOne(a: Cpx)
    ensures Mul(ONE, a) == a == Mul(a, ONE)
    ensures Mul(ZERO, a) == ZERO == Mul(a, ZERO)
  {
  }

  lemma MulAdd(a: Cpx, b: Cpx, c: Cpx)
    ensures Mul(a, Add(b, c)) == Add(Mul(a, b), Mul(a, c))
    ensures Mul(Add(b, c), a) == Add(Mul(b, a), Mul(c, a))
  {
  }

  lemma MulSub(a: Cpx, b: Cpx, c: Cpx)
    ensures Mul(a, Sub(b, c)) == Sub(Mul(a, b), Mul(a, c))
    ensures Mul(Sub(b, c), a) == Sub(Mul(b, a), Mul(c, a))
  {
  }

  lemma ConjMul(a: Cpx, b: Cpx)
    ensures Conj(Mul(a, b)) == Mul(Conj(a), Conj(b))
  {
  }

  /** The complex numbers have no zero divisors. */
  lemma ZeroProduct(a: Cpx, b: Cpx)
    requires Mul(a, b) == ZERO
    ensures a == ZERO || b == ZERO
  {
    hide Mul;
    if a != ZERO {
      MulAssoc(Conj(a), a, b);
      MulOne(Conj(a));
      assert Mul(Mul(Conj(a), a), b) == ZERO;
      NormPositive(a, b);
    }
  }

  lemma NormPositive(a: Cpx, b: Cpx)
    requires a != ZERO
    ensures Mul(Mul(Conj(a), a), b) == ZERO ==> b == ZERO
  {
    var n := a.re * a.re + a.im * a.im;
    assert Mul(Conj(a), a) == Cpx(n, 0.0);
    assert n > 0.0 by {
      assert a.re != 0.0 ==> a.re * a.re > 0.0;
      assert a.im != 0.0 ==> a.im * a.im > 0.0;
      assert a.re * a.re >= 0.0 && a.im * a.im >= 0.0;
    }
    assert Mul(Cpx(n, 0.0), b) == Cpx(n * b.re, n * b.im);
  }

  /** The scalar product of the S_MUL macro, behind a name that proofs can hide. */
  function SMul(a: real, b: real): real {
    a * b
  }

  lemma SMulAdd(a: real, b: real, c: real)
    ensures SMul(a + b, c) == SMul(a, c) + SMul(b, c)
    ensures SMul(a - b, c) == SMul(a, c) - SMul(b, c)
  {
  }

  lemma SMulZero(c: real)
    ensures SMul(0.0, c) == 0.0 == SMul(c, 0.0)
  {
  }
}
