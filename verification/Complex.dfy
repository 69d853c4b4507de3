/** Complex numbers over the reals: the source's complex128 without rounding. */
module Complexes {

  datatype Complex = Complex(re: real, im: real)

  const ZERO := Complex(0.0, 0.0)
  const ONE := Complex(1.0, 0.0)

  function FromReal(r: real): Complex { Complex(r, 0.0) }

  function Add(a: Complex, b: Complex): Complex { Complex(a.re + b.re, a.im + b.im) }

  function Sub(a: Complex, b: Complex): Complex { Complex(a.re - b.re, a.im - b.im) }

  function Neg(a: Complex): Complex { Complex(-a.re, -a.im) }

  function Mul(a: Complex, b: Complex): Complex {
    Complex(a.re * b.re - a.im * b.im, a.re * b.im + a.im * b.re)
  }

  function Conj(a: Complex): Complex { Complex(a.re, -a.im) }

  /** Unit modulus: the conjugate is the inverse. */
  predicate Unit(a: Complex) { Mul(a, Conj(a)) == ONE }

  // Ring laws, one small lemma each, so that longer proofs can hide Mul and Add.

  lemma MulComm(a: Complex, b: Complex)
    ensures Mul(a, b) == Mul(b, a)
  {}

  lemma MulAssoc(a: Complex, b: Complex, c: Complex)
    ensures Mul(Mul(a, b), c) == Mul(a, Mul(b, c))
  {}

  lemma MulDistrib(a: Complex, b: Complex, c: Complex)
    ensures Mul(a, Add(b, c)) == Add(Mul(a, b), Mul(a, c))
  {}

  lemma MulUnits(a: Complex)
    ensures Mul(ONE, a) == a && Mul(ZERO, a) == ZERO && Mul(Neg(ONE), a) == Neg(a)
  {}

  lemma MulNeg(a: Complex, b: Complex)
    ensures Mul(Neg(a), b) == Neg(Mul(a, b))
  {}

  lemma ConjMul(a: Complex, b: Complex)
    ensures Conj(Mul(a, b)) == Mul(Conj(a), Conj(b))
  {}

  lemma UnitMul(a: Complex, b: Complex)
    requires Unit(a) && Unit(b)
    ensures Unit(Mul(a, b))
  {
    var c, d := Conj(a), Conj(b);
    ConjMul(a, b);
    MulAssoc(a, b, Mul(c, d));
    MulComm(c, d);
    MulAssoc(b, d, c);
    MulUnits(c);
  }

  // Powers.

  function Pow(w: Complex, k: nat): Complex {
    if k == 0 then ONE else Mul(w, Pow(w, k - 1))
  }

  lemma {:induction false} PowAdd(w: Complex, a: nat, b: nat)
    ensures Pow(w, a + b) == Mul(Pow(w, a), Pow(w, b))
  {
    hide Mul;
    if a == 0 {
      MulUnits(Pow(w, b));
    } else {
      PowAdd(w, a - 1, b);
      MulAssoc(w, Pow(w, a - 1), Pow(w, b));
    }
  }

  lemma {:induction false} PowPow(w: Complex, a: nat, b: nat)
    ensures Pow(Pow(w, a), b) == Pow(w, a * b)
  {
    hide Mul;
    if b != 0 {
      PowPow(w, a, b - 1);
      PowAdd(w, a, a * (b - 1));
      assert a + a * (b - 1) == a * b;
    }
  }

  lemma PowSquare(w: Complex, k: nat)
    ensures Pow(Mul(w, w), k) == Pow(w, 2 * k)
    ensures Pow(w, 2 * k) == Mul(Pow(w, k), Pow(w, k))
  {
    hide Mul;
    assert Pow(w, 1) == Mul(w, Pow(w, 0));
    MulComm(w, ONE);
    MulUnits(w);
    PowPow(w, 2, k);
    PowAdd(w, k, k);
  }

  lemma {:induction false} PowConj(w: Complex, k: nat)
    ensures Pow(Conj(w), k) == Conj(Pow(w, k))
  {
    if k != 0 {
      PowConj(w, k - 1);
      ConjMul(w, Pow(w, k - 1));
    }
  }

  lemma {:induction false} PowUnit(w: Complex, k: nat)
    requires Unit(w)
    ensures Unit(Pow(w, k))
  {
    if k != 0 {
      PowUnit(w, k - 1);
      UnitMul(w, Pow(w, k - 1));
    }
  }
}
