/** The discrete Fourier transform, defined as polynomial evaluation, and the laws the
    fast transform and the correlator rest on. */
module Dfts {
  import opened Complexes

  type Signal = seq<Complex>

  function Pow2(m: nat): (p: nat)
    ensures p >= 1
  {
    if m == 0 then 1 else 2 * Pow2(m - 1)
  }

  lemma {:induction false} Pow2Add(a: nat, b: nat)
    ensures Pow2(a + b) == Pow2(a) * Pow2(b)
  {
    if a != 0 {
      Pow2Add(a - 1, b);
      assert 2 * (Pow2(a - 1) * Pow2(b)) == (2 * Pow2(a - 1)) * Pow2(b);
    }
  }

  /** The sum over j of x[j] * z^j, by Horner's rule. */
  function Eval(x: Signal, z: Complex): Complex {
    if x == [] then ZERO else Add(x[0], Mul(z, Eval(x[1..], z)))
  }

  /** Entry k is x evaluated at w^k: the sum over j of x[j] * w^(j*k) (SumIsDft). */
  function Dft(x: Signal, w: Complex): (y: Signal)
    ensures |y| == |x|
    ensures forall k :: 0 <= k < |x| ==> y[k] == Eval(x, Pow(w, k))
  {
    seq(|x|, k requires 0 <= k => Eval(x, Pow(w, k)))
  }

  /** w generates the transform of length n: half a turn is -1 (n even), and w has unit modulus. */
  predicate Root(w: Complex, n: nat) {
    Unit(w) && (n >= 2 ==> n % 2 == 0 && Pow(w, n / 2) == Neg(ONE))
  }

  /** The textbook double sum: the terms x[j] * w^(j*k) for j from `from`. */
  function SumFrom(x: Signal, w: Complex, k: nat, from: nat): Complex
    requires from <= |x|
    decreases |x| - from
  {
    if from == |x| then ZERO else Add(Mul(x[from], Pow(w, from * k)), SumFrom(x, w, k, from + 1))
  }

  lemma {:induction false} SumIsEval(x: Signal, w: Complex, k: nat, from: nat)
    requires from <= |x|
    ensures SumFrom(x, w, k, from) == Mul(Pow(w, from * k), Eval(x[from..], Pow(w, k)))
    decreases |x| - from
  {
    var f, z := Pow(w, from * k), Pow(w, k);
    hide Mul;
    hide Add;
    if from == |x| {
      assert x[from..] == [];
      MulComm(f, ZERO);
      MulUnits(f);
    } else {
      SumIsEval(x, w, k, from + 1);
      var rest := Eval(x[from + 1..], z);
      assert x[from..][1..] == x[from + 1..];
      assert (from + 1) * k == from * k + k;
      PowAdd(w, from * k, k);
      MulAssoc(f, z, rest);
      MulDistrib(f, x[from], Mul(z, rest));
      MulComm(f, x[from]);
    }
  }

  lemma SumIsDft(x: Signal, w: Complex, k: nat)
    requires k < |x|
    ensures Dft(x, w)[k] == SumFrom(x, w, k, 0)
  {
    SumIsEval(x, w, k, 0);
    MulUnits(Eval(x, Pow(w, k)));
    assert x[0..] == x;
  }

  // Even and odd entries, and the radix-2 split.

  function Even(x: Signal): (e: Signal)
    ensures |e| == |x| / 2 && forall i :: 0 <= i < |e| ==> e[i] == x[2 * i]
  {
    seq(|x| / 2, i requires 0 <= i < |x| / 2 => x[2 * i])
  }

  function Odd(x: Signal): (o: Signal)
    ensures |o| == |x| / 2 && forall i :: 0 <= i < |o| ==> o[i] == x[2 * i + 1]
  {
    seq(|x| / 2, i requires 0 <= i < |x| / 2 => x[2 * i + 1])
  }

  lemma {:induction false} EvalSplit(x: Signal, z: Complex)
    requires |x| % 2 == 0
    ensures Eval(x, z) == Add(Eval(Even(x), Mul(z, z)), Mul(z, Eval(Odd(x), Mul(z, z))))
  {
    hide Mul;
    if x == [] {
      MulComm(z, ZERO);
      MulUnits(z);
    } else {
      var r := x[2..];
      EvalSplit(r, z);
      assert x[1..][1..] == r;
      assert Even(x)[1..] == Even(r) && Even(x)[0] == x[0];
      assert Odd(x)[1..] == Odd(r) && Odd(x)[0] == x[1];
      RegroupSplit(x[0], x[1], z, Eval(Even(r), Mul(z, z)), Eval(Odd(r), Mul(z, z)));
    }
  }

  lemma RegroupSplit(a: Complex, b: Complex, z: Complex, e: Complex, o: Complex)
    ensures Add(a, Mul(z, Add(b, Mul(z, Add(e, Mul(z, o))))))
         == Add(Add(a, Mul(Mul(z, z), e)), Mul(z, Add(b, Mul(Mul(z, z), o))))
  {
    var zz, zo := Mul(z, z), Mul(z, o);
    MulDistrib(z, e, zo);
    MulDistrib(z, b, Add(Mul(z, e), Mul(z, zo)));
    MulDistrib(z, Mul(z, e), Mul(z, zo));
    MulAssoc(z, z, e);
    MulAssoc(z, z, o);
    MulDistrib(z, b, Mul(zz, o));
    hide Mul;
  }

  lemma NegSquare(z: Complex)
    ensures Mul(Neg(z), Neg(z)) == Mul(z, z)
  {}

  lemma OppositePoint(x: Signal, z: Complex)
    requires |x| % 2 == 0
    ensures Eval(x, Neg(z)) == Sub(Eval(Even(x), Mul(z, z)), Mul(Eval(Odd(x), Mul(z, z)), z))
  {
    hide Eval, Mul;
    NegSquare(z);
    EvalSplit(x, Neg(z));
    var o := Eval(Odd(x), Mul(z, z));
    MulNeg(z, o);
    MulComm(o, z);
  }

  /** The butterfly: entries k and k + h of a transform from its two half-size transforms. */
  lemma Radix2(x: Signal, w: Complex, k: nat)
    requires |x| % 2 == 0 && k < |x| / 2 && Root(w, |x|)
    ensures var e, o := Dft(Even(x), Mul(w, w)), Dft(Odd(x), Mul(w, w));
            && Dft(x, w)[k] == Add(e[k], Mul(o[k], Pow(w, k)))
            && Dft(x, w)[k + |x| / 2] == Sub(e[k], Mul(o[k], Pow(w, k)))
  {
    hide Mul, Eval, Dft, Even, Odd;
    var h, z := |x| / 2, Pow(w, k);
    assert Pow(w, k + h) == Neg(z) by {
      PowAdd(w, k, h);
      MulComm(z, Neg(ONE));
      MulUnits(z);
    }
    hide *;
    PowSquare(w, k);
    EvalSplit(x, z);
    OppositePoint(x, z);
    MulComm(z, Eval(Odd(x), Mul(z, z)));
  }

  lemma RootSquare(w: Complex, n: nat)
    requires Root(w, 2 * n) && (n >= 2 ==> n % 2 == 0)
    ensures Root(Mul(w, w), n)
  {
    UnitMul(w, w);
    PowSquare(w, n / 2);
  }

  lemma RootConj(w: Complex, n: nat)
    requires Root(w, n)
    ensures Root(Conj(w), n)
  {
    MulComm(w, Conj(w));
    if n >= 2 { PowConj(w, n / 2); }
  }
}
