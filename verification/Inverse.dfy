/** The inverse transform undoes the forward one, up to the length. */
module Inverses {
  import opened Complexes
  import opened Dfts
  import opened Evals

  function Scaled(c: real, x: Signal): (y: Signal)
    ensures |y| == |x| && forall i :: 0 <= i < |x| ==> y[i] == Mul(FromReal(c), x[i])
  {
    seq(|x|, i requires 0 <= i < |x| => Mul(FromReal(c), x[i]))
  }

  lemma {:induction false} PowMinusOne(i: nat)
    ensures Pow(Neg(ONE), i) == if i % 2 == 0 then ONE else Neg(ONE)
  {
    if i != 0 {
      PowMinusOne(i - 1);
      MulUnits(Pow(Neg(ONE), i - 1));
    }
  }

  /** (-1)^i is the sign with which the second half of a transform enters entry i. */
  lemma HalfTurn(w: Complex, n: nat, i: nat)
    requires n >= 2 && Root(w, n)
    ensures Pow(Pow(w, i), n / 2) == if i % 2 == 0 then ONE else Neg(ONE)
  {
    var h := n / 2;
    PowPow(w, i, h);
    PowPow(w, h, i);
    assert i * h == h * i;
    PowMinusOne(i);
  }

  lemma {:induction false} Inversion(x: Signal, w: Complex, m: nat, i: nat)
    requires |x| == Pow2(m) && Root(w, |x|) && i < |x|
    ensures Dft(Dft(x, w), Conj(w))[i] == Mul(FromReal(|x| as real), x[i])
    decreases m
  {
    hide Eval, Mul, Add, Pow, Conj;
    if m == 0 {
      InversionOfOne(x, w);
    } else {
      var h, j := Pow2(m - 1), i / 2;
      var half := if i % 2 == 0 then Even(x) else Odd(x);
      RootSquare(w, h) by { assert m > 1 ==> Pow2(m - 1) == 2 * Pow2(m - 2); }
      SplitEntry(x, w, h, i);
      Inversion(half, Mul(w, w), m - 1, j);
      assert half[j] == x[i];
      DoubleScale(h as real, x[i]);
    }
  }

  /** An entry of the inverse of the forward transform, by the half-size inverses. */
  lemma SplitEntry(x: Signal, w: Complex, h: nat, i: nat)
    requires |x| == 2 * h && Root(w, |x|) && i < |x|
    ensures var half := Dft(Dft(if i % 2 == 0 then Even(x) else Odd(x), Mul(w, w)), Conj(Mul(w, w)));
            Dft(Dft(x, w), Conj(w))[i] == Add(half[i / 2], half[i / 2])
  {
    hide Eval, Mul, Add, Pow, Conj, Dft, Even, Odd;
    var y, z := Dft(x, w), Pow(Conj(w), i);
    RootConj(w, |x|);
    HalfTurn(Conj(w), |x|, i);
    hide *;
    assert y == y[..h] + y[h..];
    EvalConcat(y[..h], y[h..], z);
    if i % 2 == 0 {
      EvenEntry(x, w, i / 2);
    } else {
      OddEntry(x, w, i / 2);
    }
  }

  lemma DoubleScale(h: real, c: Complex)
    ensures Add(Mul(FromReal(h), c), Mul(FromReal(h), c)) == Mul(FromReal(2.0 * h), c)
  {}

  /** Radix2 for every entry, with the halves named. */
  lemma Halves(x: Signal, w: Complex, h: nat, y: Signal, e: Signal, o: Signal)
    requires |x| == 2 * h && Root(w, |x|)
    requires y == Dft(x, w) && e == Dft(Even(x), Mul(w, w)) && o == Dft(Odd(x), Mul(w, w))
    ensures forall k :: 0 <= k < h ==> y[..h][k] == Add(e[k], Mul(o[k], Pow(w, k)))
    ensures forall k :: 0 <= k < h ==> y[h..][k] == Sub(e[k], Mul(o[k], Pow(w, k)))
  {
    hide *;
    forall k | 0 <= k < h
      ensures y[k] == Add(e[k], Mul(o[k], Pow(w, k))) && y[k + h] == Sub(e[k], Mul(o[k], Pow(w, k)))
    {
      Radix2(x, w, k);
    }
  }

  lemma EvenEntry(x: Signal, w: Complex, j: nat)
    requires |x| % 2 == 0 && Root(w, |x|) && j < |x| / 2
    ensures var h, y, z := |x| / 2, Dft(x, w), Pow(Conj(w), 2 * j);
            var t := Dft(Dft(Even(x), Mul(w, w)), Conj(Mul(w, w)))[j];
            Add(Eval(y[..h], z), Mul(ONE, Eval(y[h..], z))) == Add(t, t)
  {
    hide Mul;
    var h, y, v := |x| / 2, Dft(x, w), Conj(w);
    var e, o := Dft(Even(x), Mul(w, w)), Dft(Odd(x), Mul(w, w));
    Halves(x, w, h, y, e, o);
    ConjMul(w, w);
    PowSquare(v, j);
    EvenHalf(y[..h], y[h..], e, o, w, Pow(v, 2 * j));
  }

  lemma OddEntry(x: Signal, w: Complex, j: nat)
    requires |x| % 2 == 0 && Root(w, |x|) && j < |x| / 2
    ensures var h, y, z := |x| / 2, Dft(x, w), Pow(Conj(w), 2 * j + 1);
            var t := Dft(Dft(Odd(x), Mul(w, w)), Conj(Mul(w, w)))[j];
            Add(Eval(y[..h], z), Mul(Neg(ONE), Eval(y[h..], z))) == Add(t, t)
  {
    hide Mul;
    var h, y, v := |x| / 2, Dft(x, w), Conj(w);
    var e, o := Dft(Even(x), Mul(w, w)), Dft(Odd(x), Mul(w, w));
    Halves(x, w, h, y, e, o);
    ConjMul(w, w);
    PowSquare(v, j);
    var z := Pow(v, 2 * j + 1);
    MulAssoc(w, v, Pow(v, 2 * j));
    MulUnits(Pow(v, 2 * j));
    assert Mul(w, z) == Pow(v, 2 * j);
    OddHalf(y[..h], y[h..], e, o, w, z);
    DoubleScale(1.0, Eval(o, Mul(w, z)));
    MulUnits(Eval(o, Mul(w, z)));
  }

  lemma InversionOfOne(x: Signal, w: Complex)
    requires |x| == 1
    ensures Dft(Dft(x, w), Conj(w))[0] == Mul(ONE, x[0])
  {
    assert Eval(x, ONE) == Add(x[0], Mul(ONE, Eval(x[1..], ONE)));
    var y := Dft(x, w);
    assert Eval(y, ONE) == Add(y[0], Mul(ONE, Eval(y[1..], ONE)));
  }

  /** Both halves added: twice the transform of the even entries. */
  lemma EvenHalf(a: Signal, b: Signal, e: Signal, o: Signal, w: Complex, z: Complex)
    requires |a| == |b| == |e| == |o|
    requires forall k :: 0 <= k < |e| ==>
      a[k] == Add(e[k], Mul(o[k], Pow(w, k))) && b[k] == Sub(e[k], Mul(o[k], Pow(w, k)))
    ensures Add(Eval(a, z), Mul(ONE, Eval(b, z))) == Add(Eval(e, z), Eval(e, z))
  {
    var s := seq(|e|, k requires 0 <= k < |e| => Add(e[k], e[k]));
    forall k | 0 <= k < |e|
      ensures s[k] == Add(a[k], Mul(ONE, b[k])) && s[k] == Add(e[k], Mul(ONE, e[k]))
    {
      MulUnits(b[k]);
      MulUnits(e[k]);
      hide Mul;
    }
    EvalLinear(a, b, s, ONE, z);
    EvalLinear(e, e, s, ONE, z);
    MulUnits(Eval(e, z));
  }

  /** The second half subtracted: twice the transform of the odd entries, at w * z. */
  lemma OddHalf(a: Signal, b: Signal, e: Signal, o: Signal, w: Complex, z: Complex)
    requires |a| == |b| == |e| == |o|
    requires forall k :: 0 <= k < |e| ==>
      a[k] == Add(e[k], Mul(o[k], Pow(w, k))) && b[k] == Sub(e[k], Mul(o[k], Pow(w, k)))
    ensures Add(Eval(a, z), Mul(Neg(ONE), Eval(b, z))) == Mul(FromReal(2.0), Eval(o, Mul(w, z)))
  {
    var s := seq(|e|, k requires 0 <= k < |e| => Mul(FromReal(2.0), Mul(o[k], Pow(w, k))));
    forall k | 0 <= k < |e|
      ensures s[k] == Add(a[k], Mul(Neg(ONE), b[k]))
    {
      MulUnits(b[k]);
      var t := Mul(o[k], Pow(w, k));
      assert Mul(FromReal(2.0), t) == Add(t, t);
      hide Mul;
    }
    EvalLinear(a, b, s, Neg(ONE), z);
    EvalModulated(o, s, w, FromReal(2.0), z);
  }

  /** Forward then unscaled inverse is the length times the original. */
  lemma RoundTrip(x: Signal, w: Complex, m: nat)
    requires |x| == Pow2(m) && Root(w, |x|)
    ensures Dft(Dft(x, w), Conj(w)) == Scaled(|x| as real, x)
  {
    forall i | 0 <= i < |x| ensures Dft(Dft(x, w), Conj(w))[i] == Scaled(|x| as real, x)[i] {
      Inversion(x, w, m, i);
    }
  }
}
