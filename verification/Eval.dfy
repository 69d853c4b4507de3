/** How evaluating a signal takes concatenation, combination and modulation. */
module Evals {
  import opened Complexes
  import opened Dfts

  lemma {:induction false} EvalConcat(x: Signal, y: Signal, z: Complex)
    ensures Eval(x + y, z) == Add(Eval(x, z), Mul(Pow(z, |x|), Eval(y, z)))
  {
    if x == [] {
      assert x + y == y;
      MulUnits(Eval(y, z));
    } else {
      assert (x + y)[1..] == x[1..] + y;
      EvalConcat(x[1..], y, z);
      var a, p, b := Eval(x[1..], z), Pow(z, |x| - 1), Eval(y, z);
      MulDistrib(z, a, Mul(p, b));
      MulAssoc(z, p, b);
      hide Mul;
    }
  }

  /** Evaluation is linear in the signal. */
  lemma {:induction false} EvalLinear(x: Signal, y: Signal, s: Signal, c: Complex, z: Complex)
    requires |x| == |y| == |s|
    requires forall i :: 0 <= i < |x| ==> s[i] == Add(x[i], Mul(c, y[i]))
    ensures Eval(s, z) == Add(Eval(x, z), Mul(c, Eval(y, z)))
  {
    hide Mul;
    if x == [] {
      MulComm(c, ZERO);
      MulUnits(c);
    } else {
      EvalLinear(x[1..], y[1..], s[1..], c, z);
      var a, b := Eval(x[1..], z), Eval(y[1..], z);
      MulDistrib(z, a, Mul(c, b));
      MulDistrib(c, y[0], Mul(z, b));
      MulAssoc(z, c, b);
      MulComm(z, c);
      MulAssoc(c, z, b);
    }
  }

  /** Evaluating the entries x[k] * w^k at z is evaluating x at w * z. */
  lemma {:induction false} EvalModulated(x: Signal, y: Signal, w: Complex, c: Complex, z: Complex)
    requires |x| == |y|
    requires forall k :: 0 <= k < |x| ==> y[k] == Mul(c, Mul(x[k], Pow(w, k)))
    ensures Eval(y, z) == Mul(c, Eval(x, Mul(w, z)))
  {
    hide Mul;
    if x == [] {
      MulComm(c, ZERO);
      MulUnits(c);
    } else {
      forall k | 0 <= k < |x| - 1
        ensures y[1..][k] == Mul(Mul(c, w), Mul(x[1..][k], Pow(w, k)))
      {
        var p, xk := Pow(w, k), x[k + 1];
        MulComm(xk, Mul(w, p));
        MulAssoc(w, p, xk);
        MulComm(p, xk);
        MulAssoc(c, w, Mul(xk, p));
      }
      EvalModulated(x[1..], y[1..], w, Mul(c, w), z);
      var r := Eval(x[1..], Mul(w, z));
      MulComm(x[0], ONE);
      MulUnits(x[0]);
      MulDistrib(c, x[0], Mul(Mul(w, z), r));
      MulAssoc(z, Mul(c, w), r);
      MulComm(z, Mul(c, w));
      MulAssoc(c, w, z);
      MulAssoc(c, Mul(w, z), r);
    }
  }
}
