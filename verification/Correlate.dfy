/** The cross-correlator: a donor window scored at every target position through the transform. */
module Correlators {
  import opened Complexes
  import opened Dfts
  import opened Evals
  import opened Inverses
  import opened Ffts

  /** Per-band onset strengths, bands[b][frame]. */
  type Features = seq<seq<real>>

  const WIN_FRAMES: nat := 1000

  function Frames(f: Features): nat { if |f| == 0 then 0 else |f[0]| }

  /** Every band has the same frames. */
  predicate Rectangular(f: Features) { forall b :: 0 <= b < |f| ==> |f[b]| == Frames(f) }

  // The sliding dot product, the reference the correlator refines.

  /** The sum over i of x[i] * y[i]. */
  function Dot(x: seq<real>, y: seq<real>): real
    requires |x| == |y|
  {
    if x == [] then 0.0 else x[0] * y[0] + Dot(x[1..], y[1..])
  }

  /** The donor window at `start` against the target at `at`, over the first `bands` bands. */
  function DotBands(d: Features, start: nat, t: Features, at: nat, bands: nat): real
    requires Rectangular(d) && Rectangular(t) && bands <= |d| && bands <= |t|
    requires start + WIN_FRAMES <= Frames(d) && at + WIN_FRAMES <= Frames(t)
  {
    if bands == 0 then 0.0
    else DotBands(d, start, t, at, bands - 1)
         + Dot(d[bands - 1][start..start + WIN_FRAMES], t[bands - 1][at..at + WIN_FRAMES])
  }

  // Circular correlation of complex signals.

  function Zeros(n: nat): (z: Signal)
    ensures |z| == n && forall i :: 0 <= i < n ==> z[i] == ZERO
  {
    seq(n, i => ZERO)
  }

  function Rotate(t: Signal): (r: Signal)
    ensures |r| == |t|
  {
    if t == [] then [] else t[1..] + [t[0]]
  }

  /** x + c * y, entry by entry. */
  function PlusTimes(x: Signal, c: Complex, y: Signal): (s: Signal)
    requires |x| == |y|
    ensures |s| == |x| && forall i :: 0 <= i < |x| ==> s[i] == Add(x[i], Mul(c, y[i]))
  {
    seq(|x|, i requires 0 <= i < |x| => Add(x[i], Mul(c, y[i])))
  }

  /** Entry p is the sum over i of conj(d[i]) * t[(p+i) mod |t|]. */
  function Corr(d: Signal, t: Signal): (c: Signal)
    ensures |c| == |t|
    decreases |d|
  {
    if d == [] then Zeros(|t|) else PlusTimes(Corr(d[1..], Rotate(t)), Conj(d[0]), t)
  }

  lemma {:induction false} EvalZeros(n: nat, z: Complex)
    ensures Eval(Zeros(n), z) == ZERO
  {
    if n != 0 {
      assert Zeros(n)[1..] == Zeros(n - 1);
      EvalZeros(n - 1, z);
      MulComm(z, ZERO);
      MulUnits(z);
    }
  }

  lemma EvalPadded(x: Signal, n: nat, z: Complex)
    ensures Eval(x + Zeros(n), z) == Eval(x, z)
  {
    EvalConcat(x, Zeros(n), z);
    EvalZeros(n, z);
    MulComm(Pow(z, |x|), ZERO);
    MulUnits(Pow(z, |x|));
    hide Mul;
  }

  /** Rotating a signal divides its value at a root of unity by that root. */
  lemma EvalRotate(t: Signal, z: Complex)
    requires |t| > 0 && Pow(z, |t|) == ONE
    ensures Mul(z, Eval(Rotate(t), z)) == Eval(t, z)
  {
    hide Mul;
    var r, p := t[1..], Pow(z, |t| - 1);
    EvalConcat(r, [t[0]], z);
    EvalOne([t[0]], z);
    MulDistrib(z, Eval(r, z), Mul(p, t[0]));
    MulAssoc(z, p, t[0]);
    MulUnits(t[0]);
  }

  /** The correlation theorem: at a root of unity, conj(D) * T. */
  lemma {:induction false} EvalCorr(d: Signal, t: Signal, z: Complex)
    requires |t| > 0 && Pow(z, |t|) == ONE && Unit(z)
    ensures Eval(Corr(d, t), z) == Mul(Conj(Eval(d, z)), Eval(t, z))
    decreases |d|
  {
    if d == [] {
      EvalZeros(|t|, z);
      MulUnits(Eval(t, z));
    } else {
      var rest, r := Corr(d[1..], Rotate(t)), Rotate(t);
      EvalCorr(d[1..], r, z);
      EvalLinear(rest, t, Corr(d, t), Conj(d[0]), z);
      EvalRotate(t, z);
      Gather(d[0], Eval(d[1..], z), z, Eval(r, z), Eval(t, z));
    }
  }

  lemma Gather(d0: Complex, dz: Complex, z: Complex, rz: Complex, tz: Complex)
    requires Unit(z) && Mul(z, rz) == tz
    ensures Add(Mul(Conj(dz), rz), Mul(Conj(d0), tz)) == Mul(Conj(Add(d0, Mul(z, dz))), tz)
  {
    var c, e := Conj(z), Conj(dz);
    ConjMul(z, dz);
    MulComm(z, c);
    MulAssoc(c, z, rz);
    MulUnits(rz);
    assert Mul(c, tz) == rz;
    hide Mul, Unit;
    var s := Add(Conj(d0), Mul(c, e));
    assert Conj(Add(d0, Mul(z, dz))) == s;
    MulComm(s, tz);
    MulDistrib(tz, Conj(d0), Mul(c, e));
    MulComm(tz, Conj(d0));
    MulComm(tz, Mul(c, e));
    MulComm(c, e);
    MulAssoc(e, c, tz);
  }

  /** w^k is an n-th root of unity. */
  lemma RootOfUnity(w: Complex, n: nat, k: nat)
    requires n >= 2 && Root(w, n)
    ensures Pow(Pow(w, k), n) == ONE
  {
    hide Mul, Unit, Pow;
    var h, z := n / 2, Pow(w, k);
    assert n == h + h;
    HalfTurn(w, n, k);
    hide *;
    PowAdd(z, h, h);
    MulUnits(ONE);
    NegSquare(ONE);
  }

  // No wraparound.

  function ToComplex(x: seq<real>): (s: Signal)
    ensures |s| == |x| && forall i :: 0 <= i < |x| ==> s[i] == FromReal(x[i])
  {
    seq(|x|, i requires 0 <= i < |x| => FromReal(x[i]))
  }

  /** Where the window fits, circular correlation is the linear one. */
  lemma {:induction false} CorrIsDot(x: seq<real>, t: Signal, p: nat, y: seq<real>)
    requires |x| == |y| && p + |x| <= |t| && p < |t| && t[p..p + |x|] == ToComplex(y)
    ensures Corr(ToComplex(x), t)[p] == FromReal(Dot(x, y))
  {
    hide Mul, Corr;
    if x == [] {
      CorrOfNothing(t);
    } else {
      var r := Rotate(t);
      assert r[p..p + |x| - 1] == ToComplex(y[1..]) by {
        assert r[p..p + |x| - 1] == t[p..p + |x|][1..];
        assert ToComplex(y)[1..] == ToComplex(y[1..]);
      }
      CorrIsDot(x[1..], r, p, y[1..]);
      assert t[p] == t[p..p + |x|][0] == FromReal(y[0]);
      CorrStep(x, t, p, y[0]);
    }
  }

  lemma CorrOfNothing(t: Signal)
    ensures Corr([], t) == Zeros(|t|)
  {}

  lemma CorrStep(x: seq<real>, t: Signal, p: nat, y: real)
    requires x != [] && p < |t| && t[p] == FromReal(y)
    ensures Corr(ToComplex(x), t)[p] == Add(Corr(ToComplex(x[1..]), Rotate(t))[p], FromReal(x[0] * y))
  {
    hide Mul, Corr, PlusTimes, Rotate, Add, Conj;
    var d := ToComplex(x);
    assert d[1..] == ToComplex(x[1..]);
    CorrUnfold(d, t);
    var c, rest := Conj(d[0]), Corr(d[1..], Rotate(t));
    assert Mul(c, t[p]) == FromReal(x[0] * y) by { RealProduct(x[0], y); }
    assert PlusTimes(rest, c, t)[p] == Add(rest[p], Mul(c, t[p]));
  }

  lemma CorrUnfold(d: Signal, t: Signal)
    requires d != []
    ensures Corr(d, t) == PlusTimes(Corr(d[1..], Rotate(t)), Conj(d[0]), t)
  {}

  lemma RealProduct(a: real, b: real)
    ensures Mul(Conj(FromReal(a)), FromReal(b)) == FromReal(a * b)
  {}

  // The target's spectra.

  /** n frames transformed at `size`, one spectrum a band. */
  datatype Target = Target(n: nat, size: nat, spec: seq<Signal>)

  /** What newTarget leaves: each band padded with silence and transformed. */
  predicate IsTargetOf(tg: Target, t: Features, tw: seq<Complex>) {
    && Rectangular(t) && tg.n == Frames(t)
    && tg.size == Pow2(CeilLog2(tg.n + WIN_FRAMES))
    && TwiddleTable(tw, tg.size)
    && tg.n <= tg.size
    && |tg.spec| == |t|
    && forall b :: 0 <= b < |t| ==> tg.spec[b] == Dft(Padded(t[b], tg.size), TableRoot(tw))
  }

  function Padded(band: seq<real>, size: nat): (s: Signal)
    requires |band| <= size
    ensures |s| == size
  {
    ToComplex(band) + Zeros(size - |band|)
  }

  /** A real sequence written over a cleared array. */
  method Load(s: array<Complex>, x: seq<real>)
    requires |x| <= s.Length
    modifies s
    ensures s[..] == Padded(x, s.Length)
  {
    for i := 0 to s.Length
      invariant forall j :: 0 <= j < i ==> s[j] == ZERO
    {
      s[i] := ZERO;
    }
    for i := 0 to |x|
      invariant forall j :: 0 <= j < s.Length ==> s[j] == if j < i then FromReal(x[j]) else ZERO
    {
      s[i] := FromReal(x[i]);
    }
  }

  method NewTarget(t: Features, tw: seq<Complex>) returns (tg: Target)
    requires Rectangular(t) && TwiddleTable(tw, Pow2(CeilLog2(Frames(t) + WIN_FRAMES)))
    requires CeilLog2(Frames(t) + WIN_FRAMES) <= 64
    ensures IsTargetOf(tg, t, tw)
  {
    hide TwiddleTable, TableRoot, Dft, Eval, Padded, CeilLog2, Pow2;
    var n := Frames(t);
    var size := NextPow2(n + WIN_FRAMES);
    var spec: seq<Signal> := [];
    for b := 0 to |t|
      invariant |spec| == b
      invariant forall j :: 0 <= j < b ==> spec[j] == Dft(Padded(t[j], size), TableRoot(tw))
    {
      var s := new Complex[size];
      Load(s, t[b]);
      Fft(s, tw, false, CeilLog2(n + WIN_FRAMES));
      spec := spec + [s[..]];
    }
    tg := Target(n, size, spec);
  }

  /** The correlations of the first `bands` bands, summed. */
  function CorrBands(d: Features, start: nat, t: Features, size: nat, bands: nat): (c: Signal)
    requires Rectangular(d) && Rectangular(t) && bands <= |d| && bands <= |t|
    requires start + WIN_FRAMES <= Frames(d) && Frames(t) <= size
    ensures |c| == size
  {
    if bands == 0 then Zeros(size)
    else PlusTimes(CorrBands(d, start, t, size, bands - 1), ONE,
                   Corr(ToComplex(d[bands - 1][start..start + WIN_FRAMES]), Padded(t[bands - 1], size)))
  }

  lemma {:induction false} CorrBandsAt(d: Features, start: nat, t: Features, size: nat, bands: nat, k: nat)
    requires Rectangular(d) && Rectangular(t) && bands <= |d| && bands <= |t|
    requires start + WIN_FRAMES <= Frames(d) && k + WIN_FRAMES <= Frames(t) <= size
    ensures CorrBands(d, start, t, size, bands)[k] == FromReal(DotBands(d, start, t, k, bands))
  {
    hide Corr, Mul, Dot;
    if bands != 0 {
      var b := bands - 1;
      CorrBandsAt(d, start, t, size, b, k);
      var x, y := d[b][start..start + WIN_FRAMES], t[b][k..k + WIN_FRAMES];
      assert Padded(t[b], size)[k..k + WIN_FRAMES] == ToComplex(y);
      CorrIsDot(x, Padded(t[b], size), k, y);
      MulUnits(Corr(ToComplex(x), Padded(t[b], size))[k]);
    }
  }

  /** What the loop adds for one band is that band's correlation's spectrum. */
  lemma BandSpectrum(d: Features, start: nat, t: Features, size: nat, b: nat, w: Complex, i: nat)
    requires Rectangular(d) && Rectangular(t) && b < |d| && b < |t|
    requires start + WIN_FRAMES <= Frames(d) && Frames(t) <= size && i < size && size >= 2 && Root(w, size)
    requires WIN_FRAMES <= size
    ensures var x := d[b][start..start + WIN_FRAMES];
            var ti, xi := Dft(Padded(t[b], size), w)[i], Dft(Padded(x, size), w)[i];
            Dft(CorrBands(d, start, t, size, b + 1), w)[i]
              == Add(Dft(CorrBands(d, start, t, size, b), w)[i], Mul(ti, Conj(xi)))
  {
    var x, z := d[b][start..start + WIN_FRAMES], Pow(w, i);
    RootOfUnity(w, size, i);
    PowUnit(w, i);
    hide Mul, Eval, Corr, Dft, Unit, Root;
    var c := Corr(ToComplex(x), Padded(t[b], size));
    EvalPadded(ToComplex(x), size - WIN_FRAMES, z);
    EvalCorr(ToComplex(x), Padded(t[b], size), z);
    EvalLinear(CorrBands(d, start, t, size, b), c, CorrBands(d, start, t, size, b + 1), ONE, z);
    MulUnits(Eval(c, z));
    MulComm(Eval(Padded(t[b], size), z), Conj(Eval(Padded(x, size), z)));
  }

  /** The mean, over bands and window frames, of donor times target at position `at`. */
  function Score(d: Features, start: nat, t: Features, at: nat): real
    requires Rectangular(d) && Rectangular(t) && |d| == |t| > 0
    requires start + WIN_FRAMES <= Frames(d) && at + WIN_FRAMES <= Frames(t)
  {
    DotBands(d, start, t, at, |d|) / (WIN_FRAMES * |d|) as real
  }

  /** The donor window d[start..start+WIN_FRAMES] scored at every target position; empty (the
      source's nil) when the target is shorter than a window. */
  method Correlate(tg: Target, ghost t: Features, tw: seq<Complex>, d: Features, start: nat)
    returns (out: seq<real>)
    requires IsTargetOf(tg, t, tw) && Rectangular(d) && |d| == |t| > 0
    requires start + WIN_FRAMES <= Frames(d)
    requires CeilLog2(tg.n + WIN_FRAMES) <= 64
    ensures |out| == if tg.n < WIN_FRAMES then 0 else tg.n - WIN_FRAMES + 1
    ensures forall k :: 0 <= k < |out| ==> out[k] == Score(d, start, t, k)
  {
    hide TwiddleTable, TableRoot, Root, Dft, Eval, Mul, Add, Corr, CorrBands, DotBands, Pow, Pow2, Scaled;
    var m := CeilLog2(tg.n + WIN_FRAMES);
    ghost var w := TableRoot(tw);
    TableRootIsRoot(tw, tg.size);
    var acc := new Complex[tg.size](i => ZERO);
    ClearedSpectrum(d, start, t, tg.size, w);
    assert acc[..] == Dft(CorrBands(d, start, t, tg.size, 0), w);
    for b := 0 to |d|
      invariant acc[..] == Dft(CorrBands(d, start, t, tg.size, b), w)
    {
      AddBand(acc, tg, t, tw, d, start, b);
    }
    ghost var c := CorrBands(d, start, t, tg.size, |d|);
    Fft(acc, tw, true, m);
    RoundTrip(c, w, m);
    assert Direction(tw, true) == Conj(w);
    assert acc[..] == Scaled(tg.size as real, c);
    out := ReadScores(acc, tg.n, d, start, t);
  }

  /** The valid positions read off the inverse transform. */
  method ReadScores(acc: array<Complex>, n: nat, d: Features, start: nat, ghost t: Features) returns (out: seq<real>)
    requires Rectangular(d) && Rectangular(t) && |d| == |t| > 0 && start + WIN_FRAMES <= Frames(d)
    requires n == Frames(t) <= acc.Length && acc.Length > 0
    requires acc[..] == Scaled(acc.Length as real, CorrBands(d, start, t, acc.Length, |d|))
    ensures |out| == if n < WIN_FRAMES then 0 else n - WIN_FRAMES + 1
    ensures forall k :: 0 <= k < |out| ==> out[k] == Score(d, start, t, k)
  {
    hide Mul, CorrBands, Score, Scaled;
    out := [];
    if n < WIN_FRAMES {
      return;
    }
    var valid := n - WIN_FRAMES + 1;
    var scale := acc.Length as real * WIN_FRAMES as real * |d| as real;
    for k := 0 to valid
      invariant |out| == k
      invariant forall j :: 0 <= j < k ==> out[j] == Score(d, start, t, j)
    {
      assert acc[k] == acc[..][k];
      ScoreAt(d, start, t, acc.Length, k, acc[k]);
      out := out + [acc[k].re / scale];
    }
  }

  lemma ScoreAt(d: Features, start: nat, t: Features, size: nat, k: nat, v: Complex)
    requires Rectangular(d) && Rectangular(t) && |d| == |t| > 0 && size > 0
    requires start + WIN_FRAMES <= Frames(d) && k + WIN_FRAMES <= Frames(t) <= size
    requires v == Mul(FromReal(size as real), CorrBands(d, start, t, size, |d|)[k])
    ensures size as real * WIN_FRAMES as real * |d| as real > 0.0
    ensures v.re / (size as real * WIN_FRAMES as real * |d| as real) == Score(d, start, t, k)
  {
    hide Mul, CorrBands, DotBands;
    CorrBandsAt(d, start, t, size, |d|, k);
    Unscale(size, WIN_FRAMES, |d|, DotBands(d, start, t, k, |d|));
  }

  lemma Unscale(size: nat, frames: nat, bands: nat, v: real)
    requires size > 0 && frames > 0 && bands > 0
    ensures frames * bands > 0 && size as real * frames as real * bands as real > 0.0
    ensures Mul(FromReal(size as real), FromReal(v)).re / (size as real * frames as real * bands as real)
         == v / (frames * bands) as real
  {
    var s, c := size as real, frames as real * bands as real;
    assert frames * bands >= frames;
    assert (frames * bands) as real == c;
    assert s * frames as real * bands as real == s * c;
    assert s * c > 0.0;
    Quotient(s, v, c);
    assert Mul(FromReal(s), FromReal(v)).re == s * v;
  }

  lemma Quotient(s: real, v: real, c: real)
    requires s > 0.0 && c > 0.0 && s * c > 0.0
    ensures (s * v) / (s * c) == v / c
  {
    var q := v / c;
    assert q * c == v;
    assert s * v == q * (s * c);
  }

  lemma ClearedSpectrum(d: Features, start: nat, t: Features, size: nat, w: Complex)
    requires Rectangular(d) && Rectangular(t) && start + WIN_FRAMES <= Frames(d) && Frames(t) <= size
    ensures forall i :: 0 <= i < size ==> Dft(CorrBands(d, start, t, size, 0), w)[i] == ZERO
  {
    forall i | 0 <= i < size ensures Dft(Zeros(size), w)[i] == ZERO {
      EvalZeros(size, Pow(w, i));
    }
  }

  /** One band: its window transformed, and the product with the target's spectrum added. */
  method AddBand(acc: array<Complex>, tg: Target, ghost t: Features, tw: seq<Complex>, d: Features, start: nat, b: nat)
    requires IsTargetOf(tg, t, tw) && Rectangular(d) && |d| == |t| && b < |d| && acc.Length == tg.size
    requires start + WIN_FRAMES <= Frames(d) && CeilLog2(tg.n + WIN_FRAMES) <= 64
    requires acc[..] == Dft(CorrBands(d, start, t, tg.size, b), TableRoot(tw))
    modifies acc
    ensures acc[..] == Dft(CorrBands(d, start, t, tg.size, b + 1), TableRoot(tw))
  {
    hide Mul, Add, Eval, Corr, CorrBands, Dft, Padded, Pow, Pow2, CeilLog2, TwiddleTable, TableRoot, Root;
    ghost var w := TableRoot(tw);
    TableRootIsRoot(tw, tg.size);
    var x := d[b][start..start + WIN_FRAMES];
    var buf := new Complex[tg.size];
    Load(buf, x);
    Fft(buf, tw, false, CeilLog2(tg.n + WIN_FRAMES));
    ghost var xs, c1 := buf[..], CorrBands(d, start, t, tg.size, b + 1);
    assert xs == Dft(Padded(x, tg.size), w);
    forall i | 0 <= i < tg.size
      ensures Dft(c1, w)[i] == Add(acc[i], Mul(tg.spec[b][i], Conj(buf[i])))
    {
      BandSpectrum(d, start, t, tg.size, b, w, i);
      assert buf[i] == xs[i];
    }
    MultiplyInto(acc, tg.spec[b], buf);
  }

  /** acc[i] += ts[i] * conj(buf[i]). */
  method MultiplyInto(acc: array<Complex>, ts: seq<Complex>, buf: array<Complex>)
    requires acc != buf && |ts| == acc.Length == buf.Length
    modifies acc
    ensures forall i :: 0 <= i < acc.Length ==> acc[i] == Add(old(acc[i]), Mul(ts[i], Conj(buf[i])))
  {
    hide Mul, Add;
    for i := 0 to acc.Length
      invariant forall j :: 0 <= j < acc.Length ==>
        acc[j] == if j < i then Add(old(acc[j]), Mul(ts[j], Conj(buf[j]))) else old(acc[j])
    {
      acc[i] := Add(acc[i], Mul(ts[i], Conj(buf[i])));
    }
  }
}
