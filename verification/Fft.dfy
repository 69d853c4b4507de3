/** The in-place radix-2 transform: bit reversal, then butterfly stages. */
module Ffts {
  import opened Complexes
  import opened Dfts

  // Bit reversal.

  /** The lowest m bits of i, reversed. */
  function Rev(i: nat, m: nat): (r: nat)
    ensures r < Pow2(m)
  {
    if m == 0 then 0 else (if i % 2 == 1 then Pow2(m - 1) else 0) + Rev(i / 2, m - 1)
  }

  /** bits.Reverse64 on a value of at most 64 bits. */
  function Reverse64(i: nat): nat { Rev(i, 64) }

  /** bits.TrailingZeros of a nonzero value. */
  function TrailingZeros(n: nat): nat
    requires n > 0
  {
    if n % 2 == 1 then 0 else 1 + TrailingZeros(n / 2)
  }

  lemma {:induction false} TrailingZerosOfPow2(m: nat)
    ensures TrailingZeros(Pow2(m)) == m
  {
    if m != 0 { TrailingZerosOfPow2(m - 1); }
  }

  /** Reversing d bits too many leaves the result d places too high. */
  lemma {:induction false} RevShift(i: nat, m: nat, d: nat)
    requires i < Pow2(m)
    ensures Rev(i, m + d) == Rev(i, m) * Pow2(d)
  {
    if m == 0 {
      RevZero(d);
    } else {
      RevShift(i / 2, m - 1, d);
      Pow2Add(m - 1, d);
      assert m - 1 + d == m + d - 1;
      Distribute(if i % 2 == 1 then Pow2(m - 1) else 0, Rev(i / 2, m - 1), Pow2(d));
    }
  }

  lemma Distribute(a: nat, b: nat, c: nat)
    ensures (a + b) * c == a * c + b * c
  {}

  lemma {:induction false} RevZero(d: nat)
    ensures Rev(0, d) == 0
  {
    if d != 0 { RevZero(d - 1); }
  }

  /** The machine word reversed and shifted down is the m-bit reversal. */
  lemma ReverseShifted(i: nat, m: nat)
    requires i < Pow2(m) && m <= 64
    ensures Reverse64(i) / Pow2(64 - m) == Rev(i, m)
  {
    RevShift(i, m, 64 - m);
    DivideProduct(Rev(i, m), Pow2(64 - m));
  }

  lemma DivideProduct(a: nat, b: nat)
    requires b > 0
    ensures (a * b) / b == a
  {
    var q, r := (a * b) / b, (a * b) % b;
    Cancel(a, q, b, r);
  }

  lemma Cancel(a: nat, q: nat, b: nat, r: nat)
    requires a * b == q * b + r && r < b
    ensures a == q
  {
    if a > q {
      Distribute(a - q, q, b);
      Distribute(a - q - 1, 1, b);
    }
    if a < q {
      Distribute(q - a, a, b);
      Distribute(q - a - 1, 1, b);
    }
  }

  /** Reversal read from the other end: the top bit of i becomes the lowest. */
  lemma {:induction false} RevTop(i: nat, m: nat)
    requires m > 0 && i < Pow2(m)
    ensures Rev(i, m) == if i < Pow2(m - 1) then 2 * Rev(i, m - 1) else 2 * Rev(i - Pow2(m - 1), m - 1) + 1
  {
    if m > 1 {
      RevTop(i / 2, m - 1);
      var p := Pow2(m - 2);
      assert Pow2(m - 1) == 2 * p;
      if i >= Pow2(m - 1) {
        var lo := i - Pow2(m - 1);
        assert i / 2 - p == lo / 2 && i % 2 == lo % 2;
      }
    }
  }

  lemma {:induction false} RevInvolution(i: nat, m: nat)
    requires i < Pow2(m)
    ensures Rev(Rev(i, m), m) == i
  {
    if m != 0 {
      RevInvolution(i / 2, m - 1);
      RevTop(Rev(i, m), m);
    }
  }

  /** The swap pass sends entry i to place Rev(i). */
  function BitReversed(x: Signal, m: nat): (y: Signal)
    requires |x| == Pow2(m)
    ensures |y| == |x| && forall i :: 0 <= i < |x| ==> y[i] == x[Rev(i, m)]
  {
    seq(|x|, i requires 0 <= i < |x| => x[Rev(i, m)])
  }

  // The array between stages.

  /** Blocks of `size` entries, each the transform of every |x|/size-th entry of x. */
  function Stage(x: Signal, w: Complex, size: nat): (y: Signal)
    requires size > 0
    decreases |x|
  {
    if |x| <= size then Dft(x, w) else Stage(Even(x), Mul(w, w), size) + Stage(Odd(x), Mul(w, w), size)
  }

  lemma {:induction false} StageLength(x: Signal, w: Complex, m: nat, size: nat)
    requires |x| == Pow2(m) && size > 0
    ensures |Stage(x, w, size)| == |x|
    decreases m
  {
    hide Mul;
    if |x| > size {
      StageLength(Even(x), Mul(w, w), m - 1, size);
      StageLength(Odd(x), Mul(w, w), m - 1, size);
    }
  }

  /** Before the first stage the array is the input in bit-reversed order. */
  lemma {:induction false} StageOne(x: Signal, w: Complex, m: nat)
    requires |x| == Pow2(m)
    ensures Stage(x, w, 1) == BitReversed(x, m)
    decreases m
  {
    hide Mul;
    if m == 0 {
      EvalOne(x, Pow(w, 0));
    } else {
      var p, v := Pow2(m - 1), Mul(w, w);
      StageOne(Even(x), v, m - 1);
      StageOne(Odd(x), v, m - 1);
      var s := BitReversed(Even(x), m - 1) + BitReversed(Odd(x), m - 1);
      forall i | 0 <= i < |x| ensures s[i] == BitReversed(x, m)[i] {
        RevTop(i, m);
      }
    }
  }

  lemma EvalOne(x: Signal, z: Complex)
    requires |x| == 1
    ensures Eval(x, z) == x[0]
  {
    assert Eval(x[1..], z) == ZERO;
    MulComm(z, ZERO);
    MulUnits(z);
  }

  /** One block's butterflies under the root u. */
  function Butterfly(y: Signal, u: Complex): (r: Signal)
    requires |y| % 2 == 0
    ensures |r| == |y|
    ensures forall k :: 0 <= k < |y| / 2 ==> r[k] == Add(y[k], Mul(y[k + |y| / 2], Pow(u, k)))
    ensures forall k :: 0 <= k < |y| / 2 ==> r[k + |y| / 2] == Sub(y[k], Mul(y[k + |y| / 2], Pow(u, k)))
  {
    hide Mul, Add, Sub, Pow;
    var h := |y| / 2;
    var lo := seq(h, k requires 0 <= k < h => Add(y[k], Mul(y[k + h], Pow(u, k))));
    var hi := seq(h, k requires 0 <= k < h => Sub(y[k], Mul(y[k + h], Pow(u, k))));
    assert forall k :: 0 <= k < h ==> (lo + hi)[k + h] == hi[k];
    lo + hi
  }

  /** Every block's butterflies. */
  function Pass(y: Signal, u: Complex, size: nat): (r: Signal)
    requires size > 0 && size % 2 == 0
    ensures |r| == |y|
  {
    if |y| < size then y else Butterfly(y[..size], u) + Pass(y[size..], u, size)
  }

  lemma {:induction false} PassConcat(a: Signal, b: Signal, u: Complex, size: nat, blocks: nat)
    requires size > 0 && size % 2 == 0 && |a| == blocks * size
    ensures Pass(a + b, u, size) == Pass(a, u, size) + Pass(b, u, size)
    decreases blocks
  {
    hide Butterfly;
    if blocks == 0 {
      assert a + b == b;
      assert Pass(a, u, size) == [];
    } else {
      Distribute(blocks - 1, 1, size);
      assert (a + b)[..size] == a[..size] && (a + b)[size..] == a[size..] + b;
      PassConcat(a[size..], b, u, size, blocks - 1);
      var head := Butterfly(a[..size], u);
      var mid, tail := Pass(a[size..], u, size), Pass(b, u, size);
      assert (head + mid) + tail == head + (mid + tail);
    }
  }

  lemma {:induction false} Pow2Grows(a: nat, b: nat)
    requires a <= b
    ensures Pow2(a) <= Pow2(b)
  {
    if a < b { Pow2Grows(a, b - 1); }
  }

  /** A stage's pass joins blocks of half the size into transforms of the full size. */
  lemma {:induction false} StageStep(x: Signal, w: Complex, m: nat, s: nat)
    requires |x| == Pow2(m) && 1 <= s <= m && Root(w, |x|)
    ensures Pass(Stage(x, w, Pow2(s - 1)), Pow(w, Pow2(m - s)), Pow2(s)) == Stage(x, w, Pow2(s))
    decreases m
  {
    hide Mul, Eval, Dft, Pass, Pow;
    var half, v := Pow2(s - 1), Mul(w, w);
    if s == m {
      JoinStage(x, w, half, Stage(Even(x), v, half), Stage(Odd(x), v, half));
    } else {
      RootSquare(w, Pow2(m - 1)) by { assert Pow2(m - 1) == 2 * Pow2(m - 2); }
      StageStep(Even(x), v, m - 1, s);
      StageStep(Odd(x), v, m - 1, s);
      StageLength(Even(x), v, m - 1, half);
      StageSplit(x, w, m, s - 1);
      StageSplit(x, w, m, s);
      PowSquare(w, Pow2(m - 1 - s));
      PassOfHalves(Stage(Even(x), v, half), Stage(Odd(x), v, half), Pow(w, Pow2(m - s)), m - 1, s);
    }
  }

  lemma PassOfHalves(e: Signal, o: Signal, u: Complex, m: nat, s: nat)
    requires |e| == Pow2(m) && 1 <= s <= m
    ensures Pass(e + o, u, Pow2(s)) == Pass(e, u, Pow2(s)) + Pass(o, u, Pow2(s))
  {
    Pow2Add(m - s, s);
    hide Pass;
    PassConcat(e, o, u, Pow2(s), Pow2(m - s));
  }

  lemma StageSplit(x: Signal, w: Complex, m: nat, s: nat)
    requires |x| == Pow2(m) && s < m
    ensures Stage(x, w, Pow2(s)) == Stage(Even(x), Mul(w, w), Pow2(s)) + Stage(Odd(x), Mul(w, w), Pow2(s))
  {
    hide Mul, Dft, Eval, Even, Odd;
    Pow2Grows(s, m - 1);
    assert |x| > Pow2(s);
    hide Pow2;
  }

  lemma PowOne(w: Complex)
    ensures Pow(w, 1) == w
  {
    assert Pow(w, 1) == Mul(w, Pow(w, 0));
  }

  lemma PassOneBlock(y: Signal, u: Complex)
    requires |y| > 0 && |y| % 2 == 0
    ensures Pass(y, u, |y|) == Butterfly(y, u)
  {
    hide Butterfly;
    assert y[..|y|] == y && Pass(y[|y|..], u, |y|) == [];
  }

  /** The last stage: one block, the two half-size transforms joined. */
  lemma JoinStage(x: Signal, w: Complex, half: nat, e: Signal, o: Signal)
    requires half > 0 && |x| == 2 * half && Root(w, |x|)
    requires e == Dft(Even(x), Mul(w, w)) && o == Dft(Odd(x), Mul(w, w))
    ensures Pass(e + o, Pow(w, 1), |x|) == Dft(x, w)
  {
    hide *;
    var y := e + o;
    PowOne(w);
    PassOneBlock(y, w);
    var b := Butterfly(y, w);
    forall i | 0 <= i < |x| ensures b[i] == Dft(x, w)[i] {
      var k := if i < half then i else i - half;
      assert y[k] == e[k] && y[k + half] == o[k] && |y| / 2 == half;
      Radix2(x, w, k);
      assert b[k] == Dft(x, w)[k] && b[k + half] == Dft(x, w)[k + half];
    }
  }

  /** After the last stage the array is the transform. */
  lemma StageLast(x: Signal, w: Complex)
    requires |x| > 0
    ensures Stage(x, w, |x|) == Dft(x, w)
  {}

  // The twiddle table.

  /** The table read past its end: half a turn on, the sign changes. */
  function Entry(tw: seq<Complex>, c: nat): Complex
    requires c < 2 * |tw|
  {
    if c < |tw| then tw[c] else Neg(tw[c - |tw|])
  }

  predicate PowerLaw(tw: seq<Complex>) {
    forall a, b {:trigger Mul(tw[a], tw[b])} :: 0 <= a < |tw| && 0 <= b < |tw| ==> Mul(tw[a], tw[b]) == Entry(tw, a + b)
  }

  /** What cos and sin give the table in exact arithmetic: powers of a root whose half turn is -1. */
  predicate TwiddleTable(tw: seq<Complex>, n: nat) {
    && n >= 2 && n % 2 == 0 && |tw| == n / 2
    && tw[0] == ONE
    && (|tw| >= 2 ==> Unit(tw[1]))
    && PowerLaw(tw)
  }

  /** The root the table holds the powers of. */
  function TableRoot(tw: seq<Complex>): Complex {
    if |tw| >= 2 then tw[1] else Neg(ONE)
  }

  lemma {:induction false} TwiddleIsPower(tw: seq<Complex>, n: nat, k: nat)
    requires TwiddleTable(tw, n) && k < |tw|
    ensures tw[k] == Pow(TableRoot(tw), k)
  {
    hide Mul, Unit;
    if k != 0 {
      TwiddleIsPower(tw, n, k - 1);
      assert Mul(tw[1], tw[k - 1]) == Entry(tw, k);
    }
  }

  lemma TableRootIsRoot(tw: seq<Complex>, n: nat)
    requires TwiddleTable(tw, n)
    ensures Root(TableRoot(tw), n)
  {
    hide Mul, Unit;
    MinusOneIsUnit();
    var w, h := TableRoot(tw), |tw|;
    if h == 1 {
      PowOne(w);
    } else {
      TwiddleIsPower(tw, n, h - 1);
      assert Pow(w, h) == Mul(tw[1], tw[h - 1]);
      assert Mul(tw[1], tw[h - 1]) == Entry(tw, h);
    }
  }

  lemma MinusOneIsUnit()
    ensures Unit(Neg(ONE))
  {
    hide Mul;
    MulUnits(Conj(Neg(ONE)));
  }

  /** The root the transform runs under: the table's, or its conjugate for the inverse. */
  function Direction(tw: seq<Complex>, inverse: bool): Complex {
    if inverse then Conj(TableRoot(tw)) else TableRoot(tw)
  }

  lemma DirectionIsRoot(tw: seq<Complex>, n: nat, inverse: bool)
    requires TwiddleTable(tw, n)
    ensures Root(Direction(tw, inverse), n)
  {
    TableRootIsRoot(tw, n);
    RootConj(TableRoot(tw), n);
    hide Root, TwiddleTable;
  }

  // The transform.

  method BitReverse(x: array<Complex>, ghost m: nat)
    requires x.Length == Pow2(m) && m <= 64
    modifies x
    ensures x[..] == BitReversed(old(x[..]), m)
  {
    var n := x.Length;
    TrailingZerosOfPow2(m);
    var shift := 64 - TrailingZeros(n);
    ghost var x0 := x[..];
    for i := 0 to n
      invariant forall k :: 0 <= k < n ==> x[k] == if k < i || Rev(k, m) < i then x0[Rev(k, m)] else x0[k]
    {
      var j := Reverse64(i) / Pow2(shift);
      ReverseShifted(i, m);
      RevInvolution(i, m);
      if j > i {
        x[i], x[j] := x[j], x[i];
      }
      forall k | 0 <= k < n
        ensures x[k] == if k < i + 1 || Rev(k, m) < i + 1 then x0[Rev(k, m)] else x0[k]
      {
        RevInvolution(k, m);
      }
    }
  }

  /** The butterflies of the block at `start`. */
  method Block(x: array<Complex>, tw: seq<Complex>, inverse: bool, start: nat, size: nat, step: nat)
    requires TwiddleTable(tw, x.Length) && size % 2 == 0 && x.Length == step * size && start + size <= x.Length
    modifies x
    ensures var x0, u := old(x[..]), Pow(Direction(tw, inverse), step);
            x[..] == x0[..start] + Butterfly(x0[start..start + size], u) + x0[start + size..]
  {
    hide *;
    var half := size / 2;
    ghost var x0, u := x[..], Pow(Direction(tw, inverse), step);
    ghost var y := x0[start..start + size];
    ghost var r := Butterfly(y, u);
    for k := 0 to half
      invariant forall i :: 0 <= i < size ==>
        x[start + i] == if i < k || half <= i < half + k then r[i] else y[i]
      invariant forall i :: 0 <= i < start || start + size <= i < x.Length ==> x[i] == x0[i]
    {
      TwiddleOfBlock(tw, x.Length, inverse, k, step, size);
      var w := tw[k * step];
      if inverse {
        w := Conj(w);
      }
      assert y[k + half] == x[start + (k + half)] && y[k] == x[start + k];
      assert r[k] == Add(y[k], Mul(y[k + half], w)) && r[k + half] == Sub(y[k], Mul(y[k + half], w));
      var a, b := x[start + k], Mul(x[start + k + half], w);
      x[start + k], x[start + k + half] := Add(a, b), Sub(a, b);
    }
  }

  /** One stage: the butterflies of every block of `size` entries. */
  method Butterflies(x: array<Complex>, tw: seq<Complex>, inverse: bool, size: nat, ghost blocks: nat)
    requires TwiddleTable(tw, x.Length) && size >= 2 && size % 2 == 0 && x.Length == blocks * size
    modifies x
    ensures x[..] == Pass(old(x[..]), Pow(Direction(tw, inverse), blocks), size)
  {
    hide *;
    var n := x.Length;
    var step := n / size;
    DivideProduct(blocks, size);
    ghost var u := Pow(Direction(tw, inverse), step);
    ghost var x0 := x[..];
    ghost var done := 0;
    var start := 0;
    while start < n
      invariant start == done * size <= n
      invariant x[..] == Pass(x0[..start], u, size) + x0[start..]
    {
      BlockFits(done, blocks, size);
      Splice(Pass(x0[..start], u, size), x0, x[..], start, size);
      Block(x, tw, inverse, start, size, step);
      PassExtend(x0, u, size, start, done);
      start := start + size;
      done := done + 1;
    }
    assert x0[..start] == x0 && x0[start..] == [];
  }

  lemma Splice(done: Signal, x0: Signal, x: Signal, start: nat, size: nat)
    requires |done| == start && start + size <= |x0| && x == done + x0[start..]
    ensures x[..start] == done
    ensures x[start..start + size] == x0[start..start + size] && x[start + size..] == x0[start + size..]
  {}

  lemma BlockFits(done: nat, blocks: nat, size: nat)
    requires done * size < blocks * size
    ensures (done + 1) * size == done * size + size <= blocks * size
  {
    Distribute(done, 1, size);
    if done >= blocks { Distribute(blocks, done - blocks, size); }
    Distribute(done + 1, blocks - done - 1, size);
  }

  lemma PassExtend(x0: Signal, u: Complex, size: nat, start: nat, done: nat)
    requires size > 0 && size % 2 == 0 && start == done * size && start + size <= |x0|
    ensures Pass(x0[..start + size], u, size) == Pass(x0[..start], u, size) + Butterfly(x0[start..start + size], u)
  {
    hide *;
    var y := x0[start..start + size];
    assert x0[..start + size] == x0[..start] + y;
    PassConcat(x0[..start], y, u, size, done);
    PassOneBlock(y, u);
  }

  /** The factor a butterfly reads is the k-th power of its block's root. */
  lemma TwiddleOfBlock(tw: seq<Complex>, n: nat, inverse: bool, k: nat, step: nat, size: nat)
    requires TwiddleTable(tw, n) && n == step * size && k < size / 2 && size % 2 == 0
    ensures k * step < |tw|
    ensures (if inverse then Conj(tw[k * step]) else tw[k * step]) == Pow(Pow(Direction(tw, inverse), step), k)
  {
    hide Mul, Unit, Pow, Conj, TableRoot;
    IndexInTable(k, size / 2, step, n) by { assert step * size == size * step; }
    var c := k * step;
    assert c < |tw|;
    hide *;
    TwiddleIsPower(tw, n, c);
    DirectionPower(tw, inverse, c);
    PowPow(Direction(tw, inverse), step, k);
    assert step * k == c;
  }

  lemma DirectionPower(tw: seq<Complex>, inverse: bool, c: nat)
    ensures var p := Pow(TableRoot(tw), c);
            Pow(Direction(tw, inverse), c) == if inverse then Conj(p) else p
  {
    PowConj(TableRoot(tw), c);
  }

  lemma IndexInTable(k: nat, half: nat, step: nat, n: nat)
    requires n > 0 && (2 * half) * step == n && k < half
    ensures k * step < n / 2
  {
    Distribute(half, half, step);
    Distribute(k, half - k, step);
    Distribute(half - k - 1, 1, step);
  }

  /** The transform in place; inverse leaves the inverse transform unscaled. */
  method Fft(x: array<Complex>, tw: seq<Complex>, inverse: bool, ghost m: nat)
    requires x.Length <= 1 || (x.Length == Pow2(m) && m <= 64 && TwiddleTable(tw, x.Length))
    modifies x
    ensures x[..] == Dft(old(x[..]), Direction(tw, inverse))
  {
    hide TwiddleTable, TableRoot, Direction, Root, Unit, Stage, Pass, BitReversed, Dft, Eval, Pow, Mul, Add;
    var n := x.Length;
    ghost var x0, w := x[..], Direction(tw, inverse);
    if n <= 1 {
      if n == 1 { EvalOne(x0, Pow(w, 0)); }
      return;
    }
    BitReverse(x, m);
    StageOne(x0, w, m);
    DirectionIsRoot(tw, n, inverse);
    var size := 2;
    ghost var s := 1;
    while size <= n
      invariant 1 <= s <= m + 1 && size == Pow2(s)
      invariant x[..] == Stage(x0, w, Pow2(s - 1))
      decreases m + 1 - s
    {
      if s == m + 1 { assert false; }
      BlocksFit(n, m, s);
      Butterflies(x, tw, inverse, size, Pow2(m - s));
      StageStep(x0, w, m, s);
      size := size * 2;
      s := s + 1;
    }
    if s <= m { Pow2Grows(s, m); }
    StageLast(x0, w);
  }

  lemma BlocksFit(n: nat, m: nat, s: nat)
    requires n == Pow2(m) && 1 <= s <= m
    ensures n == Pow2(m - s) * Pow2(s) && Pow2(s) % 2 == 0
  {
    Pow2Add(m - s, s);
  }

  // nextPow2.

  /** The exponent of the least power of two at or above n (CeilLog2Least). */
  function CeilLog2(n: nat): (m: nat)
    ensures Pow2(m) >= n
  {
    if n <= 1 then 0 else 1 + CeilLog2((n + 1) / 2)
  }

  lemma {:induction false} CeilLog2Least(n: nat, q: nat)
    requires Pow2(q) >= n
    ensures CeilLog2(n) <= q
  {
    if n > 1 { CeilLog2Least((n + 1) / 2, q - 1); }
  }

  method NextPow2(n: nat) returns (p: nat)
    ensures p == Pow2(CeilLog2(n))
    ensures forall q :: Pow2(q) >= n ==> p <= Pow2(q)
  {
    p := 1;
    ghost var m := 0;
    while p < n
      invariant p == Pow2(m) && m <= CeilLog2(n)
      decreases CeilLog2(n) - m
    {
      if m == CeilLog2(n) { assert false; }
      p, m := p * 2, m + 1;
    }
    CeilLog2Least(n, m);
    forall q | Pow2(q) >= n ensures p <= Pow2(q) {
      CeilLog2Least(n, q);
      Pow2Grows(m, q);
    }
  }
}
