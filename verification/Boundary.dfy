/** The boundary between two runs: the probe split that both offsets fit best. */
module Boundaries {
  import opened Correlators
  import opened Windows

  const PROBE: nat := 250
  const STEP: nat := 50

  /** The donor frame under probe frame at: a donor frame itself, or a target frame less the lag. */
  function DonorFrame(at: int, lag: int, onTarget: bool): int { if onTarget then at - lag else at }

  /** One band's product at a probe frame; nothing outside either recording. */
  function Term(d: seq<real>, t: seq<real>, at: int, lag: int, onTarget: bool): real {
    var di := DonorFrame(at, lag, onTarget);
    if 0 <= di < |d| && 0 <= di + lag < |t| then d[di] * t[di + lag] else 0.0
  }

  function BandFit(d: seq<real>, t: seq<real>, at: int, lag: int, onTarget: bool, n: nat): real {
    if n == 0 then 0.0 else BandFit(d, t, at, lag, onTarget, n - 1) + Term(d, t, at + n - 1, lag, onTarget)
  }

  /** How well the probe starting at `at` fits at an offset, over the first `bands` bands. */
  function Fit(d: Features, t: Features, at: int, lag: int, onTarget: bool, bands: nat): real
    requires bands <= |d| && bands <= |t|
  {
    if bands == 0 then 0.0
    else Fit(d, t, at, lag, onTarget, bands - 1) + BandFit(d[bands - 1], t[bands - 1], at, lag, onTarget, PROBE)
  }

  method ScoreProbe(d: Features, t: Features, start: int, lag: int, onTarget: bool) returns (s: real)
    requires |d| == |t|
    ensures s == Fit(d, t, start, lag, onTarget, |d|)
  {
    s := 0.0;
    for b := 0 to |d|
      invariant s == Fit(d, t, start, lag, onTarget, b)
    {
      ghost var before := s;
      for i := 0 to PROBE
        invariant s == before + BandFit(d[b], t[b], start, lag, onTarget, i)
      {
        var di, ti := start + i, start + i + lag;
        if onTarget {
          ti, di := start + i, start + i - lag;
        }
        if di < 0 || ti < 0 || di >= |d[b]| || ti >= |t[b]| {
          continue;
        }
        s := s + d[b][di] * t[b][ti];
      }
    }
  }

  // What a fit is.

  function Least(a: int, b: int): int { if a <= b then a else b }

  function Most(a: int, b: int): int { if a >= b then a else b }

  /** The dot product of what both recordings have of donor frames at to at + n, heard lag later on the target. */
  function DotShared(d: seq<real>, t: seq<real>, at: int, lag: int, n: nat): real {
    var lo, hi := Most(at, Most(0, -lag)), Least(at + n, Least(|d|, |t| - lag));
    if hi <= lo then 0.0 else Dot(d[lo..hi], t[lo + lag..hi + lag])
  }

  lemma {:induction false} DotSnoc(x: seq<real>, y: seq<real>, a: real, b: real)
    requires |x| == |y|
    ensures Dot(x + [a], y + [b]) == Dot(x, y) + a * b
  {
    if x == [] {
      assert [a][1..] == [] && [b][1..] == [];
    } else {
      assert (x + [a])[1..] == x[1..] + [a] && (y + [b])[1..] == y[1..] + [b];
      DotSnoc(x[1..], y[1..], a, b);
    }
  }

  /** A band fits by the dot product of what both recordings have of the probe, whichever of them the
      probe is laid on. */
  lemma {:induction false} BandFitIsDot(d: seq<real>, t: seq<real>, at: int, lag: int, onTarget: bool, n: nat)
    ensures BandFit(d, t, at, lag, onTarget, n) == DotShared(d, t, if onTarget then at - lag else at, lag, n)
  {
    hide DotShared, Term;
    var from := if onTarget then at - lag else at;
    if n == 0 {
      NoneShared(d, t, from, lag);
    } else {
      BandFitIsDot(d, t, at, lag, onTarget, n - 1);
      SameFrame(d, t, at + n - 1, lag, onTarget);
      SharedGrows(d, t, from, lag, n);
    }
  }

  lemma NoneShared(d: seq<real>, t: seq<real>, at: int, lag: int)
    ensures DotShared(d, t, at, lag, 0) == 0.0
  {}

  lemma SameFrame(d: seq<real>, t: seq<real>, at: int, lag: int, onTarget: bool)
    ensures Term(d, t, at, lag, onTarget) == Term(d, t, if onTarget then at - lag else at, lag, false)
  {}

  lemma SharedGrows(d: seq<real>, t: seq<real>, at: int, lag: int, n: nat)
    requires n > 0
    ensures DotShared(d, t, at, lag, n) ==
              DotShared(d, t, at, lag, n - 1) + Term(d, t, at + n - 1, lag, false)
  {
    hide Dot;
    var i := at + n - 1;
    if 0 <= i < |d| && 0 <= i + lag < |t| {
      var lo := Most(at, Most(0, -lag));
      assert d[lo..i + 1] == d[lo..i] + [d[i]] && t[lo + lag..i + 1 + lag] == t[lo + lag..i + lag] + [t[i + lag]];
      DotSnoc(d[lo..i], t[lo + lag..i + lag], d[i], t[i + lag]);
      NoDot(d[lo..i], t[lo + lag..i + lag]);
    }
  }

  lemma NoDot(x: seq<real>, y: seq<real>)
    requires |x| == |y|
    ensures x == [] ==> Dot(x, y) == 0.0
  {}

  /** A probe fits by the sum of these over the bands. */
  lemma {:induction false} FitIsSum(d: Features, t: Features, at: int, lag: int, onTarget: bool, bands: nat)
    requires bands <= |d| && bands <= |t|
    ensures Fit(d, t, at, lag, onTarget, bands) ==
              Sum(seq(bands, b requires 0 <= b < bands =>
                DotShared(d[b], t[b], if onTarget then at - lag else at, lag, PROBE)))
  {
    hide DotShared, BandFit;
    var dots := seq(bands, b requires 0 <= b < bands =>
      DotShared(d[b], t[b], if onTarget then at - lag else at, lag, PROBE));
    if bands != 0 {
      FitIsSum(d, t, at, lag, onTarget, bands - 1);
      BandFitIsDot(d[bands - 1], t[bands - 1], at, lag, onTarget, PROBE);
      assert dots[..bands - 1] == seq(bands - 1, b requires 0 <= b < bands - 1 =>
        DotShared(d[b], t[b], if onTarget then at - lag else at, lag, PROBE));
    }
  }

  // Splits.

  /** The probes, one second apart, that end by hi. */
  function Probes(lo: int, hi: int): nat { if hi - lo < PROBE then 0 else (hi - lo - PROBE) / STEP + 1 }

  function ProbeAt(lo: int, i: nat): int { lo + i * STEP }

  function Sum(s: seq<real>): real { if s == [] then 0.0 else Sum(s[..|s| - 1]) + s[|s| - 1] }

  lemma {:induction false} SumConcat(a: seq<real>, b: seq<real>)
    ensures Sum(a + b) == Sum(a) + Sum(b)
  {
    if b == [] {
      assert a + b == a;
    } else {
      var init := b[..|b| - 1];
      assert (a + b)[..|a + b| - 1] == a + init;
      SumConcat(a, init);
    }
  }

  /** How well each probe fits at an offset. */
  function Fits(d: Features, t: Features, lo: int, hi: int, lag: int, onTarget: bool): (s: seq<real>)
    requires |d| == |t|
    ensures |s| == Probes(lo, hi)
  {
    seq(Probes(lo, hi), i requires 0 <= i < Probes(lo, hi) => Fit(d, t, ProbeAt(lo, i), lag, onTarget, |d|))
  }

  /** Each is the probe's at its place, over every band. */
  lemma FitsAreSums(d: Features, t: Features, lo: int, hi: int, lag: int, onTarget: bool, i: nat)
    requires |d| == |t| && i < Probes(lo, hi)
    ensures var at := lo + i * STEP - if onTarget then lag else 0;
            at + (if onTarget then lag else 0) + PROBE <= hi
            && Fits(d, t, lo, hi, lag, onTarget)[i] ==
                 Sum(seq(|d|, b requires 0 <= b < |d| => DotShared(d[b], t[b], at, lag, PROBE)))
  {
    hide Fit, DotShared, Sum;
    FitIsSum(d, t, ProbeAt(lo, i), lag, onTarget, |d|);
    var at := lo + i * STEP - if onTarget then lag else 0;
    assert seq(|d|, b requires 0 <= b < |d| => DotShared(d[b], t[b], at, lag, PROBE)) ==
           seq(|d|, b requires 0 <= b < |d| =>
             DotShared(d[b], t[b], if onTarget then ProbeAt(lo, i) - lag else ProbeAt(lo, i), lag, PROBE));
  }

  /** The total fit of a split: offset A before probe i, offset B from it on. */
  function TotalFit(a: seq<real>, b: seq<real>, i: nat): real
    requires |a| == |b| && i <= |a|
  {
    Sum(a[..i]) + Sum(b[i..])
  }

  function Totals(a: seq<real>, b: seq<real>): (s: seq<real>)
    requires |a| == |b|
    ensures |s| == |a| && forall i :: 0 <= i < |a| ==> s[i] == TotalFit(a, b, i)
  {
    seq(|a|, i requires 0 <= i < |a| => TotalFit(a, b, i))
  }

  /** What B gains on A, probe by probe. */
  function Diffs(a: seq<real>, b: seq<real>): (s: seq<real>)
    requires |a| == |b|
    ensures |s| == |a| && forall i :: 0 <= i < |a| ==> s[i] == b[i] - a[i]
  {
    seq(|a|, i requires 0 <= i < |a| => b[i] - a[i])
  }

  /** The signed sum the search accumulates over the first n differences for split i. */
  function Gain(diffs: seq<real>, i: nat, n: nat): real
    requires n <= |diffs|
  {
    if n == 0 then 0.0 else Gain(diffs, i, n - 1) + (if n - 1 < i then -diffs[n - 1] else diffs[n - 1])
  }

  /** The gain ranks splits as the total fit does: it is twice that less a constant. */
  lemma GainRanksFit(a: seq<real>, b: seq<real>, i: nat)
    requires |a| == |b| && i <= |a|
    ensures Gain(Diffs(a, b), i, |a|) == 2.0 * TotalFit(a, b, i) - Sum(a) - Sum(b)
  {
    hide Sum, Gain, Diffs;
    GainOver(a, b, i, |a|);
    SumSplit(a, i);
    SumSplit(b, i);
  }

  lemma SumSplit(s: seq<real>, i: nat)
    requires i <= |s|
    ensures Sum(s) == Sum(s[..i]) + Sum(s[i..]) && s[i..|s|] == s[i..] && s[..|s|] == s
  {
    hide Sum;
    assert s[..i] + s[i..] == s;
    SumConcat(s[..i], s[i..]);
  }

  lemma {:induction false} GainBefore(a: seq<real>, b: seq<real>, i: nat, n: nat)
    requires |a| == |b| && n <= |a| && n <= i
    ensures Gain(Diffs(a, b), i, n) == Sum(a[..n]) - Sum(b[..n])
  {
    if n != 0 {
      GainBefore(a, b, i, n - 1);
      hide Sum;
      SumGrows(a, 0, n);
      SumGrows(b, 0, n);
    }
  }

  lemma {:induction false} GainOver(a: seq<real>, b: seq<real>, i: nat, n: nat)
    requires |a| == |b| && i <= n <= |a|
    ensures Gain(Diffs(a, b), i, n) == Sum(a[..i]) - Sum(b[..i]) + Sum(b[i..n]) - Sum(a[i..n])
  {
    if n == i {
      GainBefore(a, b, i, n);
      assert a[i..n] == b[i..n] == [];
    } else {
      GainOver(a, b, i, n - 1);
      hide Sum;
      SumGrows(a, i, n);
      SumGrows(b, i, n);
    }
  }

  lemma SumGrows(s: seq<real>, i: nat, n: nat)
    requires i < n <= |s|
    ensures Sum(s[i..n]) == Sum(s[i..n - 1]) + s[n - 1]
    ensures s[0..n] == s[..n] && s[0..n - 1] == s[..n - 1]
  {
    assert s[i..n][..n - i - 1] == s[i..n - 1];
  }

  // The search.

  /** Halved toward zero. */
  function Half(x: int): int { if x >= 0 then x / 2 else -(-x / 2) }

  /** The first position of the highest value. */
  function FirstMax(s: seq<real>): (k: nat)
    requires s != []
    ensures FirstPeak(s, k)
  {
    if |s| == 1 then 0
    else
      var k := FirstMax(s[..|s| - 1]);
      if s[|s| - 1] > s[k] then |s| - 1 else k
  }

  /** The boundary between offset A and offset B in [lo, hi]. */
  function BoundaryOf(d: Features, t: Features, lo: int, hi: int, lagA: int, lagB: int, onTarget: bool): int
    requires |d| == |t|
  {
    if Probes(lo, hi) == 0 then Half(lo + hi)
    else
      var a, b := Fits(d, t, lo, hi, lagA, onTarget), Fits(d, t, lo, hi, lagB, onTarget);
      ProbeAt(lo, FirstMax(Totals(a, b))) + PROBE / 2
  }

  method SumGain(diffs: seq<real>, i: nat) returns (gain: real)
    ensures gain == Gain(diffs, i, |diffs|)
  {
    gain := 0.0;
    for j := 0 to |diffs|
      invariant gain == Gain(diffs, i, j)
    {
      if j < i {
        gain := gain - diffs[j];
      } else {
        gain := gain + diffs[j];
      }
    }
  }

  /** The differences of the probes and where they start. */
  method ReadProbes(d: Features, t: Features, lo: int, hi: int, lagA: int, lagB: int, onTarget: bool)
    returns (diffs: seq<real>, starts: seq<int>)
    requires |d| == |t|
    ensures diffs == Diffs(Fits(d, t, lo, hi, lagA, onTarget), Fits(d, t, lo, hi, lagB, onTarget))
    ensures |starts| == |diffs| && forall i :: 0 <= i < |starts| ==> starts[i] == ProbeAt(lo, i)
  {
    hide Fit;
    diffs, starts := [], [];
    var st := lo;
    while st + PROBE <= hi
      invariant |starts| == |diffs| <= Probes(lo, hi) && st == ProbeAt(lo, |starts|)
      invariant st + PROBE > hi ==> |diffs| == Probes(lo, hi)
      invariant forall i :: 0 <= i < |starts| ==> starts[i] == ProbeAt(lo, i)
      invariant forall i :: 0 <= i < |diffs| ==>
        diffs[i] == Fit(d, t, ProbeAt(lo, i), lagB, onTarget, |d|) - Fit(d, t, ProbeAt(lo, i), lagA, onTarget, |d|)
    {
      var fitB := ScoreProbe(d, t, st, lagB, onTarget);
      var fitA := ScoreProbe(d, t, st, lagA, onTarget);
      diffs := diffs + [fitB - fitA];
      starts := starts + [st];
      st := st + STEP;
    }
  }

  method Boundary(d: Features, t: Features, lo: int, hi: int, lagA: int, lagB: int, onTarget: bool) returns (best: int)
    requires |d| == |t|
    ensures best == BoundaryOf(d, t, lo, hi, lagA, lagB, onTarget)
  {
    hide Gain, TotalFit, Fits, Diffs, Sum, Half;
    best := Half(lo + hi);
    var diffs, starts := ReadProbes(d, t, lo, hi, lagA, lagB, onTarget);
    ghost var a, b := Fits(d, t, lo, hi, lagA, onTarget), Fits(d, t, lo, hi, lagB, onTarget);
    ghost var totals := Totals(a, b);
    // No gain yet is the source's minus infinity.
    var seen, bestGain := false, 0.0;
    for i := 0 to |starts|
      invariant seen <==> i > 0
      invariant !seen ==> best == Half(lo + hi)
      invariant seen ==> best == ProbeAt(lo, FirstMax(totals[..i])) + PROBE / 2
      invariant seen ==> bestGain == Gain(diffs, FirstMax(totals[..i]), |diffs|)
    {
      var gain := SumGain(diffs, i);
      GainRanksFit(a, b, i);
      assert totals[..i + 1][..i] == totals[..i];
      if seen { GainRanksFit(a, b, FirstMax(totals[..i])); }
      if !seen || gain > bestGain {
        seen, best, bestGain := true, starts[i] + PROBE / 2, gain;
      }
    }
    assert totals[..|starts|] == totals;
  }

  // What the boundary is.

  /** With at least one probe: the first split of the best total fit, at that probe's middle. */
  lemma BoundaryIsBestSplit(d: Features, t: Features, lo: int, hi: int, lagA: int, lagB: int, onTarget: bool)
    returns (i: nat)
    requires |d| == |t| && hi - lo >= PROBE
    ensures i < Probes(lo, hi)
    ensures BoundaryOf(d, t, lo, hi, lagA, lagB, onTarget) == ProbeAt(lo, i) + PROBE / 2
    ensures var a, b := Fits(d, t, lo, hi, lagA, onTarget), Fits(d, t, lo, hi, lagB, onTarget);
            && (forall j :: 0 <= j < Probes(lo, hi) ==> TotalFit(a, b, j) <= TotalFit(a, b, i))
            && (forall j :: 0 <= j < i ==> TotalFit(a, b, j) < TotalFit(a, b, i))
  {
    hide TotalFit;
    var a, b := Fits(d, t, lo, hi, lagA, onTarget), Fits(d, t, lo, hi, lagB, onTarget);
    i := FirstMax(Totals(a, b));
  }

  /** The boundary lies in [lo, hi] when that is a range, and between hi and lo when it is not. */
  lemma BoundaryWithin(d: Features, t: Features, lo: int, hi: int, lagA: int, lagB: int, onTarget: bool)
    requires |d| == |t|
    ensures var r := BoundaryOf(d, t, lo, hi, lagA, lagB, onTarget);
            if lo <= hi then lo <= r <= hi else hi <= r <= lo
  {
    if hi - lo >= PROBE {
      var i := BoundaryIsBestSplit(d, t, lo, hi, lagA, lagB, onTarget);
      assert STEP * i <= hi - lo - PROBE;
    }
  }

  /** The half-open [lo, hi) of the source's comment holds exactly when the range is not empty
      and is not the one frame the halving toward zero rounds up out of. */
  lemma BoundaryBelowHi(d: Features, t: Features, lo: int, hi: int, lagA: int, lagB: int, onTarget: bool)
    requires |d| == |t|
    ensures lo <= BoundaryOf(d, t, lo, hi, lagA, lagB, onTarget) < hi <==> lo < hi && !(hi == lo + 1 && hi <= 0)
  {
    BoundaryWithin(d, t, lo, hi, lagA, lagB, onTarget);
    if hi - lo >= PROBE {
      var i := BoundaryIsBestSplit(d, t, lo, hi, lagA, lagB, onTarget);
      assert STEP * i <= hi - lo - PROBE;
    }
  }
}
