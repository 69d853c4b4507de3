/** The donor's windows: where each fits the target best, and whether that is trusted. */
module Windows {
  import opened Complexes
  import opened Ffts
  import opened Dfts
  import opened Correlators

  const STEP_FRAMES: nat := 1500
  const GUARD_FRAMES: nat := 50
  const MIN_RATIO := 1.5
  const MIN_PEAK := 0.05

  datatype Ratio = Infinite | Finite(value: real)

  /** start is a donor frame, lag the target frame less it. */
  datatype Window = Window(start: nat, lag: int, peak: real, ratio: Ratio, confident: bool)

  /** Outside the guard around the peak k. */
  predicate Clear(i: int, k: int) { i < k - GUARD_FRAMES || i > k + GUARD_FRAMES }

  /** k is the first position with the highest score. */
  predicate FirstPeak(s: seq<real>, k: nat) {
    && k < |s|
    && (forall i :: 0 <= i < |s| ==> s[i] <= s[k])
    && (forall i :: 0 <= i < k ==> s[i] < s[k])
  }

  /** The best of the scores clear of k. */
  predicate BestClear(s: seq<real>, k: nat, i: nat) {
    i < |s| && Clear(i, k) && forall j :: 0 <= j < |s| && Clear(j, k) ==> s[j] <= s[i]
  }

  /** How far the peak at k stands above the scores clear of it; infinitely when none is positive. */
  ghost predicate RatioTo(ratio: Ratio, s: seq<real>, k: nat)
    requires k < |s|
  {
    match ratio
    case Infinite => forall i :: 0 <= i < |s| && Clear(i, k) ==> s[i] <= 0.0
    case Finite(v) => exists i: nat :: BestClear(s, k, i) && s[i] > 0.0 && v * s[i] == s[k]
  }

  /** w is read off the scores s of the donor window at w.start: confident exactly when the peak
      is high enough and stands half again above every score clear of it. */
  ghost predicate ReadOff(w: Window, s: seq<real>) {
    var k := w.start + w.lag;
    && k >= 0 && FirstPeak(s, k) && w.peak == s[k] && RatioTo(w.ratio, s, k)
    && (w.confident <==> s[k] >= MIN_PEAK && forall i :: 0 <= i < |s| && Clear(i, k) ==> MIN_RATIO * s[i] <= s[k])
  }

  method ReadWindow(s: seq<real>, start: nat) returns (w: Window)
    requires s != []
    ensures w.start == start && ReadOff(w, s)
  {
    var k := FirstPeakOf(s);
    var seen, second := SecondBest(s, k);
    var ratio := Infinite;
    if seen && second > 0.0 {
      ratio := Finite(s[k] / second);
      RatioTest(s[k], second);
    }
    w := Window(start, k - start, s[k], ratio, (ratio.Infinite? || ratio.value >= MIN_RATIO) && s[k] >= MIN_PEAK);
  }

  /** The first highest score. */
  method FirstPeakOf(s: seq<real>) returns (k: nat)
    requires s != []
    ensures FirstPeak(s, k)
  {
    k := 0;
    for i := 0 to |s|
      invariant k < |s|
      invariant forall j :: 0 <= j < i ==> s[j] <= s[k]
      invariant forall j :: 0 <= j < k ==> s[j] < s[k]
      invariant k == 0 || k < i
    {
      if s[i] > s[k] {
        k := i;
      }
    }
  }

  /** The best score clear of the peak; none seen is the source's minus infinity. */
  method SecondBest(s: seq<real>, k: nat) returns (seen: bool, second: real)
    ensures !seen ==> forall i :: 0 <= i < |s| ==> !Clear(i, k)
    ensures seen ==> exists i: nat :: BestClear(s, k, i) && s[i] == second
  {
    seen, second := false, 0.0;
    ghost var best := 0;
    for i := 0 to |s|
      invariant forall j :: 0 <= j < i && Clear(j, k) ==> seen && s[j] <= second
      invariant seen ==> 0 <= best < i && Clear(best, k) && s[best] == second
    {
      if Clear(i, k) && (!seen || s[i] > second) {
        seen, second, best := true, s[i], i;
      }
    }
    assert seen ==> BestClear(s, k, best);
  }

  lemma RatioTest(peak: real, second: real)
    requires second > 0.0
    ensures peak / second >= MIN_RATIO <==> MIN_RATIO * second <= peak
  {
    var q := peak / second;
    assert q * second == peak;
    if q >= MIN_RATIO { assert (q - MIN_RATIO) * second >= 0.0; }
    if q < MIN_RATIO { assert (MIN_RATIO - q) * second > 0.0; }
  }

  /** A window of the donor d scored against the target t. */
  ghost predicate WindowOf(w: Window, d: Features, t: Features)
    requires Rectangular(d) && Rectangular(t) && |d| == |t| > 0 && WIN_FRAMES <= Frames(t)
  {
    && w.start + WIN_FRAMES <= Frames(d)
    && ReadOff(w, Scores(d, w.start, t))
  }

  /** The window's score at every target position where it fits. */
  function Scores(d: Features, start: nat, t: Features): (s: seq<real>)
    requires Rectangular(d) && Rectangular(t) && |d| == |t| > 0
    requires start + WIN_FRAMES <= Frames(d) && WIN_FRAMES <= Frames(t)
    ensures |s| == Frames(t) - WIN_FRAMES + 1
    ensures forall k :: 0 <= k < |s| ==> s[k] == Score(d, start, t, k)
  {
    seq(Frames(t) - WIN_FRAMES + 1, k requires 0 <= k < Frames(t) - WIN_FRAMES + 1 => Score(d, start, t, k))
  }

  /** Starts strictly increase. */
  predicate Increasing(ws: seq<Window>) {
    forall i, j :: 0 <= i < j < |ws| ==> ws[i].start < ws[j].start
  }

  /** Every window of the donor, stepping STEP_FRAMES * stride (in parallel in the source: each
      is independent); none when the target is shorter than one. */
  method WindowsOf(tg: Target, ghost t: Features, tw: seq<Complex>, d: Features, stride: nat) returns (ws: seq<Window>)
    requires IsTargetOf(tg, t, tw) && Rectangular(d) && |d| == |t| > 0 && stride > 0
    requires CeilLog2(tg.n + WIN_FRAMES) <= 64
    ensures tg.n < WIN_FRAMES ==> ws == []
    ensures tg.n >= WIN_FRAMES ==> forall w <- ws :: WindowOf(w, d, t)
    ensures tg.n >= WIN_FRAMES ==> |ws| * (STEP_FRAMES * stride) + WIN_FRAMES > Frames(d)
    ensures forall i :: 0 <= i < |ws| ==> ws[i].start == i * (STEP_FRAMES * stride)
    ensures Increasing(ws)
  {
    hide TwiddleTable, CeilLog2, Pow2, Score, ReadOff;
    ws := [];
    var st, step := 0, STEP_FRAMES * stride;
    ghost var n := 0;
    while st + WIN_FRAMES <= Frames(d)
      invariant st == n * step
      invariant |ws| == if tg.n < WIN_FRAMES then 0 else n
      invariant tg.n >= WIN_FRAMES ==> forall w <- ws :: WindowOf(w, d, t)
      invariant forall i :: 0 <= i < |ws| ==> ws[i].start == i * step
    {
      var s := Correlate(tg, t, tw, d, st);
      if s != [] {
        assert s == Scores(d, st, t);
        var w := ReadWindow(s, st);
        ws := ws + [w];
      }
      Next(n, step);
      st, n := st + step, n + 1;
    }
    forall i, j | 0 <= i < j < |ws| ensures i * step < j * step {
      Climb(i, j, step);
    }
  }

  lemma Next(n: nat, step: nat)
    ensures (n + 1) * step == n * step + step
  {}

  lemma Climb(i: nat, j: nat, step: nat)
    requires i < j && step > 0
    ensures i * step < j * step
  {
    Distribute(i, j - i, step);
    Distribute(j - i - 1, 1, step);
  }
}
