/** Runs placed as segments: where the donor is cut, and what the cuts keep. */
module Segments {
  import opened Seqs
  import opened Correlators
  import opened Windows
  import opened Runs
  import opened Boundaries

  // The lag of a run.

  function Insert(x: int, s: seq<int>): seq<int> {
    if s == [] || x <= s[0] then [x] + s else [s[0]] + Insert(x, s[1..])
  }

  function SortInts(s: seq<int>): seq<int> { if s == [] then [] else Insert(s[0], SortInts(s[1..])) }

  lemma {:induction false} InsertKeeps(x: int, s: seq<int>)
    ensures multiset(Insert(x, s)) == multiset(s) + multiset{x} && |Insert(x, s)| == |s| + 1
  {
    if s != [] && x > s[0] {
      InsertKeeps(x, s[1..]);
      assert s == [s[0]] + s[1..];
    }
  }

  lemma {:induction false} InsertSorts(x: int, s: seq<int>)
    requires Ascending(s)
    ensures Ascending(Insert(x, s))
  {
    if s != [] && x > s[0] {
      InsertSorts(x, s[1..]);
      InsertKeeps(x, s[1..]);
      FirstBelow(s[0], x, s[1..], Insert(x, s[1..]));
    }
  }

  lemma FirstBelow(y: int, x: int, s: seq<int>, out: seq<int>)
    requires y <= x && (forall k :: 0 <= k < |s| ==> y <= s[k]) && multiset(out) == multiset(s) + multiset{x}
    ensures forall k :: 0 <= k < |out| ==> y <= out[k]
  {
    forall k | 0 <= k < |out| ensures y <= out[k] {
      assert out[k] in multiset(out);
    }
  }

  lemma {:induction false} SortSorts(s: seq<int>)
    ensures Ascending(SortInts(s)) && multiset(SortInts(s)) == multiset(s) && |SortInts(s)| == |s|
  {
    hide Insert;
    if s != [] {
      SortSorts(s[1..]);
      InsertSorts(s[0], SortInts(s[1..]));
      InsertKeeps(s[0], SortInts(s[1..]));
      assert s == [s[0]] + s[1..];
    }
  }

  function Lags(r: seq<Window>): (s: seq<int>)
    ensures |s| == |r| && forall i :: 0 <= i < |r| ==> s[i] == r[i].lag
  {
    seq(|r|, i requires 0 <= i < |r| => r[i].lag)
  }

  /** The median lag: the upper of the two middle ones of an even count. */
  function LagOf(r: Run): int
  {
    SortSorts(Lags(r));
    SortInts(Lags(r))[|r| / 2]
  }

  /** How many of them are below m, and how many above. */
  function Under(s: seq<int>, m: int): nat { if s == [] then 0 else (if s[0] < m then 1 else 0) + Under(s[1..], m) }

  function Over(s: seq<int>, m: int): nat { if s == [] then 0 else (if s[0] > m then 1 else 0) + Over(s[1..], m) }

  lemma {:induction false} InsertCounts(x: int, s: seq<int>, m: int)
    ensures Under(Insert(x, s), m) == Under(s, m) + if x < m then 1 else 0
    ensures Over(Insert(x, s), m) == Over(s, m) + if x > m then 1 else 0
  {
    if s == [] || x <= s[0] {
      assert ([x] + s)[1..] == s;
    } else {
      InsertCounts(x, s[1..], m);
      assert ([s[0]] + Insert(x, s[1..]))[1..] == Insert(x, s[1..]);
    }
  }

  lemma {:induction false} SortCounts(s: seq<int>, m: int)
    ensures Under(SortInts(s), m) == Under(s, m) && Over(SortInts(s), m) == Over(s, m)
  {
    hide Insert;
    if s != [] {
      SortCounts(s[1..], m);
      InsertCounts(s[0], SortInts(s[1..]), m);
    }
  }

  lemma {:induction false} NoneUnder(s: seq<int>, m: int)
    requires forall i :: 0 <= i < |s| ==> s[i] >= m
    ensures Under(s, m) == 0
  {
    if s != [] { NoneUnder(s[1..], m); }
  }

  lemma {:induction false} AscendingCounts(s: seq<int>, k: nat)
    requires Ascending(s) && k < |s|
    ensures Under(s, s[k]) <= k && Over(s, s[k]) <= |s| - 1 - k
  {
    if k == 0 {
      NoneUnder(s, s[0]);
      OverAtMost(s[1..], s[0]);
    } else {
      AscendingCounts(s[1..], k - 1);
    }
  }

  lemma {:induction false} OverAtMost(s: seq<int>, m: int)
    ensures Over(s, m) <= |s|
  {
    if s != [] { OverAtMost(s[1..], m); }
  }

  /** A run's lag is the median of its windows', the upper one of an even count: at most half of them are
      below it, and fewer than half above. */
  lemma LagIsMedian(r: Run)
    ensures 2 * Under(Lags(r), LagOf(r)) <= |r| && 2 * Over(Lags(r), LagOf(r)) < |r|
  {
    hide Under, Over, SortInts;
    SortSorts(Lags(r));
    SortCounts(Lags(r), LagOf(r));
    AscendingCounts(SortInts(Lags(r)), |r| / 2);
  }

  /** A run plays at the lag of one of its windows. */
  lemma LagOfWindow(r: Run) returns (m: nat)
    ensures m < |r| && r[m].lag == LagOf(r)
  {
    SortSorts(Lags(r));
    assert LagOf(r) in multiset(SortInts(Lags(r)));
    assert LagOf(r) in Lags(r);
    m :| m < |r| && Lags(r)[m] == LagOf(r);
  }

  /** lagOf's loop and sort. */
  method MedianLag(run: Run) returns (lag: int)
    ensures lag == LagOf(run)
  {
    var lags := new int[|run|];
    for i := 0 to |run|
      invariant forall j :: 0 <= j < i ==> lags[j] == run[j].lag
    {
      lags[i] := run[i].lag;
    }
    assert lags[..] == Lags(run);
    SortSorts(Lags(run));
    lag := SortInts(lags[..])[lags.Length / 2];
  }

  // Cuts.

  /** Where run a stops on the donor and run b begins. */
  datatype Cut = Cut(end: int, start: int)

  function MidOf(w: Window): int { w.start + WIN_FRAMES / 2 }

  function CutOf(d: Features, t: Features, a: Run, b: Run): Cut
    requires |d| == |t|
  {
    var la, lb := LagOf(a), LagOf(b);
    var lo, hi := MidOf(Last(a)), MidOf(b[0]);
    if lb >= la then
      var bd := BoundaryOf(d, t, lo, hi, la, lb, false);
      Cut(bd, bd)
    else
      var bt := BoundaryOf(d, t, lo + la, hi + lb, la, lb, true);
      Cut(bt - la, bt - lb)
  }

  /** The lag falls by no more than the windows on either side of the cut are apart. */
  predicate Room(a: Run, b: Run) { LagOf(a) - LagOf(b) <= b[0].start - Last(a).start }

  /** The cut keeps to the gap: run a plays to the middle of its last window, b from that of its first. */
  predicate KeepsGap(c: Cut, a: Run, b: Run) { MidOf(Last(a)) <= c.end && c.start <= MidOf(b[0]) }

  /** Between runs in order a cut keeps to its gap exactly when it has room. */
  lemma CutKeepsGap(d: Features, t: Features, a: Run, b: Run)
    requires |d| == |t| && Last(a).start < b[0].start
    ensures KeepsGap(CutOf(d, t, a, b), a, b) <==> Room(a, b)
  {
    hide LagOf, BoundaryOf;
    var la, lb := LagOf(a), LagOf(b);
    var lo, hi := MidOf(Last(a)), MidOf(b[0]);
    if lb >= la {
      BoundaryWithin(d, t, lo, hi, la, lb, false);
    } else {
      BoundaryWithin(d, t, lo + la, hi + lb, la, lb, true);
    }
  }

  /** Every cut meets: what a run plays stops before the next begins, on the donor and on the target,
      and a shrinking cut drops just the donor's extra. */
  lemma CutMeets(d: Features, t: Features, a: Run, b: Run)
    requires |d| == |t|
    ensures var c := CutOf(d, t, a, b);
            && c.end <= c.start && c.end + LagOf(a) <= c.start + LagOf(b)
            && (LagOf(b) >= LagOf(a) ==> c.start == c.end)
            && (LagOf(b) < LagOf(a) ==> c.start + LagOf(b) == c.end + LagOf(a))
  {
    hide LagOf, BoundaryOf;
  }

  /** Frame at is the middle of the first probe from lo to hi at which changing from one lag to the other
      fits best in all. */
  ghost predicate BestChange(d: Features, t: Features, lo: int, hi: int, before: int, after: int, onTarget: bool,
                             at: int)
    requires |d| == |t|
  {
    var a, b := Fits(d, t, lo, hi, before, onTarget), Fits(d, t, lo, hi, after, onTarget);
    exists i: nat :: i < |a| && at == ProbeAt(lo, i) + PROBE / 2 && BestAt(a, b, i)
  }

  predicate BestAt(a: seq<real>, b: seq<real>, i: nat)
    requires |a| == |b| && i < |a|
  {
    && (forall j :: 0 <= j < |a| ==> TotalFit(a, b, j) <= TotalFit(a, b, i))
    && (forall j :: 0 <= j < i ==> TotalFit(a, b, j) < TotalFit(a, b, i))
  }

  /** A cut with a probe in its gap is where playing the run before at its own lag up to it, and the run
      after at its own lag from it on, fits best: on the donor for a lag that grows, on the target for one
      that falls. Without a probe it is halfway. */
  lemma CutIsBest(d: Features, t: Features, a: Run, b: Run)
    requires |d| == |t|
    ensures var c, la, lb, lo, hi := CutOf(d, t, a, b), LagOf(a), LagOf(b), MidOf(Last(a)), MidOf(b[0]);
            && (lb >= la ==>
                  c.start == c.end
                  && (hi - lo >= PROBE ==> BestChange(d, t, lo, hi, la, lb, false, c.end))
                  && (hi - lo < PROBE ==> c.end == Half(lo + hi)))
            && (lb < la ==>
                  c.start + lb == c.end + la
                  && (hi + lb - (lo + la) >= PROBE ==>
                        BestChange(d, t, lo + la, hi + lb, la, lb, true, c.end + la))
                  && (hi + lb - (lo + la) < PROBE ==> c.end + la == Half(lo + la + hi + lb)))
  {
    hide LagOf, Fits, TotalFit;
    var la, lb, lo, hi := LagOf(a), LagOf(b), MidOf(Last(a)), MidOf(b[0]);
    if lb >= la {
      if hi - lo >= PROBE { BoundaryIsBest(d, t, lo, hi, la, lb, false); }
    } else {
      if hi + lb - (lo + la) >= PROBE { BoundaryIsBest(d, t, lo + la, hi + lb, la, lb, true); }
    }
  }

  lemma BoundaryIsBest(d: Features, t: Features, lo: int, hi: int, before: int, after: int, onTarget: bool)
    requires |d| == |t| && hi - lo >= PROBE
    ensures BestChange(d, t, lo, hi, before, after, onTarget, BoundaryOf(d, t, lo, hi, before, after, onTarget))
  {
    hide TotalFit, BoundaryOf;
    var i := BoundaryIsBestSplit(d, t, lo, hi, before, after, onTarget);
    assert BestAt(Fits(d, t, lo, hi, before, onTarget), Fits(d, t, lo, hi, after, onTarget), i);
  }

  /** A lag that falls by just the gap leaves an empty range: the boundary is its upper end on the
      target, whatever the recordings hold. */
  lemma BoundaryAtHi(d: Features, t: Features, a: Run, b: Run)
    requires |d| == |t| && Last(a).start < b[0].start && LagOf(a) - LagOf(b) == b[0].start - Last(a).start
    ensures var la, lb := LagOf(a), LagOf(b);
            var lo, hi := MidOf(Last(a)) + la, MidOf(b[0]) + lb;
            BoundaryOf(d, t, lo, hi, la, lb, true) == hi && CutOf(d, t, a, b) == Cut(hi - la, hi - lb)
  {
    hide LagOf;
  }

  // Segments.

  /** In nanoseconds: donor from donorStart plays at targetStart for length. */
  datatype Segment = Segment(donorStart: int, targetStart: int, length: int)

  /** A frame is 20 ms. */
  function Ns(frames: int): int { frames * 20000000 }

  function StartAt(runs: seq<Run>, d: Features, t: Features, i: nat): int
    requires |d| == |t| && i < |runs|
  {
    if i == 0 then 0 else CutOf(d, t, runs[i - 1], runs[i]).start
  }

  function EndAt(runs: seq<Run>, d: Features, t: Features, i: nat): int
    requires |d| == |t| && i < |runs|
  {
    if i == |runs| - 1 then Frames(d) else CutOf(d, t, runs[i], runs[i + 1]).end
  }

  /** Run i's donor frames, clipped to those the target has room for. */
  function ClipStart(start: int, lag: int): int { if start + lag < 0 then -lag else start }

  function ClipEnd(end: int, lag: int, n: int): int { if end + lag > n then n - lag else end }

  function Stretch(start: int, end: int, lag: int): Segment { Segment(Ns(start), Ns(start + lag), Ns(end - start)) }

  /** The segments with run i's added, if any of it is left. */
  function AddSegment(segs: seq<Segment>, start: int, end: int, lag: int, n: int): seq<Segment> {
    var ds, de := ClipStart(start, lag), ClipEnd(end, lag, n);
    if de <= ds then segs else segs + [Stretch(ds, de, lag)]
  }

  /** The segments of the first n runs. */
  function SegmentsOf(runs: seq<Run>, d: Features, t: Features, n: nat): seq<Segment>
    requires |d| == |t| && n <= |runs|
  {
    if n == 0 then []
    else AddSegment(SegmentsOf(runs, d, t, n - 1), StartAt(runs, d, t, n - 1), EndAt(runs, d, t, n - 1),
                    LagOf(runs[n - 1]), Frames(t))
  }

  method FindCuts(runs: seq<Run>, d: Features, t: Features) returns (starts: array<int>, ends: array<int>)
    requires |d| == |t| && runs != []
    ensures fresh(starts) && fresh(ends) && starts.Length == ends.Length == |runs|
    ensures forall i :: 0 <= i < |runs| ==> starts[i] == StartAt(runs, d, t, i) && ends[i] == EndAt(runs, d, t, i)
  {
    hide LagOf, BoundaryOf;
    starts, ends := new int[|runs|](_ => 0), new int[|runs|](_ => 0);
    ends[|runs| - 1] := Frames(d);
    for i := 1 to |runs|
      invariant ends[|runs| - 1] == Frames(d)
      invariant forall j :: 0 <= j < i ==> starts[j] == StartAt(runs, d, t, j)
      invariant forall j :: 0 <= j < i - 1 ==> ends[j] == EndAt(runs, d, t, j)
    {
      var a, b := runs[i - 1], runs[i];
      var la := MedianLag(a);
      var lb := MedianLag(b);
      var lo, hi := a[|a| - 1].start + WIN_FRAMES / 2, b[0].start + WIN_FRAMES / 2;
      if lb >= la {
        var bd := Boundary(d, t, lo, hi, la, lb, false);
        ends[i - 1], starts[i] := bd, bd;
        continue;
      }
      var bt := Boundary(d, t, lo + la, hi + lb, la, lb, true);
      ends[i - 1], starts[i] := bt - la, bt - lb;
    }
  }

  method PlaceSegments(runs: seq<Run>, d: Features, t: Features) returns (segs: seq<Segment>)
    requires |d| == |t|
    ensures segs == SegmentsOf(runs, d, t, |runs|)
  {
    hide LagOf, StartAt, EndAt;
    segs := [];
    if |runs| == 0 {
      return;
    }
    var starts, ends := FindCuts(runs, d, t);
    for i := 0 to |runs|
      invariant segs == SegmentsOf(runs, d, t, i)
      invariant forall j :: 0 <= j < |runs| ==> starts[j] == StartAt(runs, d, t, j) && ends[j] == EndAt(runs, d, t, j)
    {
      var lag := MedianLag(runs[i]);
      var ds, de := starts[i], ends[i];
      if ds + lag < 0 {
        ds := -lag;
      }
      if de + lag > Frames(t) {
        de := Frames(t) - lag;
      }
      assert ds == ClipStart(StartAt(runs, d, t, i), lag) && de == ClipEnd(EndAt(runs, d, t, i), lag, Frames(t));
      if de <= ds {
        continue;
      }
      segs := segs + [Segment(Ns(ds), Ns(ds + lag), Ns(de - ds))];
    }
  }

  // What placing promises.

  ghost predicate AllRoom(runs: seq<Run>) {
    forall i, j :: 0 <= i < j < |runs| && j == i + 1 ==> Room(runs[i], runs[j])
  }

  /** Runs as segmentRuns makes them, of windows that fit both recordings. */
  predicate Placeable(runs: seq<Run>, d: Features, t: Features) {
    && |d| == |t| && InOrder(runs)
    && (forall i :: 0 <= i < |runs| ==> |runs[i]| >= 2)
    && (forall i, k :: 0 <= i < |runs| && 0 <= k < |runs[i]| ==> InBoth(runs[i][k], d, t))
  }

  predicate InBoth(w: Window, d: Features, t: Features) {
    && w.start + WIN_FRAMES <= Frames(d)
    && 0 <= w.start + w.lag && w.start + w.lag + WIN_FRAMES <= Frames(t)
  }

  lemma SameBands(runs: seq<Run>, d: Features, t: Features)
    requires Placeable(runs, d, t)
    ensures |d| == |t|
  {}

  /** Run i plays at least from the middle of its first window to that of its last, within the donor. */
  lemma RunKept(runs: seq<Run>, d: Features, t: Features, i: nat)
    requires Placeable(runs, d, t) && AllRoom(runs) && i < |runs|
    ensures 0 <= StartAt(runs, d, t, i) <= MidOf(runs[i][0])
    ensures MidOf(Last(runs[i])) <= EndAt(runs, d, t, i) <= Frames(d)
  {
    hide LagOf, CutOf;
    var r := runs[i];
    assert InBoth(r[0], d, t) && InBoth(r[|r| - 1], d, t);
    if i > 0 {
      CutKeepsGap(d, t, runs[i - 1], r);
      CutMeets(d, t, runs[i - 1], r);
    }
    if i < |runs| - 1 {
      CutKeepsGap(d, t, r, runs[i + 1]);
      CutMeets(d, t, r, runs[i + 1]);
      assert InBoth(runs[i + 1][0], d, t);
    }
  }

  /** Run i's frames after clipping. */
  function PieceStart(runs: seq<Run>, d: Features, t: Features, i: nat): int
    requires |d| == |t| && i < |runs|
  {
    ClipStart(StartAt(runs, d, t, i), LagOf(runs[i]))
  }

  function PieceEnd(runs: seq<Run>, d: Features, t: Features, i: nat): int
    requires |d| == |t| && i < |runs|
  {
    ClipEnd(EndAt(runs, d, t, i), LagOf(runs[i]), Frames(t))
  }

  /** Run i plays exactly those donor frames between its cuts, or the donor's ends, that the target has at
      its lag. */
  lemma PieceHas(runs: seq<Run>, d: Features, t: Features, i: nat, x: int)
    requires |d| == |t| && i < |runs|
    ensures PieceStart(runs, d, t, i) <= x < PieceEnd(runs, d, t, i) <==>
              && (if i == 0 then 0 else CutOf(d, t, runs[i - 1], runs[i]).start) <= x
              && x < (if i == |runs| - 1 then Frames(d) else CutOf(d, t, runs[i], runs[i + 1]).end)
              && 0 <= x + LagOf(runs[i]) < Frames(t)
  {
    hide LagOf, CutOf;
  }

  function Piece(runs: seq<Run>, d: Features, t: Features, i: nat): Segment
    requires |d| == |t| && i < |runs|
  {
    Stretch(PieceStart(runs, d, t, i), PieceEnd(runs, d, t, i), LagOf(runs[i]))
  }

  /** Something of the run is left to play. */
  predicate Kept(runs: seq<Run>, d: Features, t: Features, i: nat)
    requires |d| == |t| && i < |runs|
  {
    PieceStart(runs, d, t, i) < PieceEnd(runs, d, t, i)
  }

  predicate NoneLost(runs: seq<Run>, d: Features, t: Features)
    requires |d| == |t|
  {
    forall i :: 0 <= i < |runs| ==> Kept(runs, d, t, i)
  }

  /** With room or without, a cut lies within the donor. */
  lemma CutInDonor(d: Features, t: Features, a: Run, b: Run)
    requires |d| == |t| && Last(a).start < b[0].start
    ensures CutOf(d, t, a, b).start >= MidOf(Last(a)) && CutOf(d, t, a, b).end <= MidOf(b[0])
  {
    hide LagOf, BoundaryOf;
    var la, lb := LagOf(a), LagOf(b);
    var lo, hi := MidOf(Last(a)), MidOf(b[0]);
    if lb >= la {
      BoundaryWithin(d, t, lo, hi, la, lb, false);
    } else {
      BoundaryWithin(d, t, lo + la, hi + lb, la, lb, true);
    }
  }

  /** With room or without, what is left of a run lies inside both recordings. */
  lemma PieceBounds(runs: seq<Run>, d: Features, t: Features, i: nat)
    requires Placeable(runs, d, t) && i < |runs|
    ensures 0 <= PieceStart(runs, d, t, i) && PieceEnd(runs, d, t, i) <= Frames(d)
    ensures 0 <= PieceStart(runs, d, t, i) + LagOf(runs[i])
    ensures PieceEnd(runs, d, t, i) + LagOf(runs[i]) <= Frames(t)
  {
    hide LagOf, CutOf;
    if i > 0 { CutInDonor(d, t, runs[i - 1], runs[i]); }
    if i < |runs| - 1 {
      CutInDonor(d, t, runs[i], runs[i + 1]);
      assert InBoth(runs[i + 1][0], d, t);
    }
  }

  /** With room at every cut no run is lost. */
  lemma RoomKeeps(runs: seq<Run>, d: Features, t: Features)
    requires Placeable(runs, d, t) && AllRoom(runs)
    ensures NoneLost(runs, d, t)
  {
    hide Placeable, AllRoom, Kept;
    SameBands(runs, d, t);
    forall i | 0 <= i < |runs| ensures Kept(runs, d, t, i) {
      RoomKeepsRun(runs, d, t, i);
    }
  }

  lemma RoomKeepsRun(runs: seq<Run>, d: Features, t: Features, i: nat)
    requires Placeable(runs, d, t) && AllRoom(runs) && i < |runs|
    ensures Kept(runs, d, t, i)
  {
    hide LagOf, StartAt, EndAt;
    var r := runs[i];
    RunKept(runs, d, t, i);
    var m := LagOfWindow(r);
    assert InBoth(r[m], d, t) && Increasing(r);
    assert r[0].start <= r[m].start <= Last(r).start && r[0].start < Last(r).start;
  }

  /** One run's segment ends before the next run's begins. */
  lemma PiecesMeet(runs: seq<Run>, d: Features, t: Features, i: nat)
    requires |d| == |t| && i + 1 < |runs|
    ensures PieceEnd(runs, d, t, i) <= PieceStart(runs, d, t, i + 1)
    ensures PieceEnd(runs, d, t, i) + LagOf(runs[i]) <= PieceStart(runs, d, t, i + 1) + LagOf(runs[i + 1])
  {
    hide LagOf, CutOf;
    CutMeets(d, t, runs[i], runs[i + 1]);
  }

  /** A run not lost adds its segment, and a lost one nothing. */
  lemma RunPlaced(runs: seq<Run>, d: Features, t: Features, i: nat)
    requires |d| == |t| && i < |runs|
    ensures SegmentsOf(runs, d, t, i + 1) ==
              if Kept(runs, d, t, i) then SegmentsOf(runs, d, t, i) + [Piece(runs, d, t, i)]
              else SegmentsOf(runs, d, t, i)
    ensures Kept(runs, d, t, i) ==> Piece(runs, d, t, i).length > 0
  {
    hide LagOf, StartAt, EndAt;
  }

  lemma {:induction false} EveryRunPlaced(runs: seq<Run>, d: Features, t: Features, n: nat)
    requires |d| == |t| && NoneLost(runs, d, t) && n <= |runs|
    ensures |SegmentsOf(runs, d, t, n)| == n
    ensures forall i :: 0 <= i < n ==> SegmentsOf(runs, d, t, n)[i] == Piece(runs, d, t, i)
    ensures forall i :: 0 <= i < n ==> SegmentsOf(runs, d, t, n)[i].length > 0
  {
    hide LagOf, StartAt, EndAt, Piece, Kept;
    if n != 0 {
      EveryRunPlaced(runs, d, t, n - 1);
      RunPlaced(runs, d, t, n - 1);
    }
  }

  /** The runs not lost, in order. */
  function KeptRuns(runs: seq<Run>, d: Features, t: Features, n: nat): seq<nat>
    requires |d| == |t| && n <= |runs|
  {
    if n == 0 then [] else KeptRuns(runs, d, t, n - 1) + if Kept(runs, d, t, n - 1) then [n - 1] else []
  }

  lemma {:induction false} KeptAre(runs: seq<Run>, d: Features, t: Features, n: nat)
    requires |d| == |t| && n <= |runs|
    ensures var ks := KeptRuns(runs, d, t, n);
            && Rises(ks) && (forall k <- ks :: k < n && Kept(runs, d, t, k))
            && forall i: nat :: i < n && Kept(runs, d, t, i) ==> i in ks
  {
    hide Kept;
    if n != 0 {
      KeptAre(runs, d, t, n - 1);
      var before := KeptRuns(runs, d, t, n - 1);
      assert forall p :: 0 <= p < |before| ==> before[p] in before;
    }
  }

  lemma NoneBetween(ks: seq<nat>, p: nat, k: nat)
    requires Rises(ks) && p + 1 < |ks| && ks[p] < k < ks[p + 1]
    ensures k !in ks
  {
    forall r | 0 <= r < |ks| ensures ks[r] != k {
      assert r < p ==> ks[r] < ks[p];
    }
  }

  /** There is one segment for each run not lost, in the runs' order. */
  lemma {:induction false} KeptPlaced(runs: seq<Run>, d: Features, t: Features, n: nat)
    requires |d| == |t| && n <= |runs|
    ensures var segs, ks := SegmentsOf(runs, d, t, n), KeptRuns(runs, d, t, n);
            && |segs| == |ks| && (forall p :: 0 <= p < |ks| ==> ks[p] < n)
            && forall p :: 0 <= p < |ks| ==> segs[p] == Piece(runs, d, t, ks[p]) && segs[p].length > 0
  {
    hide LagOf, StartAt, EndAt, Piece, Kept;
    if n != 0 {
      KeptPlaced(runs, d, t, n - 1);
      RunPlaced(runs, d, t, n - 1);
    }
  }

  /** So one for every run exactly when none is. */
  lemma {:induction false} SegmentsCount(runs: seq<Run>, d: Features, t: Features, n: nat)
    requires |d| == |t| && n <= |runs|
    ensures |SegmentsOf(runs, d, t, n)| <= n
    ensures |SegmentsOf(runs, d, t, n)| == n <==> forall i :: 0 <= i < n ==> Kept(runs, d, t, i)
  {
    hide LagOf, StartAt, EndAt, Piece, Kept;
    if n != 0 {
      SegmentsCount(runs, d, t, n - 1);
      RunPlaced(runs, d, t, n - 1);
    }
  }

  /** b starts, on the donor and on the target, no earlier than a ends. */
  predicate Follows(a: Segment, b: Segment) {
    a.donorStart + a.length <= b.donorStart && a.targetStart + a.length <= b.targetStart
  }

  predicate Apart(segs: seq<Segment>) { forall i, j :: 0 <= i < j < |segs| ==> Follows(segs[i], segs[j]) }

  /** In order without overlap on the donor, whatever the target. */
  predicate DonorApart(segs: seq<Segment>) {
    forall i, j :: 0 <= i < j < |segs| ==> segs[i].donorStart + segs[i].length <= segs[j].donorStart
  }

  predicate TargetApart(segs: seq<Segment>) {
    forall i, j :: 0 <= i < j < |segs| ==> segs[i].targetStart + segs[i].length <= segs[j].targetStart
  }

  predicate Nonempty(segs: seq<Segment>) { forall i :: 0 <= i < |segs| ==> segs[i].length > 0 }

  /** Each after the one before it is each after all before it. */
  lemma {:induction false} NeighboursApart(segs: seq<Segment>)
    requires Nonempty(segs)
    requires forall p, q :: 0 <= p < q < |segs| && q == p + 1 ==> Follows(segs[p], segs[q])
    ensures Apart(segs)
  {
    if segs != [] {
      var init, s := segs[..|segs| - 1], Last(segs);
      NeighboursApart(init);
      forall i | 0 <= i < |init| ensures Follows(segs[i], s) {
        if i < |init| - 1 { assert Follows(init[i], Last(init)); }
      }
    }
  }

  predicate Within(s: Segment, d: Features, t: Features) {
    && s.length > 0
    && 0 <= s.donorStart && s.donorStart + s.length <= Ns(Frames(d))
    && 0 <= s.targetStart && s.targetStart + s.length <= Ns(Frames(t))
  }

  lemma PieceFits(runs: seq<Run>, d: Features, t: Features, i: nat)
    requires Placeable(runs, d, t) && i < |runs|
    ensures Kept(runs, d, t, i) ==> Within(Piece(runs, d, t, i), d, t)
    ensures AtLag(Piece(runs, d, t, i), LagOf(runs[i]))
  {
    hide LagOf, PieceStart, PieceEnd;
    PieceBounds(runs, d, t, i);
  }

  lemma PiecesFollow(runs: seq<Run>, d: Features, t: Features, i: nat)
    requires |d| == |t| && i + 1 < |runs|
    ensures Follows(Piece(runs, d, t, i), Piece(runs, d, t, i + 1))
  {
    hide LagOf, PieceStart, PieceEnd;
    PiecesMeet(runs, d, t, i);
  }

  predicate AtLag(s: Segment, lag: int) { s.targetStart - s.donorStart == Ns(lag) }

  /** With room or without, every segment is some run's at its own lag, not empty, inside both recordings. */
  lemma {:induction false} PlacedWithin(runs: seq<Run>, d: Features, t: Features, n: nat, s: Segment) returns (i: nat)
    requires Placeable(runs, d, t) && n <= |runs| && s in SegmentsOf(runs, d, t, n)
    ensures i < n && s == Piece(runs, d, t, i) && Within(s, d, t) && AtLag(s, LagOf(runs[i]))
  {
    hide Placeable, LagOf, Piece, Kept, StartAt, EndAt, Within, AtLag;
    SameBands(runs, d, t);
    RunPlaced(runs, d, t, n - 1);
    PieceFits(runs, d, t, n - 1);
    if s in SegmentsOf(runs, d, t, n - 1) {
      i := PlacedWithin(runs, d, t, n - 1, s);
    } else {
      i := n - 1;
    }
  }

  /** With room or without, run lost or not: no run plays donor that a later one plays. */
  lemma PiecesApart(runs: seq<Run>, d: Features, t: Features, i: nat, j: nat)
    requires Placeable(runs, d, t) && i < j < |runs|
    ensures PieceEnd(runs, d, t, i) <= PieceStart(runs, d, t, j)
  {
    hide LagOf, CutOf;
    if j == i + 1 {
      PiecesMeet(runs, d, t, i);
    } else {
      CutInDonor(d, t, runs[i], runs[i + 1]);
      CutInDonor(d, t, runs[j - 1], runs[j]);
      assert runs[i + 1][0].start <= Last(runs[j - 1]).start;
    }
  }

  /** The segments placed are ordered and disjoint on the donor, each inside both recordings; only on
      the target can they overlap. When no run is lost there is one for each, at its own lag, and none does. */
  lemma PlacedInOrder(runs: seq<Run>, d: Features, t: Features)
    requires Placeable(runs, d, t)
    ensures var segs := SegmentsOf(runs, d, t, |runs|);
            && DonorApart(segs) && Nonempty(segs) && (forall s <- segs :: Within(s, d, t))
            && (Apart(segs) <==> TargetApart(segs))
            && (NoneLost(runs, d, t) ==>
                  |segs| == |runs| && Apart(segs)
                  && forall i :: 0 <= i < |segs| ==> AtLag(segs[i], LagOf(runs[i])))
  {
    hide *;
    SameBands(runs, d, t);
    var segs := SegmentsOf(runs, d, t, |runs|);
    PlacedOnDonor(runs, d, t);
    ApartOnBoth(segs);
    forall s | s in segs ensures Within(s, d, t) {
      var _ := PlacedWithin(runs, d, t, |runs|, s);
    }
    PlacedExactly(runs, d, t);
    if NoneLost(runs, d, t) {
      EveryRunPlaced(runs, d, t, |runs|);
      forall i | 0 <= i < |runs| ensures AtLag(segs[i], LagOf(runs[i])) {
        PieceFits(runs, d, t, i);
      }
    }
  }

  lemma ApartOnBoth(segs: seq<Segment>)
    requires DonorApart(segs)
    ensures Apart(segs) <==> TargetApart(segs)
  {}

  lemma PlacedOnDonor(runs: seq<Run>, d: Features, t: Features)
    requires Placeable(runs, d, t)
    ensures var segs := SegmentsOf(runs, d, t, |runs|); DonorApart(segs) && Nonempty(segs)
  {
    hide Placeable, LagOf, PieceStart, PieceEnd, SegmentsOf, KeptRuns, Kept;
    SameBands(runs, d, t);
    KeptPlaced(runs, d, t, |runs|);
    KeptAre(runs, d, t, |runs|);
    var segs, ks := SegmentsOf(runs, d, t, |runs|), KeptRuns(runs, d, t, |runs|);
    forall p, q | 0 <= p < q < |segs| ensures segs[p].donorStart + segs[p].length <= segs[q].donorStart {
      PiecesApart(runs, d, t, ks[p], ks[q]);
    }
  }

  /** Runs i and j are kept and every run between them, at least one, is lost. */
  predicate AcrossLost(runs: seq<Run>, d: Features, t: Features, i: nat, j: nat)
    requires |d| == |t| && j < |runs|
  {
    i + 1 < j && Kept(runs, d, t, i) && Kept(runs, d, t, j) && forall k :: i < k < j ==> !Kept(runs, d, t, k)
  }

  /** Runs either side of lost ones do not overlap on the target. */
  ghost predicate NoneCross(runs: seq<Run>, d: Features, t: Features)
    requires |d| == |t|
  {
    forall i: nat, j: nat :: j < |runs| && AcrossLost(runs, d, t, i, j) ==>
      PieceEnd(runs, d, t, i) + LagOf(runs[i]) <= PieceStart(runs, d, t, j) + LagOf(runs[j])
  }

  /** Every run becomes a segment exactly when none is lost, and room at every cut is one way none is. The
      segments are apart exactly when no two runs cross on the target over lost ones. */
  lemma PlacedExactly(runs: seq<Run>, d: Features, t: Features)
    requires Placeable(runs, d, t)
    ensures var segs := SegmentsOf(runs, d, t, |runs|);
            && (|segs| == |runs| <==> NoneLost(runs, d, t))
            && (Apart(segs) <==> NoneCross(runs, d, t))
    ensures AllRoom(runs) ==> NoneLost(runs, d, t)
    ensures NoneLost(runs, d, t) ==> NoneCross(runs, d, t)
  {
    hide LagOf, SegmentsOf, Placeable, AllRoom, Apart, Kept, PieceStart, PieceEnd;
    SameBands(runs, d, t);
    SegmentsCount(runs, d, t, |runs|);
    if NoneLost(runs, d, t) { NoneLostUncrossed(runs, d, t); }
    if NoneCross(runs, d, t) { UncrossedApart(runs, d, t); }
    if Apart(SegmentsOf(runs, d, t, |runs|)) { ApartUncrossed(runs, d, t); }
    if AllRoom(runs) { RoomKeeps(runs, d, t); }
  }

  lemma NoneLostUncrossed(runs: seq<Run>, d: Features, t: Features)
    requires |d| == |t| && NoneLost(runs, d, t)
    ensures NoneCross(runs, d, t)
  {
    hide Kept, PieceStart, PieceEnd, LagOf;
    forall i: nat, j: nat | j < |runs| ensures !AcrossLost(runs, d, t, i, j) {
      if i + 1 < j { assert Kept(runs, d, t, i + 1); }
    }
  }

  lemma UncrossedApart(runs: seq<Run>, d: Features, t: Features)
    requires Placeable(runs, d, t) && NoneCross(runs, d, t)
    ensures Apart(SegmentsOf(runs, d, t, |runs|))
  {
    hide Placeable, LagOf, PieceStart, PieceEnd, SegmentsOf, KeptRuns, Kept, Apart;
    SameBands(runs, d, t);
    KeptPlaced(runs, d, t, |runs|);
    KeptAre(runs, d, t, |runs|);
    var segs, ks := SegmentsOf(runs, d, t, |runs|), KeptRuns(runs, d, t, |runs|);
    forall p, q | 0 <= p < q < |segs| && q == p + 1 ensures Follows(segs[p], segs[q]) {
      PiecesApart(runs, d, t, ks[p], ks[q]);
      if ks[q] == ks[p] + 1 {
        PiecesMeet(runs, d, t, ks[p]);
      } else {
        forall k | ks[p] < k < ks[q] ensures !Kept(runs, d, t, k) {
          NoneBetween(ks, p, k);
        }
        assert AcrossLost(runs, d, t, ks[p], ks[q]);
      }
    }
    NeighboursApart(segs);
  }

  lemma ApartUncrossed(runs: seq<Run>, d: Features, t: Features)
    requires Placeable(runs, d, t) && Apart(SegmentsOf(runs, d, t, |runs|))
    ensures NoneCross(runs, d, t)
  {
    hide Placeable, LagOf, PieceStart, PieceEnd, SegmentsOf, KeptRuns, Kept;
    SameBands(runs, d, t);
    KeptPlaced(runs, d, t, |runs|);
    KeptAre(runs, d, t, |runs|);
    var segs, ks := SegmentsOf(runs, d, t, |runs|), KeptRuns(runs, d, t, |runs|);
    forall i: nat, j: nat | j < |runs| && AcrossLost(runs, d, t, i, j)
      ensures PieceEnd(runs, d, t, i) + LagOf(runs[i]) <= PieceStart(runs, d, t, j) + LagOf(runs[j])
    {
      assert i in ks && j in ks;
      var p :| 0 <= p < |ks| && ks[p] == i;
      var q :| 0 <= q < |ks| && ks[q] == j;
      assert p < q && Follows(segs[p], segs[q]);
    }
  }

  lemma KeptOf(runs: seq<Run>, d: Features, t: Features, i: nat)
    requires |d| == |t| && NoneLost(runs, d, t) && i < |runs|
    ensures Kept(runs, d, t, i)
  {}

  // Cuts without room.

  /** Where a cut without room falls: the lags and the starts beside it decide, not the recordings. */
  function Forced(a: Run, b: Run): Cut {
    var mid := Half(MidOf(Last(a)) + LagOf(a) + MidOf(b[0]) + LagOf(b));
    Cut(mid - LagOf(a), mid - LagOf(b))
  }

  lemma CutForced(d: Features, t: Features, a: Run, b: Run)
    requires |d| == |t| && Last(a).start < b[0].start && !Room(a, b)
    ensures CutOf(d, t, a, b) == Forced(a, b)
  {
    hide LagOf;
  }

  /** Where run i begins and ends, at a cut without room the forced place. */
  predicate ForcedStart(runs: seq<Run>, i: nat)
    requires i < |runs|
  {
    i > 0 && !Room(runs[i - 1], runs[i])
  }

  predicate ForcedEnd(runs: seq<Run>, i: nat)
    requires i < |runs|
  {
    i < |runs| - 1 && !Room(runs[i], runs[i + 1])
  }

  /** A run between two forced ends, or a forced end and an end of the donor, is lost or kept by the
      lags, the starts and the lengths of the recordings alone. */
  function FixedStart(runs: seq<Run>, i: nat): int
    requires i < |runs|
  {
    ClipStart(if i == 0 then 0 else Forced(runs[i - 1], runs[i]).start, LagOf(runs[i]))
  }

  function FixedEnd(runs: seq<Run>, i: nat, donor: int, target: int): int
    requires i < |runs|
  {
    ClipEnd(if i == |runs| - 1 then donor else Forced(runs[i], runs[i + 1]).end, LagOf(runs[i]), target)
  }

  lemma LostExactly(runs: seq<Run>, d: Features, t: Features, i: nat)
    requires Placeable(runs, d, t) && i < |runs|
    requires (i == 0 || ForcedStart(runs, i)) && (i == |runs| - 1 || ForcedEnd(runs, i))
    ensures !Kept(runs, d, t, i) <==> FixedEnd(runs, i, Frames(d), Frames(t)) <= FixedStart(runs, i)
  {
    hide LagOf, CutOf, Forced;
    if i > 0 { CutForced(d, t, runs[i - 1], runs[i]); }
    if i < |runs| - 1 { CutForced(d, t, runs[i], runs[i + 1]); }
  }

  /** A run with room on one side only: kept when the forced cut leaves its own window middles there,
      lost when the forced cut passes the whole gap on the other side. */
  lemma ForcedEndDecides(runs: seq<Run>, d: Features, t: Features, i: nat)
    requires Placeable(runs, d, t) && 0 < i < |runs| - 1 && ForcedEnd(runs, i) && !ForcedStart(runs, i)
    ensures FixedEnd(runs, i, Frames(d), Frames(t)) > ClipStart(MidOf(runs[i][0]), LagOf(runs[i])) ==>
              Kept(runs, d, t, i)
    ensures FixedEnd(runs, i, Frames(d), Frames(t)) <= ClipStart(MidOf(Last(runs[i - 1])), LagOf(runs[i])) ==>
              !Kept(runs, d, t, i)
  {
    hide LagOf, CutOf, Forced;
    CutForced(d, t, runs[i], runs[i + 1]);
    CutKeepsGap(d, t, runs[i - 1], runs[i]);
    CutInDonor(d, t, runs[i - 1], runs[i]);
  }

  lemma ForcedStartDecides(runs: seq<Run>, d: Features, t: Features, i: nat)
    requires Placeable(runs, d, t) && 0 < i < |runs| - 1 && ForcedStart(runs, i) && !ForcedEnd(runs, i)
    ensures FixedStart(runs, i) < ClipEnd(MidOf(Last(runs[i])), LagOf(runs[i]), Frames(t)) ==> Kept(runs, d, t, i)
    ensures FixedStart(runs, i) >= ClipEnd(MidOf(runs[i + 1][0]), LagOf(runs[i]), Frames(t)) ==> !Kept(runs, d, t, i)
  {
    hide LagOf, CutOf, Forced;
    CutForced(d, t, runs[i - 1], runs[i]);
    CutKeepsGap(d, t, runs[i], runs[i + 1]);
    CutInDonor(d, t, runs[i], runs[i + 1]);
  }
}
