/** An alignment at the chosen rate, from the features to the segments. */
module Alignment {
  import opened Seqs
  import opened Options
  import opened Complexes
  import opened Dfts
  import opened Ffts
  import opened Correlators
  import opened Windows
  import opened Runs
  import opened Segments
  import opened Grafts

  lemma {:induction false} InFlatten(rs: seq<Run>, i: nat, k: nat)
    requires i < |rs| && k < |rs[i]|
    ensures rs[i][k] in Flatten(rs)
  {
    if i < |rs| - 1 {
      InFlatten(rs[..|rs| - 1], i, k);
    }
  }

  lemma {:induction false} PairedFrom(rs: seq<Run>)
    ensures forall w :: w in Flatten(Paired(rs)) ==> w in Flatten(rs)
  {
    if rs != [] {
      var init, r := rs[..|rs| - 1], Last(rs);
      PairedFrom(init);
      FlattenSnoc(Paired(init), r);
    }
  }

  lemma {:induction false} ConfidentFrom(ws: seq<Window>)
    ensures forall w :: w in Confident(ws) ==> w in ws
  {
    if ws != [] {
      ConfidentFrom(ws[..|ws| - 1]);
    }
  }

  /** Runs hold only windows that were found. */
  lemma RunsFrom(ws: seq<Window>, i: nat, k: nat)
    requires i < |SegmentRunsOf(ws)| && k < |SegmentRunsOf(ws)[i]|
    ensures SegmentRunsOf(ws)[i][k] in ws
  {
    hide Flatten, Group, Merge, Paired, Confident;
    var groups := Group(Confident(ws), AGREE_FRAMES);
    InFlatten(SegmentRunsOf(ws), i, k);
    MergeKeepsWindows(groups);
    PairedFrom(groups);
    GroupPartitions(Confident(ws), AGREE_FRAMES);
    ConfidentFrom(ws);
  }

  /** The windows of two recordings give runs that can be placed on them. */
  lemma WindowsPlaceable(ws: seq<Window>, d: Features, t: Features)
    requires Rectangular(d) && Rectangular(t) && |d| == |t| > 0 && WIN_FRAMES <= Frames(t)
    requires Increasing(ws) && forall w <- ws :: WindowOf(w, d, t)
    ensures Placeable(SegmentRunsOf(ws), d, t)
  {
    hide SegmentRunsOf, InOrder, Increasing, Scores, Rectangular, Frames;
    var runs := SegmentRunsOf(ws);
    SegmentRunsInOrder(ws);
    RunsPaired(ws);
    forall i, k | 0 <= i < |runs| && 0 <= k < |runs[i]| ensures InBoth(runs[i][k], d, t) {
      RunsFrom(ws, i, k);
    }
  }

  lemma RunsPaired(ws: seq<Window>)
    ensures forall i :: 0 <= i < |SegmentRunsOf(ws)| ==> |SegmentRunsOf(ws)[i]| >= 2
  {
    MergeSeparates(Group(Confident(ws), AGREE_FRAMES));
  }

  /** Every window of the donor at full stride, scored against the target. */
  ghost predicate AllWindows(ws: seq<Window>, d: Features, t: Features)
    requires Rectangular(d) && Rectangular(t) && |d| == |t| > 0 && WIN_FRAMES <= Frames(t)
  {
    && Increasing(ws)
    && (forall w <- ws :: WindowOf(w, d, t))
    && (forall i :: 0 <= i < |ws| ==> ws[i].start == i * STEP_FRAMES)
    && |ws| * STEP_FRAMES + WIN_FRAMES > Frames(d)
  }

  /** What is promised of the segments: in order on the donor inside both recordings, apart exactly when no
      runs cross over lost ones, accepted under every sort exactly when they start in order on the target,
      played forward at every rate exactly when none resumes. */
  ghost predicate Placed(segs: seq<Segment>, runs: seq<Run>, d: Features, t: Features)
    requires |d| == |t|
  {
    && DonorApart(segs) && (forall s <- segs :: Within(s, d, t))
    && (Apart(segs) <==> NoneCross(runs, d, t))
    && ((forall sorted :: SortOf(sorted, segs) ==> Forward(sorted)) <==> TargetsRise(segs))
    && (forall rate :: PlaysForward(segs, rate) <==> NoneResumes(segs))
    && (NoneLost(runs, d, t) ==> |segs| == |runs| && Apart(segs) && TargetsRise(segs) && NoneResumes(segs))
  }

  lemma SegmentsPlaced(runs: seq<Run>, d: Features, t: Features)
    requires Placeable(runs, d, t)
    ensures Placed(SegmentsOf(runs, d, t, |runs|), runs, d, t)
  {
    hide Placeable, NoneLost, NoneCross, SegmentsOf, SortOf, Forward, ByTarget, Apart, TargetsRise, PlaysForward,
         NoneResumes, DonorApart, Nonempty, Within;
    SameBands(runs, d, t);
    var segs := SegmentsOf(runs, d, t, |runs|);
    PlacedInOrder(runs, d, t);
    PlacedExactly(runs, d, t);
    PlacedAccepted(runs, d, t);
    forall rate ensures PlaysForward(segs, rate) <==> NoneResumes(segs) {
      PlaysForwardExactly(segs, rate);
    }
    if Apart(segs) { ApartPlaysForward(segs, 1.0); }
  }

  /** Align from the rate chosen on: windows, runs and segments; None is its error for a recording
      shorter than a window. */
  method AlignAt(d: Features, t: Features, tw: seq<Complex>)
    returns (r: Option<seq<Segment>>, ghost ws: seq<Window>, ghost runs: seq<Run>)
    requires Rectangular(d) && Rectangular(t) && |d| == |t| > 0
    requires CeilLog2(Frames(t) + WIN_FRAMES) <= 64
    requires TwiddleTable(tw, Pow2(CeilLog2(Frames(t) + WIN_FRAMES)))
    ensures r.None? <==> Frames(d) < WIN_FRAMES || Frames(t) < WIN_FRAMES
    ensures r.Some? ==> AllWindows(ws, d, t) && runs == SegmentRunsOf(ws) && Placeable(runs, d, t)
    ensures r.Some? ==> r.value == SegmentsOf(runs, d, t, |runs|)
    ensures r.Some? ==> Placed(r.value, runs, d, t)
  {
    hide TwiddleTable, CeilLog2, Pow2, Placed, SegmentsOf, SegmentRunsOf, WindowOf, Increasing;
    ws, runs := [], [];
    if Frames(d) < WIN_FRAMES || Frames(t) < WIN_FRAMES {
      return None, ws, runs;
    }
    var tg := NewTarget(t, tw);
    var windows := WindowsOf(tg, t, tw, d, 1);
    ws := windows;
    var found := SegmentRuns(windows);
    runs := found;
    WindowsPlaceable(ws, d, t);
    var segs := PlaceSegments(found, d, t);
    r := Some(segs);
    SegmentsPlaced(runs, d, t);
  }
}
