/** Confident windows grouped into runs of one offset. */
module Runs {
  import opened Seqs
  import opened Windows

  /** At least one window. */
  type Run = r: seq<Window> | r != [] witness [Window(0, 0, 0.0, Infinite, true)]

  const AGREE_FRAMES: nat := 2

  function Abs(x: int): nat { if x < 0 then -x else x }

  function Flatten(rs: seq<Run>): seq<Window> {
    if rs == [] then [] else Flatten(rs[..|rs| - 1]) + Last(rs)
  }

  lemma FlattenSnoc(rs: seq<Run>, r: Run)
    ensures Flatten(rs + [r]) == Flatten(rs) + r
  {
    assert (rs + [r])[..|rs|] == rs;
  }

  function Confident(ws: seq<Window>): (cs: seq<Window>) {
    if ws == [] then []
    else if Last(ws).confident then Confident(ws[..|ws| - 1]) + [Last(ws)]
    else Confident(ws[..|ws| - 1])
  }

  /** w goes on from the run r: its lag is within gap of r's last. */
  predicate Joins(r: Run, w: Window, gap: nat) { Abs(w.lag - Last(r).lag) <= gap }

  /** Windows cut where the lag steps by more than gap. */
  function Group(cs: seq<Window>, gap: nat): (rs: seq<Run>)
    ensures cs == [] <==> rs == []
  {
    if cs == [] then [] else Grow(Group(cs[..|cs| - 1], gap), Last(cs), gap)
  }

  function Grow(rs: seq<Run>, w: Window, gap: nat): (out: seq<Run>)
    ensures out != []
  {
    if rs != [] && Joins(Last(rs), w, gap) then rs[..|rs| - 1] + [Last(rs) + [w]] else rs + [[w]]
  }

  lemma GroupSnoc(cs: seq<Window>, w: Window, gap: nat)
    ensures Group(cs + [w], gap) == Grow(Group(cs, gap), w, gap)
  {
    assert (cs + [w])[..|cs|] == cs;
  }

  /** The runs begin at one offset. */
  predicate SameOffset(a: Run, b: Run) { Abs(a[0].lag - b[0].lag) <= AGREE_FRAMES }

  /** Runs of two or more windows, a run merged into the one before when their offsets agree. */
  function Merge(rs: seq<Run>): seq<Run> {
    if rs == [] then [] else Fold(Merge(rs[..|rs| - 1]), Last(rs))
  }

  function Fold(out: seq<Run>, r: Run): seq<Run> {
    if |r| < 2 then out
    else if out != [] && SameOffset(Last(out), r) then out[..|out| - 1] + [Last(out) + r]
    else out + [r]
  }

  // What grouping promises.

  /** Adjacent windows of a run agree; where one run ends and the next begins they do not. */
  ghost predicate CutAtJumps(rs: seq<Run>, gap: nat) {
    && (forall i :: 0 <= i < |rs| ==> Smooth(rs[i], gap))
    && (forall i, j :: 0 <= i < j < |rs| && j == i + 1 ==> !Joins(rs[i], rs[j][0], gap))
  }

  ghost predicate Smooth(r: seq<Window>, gap: nat) {
    forall k, m :: 0 <= k < m < |r| && m == k + 1 ==> Abs(r[m].lag - r[k].lag) <= gap
  }

  /** Grouping keeps every window in order and cuts exactly at the jumps. */
  lemma {:induction false} GroupPartitions(cs: seq<Window>, gap: nat)
    ensures Flatten(Group(cs, gap)) == cs
    ensures CutAtJumps(Group(cs, gap), gap)
  {
    if cs != [] {
      var init, w := cs[..|cs| - 1], Last(cs);
      GroupPartitions(init, gap);
      assert cs == init + [w];
      GrowPartitions(Group(init, gap), w, gap);
    }
  }

  lemma GrowPartitions(rs: seq<Run>, w: Window, gap: nat)
    requires CutAtJumps(rs, gap)
    ensures Flatten(Grow(rs, w, gap)) == Flatten(rs) + [w]
    ensures CutAtJumps(Grow(rs, w, gap), gap)
  {
    if rs != [] && Joins(Last(rs), w, gap) {
      var init, r := rs[..|rs| - 1], Last(rs);
      FlattenSnoc(init, r + [w]);
      assert Smooth(r, gap);
      assert Smooth(r + [w], gap);
    } else {
      FlattenSnoc(rs, [w]);
    }
  }

  // Runs in order.

  /** Starts strictly increase within each run and from run to run. */
  predicate InOrder(rs: seq<Run>) {
    && (forall i :: 0 <= i < |rs| ==> Increasing(rs[i]))
    && (forall i, j :: 0 <= i < j < |rs| ==> Last(rs[i]).start < rs[j][0].start)
  }

  lemma {:induction false} ConfidentIncreasing(ws: seq<Window>)
    requires Increasing(ws)
    ensures Increasing(Confident(ws))
    ensures Confident(ws) != [] ==> Last(Confident(ws)).start <= Last(ws).start
  {
    if ws != [] { ConfidentIncreasing(ws[..|ws| - 1]); }
  }

  lemma {:induction false} GroupInOrder(cs: seq<Window>, gap: nat)
    requires Increasing(cs)
    ensures InOrder(Group(cs, gap))
    ensures cs != [] ==> Last(Last(Group(cs, gap))) == Last(cs)
  {
    if cs != [] {
      GroupInOrder(cs[..|cs| - 1], gap);
      GrowInOrder(Group(cs[..|cs| - 1], gap), Last(cs), gap);
    }
  }

  lemma GrowInOrder(rs: seq<Run>, w: Window, gap: nat)
    requires InOrder(rs) && (rs != [] ==> Last(Last(rs)).start < w.start)
    ensures InOrder(Grow(rs, w, gap)) && Last(Last(Grow(rs, w, gap))) == w
  {
    if rs != [] {
      EndsFollow(rs);
      var r := Last(rs);
      assert Increasing(r);
      assert Increasing(r + [w]);
    }
  }

  /** No window starts after the last window of the last run. */
  lemma EndsFollow(rs: seq<Run>)
    requires InOrder(rs) && rs != []
    ensures forall i :: 0 <= i < |rs| ==> rs[i][0].start <= Last(rs[i]).start <= Last(Last(rs)).start
  {
    forall i | 0 <= i < |rs| ensures rs[i][0].start <= Last(rs[i]).start <= Last(Last(rs)).start {
      assert Increasing(rs[i]) && Increasing(Last(rs));
    }
  }

  lemma {:induction false} MergeInOrder(rs: seq<Run>)
    requires InOrder(rs)
    ensures InOrder(Merge(rs))
    ensures Merge(rs) != [] ==> rs != [] && Last(Last(Merge(rs))).start <= Last(Last(rs)).start
  {
    if rs != [] {
      var init, r := rs[..|rs| - 1], Last(rs);
      MergeInOrder(init);
      EndsFollow(rs);
      FoldInOrder(Merge(init), r);
    }
  }

  lemma FoldInOrder(out: seq<Run>, r: Run)
    requires InOrder(out) && Increasing(r) && (out != [] ==> Last(Last(out)).start < r[0].start)
    ensures InOrder(Fold(out, r))
    ensures Fold(out, r) == out || Last(Last(Fold(out, r))) == Last(r)
  {
    if out != [] {
      EndsFollow(out);
      if |r| < 2 {
        assert Fold(out, r) == out;
      } else if SameOffset(Last(out), r) {
        IncreasingJoined(Last(out), r);
        ReplaceLast(out, Last(out) + r);
      } else {
        AppendRun(out, r);
      }
    }
  }

  lemma AppendRun(out: seq<Run>, r: Run)
    requires InOrder(out) && Increasing(r)
    requires forall i :: 0 <= i < |out| ==> Last(out[i]).start < r[0].start
    ensures InOrder(out + [r])
  {}

  lemma IncreasingJoined(q: Run, r: Run)
    requires Increasing(q) && Increasing(r) && Last(q).start < r[0].start
    ensures Increasing(q + r)
  {}

  lemma ReplaceLast(out: seq<Run>, q: Run)
    requires InOrder(out) && out != [] && Increasing(q) && q[0] == Last(out)[0]
    ensures InOrder(out[..|out| - 1] + [q])
  {}

  /** Every run has at least two windows and starts at an offset the run before it does not share. */
  ghost predicate Separate(rs: seq<Run>) {
    && (forall i :: 0 <= i < |rs| ==> |rs[i]| >= 2)
    && (forall i, j :: 0 <= i < j < |rs| && j == i + 1 ==> !SameOffset(rs[i], rs[j]))
  }

  lemma {:induction false} MergeSeparates(rs: seq<Run>)
    ensures Separate(Merge(rs))
  {
    if rs != [] {
      MergeSeparates(rs[..|rs| - 1]);
      FoldSeparates(Merge(rs[..|rs| - 1]), Last(rs));
    }
  }

  lemma FoldSeparates(out: seq<Run>, r: Run)
    requires Separate(out)
    ensures Separate(Fold(out, r))
  {
    if |r| >= 2 && out != [] && SameOffset(Last(out), r) {
      assert (Last(out) + r)[0] == Last(out)[0];
    }
  }

  /** The runs of at least two windows. */
  function Paired(rs: seq<Run>): seq<Run> {
    if rs == [] then [] else Keep(Paired(rs[..|rs| - 1]), Last(rs))
  }

  function Keep(kept: seq<Run>, r: Run): seq<Run> { if |r| >= 2 then kept + [r] else kept }

  /** Only runs of a single window are dropped; every other window stays, in order. */
  lemma {:induction false} MergeKeepsWindows(rs: seq<Run>)
    ensures Flatten(Merge(rs)) == Flatten(Paired(rs))
  {
    if rs != [] {
      var init, r := rs[..|rs| - 1], Last(rs);
      MergeKeepsWindows(init);
      hide Flatten;
      if |r| >= 2 {
        FlattenSnoc(Paired(init), r);
        FlattenFold(Merge(init), r);
      }
      assert Flatten(Keep(Paired(init), r)) == Flatten(Fold(Merge(init), r));
    }
  }

  lemma FlattenFold(out: seq<Run>, r: Run)
    requires |r| >= 2
    ensures Flatten(Fold(out, r)) == Flatten(out) + r
  {
    if out != [] && SameOffset(Last(out), r) {
      FlattenSnoc(out[..|out| - 1], Last(out) + r);
    } else {
      FlattenSnoc(out, r);
    }
  }

  lemma MergeSnoc(rs: seq<Run>, r: Run)
    ensures Merge(rs + [r]) == Fold(Merge(rs), r)
  {
    assert (rs + [r])[..|rs|] == rs;
  }

  function Concat(gs: seq<seq<Run>>): seq<Run> { if gs == [] then [] else Concat(gs[..|gs| - 1]) + Last(gs) }

  /** Runs that begin at the offset of the first of them, none of a single window. */
  predicate AtOneOffset(g: seq<Run>) { g != [] && forall r <- g :: |r| >= 2 && SameOffset(g[0], r) }

  /** Each run left joins runs that begin at one offset, and together they join all but those of a single window. */
  lemma {:induction false} MergeJoins(rs: seq<Run>) returns (gs: seq<seq<Run>>)
    ensures Joined(gs, Merge(rs)) && Concat(gs) == Paired(rs)
  {
    if rs == [] {
      return [];
    }
    var init, r := rs[..|rs| - 1], Last(rs);
    gs := MergeJoins(init);
    hide Paired, Merge, Concat, Flatten;
    MergeLast(rs);
    if |r| >= 2 {
      gs := JoinOne(gs, Merge(init), r);
    }
  }

  lemma MergeLast(rs: seq<Run>)
    requires rs != []
    ensures Merge(rs) == Fold(Merge(rs[..|rs| - 1]), Last(rs)) && Paired(rs) == Keep(Paired(rs[..|rs| - 1]), Last(rs))
  {}

  predicate Joined(gs: seq<seq<Run>>, out: seq<Run>) {
    |gs| == |out| && forall i :: 0 <= i < |gs| ==> AtOneOffset(gs[i]) && out[i] == Flatten(gs[i])
  }

  lemma JoinOne(gs: seq<seq<Run>>, out: seq<Run>, r: Run) returns (next: seq<seq<Run>>)
    requires Joined(gs, out) && |r| >= 2
    ensures Joined(next, Fold(out, r)) && Concat(next) == Concat(gs) + [r]
  {
    hide Flatten, Concat, SameOffset, Joined, AtOneOffset;
    JoinedLength(gs, out);
    if out != [] && SameOffset(Last(out), r) {
      next := JoinLast(gs, out, r);
    } else {
      next := JoinNew(gs, out, r);
    }
  }

  lemma JoinedLength(gs: seq<seq<Run>>, out: seq<Run>)
    requires Joined(gs, out)
    ensures |gs| == |out|
  {}

  lemma JoinLast(gs: seq<seq<Run>>, out: seq<Run>, r: Run) returns (next: seq<seq<Run>>)
    requires Joined(gs, out) && out != [] && SameOffset(Last(out), r) && |r| >= 2
    ensures Joined(next, out[..|out| - 1] + [Last(out) + r]) && Concat(next) == Concat(gs) + [r]
  {
    hide Flatten, Concat, SameOffset, AtOneOffset;
    var g, before := Last(gs), gs[..|gs| - 1];
    GrowGroup(g, Last(out), r);
    assert gs == before + [g];
    ConcatSnoc(before, g);
    ConcatSnoc(before, g + [r]);
    next := before + [g + [r]];
  }

  lemma JoinNew(gs: seq<seq<Run>>, out: seq<Run>, r: Run) returns (next: seq<seq<Run>>)
    requires Joined(gs, out) && |r| >= 2
    ensures Joined(next, out + [r]) && Concat(next) == Concat(gs) + [r]
  {
    hide Flatten, Concat, SameOffset, AtOneOffset;
    AloneGroup(r);
    ConcatSnoc(gs, [r]);
    next := gs + [[r]];
  }

  lemma AloneGroup(r: Run)
    requires |r| >= 2
    ensures AtOneOffset([r]) && Flatten([r]) == r
  {
    assert [r][..0] == [];
  }

  lemma GrowGroup(g: seq<Run>, q: Run, r: Run)
    requires AtOneOffset(g) && q == Flatten(g) && SameOffset(q, r) && |r| >= 2
    ensures AtOneOffset(g + [r]) && Flatten(g + [r]) == q + r
  {
    hide Flatten;
    FlattenFirst(g);
    FlattenSnoc(g, r);
  }

  lemma ConcatSnoc(gs: seq<seq<Run>>, g: seq<Run>)
    ensures Concat(gs + [g]) == Concat(gs) + g
  {
    assert (gs + [g])[..|gs|] == gs;
  }

  lemma {:induction false} FlattenFirst(rs: seq<Run>)
    requires rs != []
    ensures Flatten(rs) != [] && Flatten(rs)[0] == rs[0][0]
  {
    if |rs| > 1 {
      FlattenFirst(rs[..|rs| - 1]);
    } else {
      assert Flatten(rs[..0]) == [];
    }
  }

  /** What is grouped is exactly what is confident, in order (ConfidentIncreasing). */
  lemma {:induction false} ConfidentExactly(ws: seq<Window>)
    ensures forall w :: w in Confident(ws) <==> w in ws && w.confident
  {
    if ws != [] {
      ConfidentExactly(ws[..|ws| - 1]);
      assert ws == ws[..|ws| - 1] + [Last(ws)];
    }
  }

  /** What segmentRuns returns. */
  function SegmentRunsOf(ws: seq<Window>): seq<Run> { Merge(Group(Confident(ws), AGREE_FRAMES)) }

  lemma SegmentRunsInOrder(ws: seq<Window>)
    requires Increasing(ws)
    ensures InOrder(SegmentRunsOf(ws))
  {
    ConfidentIncreasing(ws);
    GroupInOrder(Confident(ws), AGREE_FRAMES);
    MergeInOrder(Group(Confident(ws), AGREE_FRAMES));
  }

  /** The runs finished and the one being built. */
  function Open(runs: seq<Run>, cur: seq<Window>): seq<Run> { if cur == [] then runs else runs + [cur] }

  lemma OpenGrows(runs: seq<Run>, cur: seq<Window>, w: Window, gap: nat)
    requires cur == [] ==> runs == []
    ensures [w] != [] && cur + [w] != []
    ensures cur == [] ==> Grow(Open(runs, cur), w, gap) == Open(runs, cur + [w])
    ensures cur != [] && Abs(w.lag - Last(cur).lag) <= gap ==> Grow(Open(runs, cur), w, gap) == Open(runs, cur + [w])
    ensures cur != [] && Abs(w.lag - Last(cur).lag) > gap ==> Grow(Open(runs, cur), w, gap) == Open(runs + [cur], [w])
  {
    assert |[w]| == 1 && |cur + [w]| == |cur| + 1;
    if cur == [] {
      assert cur + [w] == [w];
    } else {
      var rs := Open(runs, cur);
      assert rs == runs + [cur] && Last(rs) == cur;
      assert rs[..|rs| - 1] == runs;
    }
  }

  lemma NoneGrouped(gap: nat)
    ensures Group(Confident([]), gap) == []
  {}

  lemma ConfidentSnoc(ws: seq<Window>, i: nat)
    requires i < |ws|
    ensures Confident(ws[..i + 1]) == if ws[i].confident then Confident(ws[..i]) + [ws[i]] else Confident(ws[..i])
  {
    assert ws[..i + 1][..i] == ws[..i];
  }

  /** segmentRuns' first loop: the confident windows, grouped. */
  method GroupConfident(ws: seq<Window>, gap: nat) returns (runs: seq<Run>)
    ensures runs == Group(Confident(ws), gap)
  {
    hide Confident, Group, Grow;
    NoneGrouped(gap);
    runs := [];
    var cur: seq<Window> := [];
    for i := 0 to |ws|
      invariant cur == [] ==> runs == []
      invariant Group(Confident(ws[..i]), gap) == Open(runs, cur)
    {
      ConfidentSnoc(ws, i);
      var w := ws[i];
      if !w.confident {
        continue;
      }
      assert cur != [] ==> Last(cur) == cur[|cur| - 1];
      GroupSnoc(Confident(ws[..i]), w, gap);
      OpenGrows(runs, cur, w, gap);
      if |cur| > 0 && Abs(w.lag - cur[|cur| - 1].lag) > gap {
        runs := runs + [cur];
        cur := [];
        assert cur + [w] == [w];
      }
      cur := cur + [w];
    }
    if |cur| > 0 {
      runs := runs + [cur];
    }
    assert ws[..|ws|] == ws;
  }

  method SegmentRuns(ws: seq<Window>) returns (out: seq<Run>)
    ensures out == SegmentRunsOf(ws)
  {
    var runs := GroupConfident(ws, AGREE_FRAMES);
    out := [];
    for i := 0 to |runs|
      invariant out == Merge(runs[..i])
    {
      assert runs[..i + 1][..i] == runs[..i];
      var r := runs[i];
      if |r| >= 2 {
        if |out| > 0 && Abs(out[|out| - 1][0].lag - r[0].lag) <= AGREE_FRAMES {
          out := out[|out| - 1 := out[|out| - 1] + r];
          continue;
        }
        out := out + [r];
      }
    }
    assert runs[..|runs|] == runs;
  }
}
