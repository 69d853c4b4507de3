/** An alignment applied: whether its segments are accepted, and what each target time plays. */
module Grafts {
  import opened Seqs
  import opened Options
  import opened Correlators
  import opened Windows
  import opened Runs
  import opened Boundaries
  import opened Segments

  // The donor order.

  /** What sort.Slice may leave: the segments in some order of target start. */
  predicate SortOf(sorted: seq<Segment>, segs: seq<Segment>) {
    multiset(sorted) == multiset(segs) && ByTarget(sorted)
  }

  predicate Forward(segs: seq<Segment>) {
    forall i, j :: 0 <= i < j < |segs| ==> segs[i].donorStart <= segs[j].donorStart
  }

  /** The loop over the sorted segments. */
  method NeverFalls(segs: seq<Segment>) returns (ok: bool)
    ensures ok <==> Forward(segs)
  {
    var i := 1;
    while i < |segs|
      invariant 1 <= i && (i <= |segs| || segs == [])
      invariant forall j, k :: 0 <= j < k < i <= |segs| ==> segs[j].donorStart <= segs[k].donorStart
    {
      if segs[i].donorStart < segs[i - 1].donorStart {
        return false;
      }
      i := i + 1;
    }
    ok := true;
  }

  /** No segment starts earlier on the donor than one that starts before it on the target. What plays past
      the starts is another matter (PlaysForward). */
  predicate StartsForward(segs: seq<Segment>) {
    forall a, b :: a in segs && b in segs && a.targetStart < b.targetStart ==> a.donorStart <= b.donorStart
  }

  /** Segments that start together on the target start together on the donor. */
  predicate TiesAgree(segs: seq<Segment>) {
    forall a, b :: a in segs && b in segs && a.targetStart == b.targetStart ==> a.donorStart == b.donorStart
  }

  /** However ties are sorted, the starts of accepted segments never go back; without ties that disagree,
      exactly those are accepted. */
  lemma OrderDecided(sorted: seq<Segment>, segs: seq<Segment>)
    requires SortOf(sorted, segs)
    ensures Forward(sorted) ==> StartsForward(segs)
    ensures TiesAgree(segs) ==> (Forward(sorted) <==> StartsForward(segs))
  {
    forall a | a in segs ensures a in sorted {
      assert a in multiset(segs);
    }
    forall i | 0 <= i < |sorted| ensures sorted[i] in segs {
      assert sorted[i] in multiset(sorted);
    }
    if Forward(sorted) {
      forall a, b | a in segs && b in segs && a.targetStart < b.targetStart ensures a.donorStart <= b.donorStart {
        var i :| 0 <= i < |sorted| && sorted[i] == a;
        var j :| 0 <= j < |sorted| && sorted[j] == b;
        assert i < j;
      }
    }
  }

  /** A sort by target start; where it leaves ties is not promised. */
  method SortByTarget(segs: seq<Segment>) returns (sorted: seq<Segment>)
    ensures SortOf(sorted, segs)
  {
    sorted := [];
    for i := 0 to |segs|
      invariant SortOf(sorted, segs[..i])
    {
      var j := 0;
      while j < |sorted| && sorted[j].targetStart <= segs[i].targetStart
        invariant 0 <= j <= |sorted|
        invariant forall k :: 0 <= k < j ==> sorted[k].targetStart <= segs[i].targetStart
      {
        j := j + 1;
      }
      SortedWith(sorted, segs, i, j);
      sorted := sorted[..j] + [segs[i]] + sorted[j..];
    }
    assert segs[..|segs|] == segs;
  }

  lemma SortedWith(sorted: seq<Segment>, segs: seq<Segment>, i: nat, j: nat)
    requires i < |segs| && j <= |sorted| && SortOf(sorted, segs[..i])
    requires forall k :: 0 <= k < j ==> sorted[k].targetStart <= segs[i].targetStart
    requires j < |sorted| ==> segs[i].targetStart < sorted[j].targetStart
    ensures SortOf(sorted[..j] + [segs[i]] + sorted[j..], segs[..i + 1])
  {
    hide *;
    var a, b := sorted[..j], sorted[j..];
    SortOfParts(sorted, segs[..i]);
    assert sorted == a + b;
    SplitByTarget(sorted, j, segs[i]);
    PutBetween(a, segs[i], b);
    PutIn(a, segs[i], b, segs[..i]);
    assert segs[..i + 1] == segs[..i] + [segs[i]];
    SortOfParts(a + [segs[i]] + b, segs[..i + 1]);
  }

  lemma SortOfParts(sorted: seq<Segment>, segs: seq<Segment>)
    ensures SortOf(sorted, segs) <==> multiset(sorted) == multiset(segs) && ByTarget(sorted)
  {}

  lemma PutIn<T>(a: seq<T>, x: T, b: seq<T>, all: seq<T>)
    requires multiset(a + b) == multiset(all)
    ensures multiset(a + [x] + b) == multiset(all + [x])
  {}

  lemma SplitByTarget(sorted: seq<Segment>, j: nat, s: Segment)
    requires ByTarget(sorted) && j <= |sorted| && (j < |sorted| ==> s.targetStart < sorted[j].targetStart)
    ensures ByTarget(sorted[..j]) && ByTarget(sorted[j..])
    ensures forall k :: 0 <= k < |sorted[j..]| ==> s.targetStart <= sorted[j..][k].targetStart
  {}

  predicate ByTarget(segs: seq<Segment>) {
    forall i, j :: 0 <= i < j < |segs| ==> segs[i].targetStart <= segs[j].targetStart
  }

  lemma PutBetween(a: seq<Segment>, s: Segment, b: seq<Segment>)
    requires ByTarget(a) && ByTarget(b) && ByTarget(a + b)
    requires forall k :: 0 <= k < |a| ==> a[k].targetStart <= s.targetStart
    requires forall k :: 0 <= k < |b| ==> s.targetStart <= b[k].targetStart
    ensures ByTarget(a + [s] + b)
  {
    var all := a + [s] + b;
    forall i, j | 0 <= i < j < |all| ensures all[i].targetStart <= all[j].targetStart {
      if i < |a| < j { assert (a + b)[i] == all[i] && (a + b)[j - 1] == all[j]; }
    }
  }

  /** inDonorOrder: never accepts segments whose starts go back on the donor, and where ties agree accepts
      exactly those whose starts do not. */
  method InDonorOrder(segs: seq<Segment>) returns (ok: bool)
    ensures exists sorted :: SortOf(sorted, segs) && (ok <==> Forward(sorted))
    ensures ok ==> StartsForward(segs)
    ensures TiesAgree(segs) ==> (ok <==> StartsForward(segs))
  {
    hide SortOf, Forward, StartsForward, TiesAgree;
    var sorted := SortByTarget(segs);
    ok := NeverFalls(sorted);
    OrderDecided(sorted, segs);
  }

  // Segments in order on the donor.

  predicate TargetsRise(segs: seq<Segment>) {
    forall i, j :: 0 <= i < j < |segs| ==> segs[i].targetStart < segs[j].targetStart
  }

  lemma {:induction false} SomeSort(segs: seq<Segment>) returns (sorted: seq<Segment>)
    ensures SortOf(sorted, segs)
  {
    if segs == [] {
      return [];
    }
    var n := |segs| - 1;
    var before := SomeSort(segs[..n]);
    var j := PlaceFor(before, segs[n]);
    SortedWith(before, segs, n, j);
    assert segs[..n + 1] == segs;
    sorted := before[..j] + [segs[n]] + before[j..];
  }

  lemma PlaceFor(sorted: seq<Segment>, s: Segment) returns (j: nat)
    ensures j <= |sorted| && (forall k :: 0 <= k < j ==> sorted[k].targetStart <= s.targetStart)
    ensures j < |sorted| ==> s.targetStart < sorted[j].targetStart
  {
    j := 0;
    while j < |sorted| && sorted[j].targetStart <= s.targetStart
      invariant j <= |sorted| && forall k :: 0 <= k < j ==> sorted[k].targetStart <= s.targetStart
    {
      j := j + 1;
    }
  }

  /** Segments that start together on the target may be sorted either way round. */
  lemma TieSorted(sorted: seq<Segment>, segs: seq<Segment>, p: nat, q: nat)
    requires SortOf(sorted, segs) && p < q < |sorted| && sorted[p].targetStart == sorted[q].targetStart
    ensures SortOf(sorted[p := sorted[q]][q := sorted[p]], segs)
  {}

  lemma InSort(sorted: seq<Segment>, segs: seq<Segment>, i: nat) returns (p: nat)
    requires SortOf(sorted, segs) && i < |segs|
    ensures p < |sorted| && sorted[p] == segs[i]
  {
    assert segs[i] in multiset(segs);
    assert segs[i] in multiset(sorted);
    p :| p < |sorted| && sorted[p] == segs[i];
  }

  /** Starts that do not rise on the target leave a sort that is refused. */
  lemma SomeRefused(segs: seq<Segment>, i: nat, j: nat) returns (sorted: seq<Segment>)
    requires DonorApart(segs) && Nonempty(segs)
    requires i < j < |segs| && segs[j].targetStart <= segs[i].targetStart
    ensures SortOf(sorted, segs) && !Forward(sorted)
  {
    hide SortOf;
    sorted := SomeSort(segs);
    if Forward(sorted) {
      OrderDecided(sorted, segs);
      assert segs[i] in segs && segs[j] in segs;
      var p := InSort(sorted, segs, i);
      var q := InSort(sorted, segs, j);
      assert segs[i].donorStart < segs[j].donorStart;
      TieSorted(sorted, segs, p, q);
      sorted := sorted[p := sorted[q]][q := sorted[p]];
      assert sorted[q].donorStart < sorted[p].donorStart;
    }
  }

  /** Of segments in order on the donor, every sort is accepted exactly when the target starts rise, and
      some sort exactly when they never fall. */
  lemma AcceptedExactly(segs: seq<Segment>)
    requires DonorApart(segs) && Nonempty(segs)
    ensures (forall sorted :: SortOf(sorted, segs) ==> Forward(sorted)) <==> TargetsRise(segs)
    ensures (exists sorted :: SortOf(sorted, segs) && Forward(sorted)) <==> ByTarget(segs)
  {
    hide SortOf, Forward;
    if TargetsRise(segs) {
      forall sorted | SortOf(sorted, segs) ensures Forward(sorted) {
        OrderDecided(sorted, segs);
      }
    } else {
      var i, j :| 0 <= i < j < |segs| && segs[j].targetStart <= segs[i].targetStart;
      var refused := SomeRefused(segs, i, j);
    }
    if ByTarget(segs) { SortedAlready(segs); }
    if sorted :| SortOf(sorted, segs) && Forward(sorted) {
      OrderDecided(sorted, segs);
      forall i, j | 0 <= i < j < |segs| ensures segs[i].targetStart <= segs[j].targetStart {
        assert segs[i] in segs && segs[j] in segs && segs[i].donorStart < segs[j].donorStart;
      }
    }
  }

  lemma SortedAlready(segs: seq<Segment>)
    requires DonorApart(segs) && Nonempty(segs) && ByTarget(segs)
    ensures SortOf(segs, segs) && Forward(segs)
  {}

  /** Placed segments, whether runs are lost or not: every sort is accepted exactly when they start on
      the target in the order of their runs, which they do when they are apart. */
  lemma PlacedAccepted(runs: seq<Run>, d: Features, t: Features)
    requires Placeable(runs, d, t)
    ensures var segs := SegmentsOf(runs, d, t, |runs|);
            && ((forall sorted :: SortOf(sorted, segs) ==> Forward(sorted)) <==> TargetsRise(segs))
            && ((exists sorted :: SortOf(sorted, segs) && Forward(sorted)) <==> ByTarget(segs))
            && (Apart(segs) ==> TargetsRise(segs)) && (NoneLost(runs, d, t) ==> TargetsRise(segs))
  {
    hide Placeable, NoneLost, SegmentsOf, SortOf, Forward, ByTarget, LagOf;
    SameBands(runs, d, t);
    PlacedInOrder(runs, d, t);
    AcceptedExactly(SegmentsOf(runs, d, t, |runs|));
  }

  // What a target time plays.

  const SAMPLE_RATE := 8000.0

  function Seconds(ns: int): real { ns as real / 1000000000.0 }

  predicate Covers(s: Segment, at: real) {
    Seconds(s.targetStart) <= at < Seconds(s.targetStart) + Seconds(s.length)
  }

  function Positive(rate: real): real { if rate <= 0.0 then 1.0 else rate }

  /** The donor second the segment plays at target second `at`. */
  function Plays(s: Segment, rate: real, at: real): real {
    (Seconds(s.donorStart) + at - Seconds(s.targetStart)) / Positive(rate)
  }

  function DonorTime(segs: seq<Segment>, rate: real, at: real): Option<real> {
    if segs == [] then None
    else if Covers(Last(segs), at) then Some(Plays(Last(segs), rate, at))
    else DonorTime(segs[..|segs| - 1], rate, at)
  }

  method DonorSeconds(segs: seq<Segment>, givenRate: real, at: real) returns (r: Option<real>)
    ensures r == DonorTime(segs, givenRate, at)
  {
    hide Covers;
    var rate := givenRate;
    if rate <= 0.0 {
      rate := 1.0;
    }
    assert segs[..|segs|] == segs;
    for i := |segs| downto 0
      invariant DonorTime(segs, givenRate, at) == DonorTime(segs[..i], givenRate, at)
    {
      var s := segs[i];
      assert segs[..i + 1][..i] == segs[..i];
      if Covers(s, at) {
        return Some((Seconds(s.donorStart) + at - Seconds(s.targetStart)) / rate);
      }
    }
    r := None;
  }

  /** The last covering segment decides; silence exactly where none covers. */
  lemma {:induction false} LastCovering(segs: seq<Segment>, rate: real, at: real) returns (i: nat)
    ensures match DonorTime(segs, rate, at)
            case None => forall j :: 0 <= j < |segs| ==> !Covers(segs[j], at)
            case Some(v) => && i < |segs| && Covers(segs[i], at) && v == Plays(segs[i], rate, at)
                            && forall j :: i < j < |segs| ==> !Covers(segs[j], at)
  {
    hide Covers, Plays;
    if segs == [] {
      i := 0;
    } else if Covers(Last(segs), at) {
      i := |segs| - 1;
    } else {
      i := LastCovering(segs[..|segs| - 1], rate, at);
    }
  }

  /** The donor time of a target time, in nanoseconds: so long into the last covering segment as the target
      is, at the rate, which counts as 1 unless positive. */
  lemma DonorTimeIs(segs: seq<Segment>, rate: real, at: real) returns (i: nat)
    ensures var ns := at * 1000000000.0;
            match DonorTime(segs, rate, at)
            case None => forall s <- segs :: !(s.targetStart as real <= ns < (s.targetStart + s.length) as real)
            case Some(v) =>
              && i < |segs|
              && segs[i].targetStart as real <= ns < (segs[i].targetStart + segs[i].length) as real
              && (forall j :: i < j < |segs| ==>
                    !(segs[j].targetStart as real <= ns < (segs[j].targetStart + segs[j].length) as real))
              && (if rate > 0.0 then v * rate else v) * 1000000000.0 ==
                   segs[i].donorStart as real + (ns - segs[i].targetStart as real)
  {
    hide DonorTime;
    i := LastCovering(segs, rate, at);
  }

  /** A second on the target is 1 / rate on the donor. */
  lemma RateAdvances(segs: seq<Segment>, rate: real, i: nat, t1: real, t2: real)
    requires rate > 0.0 && i < |segs| && Covers(segs[i], t1) && Covers(segs[i], t2)
    requires forall j :: i < j < |segs| ==> !Covers(segs[j], t1) && !Covers(segs[j], t2)
    ensures DonorTime(segs, rate, t1).Some? && DonorTime(segs, rate, t2).Some?
    ensures (DonorTime(segs, rate, t2).value - DonorTime(segs, rate, t1).value) * rate == t2 - t1
  {
    hide DonorTime;
    var p := DonorTimeIs(segs, rate, t1);
    var q := DonorTimeIs(segs, rate, t2);
    assert p == q == i;
  }

  /** Of segments apart from each other, any that covers the time decides it. */
  lemma OnlyCovering(segs: seq<Segment>, rate: real, at: real, i: nat)
    requires Apart(segs) && i < |segs| && Covers(segs[i], at)
    ensures DonorTime(segs, rate, at) == Some(Plays(segs[i], rate, at))
  {
    hide DonorTime, Plays;
    var _ := LastCovering(segs, rate, at);
  }

  /** The donor is played forward: a later target time plays a later donor time. */
  lemma DonorForward(segs: seq<Segment>, rate: real, t1: real, t2: real)
    requires Apart(segs) && t1 < t2
    requires DonorTime(segs, rate, t1).Some? && DonorTime(segs, rate, t2).Some?
    ensures DonorTime(segs, rate, t1).value < DonorTime(segs, rate, t2).value
  {
    hide DonorTime;
    var i := LastCovering(segs, rate, t1);
    var j := LastCovering(segs, rate, t2);
    var a, b := segs[i], segs[j];
    assert Seconds(a.donorStart) + t1 - Seconds(a.targetStart) < Seconds(b.donorStart) + t2 - Seconds(b.targetStart);
    DivideForward(Seconds(a.donorStart) + t1 - Seconds(a.targetStart),
                  Seconds(b.donorStart) + t2 - Seconds(b.targetStart),
                  Positive(rate));
  }

  ghost predicate PlaysForward(segs: seq<Segment>, rate: real) {
    forall t1, t2 :: t1 < t2 && DonorTime(segs, rate, t1).Some? && DonorTime(segs, rate, t2).Some? ==>
      DonorTime(segs, rate, t1).value < DonorTime(segs, rate, t2).value
  }

  lemma ApartPlaysForward(segs: seq<Segment>, rate: real)
    requires Apart(segs)
    ensures PlaysForward(segs, rate)
  {
    hide DonorTime, Apart;
    forall t1, t2 | t1 < t2 && DonorTime(segs, rate, t1).Some? && DonorTime(segs, rate, t2).Some?
      ensures DonorTime(segs, rate, t1).value < DonorTime(segs, rate, t2).value
    {
      DonorForward(segs, rate, t1, t2);
    }
  }

  function TargetEnd(s: Segment): int { s.targetStart + s.length }

  /** Segment i decides what plays at nanosecond `at`. */
  predicate Decides(segs: seq<Segment>, i: nat, at: int)
    requires i < |segs|
  {
    && segs[i].targetStart <= at < TargetEnd(segs[i])
    && forall j :: i < j < |segs| ==> !(segs[j].targetStart <= at < TargetEnd(segs[j]))
  }

  function Later(a: int, b: int): int { if a >= b then a else b }

  /** Segment i plays, or plays on, once j, which comes after it, has ended. */
  predicate Resumes(segs: seq<Segment>, i: nat, j: nat)
    requires i < j < |segs|
  {
    Decides(segs, i, Later(segs[i].targetStart, TargetEnd(segs[j])))
  }

  predicate NoneResumes(segs: seq<Segment>) { forall i, j :: 0 <= i < j < |segs| ==> !Resumes(segs, i, j) }

  /** Segments in order on the donor are played forward exactly when none resumes after a later one. */
  lemma PlaysForwardExactly(segs: seq<Segment>, rate: real)
    requires DonorApart(segs) && Nonempty(segs)
    ensures PlaysForward(segs, rate) <==> NoneResumes(segs)
  {
    hide DonorTime, DonorApart, Nonempty, Resumes;
    if NoneResumes(segs) {
      forall t1, t2 | t1 < t2 && DonorTime(segs, rate, t1).Some? && DonorTime(segs, rate, t2).Some?
        ensures DonorTime(segs, rate, t1).value < DonorTime(segs, rate, t2).value
      {
        UnresumedForward(segs, rate, t1, t2);
      }
    } else {
      var i, j :| 0 <= i < j < |segs| && Resumes(segs, i, j);
      ResumedBack(segs, rate, i, j);
    }
  }

  /** A segment that resumes after j plays earlier donor than j did from its start. */
  lemma ResumedBack(segs: seq<Segment>, rate: real, i: nat, j: nat)
    requires DonorApart(segs) && Nonempty(segs) && i < j < |segs| && Resumes(segs, i, j)
    ensures var t1 := Seconds(segs[j].targetStart);
            var t2 := Seconds(Later(segs[i].targetStart, TargetEnd(segs[j])));
            && t1 < t2 && DonorTime(segs, rate, t1).Some? && DonorTime(segs, rate, t2).Some?
            && DonorTime(segs, rate, t2).value < DonorTime(segs, rate, t1).value
  {
    hide DonorTime, Plays;
    var at := Later(segs[i].targetStart, TargetEnd(segs[j]));
    var t1, t2 := Seconds(segs[j].targetStart), Seconds(at);
    var p := LastCovering(segs, rate, t2);
    var q := LastCovering(segs, rate, t1);
    assert Covers(segs[i], t2) && Covers(segs[j], t1);
    assert p == i && j <= q;
    PlaysEarlier(segs[p], segs[q], rate, t2, t1);
  }

  /** What a segment plays, whenever, is earlier donor than what one after it on the donor plays. */
  lemma PlaysEarlier(a: Segment, b: Segment, rate: real, t1: real, t2: real)
    requires Covers(a, t1) && Covers(b, t2) && a.donorStart + a.length <= b.donorStart
    ensures Plays(a, rate, t1) < Plays(b, rate, t2)
  {
    var x := Seconds(a.donorStart) + t1 - Seconds(a.targetStart);
    var y := Seconds(b.donorStart) + t2 - Seconds(b.targetStart);
    DivideForward(x, y, Positive(rate));
  }

  lemma PlaysOn(a: Segment, rate: real, t1: real, t2: real)
    requires t1 < t2
    ensures Plays(a, rate, t1) < Plays(a, rate, t2)
  {
    var x := Seconds(a.donorStart) + t1 - Seconds(a.targetStart);
    var y := Seconds(a.donorStart) + t2 - Seconds(a.targetStart);
    DivideForward(x, y, Positive(rate));
  }

  lemma UnresumedForward(segs: seq<Segment>, rate: real, t1: real, t2: real)
    requires DonorApart(segs) && NoneResumes(segs) && t1 < t2
    requires DonorTime(segs, rate, t1).Some? && DonorTime(segs, rate, t2).Some?
    ensures DonorTime(segs, rate, t1).value < DonorTime(segs, rate, t2).value
  {
    hide DonorTime, Plays, Resumes, Covers;
    var j := LastCovering(segs, rate, t1);
    var i := LastCovering(segs, rate, t2);
    if i < j {
      EndedBy(segs[j], t1, t2);
      var k := LatestEnd(segs, i, j, t2);
      DecidesFrom(segs, i, k, t2);
      assert false;
    } else if i == j {
      PlaysOn(segs[i], rate, t1, t2);
    } else {
      PlaysEarlier(segs[j], segs[i], rate, t1, t2);
    }
  }

  lemma EndedBy(s: Segment, t1: real, t2: real)
    requires Covers(s, t1) && !Covers(s, t2) && t1 < t2
    ensures Seconds(TargetEnd(s)) <= t2
  {}

  /** The segment after i that ends last of those ended by `at`. */
  lemma LatestEnd(segs: seq<Segment>, i: nat, j: nat, at: real) returns (k: nat)
    requires i < j < |segs| && Seconds(TargetEnd(segs[j])) <= at
    ensures i < k < |segs| && Seconds(TargetEnd(segs[k])) <= at
    ensures forall l :: i < l < |segs| && Seconds(TargetEnd(segs[l])) <= at ==> TargetEnd(segs[l]) <= TargetEnd(segs[k])
  {
    hide Seconds;
    k := j;
    for n := i + 1 to |segs|
      invariant i < k < |segs| && Seconds(TargetEnd(segs[k])) <= at
      invariant forall l :: i < l < n && Seconds(TargetEnd(segs[l])) <= at ==> TargetEnd(segs[l]) <= TargetEnd(segs[k])
    {
      if Seconds(TargetEnd(segs[n])) <= at && TargetEnd(segs[n]) > TargetEnd(segs[k]) {
        k := n;
      }
    }
  }

  /** If i decides a time by which k was the last after it to end, it decides from then on. */
  lemma DecidesFrom(segs: seq<Segment>, i: nat, k: nat, at: real)
    requires i < k < |segs| && Covers(segs[i], at) && Seconds(TargetEnd(segs[k])) <= at
    requires forall l :: i < l < |segs| ==> !Covers(segs[l], at)
    requires forall l :: i < l < |segs| && Seconds(TargetEnd(segs[l])) <= at ==>
               TargetEnd(segs[l]) <= TargetEnd(segs[k])
    ensures Resumes(segs, i, k)
  {
    var m := Later(segs[i].targetStart, TargetEnd(segs[k]));
    forall l | i < l < |segs| ensures !(segs[l].targetStart <= m < TargetEnd(segs[l])) {
      assert !Covers(segs[l], at);
    }
  }

  lemma DivideForward(x: real, y: real, r: real)
    requires x < y && r > 0.0
    ensures x / r < y / r
  {}

  // The samples.

  /** Go's conversion to int: toward zero. */
  function Truncated(x: real): int { if x >= 0.0 then x.Floor else -((-x).Floor) }

  /** Where on the donor target sample i is read, in samples. */
  function ReadAt(segs: seq<Segment>, rate: real, i: nat): Option<real> {
    var at := DonorTime(segs, rate, i as real / SAMPLE_RATE);
    if at.None? then None else Some(at.value * SAMPLE_RATE)
  }

  function Blend(x: real, y: real, f: real): real { x * (1.0 - f) + y * f }

  /** The donor read between samples j and j + 1, silence off its end. */
  function Interpolated(donor: seq<real>, at: real): real {
    var j := Truncated(at);
    if j < 0 || j + 1 >= |donor| then 0.0
    else Blend(donor[j], donor[j + 1], at - j as real)
  }

  function SampleOf(donor: seq<real>, at: Option<real>): real {
    if at.None? then 0.0 else Interpolated(donor, at.value)
  }

  method Transform(donor: seq<real>, segs: seq<Segment>, rate: real, n: nat) returns (out: array<real>)
    ensures fresh(out) && out.Length == n
    ensures forall i :: 0 <= i < n ==> out[i] == SampleOf(donor, ReadAt(segs, rate, i))
  {
    hide DonorTime, Truncated, Blend;
    out := new real[n](_ => 0.0);
    for i := 0 to n
      invariant forall k :: 0 <= k < i ==> out[k] == SampleOf(donor, ReadAt(segs, rate, k))
      invariant forall k :: i <= k < n ==> out[k] == 0.0
    {
      var at := DonorSeconds(segs, rate, i as real / SAMPLE_RATE);
      if at.None? {
        continue;
      }
      var src := at.value * SAMPLE_RATE;
      var j := Truncated(src);
      if j < 0 || j + 1 >= |donor| {
        continue;
      }
      var f := src - j as real;
      out[i] := Blend(donor[j], donor[j + 1], f);
    }
  }

  /** The graft reads the donor forward once, where it plays forward: later samples never read from an
      earlier place. */
  lemma ReadsForward(segs: seq<Segment>, rate: real, i: nat, k: nat)
    requires PlaysForward(segs, rate) && i < k
    requires ReadAt(segs, rate, i).Some? && ReadAt(segs, rate, k).Some?
    ensures ReadAt(segs, rate, i).value < ReadAt(segs, rate, k).value
    ensures Truncated(ReadAt(segs, rate, i).value) <= Truncated(ReadAt(segs, rate, k).value)
  {
    hide DonorTime;
    assert i as real / SAMPLE_RATE < k as real / SAMPLE_RATE;
  }

  /** Between two donor samples the value moves in a straight line from one to the other; off the donor it is
      silence. Just before the first sample the line of the first two is extended. */
  lemma InterpolatedIs(donor: seq<real>, at: real)
    ensures var j := if at > -1.0 && at < 0.0 then 0 else at.Floor;
            Interpolated(donor, at) ==
              if 0 <= j && j + 1 < |donor| then donor[j] + (at - j as real) * (donor[j + 1] - donor[j]) else 0.0
    ensures at.Floor >= 0 && at == at.Floor as real && at.Floor + 1 < |donor| ==>
              Interpolated(donor, at) == donor[at.Floor]
  {
    if at < 0.0 { assert (-at).Floor == 0 <==> at > -1.0; }
  }

  /** Sample i reads the donor as many samples into the last covering segment, at the rate. */
  lemma ReadAtIs(segs: seq<Segment>, rate: real, i: nat, k: nat)
    requires k < |segs| && segs[k].targetStart <= i * 125000 < TargetEnd(segs[k])
    requires forall j :: k < j < |segs| ==> !(segs[j].targetStart <= i * 125000 < TargetEnd(segs[j]))
    ensures ReadAt(segs, rate, i).Some?
    ensures (if rate > 0.0 then ReadAt(segs, rate, i).value * rate else ReadAt(segs, rate, i).value) * 125000.0 ==
              (segs[k].donorStart + i * 125000 - segs[k].targetStart) as real
  {
    hide DonorTime;
    var at := i as real / SAMPLE_RATE;
    assert at * 1000000000.0 == (i * 125000) as real;
    var p := DonorTimeIs(segs, rate, at);
    assert segs[k] in segs;
    assert p == k;
  }

  /** Where no segment covers a sample there is silence. */
  lemma UncoveredSilent(donor: seq<real>, segs: seq<Segment>, rate: real, i: nat)
    requires forall s <- segs :: !(s.targetStart <= i * 125000 < TargetEnd(s))
    ensures SampleOf(donor, ReadAt(segs, rate, i)) == 0.0
  {
    hide DonorTime, Interpolated;
    var at := i as real / SAMPLE_RATE;
    assert at * 1000000000.0 == (i * 125000) as real;
    var k := DonorTimeIs(segs, rate, at);
  }

  /** A recording aligned with itself is copied. */
  lemma ItselfCopied(donor: seq<real>, length: int, i: nat)
    requires i + 1 < |donor| && i * 125000 < length
    ensures SampleOf(donor, ReadAt([Segment(0, 0, length)], 1.0, i)) == donor[i]
  {
    hide ReadAt, Interpolated;
    var segs := [Segment(0, 0, length)];
    ReadAtIs(segs, 1.0, i, 0);
    assert ReadAt(segs, 1.0, i).value == i as real;
    assert (i as real).Floor == i;
    InterpolatedIs(donor, ReadAt(segs, 1.0, i).value);
  }

  /** Whole frames of whole samples, from the target's beginning on. */
  predicate OnFrames(s: Segment) {
    0 <= s.targetStart && s.targetStart % Ns(1) == 0 && s.length % Ns(1) == 0
  }

  /** Every later sample is read later on the donor. */
  ghost predicate ReadForward(segs: seq<Segment>, rate: real) {
    forall i: nat, k: nat :: i < k && ReadAt(segs, rate, i).Some? && ReadAt(segs, rate, k).Some? ==>
      ReadAt(segs, rate, i).value < ReadAt(segs, rate, k).value
  }

  /** The samples suffice to tell: they are read forward exactly when no segment resumes after a later one. */
  lemma ReadForwardExactly(segs: seq<Segment>, rate: real)
    requires DonorApart(segs) && Nonempty(segs) && forall s <- segs :: OnFrames(s)
    ensures ReadForward(segs, rate) <==> NoneResumes(segs)
  {
    hide ReadAt, DonorApart, Nonempty, Resumes, OnFrames, PlaysForward;
    PlaysForwardExactly(segs, rate);
    if NoneResumes(segs) {
      forall i: nat, k: nat | i < k && ReadAt(segs, rate, i).Some? && ReadAt(segs, rate, k).Some?
        ensures ReadAt(segs, rate, i).value < ReadAt(segs, rate, k).value
      {
        ReadsForward(segs, rate, i, k);
      }
    } else {
      var i, j :| 0 <= i < j < |segs| && Resumes(segs, i, j);
      var first, second := ResumedRead(segs, rate, i, j);
    }
  }

  lemma ResumedRead(segs: seq<Segment>, rate: real, i: nat, j: nat) returns (first: nat, second: nat)
    requires DonorApart(segs) && Nonempty(segs) && i < j < |segs| && Resumes(segs, i, j)
    requires forall s <- segs :: OnFrames(s)
    ensures first < second && ReadAt(segs, rate, first).Some? && ReadAt(segs, rate, second).Some?
    ensures ReadAt(segs, rate, second).value < ReadAt(segs, rate, first).value
  {
    hide DonorTime, DonorApart, Resumes;
    ResumedBack(segs, rate, i, j);
    assert OnFrames(segs[i]) && OnFrames(segs[j]) && segs[j].length > 0;
    first := SampleAt(segs[j].targetStart);
    second := SampleAt(Later(segs[i].targetStart, TargetEnd(segs[j])));
  }

  /** A whole frame starts at a sample. */
  lemma SampleAt(ns: int) returns (i: nat)
    requires 0 <= ns && ns % Ns(1) == 0
    ensures i as real / SAMPLE_RATE == Seconds(ns)
  {
    var frame := ns / Ns(1);
    i := 160 * frame;
    assert ns == Ns(frame);
  }

  /** So are the samples of placed segments, exactly when none resumes, which none does when they are apart. */
  lemma PlacedRead(runs: seq<Run>, d: Features, t: Features, rate: real)
    requires Placeable(runs, d, t)
    ensures var segs := SegmentsOf(runs, d, t, |runs|);
            (ReadForward(segs, rate) <==> NoneResumes(segs)) && (Apart(segs) ==> NoneResumes(segs))
  {
    hide Placeable, LagOf, SegmentsOf, PlaysForward, DonorApart, Nonempty, Within, Piece, ReadForward, NoneResumes,
         Apart;
    SameBands(runs, d, t);
    var segs := SegmentsOf(runs, d, t, |runs|);
    PlacedInOrder(runs, d, t);
    forall s | s in segs ensures OnFrames(s) {
      var i := PlacedWithin(runs, d, t, |runs|, s);
      PieceOnFrames(runs, d, t, i);
    }
    ReadForwardExactly(segs, rate);
    PlaysForwardExactly(segs, rate);
    if Apart(segs) { ApartPlaysForward(segs, rate); }
  }

  lemma PieceOnFrames(runs: seq<Run>, d: Features, t: Features, i: nat)
    requires |d| == |t| && i < |runs| && Within(Piece(runs, d, t, i), d, t)
    ensures OnFrames(Piece(runs, d, t, i))
  {
    hide LagOf, PieceStart, PieceEnd;
  }

  // Without room.

  const HIGH: Run := [Window(57000, 100000, 1.0, Infinite, true), Window(58500, 100000, 1.0, Infinite, true)]
  const LOW: Run := [Window(60000, 0, 1.0, Infinite, true), Window(61500, 0, 1.0, Infinite, true)]
  const BACK: Run := Third(3)
  const INSIDE: Run := Third(40000)

  function Third(lag: int): Run { [Window(63000, lag, 1.0, Infinite, true), Window(64500, lag, 1.0, Infinite, true)] }

  lemma LagsAlike(r: Run, lag: int)
    requires forall w <- r :: w.lag == lag
    ensures LagOf(r) == lag
  {
    hide LagOf;
    var m := LagOfWindow(r);
  }

  /** Runs segmentRuns can return, whatever the recordings hold: the lag falls by more than the gap, a run
      is lost, the segments cross on the target and every sort of them is refused. */
  lemma NoRoomRefused(d: Features, t: Features, sorted: seq<Segment>)
    requires |d| == |t| && Frames(d) >= 66000 && Frames(t) >= 170000
    ensures Placeable([HIGH, LOW, BACK], d, t) && Separate([HIGH, LOW, BACK]) && !Room(HIGH, LOW)
    ensures |SegmentsOf([HIGH, LOW, BACK], d, t, 3)| == 2
    ensures SortOf(sorted, SegmentsOf([HIGH, LOW, BACK], d, t, 3)) ==> !Forward(sorted)
  {
    hide LagOf, CutOf, SegmentsOf, Placeable, Separate;
    FarRuns(d, t, 3);
    var runs := [HIGH, LOW, BACK];
    FarCut(d, t);
    NearCut(d, t, 3);
    LagsAlike(HIGH, 100000);
    LagsAlike(LOW, 0);
    LagsAlike(BACK, 3);
    Unfold(runs, d, t);
    var segs := SegmentsOf(runs, d, t, 3);
    var bd := CutOf(d, t, LOW, BACK).start;
    assert segs == [Stretch(0, 9750, 100000), Stretch(bd, ClipEnd(Frames(d), 3, Frames(t)), 3)];
    if SortOf(sorted, segs) {
      OrderDecided(sorted, segs);
      assert segs[0] in segs && segs[1] in segs;
    }
  }

  /** Accepted and yet played back: the last run's segment lies inside the first's on the target. A donor of
      22 minutes is played from 21:40 at 35:00 and from 2:40 a minute later. */
  lemma AcceptedGoesBack(d: Features, t: Features)
    requires |d| == |t| && Frames(d) == 66000 && Frames(t) >= 170000
    ensures var runs, segs := [HIGH, LOW, INSIDE], SegmentsOf([HIGH, LOW, INSIDE], d, t, 3);
            && Placeable(runs, d, t) && Separate(runs)
            && (forall sorted :: SortOf(sorted, segs) ==> Forward(sorted))
            && DonorTime(segs, 1.0, 2100.0) == Some(1300.0) && DonorTime(segs, 1.0, 2160.0) == Some(160.0)
  {
    hide LagOf, CutOf, SegmentsOf, Placeable, Separate, SortOf, Forward;
    var runs := [HIGH, LOW, INSIDE];
    FarRuns(d, t, 40000);
    FarCut(d, t);
    NearCut(d, t, 40000);
    LagsAlike(HIGH, 100000);
    LagsAlike(LOW, 0);
    LagsAlike(INSIDE, 40000);
    Unfold(runs, d, t);
    PlacedAccepted(runs, d, t);
    var segs, bd := SegmentsOf(runs, d, t, 3), CutOf(d, t, LOW, INSIDE).start;
    assert segs == [Stretch(0, 9750, 100000), Stretch(bd, 66000, 40000)];
    PlaysInside(bd);
  }

  lemma PlaysInside(bd: int)
    requires 62000 <= bd <= 63500
    ensures var segs := [Stretch(0, 9750, 100000), Stretch(bd, 66000, 40000)];
            DonorTime(segs, 1.0, 2100.0) == Some(1300.0) && DonorTime(segs, 1.0, 2160.0) == Some(160.0)
  {
    var segs := [Stretch(0, 9750, 100000), Stretch(bd, 66000, 40000)];
    assert segs[..1] == [segs[0]] && [segs[0]][..0] == [];
    assert Covers(segs[1], 2100.0) && !Covers(segs[1], 2160.0) && Covers(segs[0], 2160.0);
  }

  /** Both are the runs of six confident windows. */
  lemma NoRoomFound(lag: int)
    requires lag > 2
    ensures SegmentRunsOf(HIGH + LOW + Third(lag)) == [HIGH, LOW, Third(lag)]
  {
    hide Group, Merge, Confident;
    var last := Third(lag);
    AllConfident(HIGH + LOW + last);
    NothingGrouped();
    RunGrows([], [], HIGH);
    RunGrows([HIGH], [] + HIGH, LOW);
    RunGrows([HIGH] + [LOW], [] + HIGH + LOW, last);
    assert [] + HIGH + LOW + last == HIGH + LOW + last;
    MergeSnoc([], HIGH);
    MergeSnoc([HIGH], LOW);
    MergeSnoc([HIGH] + [LOW], last);
    assert [] + [HIGH] == [HIGH] && [HIGH] + [LOW] + [last] == [HIGH, LOW, last];
  }

  lemma NothingGrouped()
    ensures Group([], AGREE_FRAMES) == [] && Merge([]) == []
  {}

  lemma {:induction false} AllConfident(ws: seq<Window>)
    requires forall w <- ws :: w.confident
    ensures Confident(ws) == ws
  {
    if ws != [] { AllConfident(ws[..|ws| - 1]); }
  }

  /** Two windows of one lag, not the last one's, make a run of their own. */
  lemma RunGrows(rs: seq<Run>, cs: seq<Window>, r: Run)
    requires Group(cs, AGREE_FRAMES) == rs && |r| == 2 && r[0].lag == r[1].lag
    requires rs != [] ==> Abs(r[0].lag - Last(Last(rs)).lag) > AGREE_FRAMES
    ensures Group(cs + r, AGREE_FRAMES) == rs + [r]
  {
    hide Group;
    GroupSnoc(cs, r[0], AGREE_FRAMES);
    GroupSnoc(cs + [r[0]], r[1], AGREE_FRAMES);
    assert cs + [r[0]] + [r[1]] == cs + r && [r[0]] + [r[1]] == r;
    assert Grow(rs, r[0], AGREE_FRAMES) == rs + [[r[0]]];
    assert (rs + [[r[0]]])[..|rs|] == rs;
  }

  lemma Unfold(runs: seq<Run>, d: Features, t: Features)
    requires |runs| == 3 && |d| == |t|
    ensures var n := Frames(t);
            var one := AddSegment([], StartAt(runs, d, t, 0), EndAt(runs, d, t, 0), LagOf(runs[0]), n);
            var two := AddSegment(one, StartAt(runs, d, t, 1), EndAt(runs, d, t, 1), LagOf(runs[1]), n);
            SegmentsOf(runs, d, t, 3) ==
              AddSegment(two, StartAt(runs, d, t, 2), EndAt(runs, d, t, 2), LagOf(runs[2]), n)
  {
    hide LagOf, StartAt, EndAt, AddSegment;
    assert SegmentsOf(runs, d, t, 0) == [];
    assert SegmentsOf(runs, d, t, 1) ==
           AddSegment([], StartAt(runs, d, t, 0), EndAt(runs, d, t, 0), LagOf(runs[0]), Frames(t));
  }

  lemma FarRuns(d: Features, t: Features, lag: int)
    requires |d| == |t| && Frames(d) >= 66000 && Frames(t) >= 170000 && 2 < lag <= 40000
    ensures Placeable([HIGH, LOW, Third(lag)], d, t) && Separate([HIGH, LOW, Third(lag)])
  {}

  lemma FarCut(d: Features, t: Features)
    requires |d| == |t|
    ensures CutOf(d, t, HIGH, LOW) == Cut(9750, 109750)
  {
    hide LagOf;
    LagsAlike(HIGH, 100000);
    LagsAlike(LOW, 0);
  }

  lemma NearCut(d: Features, t: Features, lag: int)
    requires |d| == |t| && lag >= 0
    ensures var c := CutOf(d, t, LOW, Third(lag)); c.start == c.end && 62000 <= c.start <= 63500
  {
    hide LagOf, BoundaryOf;
    LagsAlike(LOW, 0);
    LagsAlike(Third(lag), lag);
    BoundaryWithin(d, t, 62000, 63500, 0, lag, false);
  }
}
