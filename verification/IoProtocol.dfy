/** Calls through the I/O executor, interleaved step by step with the workers that run them. */
module IoProtocol {
  import opened Seqs
  import opened Clock
  import opened Options
  import opened IoExecutors

  /** Where a call is inside run. */
  datatype Phase = Admission | Claiming | Saturated | Waiting | Exited

  /** Where its job is in the pool. */
  datatype Job = NoJob | Queued | Running | Returned | Given

  /** trial: this call was let through a half-open breaker. */
  datatype Call = Call(phase: Phase, job: Job, trial: bool)

  /** owner is the call that last set the breaker's trial; since the timeouts outside trials since the
      last of them tripped the breaker. A fault is a hand-off that would block, or a worker given twice. */
  datatype System = System(b: Breaker, busy: nat, calls: seq<Call>, owner: nat, since: seq<Time>, now: Time,
                           fault: bool)

  datatype Step =
    | Enter
    | Take(id: nat)
    | GiveUpSaturated(id: nat)
    | HandOff(id: nat)
    | StartJob(id: nat)
    | ReturnJob(id: nat)
    | Give(id: nat)
    | Done(id: nat)
    | Timeout(id: nat)
    | Cancel(id: nat)
    | Pass(later: Time)

  const START := System(CLOSED, 0, [], 0, [], 0, false)

  function Put(y: System, id: nat, c: Call): System
    requires id < |y.calls|
  {
    y.(calls := y.calls[id := c])
  }

  /** How many jobs are in the channel. */
  function QueuedJobs(calls: seq<Call>): nat {
    if calls == [] then 0 else QueuedJobs(calls[..|calls| - 1]) + if calls[|calls| - 1].job == Queued then 1 else 0
  }

  /** A worker is claimed from take until give. */
  predicate Claims(c: Call) { c.phase == Claiming || c.job in {Queued, Running, Returned} }

  function Claimed(calls: seq<Call>): nat {
    if calls == [] then 0 else Claimed(calls[..|calls| - 1]) + if Claims(calls[|calls| - 1]) then 1 else 0
  }

  /** A timeout outside a trial, which may open the breaker. */
  function Logged(y: System): seq<Time> {
    if y.b.trial then y.since else if TimedOut(y.b, y.now).timeouts == [] then [] else y.since + [y.now]
  }

  function Next(y: System, workers: nat, step: Step): System {
    if step.Pass? then y.(now := if step.later >= y.now then step.later else y.now)
    else if step.Enter? then
      if !Admits(y.b, y.now) then y
      else
        var asked := y.b.openedAt.Some?;
        y.(b := Admitted(y.b, y.now), calls := y.calls + [Call(Admission, NoJob, asked)],
           owner := if asked then |y.calls| else y.owner)
    else if step.id >= |y.calls| then y
    else
      var c := y.calls[step.id];
      match step
      case Take(id) =>
        if c.phase != Admission then y
        else if y.busy >= workers then Put(y, id, c.(phase := Saturated))
        else Put(y, id, c.(phase := Claiming)).(busy := y.busy + 1)
      case GiveUpSaturated(id) =>
        if c.phase != Saturated then y else Put(y, id, c.(phase := Exited)).(b := Abandoned(y.b))
      case HandOff(id) =>
        if c.phase != Claiming then y
        else Put(y, id, c.(phase := Waiting, job := Queued)).(fault := y.fault || QueuedJobs(y.calls) >= workers)
      case StartJob(id) => if c.job != Queued then y else Put(y, id, c.(job := Running))
      case ReturnJob(id) => if c.job != Running then y else Put(y, id, c.(job := Returned))
      case Give(id) =>
        if c.job != Returned then y
        else if y.busy == 0 then Put(y, id, c.(job := Given)).(fault := true)
        else Put(y, id, c.(job := Given)).(busy := y.busy - 1)
      case Done(id) =>
        if c.phase != Waiting || c.job !in {Returned, Given} then y
        else Put(y, id, c.(phase := Exited)).(b := Closed(y.b))
      case Timeout(id) =>
        if c.phase != Waiting then y
        else Put(y, id, c.(phase := Exited)).(b := TimedOut(y.b, y.now), since := Logged(y))
      case Cancel(id) =>
        if c.phase != Waiting then y else Put(y, id, c.(phase := Exited)).(b := Abandoned(y.b))
      case _ => y
  }

  function Run(workers: nat, steps: seq<Step>): System {
    if steps == [] then START else Next(Run(workers, steps[..|steps| - 1]), workers, steps[|steps| - 1])
  }

  // What every interleaving keeps.

  predicate Shaped(c: Call) {
    && (c.phase in {Admission, Claiming, Saturated} <==> c.phase != Waiting && c.phase != Exited)
    && (c.phase in {Admission, Claiming, Saturated} ==> c.job == NoJob)
    && (c.phase == Waiting ==> c.job != NoJob)
  }

  predicate Pool(y: System, workers: nat) {
    && !y.fault && y.busy == Claimed(y.calls) <= workers
    && forall i :: 0 <= i < |y.calls| ==> Shaped(y.calls[i])
  }

  /** A trial under way belongs to the call that last set it, which is still inside run. */
  predicate Owned(y: System) {
    y.b.trial ==>
      && y.b.openedAt.Some?
      && y.owner < |y.calls| && y.calls[y.owner].trial && y.calls[y.owner].phase != Exited
  }

  predicate Window(y: System) {
    && Remembers(y.b, y.since) && (y.since != [] ==> y.since[|y.since| - 1] <= y.now)
    && (y.b.openedAt.Some? ==> y.b.openedAt.value <= y.now)
  }

  lemma {:induction false} ClaimedPut(calls: seq<Call>, id: nat, c: Call)
    requires id < |calls|
    ensures Claimed(calls[id := c]) ==
              Claimed(calls) - (if Claims(calls[id]) then 1 else 0) + if Claims(c) then 1 else 0
  {
    var init, put := calls[..|calls| - 1], calls[id := c];
    if id < |init| {
      ClaimedPut(init, id, c);
      assert put[..|put| - 1] == init[id := c];
    } else {
      assert put[..|put| - 1] == init;
    }
  }

  lemma {:induction false} QueuedClaimed(calls: seq<Call>)
    ensures QueuedJobs(calls) <= Claimed(calls)
  {
    if calls != [] { QueuedClaimed(calls[..|calls| - 1]); }
  }

  /** A call claiming a worker has not queued its job. */
  lemma {:induction false} QueuedBelow(calls: seq<Call>, id: nat)
    requires id < |calls| && calls[id].phase == Claiming && calls[id].job == NoJob
    ensures QueuedJobs(calls) < Claimed(calls)
  {
    var init := calls[..|calls| - 1];
    if id < |init| { QueuedBelow(init, id); } else { QueuedClaimed(init); }
  }

  lemma PoolKeeps(y: System, workers: nat, step: Step)
    requires Pool(y, workers)
    ensures Pool(Next(y, workers, step), workers)
  {
    hide TimedOut, Admits, Claimed, QueuedJobs;
    if step.Enter? {
      EnterClaimed(y.calls, Call(Admission, NoJob, y.b.openedAt.Some?));
    } else if !step.Pass? && step.id < |y.calls| {
      var z := Next(y, workers, step);
      ClaimedPut(y.calls, step.id, z.calls[step.id]);
      NextCalls(y, workers, step);
      if y.calls[step.id].phase == Claiming { QueuedBelow(y.calls, step.id); }
      if Claims(y.calls[step.id]) { SomeClaimed(y.calls, step.id); }
    }
  }

  lemma NextCalls(y: System, workers: nat, step: Step)
    requires !step.Enter? && !step.Pass? && step.id < |y.calls|
    ensures Next(y, workers, step).calls == y.calls[step.id := Next(y, workers, step).calls[step.id]]
  {}

  lemma EnterClaimed(calls: seq<Call>, c: Call)
    ensures Claimed(calls + [c]) == Claimed(calls) + if Claims(c) then 1 else 0
  {
    assert (calls + [c])[..|calls|] == calls;
  }

  lemma SomeClaimed(calls: seq<Call>, id: nat)
    requires id < |calls| && Claims(calls[id])
    ensures Claimed(calls) >= 1
  {
    ClaimedPut(calls, id, Call(Exited, NoJob, false));
  }

  lemma OwnedKeeps(y: System, workers: nat, step: Step)
    requires Owned(y)
    ensures Owned(Next(y, workers, step))
  {
    hide Kept, QueuedJobs;
  }

  lemma WindowKeeps(y: System, workers: nat, step: Step)
    requires Window(y)
    ensures Window(Next(y, workers, step))
  {
    hide Kept, QueuedJobs, Remembers;
    if step.Timeout? {
      if y.b.trial { TrialRemembers(y.b, y.since, y.now); }
        else { OpensOnFifth(y.b, y.since, y.now); LastSnoc(y.since, y.now); }
    }
    SameTimeouts(y.b, y.since, y.now);
  }

  lemma TrialRemembers(b: Breaker, since: seq<Time>, now: Time)
    requires Remembers(b, since) && b.trial
    ensures Remembers(TimedOut(b, now), since)
  {}

  lemma SameTimeouts(b: Breaker, since: seq<Time>, now: Time)
    requires Remembers(b, since)
    ensures Remembers(Admitted(b, now), since) && Remembers(Abandoned(b), since) && Remembers(Closed(b), since)
  {}

  // Every run.

  predicate Inv(y: System, workers: nat) { Pool(y, workers) && Owned(y) && Window(y) }

  lemma {:induction false} RunKeeps(workers: nat, steps: seq<Step>)
    ensures Inv(Run(workers, steps), workers)
  {
    hide Next, Pool, Owned, Window;
    if steps == [] {
      StartGood(workers);
    } else {
      var y := Run(workers, steps[..|steps| - 1]);
      RunKeeps(workers, steps[..|steps| - 1]);
      PoolKeeps(y, workers, steps[|steps| - 1]);
      OwnedKeeps(y, workers, steps[|steps| - 1]);
      WindowKeeps(y, workers, steps[|steps| - 1]);
    }
  }

  lemma StartGood(workers: nat)
    ensures Pool(START, workers) && Owned(START) && Window(START)
  {}

  /** In every interleaving the jobs queued and running are at most busy, which is at most the workers,
      so a hand-off never blocks. */
  lemma HandOffNeverBlocks(workers: nat, steps: seq<Step>, id: nat)
    ensures var y := Run(workers, steps);
            && !y.fault && QueuedJobs(y.calls) <= Claimed(y.calls) == y.busy <= workers
            && (id < |y.calls| && y.calls[id].phase == Claiming ==> QueuedJobs(y.calls) < workers)
  {
    hide Run;
    RunKeeps(workers, steps);
    var y := Run(workers, steps);
    QueuedClaimed(y.calls);
    if id < |y.calls| && y.calls[id].phase == Claiming { QueuedBelow(y.calls, id); }
  }

  /** The breaker is never stuck half-open: with no call inside run it is closed, or admits the next call
      as soon as it has been open long enough. */
  lemma NeverStuck(workers: nat, steps: seq<Step>, now: Time)
    ensures var y := Run(workers, steps);
            (forall i :: 0 <= i < |y.calls| ==> y.calls[i].phase == Exited) ==>
              !y.b.trial && (y.b.openedAt.None? || now - y.b.openedAt.value >= BREAKER_OPEN ==> Admits(y.b, now))
  {
    hide Run;
    RunKeeps(workers, steps);
  }

  /** A timeout opens a breaker in no trial exactly when it is the fifth inside thirty seconds since the
      last one that did. */
  lemma OpeningNeedsFive(workers: nat, steps: seq<Step>, id: nat)
    ensures var y := Run(workers, steps);
            id < |y.calls| && y.calls[id].phase == Waiting && !y.b.trial ==>
              var all := y.since + [y.now];
              var z := Next(y, workers, Timeout(id));
              if |all| >= BREAKER_TRIPS && y.now - all[|all| - BREAKER_TRIPS] < BREAKER_WINDOW
              then z.b.openedAt == Some(y.now) && z.since == []
              else z.b.openedAt == y.b.openedAt && z.since == all
  {
    hide Run, Remembers;
    RunKeeps(workers, steps);
    var y := Run(workers, steps);
    if !y.b.trial { OpensOnFifth(y.b, y.since, y.now); }
  }

  // What opens and closes the breaker.

  function From(y: System, workers: nat, steps: seq<Step>): System {
    if steps == [] then y else Next(From(y, workers, steps[..|steps| - 1]), workers, steps[|steps| - 1])
  }

  /** Open, with no trial under way, since `at` or later. */
  predicate ShutSince(y: System, at: Time) {
    y.b.openedAt.Some? && at <= y.b.openedAt.value && !y.b.trial && at <= y.now
  }

  lemma ShutStays(y: System, workers: nat, step: Step, at: Time)
    requires ShutSince(y, at) && Next(y, workers, step).now - at < BREAKER_OPEN
    ensures ShutSince(Next(y, workers, step), at) && |Next(y, workers, step).calls| == |y.calls|
    ensures y.now <= Next(y, workers, step).now
  {
    hide Kept, QueuedJobs;
  }

  /** Once open it lets no call in for a minute, whatever the calls inside run come to. */
  lemma {:induction false} ShutForAMinute(y: System, workers: nat, steps: seq<Step>, at: Time)
    requires ShutSince(y, at) && From(y, workers, steps).now - at < BREAKER_OPEN
    ensures ShutSince(From(y, workers, steps), at) && |From(y, workers, steps).calls| == |y.calls|
  {
    hide Next, ShutSince;
    if steps != [] {
      var init := steps[..|steps| - 1];
      ClockForward(From(y, workers, init), workers, steps[|steps| - 1]);
      ShutForAMinute(y, workers, init, at);
      ShutStays(From(y, workers, init), workers, steps[|steps| - 1], at);
    }
  }

  lemma ClockForward(y: System, workers: nat, step: Step)
    ensures y.now <= Next(y, workers, step).now
  {}

  /** What a call that ends does to the breaker. Under a trial: done, it closes it, and the next call is let
      in; timed out, it opens it anew; given up, it stays open for another trial. Under none, only a timeout
      changes it. */
  lemma EndDecides(y: System, workers: nat, step: Step)
    requires Clears(y, step) && (y.b.trial ==> y.b.openedAt.Some?)
    ensures var z := Next(y, workers, step);
            && z.calls[step.id].phase == Exited
            && (y.b.trial && step.Done? ==> |Next(z, workers, Enter).calls| == |y.calls| + 1 && z.b.openedAt.None?)
            && (y.b.trial && step.Timeout? ==> ShutSince(z, y.now) && z.b.timeouts == y.b.timeouts)
            && (y.b.trial && (step.Cancel? || step.GiveUpSaturated?) ==>
                  !z.b.trial && z.b.openedAt == y.b.openedAt
                  && (y.now - y.b.openedAt.value >= BREAKER_OPEN ==>
                        |Next(z, workers, Enter).calls| == |y.calls| + 1))
            && (!y.b.trial && !step.Timeout? ==> z.b == y.b)
  {
    hide Kept, QueuedJobs;
  }

  // One trial at a time, or not.

  /** The calls let through a half-open breaker and not yet back. */
  predicate InTrial(y: System, id: nat) { id < |y.calls| && y.calls[id].trial && y.calls[id].phase != Exited }

  /** Every call in a trial is the one the flag stands for, so there is at most one. */
  ghost predicate OneTrial(y: System) { forall i: nat :: InTrial(y, i) ==> y.b.trial && y.owner == i }

  /** The step ends a call's part in the breaker: it gives up, finishes or times out. */
  predicate Clears(y: System, step: Step) {
    match step
    case GiveUpSaturated(id) => id < |y.calls| && y.calls[id].phase == Saturated
    case Done(id) => id < |y.calls| && y.calls[id].phase == Waiting && y.calls[id].job in {Returned, Given}
    case Timeout(id) => id < |y.calls| && y.calls[id].phase == Waiting
    case Cancel(id) => id < |y.calls| && y.calls[id].phase == Waiting
    case _ => false
  }

  /** It does so for a call other than the one whose trial is under way. */
  predicate Stray(y: System, step: Step) { Clears(y, step) && y.b.trial && step.id != y.owner }

  /** One trial at a time is kept by every step but a stray one, and by no stray one. */
  lemma OneTrialKept(y: System, workers: nat, step: Step)
    requires Owned(y) && OneTrial(y)
    ensures OneTrial(Next(y, workers, step)) <==> !Stray(y, step)
  {
    hide Kept, QueuedJobs;
    var z := Next(y, workers, step);
    if Stray(y, step) {
      assert InTrial(z, y.owner);
    } else {
      forall i: nat | InTrial(z, i) ensures z.b.trial && z.owner == i {
        assert i < |y.calls| ==> InTrial(y, i);
      }
    }
  }

  /** There is one trial at a time at every point of a run exactly when none of its steps is stray. */
  lemma {:induction false} OneTrialThroughRun(workers: nat, steps: seq<Step>)
    ensures (forall n :: 0 <= n <= |steps| ==> OneTrial(Run(workers, steps[..n]))) <==>
              (forall n :: 0 <= n < |steps| ==> !Stray(Run(workers, steps[..n]), steps[n]))
  {
    hide Run, Next, Stray, OneTrial;
    if steps == [] {
      StartOneTrial(workers);
    } else {
      var init := steps[..|steps| - 1];
      OneTrialThroughRun(workers, init);
      assert forall n :: 0 <= n <= |init| ==> init[..n] == steps[..n];
      assert init[..|init|] == init && steps[..|steps|] == steps;
      RunKeeps(workers, init);
      RunSnoc(workers, steps);
      if OneTrial(Run(workers, init)) { OneTrialKept(Run(workers, init), workers, steps[|init|]); }
      assert forall n :: 0 <= n < |init| ==> init[n] == steps[n];
    }
  }

  lemma StartOneTrial(workers: nat)
    ensures OneTrial(Run(workers, []))
  {}

  lemma RunSnoc(workers: nat, steps: seq<Step>)
    requires steps != []
    ensures Run(workers, steps) == Next(Run(workers, steps[..|steps| - 1]), workers, steps[|steps| - 1])
  {}

  /** So two trials are out at once only in a run with a stray step. */
  lemma TwoTrialsNeedStray(workers: nat, steps: seq<Step>, i: nat, j: nat)
    requires i != j && InTrial(Run(workers, steps), i) && InTrial(Run(workers, steps), j)
    ensures exists n :: 0 <= n < |steps| && Stray(Run(workers, steps[..n]), steps[n])
  {
    hide Run, Stray;
    OneTrialThroughRun(workers, steps);
    assert steps[..|steps|] == steps;
  }

  ghost predicate AtMostOne(y: System) { forall i: nat, j: nat :: InTrial(y, i) && InTrial(y, j) ==> i == j }

  /** A call is let through the half-open breaker while another's trial is still inside run. */
  ghost predicate Doubles(y: System, step: Step) {
    step.Enter? && Admits(y.b, y.now) && y.b.openedAt.Some? && exists i: nat :: InTrial(y, i)
  }

  lemma AtMostOneKept(y: System, workers: nat, step: Step)
    requires AtMostOne(y)
    ensures AtMostOne(Next(y, workers, step)) <==> !Doubles(y, step)
  {
    hide Kept, QueuedJobs;
    var z := Next(y, workers, step);
    if Doubles(y, step) {
      var i: nat :| InTrial(y, i);
      assert InTrial(z, i) && InTrial(z, |y.calls|);
    } else {
      assert forall i: nat :: i < |y.calls| && InTrial(z, i) ==> InTrial(y, i);
    }
  }

  /** Two trials are out at some point of a run exactly when some call of it is let in so; which takes a
      stray step before it (TwoTrialsNeedStray). */
  lemma {:induction false} AtMostOneThroughRun(workers: nat, steps: seq<Step>)
    ensures (forall n :: 0 <= n <= |steps| ==> AtMostOne(Run(workers, steps[..n]))) <==>
              (forall n :: 0 <= n < |steps| ==> !Doubles(Run(workers, steps[..n]), steps[n]))
  {
    hide Run, Next, Doubles, AtMostOne;
    if steps == [] {
      StartAtMostOne(workers);
    } else {
      var init := steps[..|steps| - 1];
      AtMostOneThroughRun(workers, init);
      assert forall n :: 0 <= n <= |init| ==> init[..n] == steps[..n];
      assert init[..|init|] == init && steps[..|steps|] == steps;
      RunSnoc(workers, steps);
      if AtMostOne(Run(workers, init)) { AtMostOneKept(Run(workers, init), workers, steps[|init|]); }
      assert forall n :: 0 <= n < |init| ==> init[n] == steps[n];
    }
  }

  lemma StartAtMostOne(workers: nat)
    ensures AtMostOne(Run(workers, []))
  {}

  /** After a stray step that leaves the breaker open, the next call once it has been open long enough is
      a second trial beside the first. */
  lemma SecondTrial(y: System, workers: nat, step: Step, later: Time)
    requires Owned(y) && Stray(y, step)
    requires Next(y, workers, step).b.openedAt.Some?
    requires later >= y.now && later - Next(y, workers, step).b.openedAt.value >= BREAKER_OPEN
    ensures var z := Next(Next(Next(y, workers, step), workers, Pass(later)), workers, Enter);
            z.owner == |y.calls| && InTrial(z, y.owner) && InTrial(z, z.owner) && z.owner != y.owner
  {
    hide Kept, QueuedJobs;
  }

  // A run that gets there.

  ghost predicate Reachable(y: System, workers: nat) { exists steps :: Run(workers, steps) == y }

  lemma Reaches(y: System, workers: nat, step: Step)
    requires Reachable(y, workers)
    ensures Reachable(Next(y, workers, step), workers)
  {
    hide Next;
    var steps :| Run(workers, steps) == y;
    var more := steps + [step];
    assert more[..|more| - 1] == steps;
    assert Run(workers, more) == Next(y, workers, step);
  }

  lemma LastPut(calls: seq<Call>)
    ensures forall c, d: Call :: (calls + [c])[|calls| := d] == calls + [d]
    ensures forall c: Call :: |calls + [c]| == |calls| + 1 && (calls + [c])[|calls|] == c
  {}

  /** A call handed to a closed breaker's pool. */
  lemma HandedCall(y: System) returns (z: System)
    requires Reachable(y, 2) && y.b.openedAt.None? && y.busy < 2 && !y.fault && QueuedJobs(y.calls) < 2
    ensures Reachable(z, 2)
    ensures z == y.(calls := y.calls + [Call(Waiting, Queued, false)], busy := y.busy + 1)
  {
    hide TimedOut, Reachable, QueuedJobs;
    var id := |y.calls|;
    QueuedNew(y.calls);
    LastPut(y.calls);
    var z1 := Next(y, 2, Enter);
    Reaches(y, 2, Enter);
    var z2 := Next(z1, 2, Take(id));
    Reaches(z1, 2, Take(id));
    assert z2 == y.(calls := y.calls + [Call(Claiming, NoJob, false)], busy := y.busy + 1);
    z := Next(z2, 2, HandOff(id));
    Reaches(z2, 2, HandOff(id));
  }

  /** The last call hangs past its timeout, and its worker lets it go afterwards. */
  lemma HungJob(y: System, calls: seq<Call>) returns (z: System)
    requires Reachable(y, 2) && y.busy > 0 && y.calls == calls + [Call(Waiting, Queued, false)]
    ensures Reachable(z, 2)
    ensures z == y.(b := TimedOut(y.b, y.now), calls := calls + [Call(Exited, Given, false)], since := Logged(y),
                    busy := y.busy - 1)
  {
    hide TimedOut, Reachable, QueuedJobs, Logged;
    var id := |calls|;
    LastPut(calls);
    var z1 := Next(y, 2, Timeout(id));
    Reaches(y, 2, Timeout(id));
    var z2 := Next(z1, 2, StartJob(id));
    Reaches(z1, 2, StartJob(id));
    assert z2.calls == calls + [Call(Exited, Running, false)];
    var z3 := Next(z2, 2, ReturnJob(id));
    Reaches(z2, 2, ReturnJob(id));
    assert z3.calls == calls + [Call(Exited, Returned, false)];
    z := Next(z3, 2, Give(id));
    Reaches(z3, 2, Give(id));
  }

  lemma HungCall(y: System) returns (z: System)
    requires Reachable(y, 2) && y.b.openedAt.None? && y.busy == 1 && !y.fault && QueuedJobs(y.calls) < 2
    ensures Reachable(z, 2)
    ensures z == y.(b := TimedOut(y.b, y.now), calls := y.calls + [Call(Exited, Given, false)], since := Logged(y))
  {
    hide TimedOut, Reachable, QueuedJobs;
    z := HandedCall(y);
    z := HungJob(z, y.calls);
  }

  lemma QueuedNew(calls: seq<Call>)
    ensures forall p, j, t :: QueuedJobs(calls + [Call(p, j, t)]) == QueuedJobs(calls) + if j == Queued then 1 else 0
  {
    forall p, j, t ensures QueuedJobs(calls + [Call(p, j, t)]) == QueuedJobs(calls) + if j == Queued then 1 else 0 {
      assert (calls + [Call(p, j, t)])[..|calls|] == calls;
    }
  }

  /** n hung calls at time zero beside one that waits on. */
  function Hung(n: nat): seq<Call> {
    if n == 0 then [Call(Waiting, Queued, false)] else Hung(n - 1) + [Call(Exited, Given, false)]
  }

  function Zeros(n: nat): (ts: seq<Time>)
    ensures |ts| == n && forall i :: 0 <= i < n ==> ts[i] == 0
  {
    if n == 0 then [] else Zeros(n - 1) + [0]
  }

  lemma {:induction false} ZerosKept(n: nat)
    ensures Kept(Zeros(n), 0) == Zeros(n)
  {
    if n != 0 {
      ZerosKept(n - 1);
      assert Zeros(n)[..n - 1] == Zeros(n - 1);
    }
  }

  lemma NoneQueued()
    ensures QueuedJobs([]) == 0
  {}

  lemma {:induction false} HungQueued(n: nat)
    ensures |Hung(n)| == n + 1 && QueuedJobs(Hung(n)) == 1 && Hung(n)[0] == Call(Waiting, Queued, false)
  {
    hide QueuedJobs;
    if n == 0 {
      NoneQueued();
      QueuedNew([]);
      assert [] + [Call(Waiting, Queued, false)] == Hung(0);
    } else {
      HungQueued(n - 1);
      QueuedNew(Hung(n - 1));
    }
  }

  lemma {:induction false} HangCalls(n: nat) returns (y: System)
    requires n < BREAKER_TRIPS
    ensures Reachable(y, 2) && y == System(Breaker(Zeros(n), None, false), 1, Hung(n), 0, Zeros(n), 0, false)
  {
    hide Kept, Reachable, Next;
    if n == 0 {
      y := FirstWaits();
    } else {
      var x := HangCalls(n - 1);
      HungQueued(n - 1);
      ZerosKept(n - 1);
      y := HungCall(x);
      assert TimedOut(x.b, 0) == Breaker(Zeros(n), None, false);
    }
  }

  lemma FirstWaits() returns (y: System)
    ensures Reachable(y, 2) && y == System(Breaker([], None, false), 1, Hung(0), 0, [], 0, false)
  {
    hide Reachable;
    StartReached();
    y := HandedCall(START);
  }

  lemma StartReached()
    ensures Reachable(START, 2)
  {
    assert Run(2, []) == START;
  }

  /** Five calls hang and open the breaker while an older one waits; half-open a minute later, the older
      call leaves, and two trials are out at once. */
  lemma TwoTrials() returns (y: System, i: nat, j: nat)
    ensures Reachable(y, 2) && i != j && InTrial(y, i) && InTrial(y, j)
  {
    hide Reachable, Kept, Next;
    var x := HangCalls(4);
    HungQueued(4);
    ZerosKept(4);
    var tripped := HungCall(x);
    assert tripped.b == Breaker([], Some(0), false);
    HungQueued(5);
    var half := Next(tripped, 2, Pass(BREAKER_OPEN));
    Reaches(tripped, 2, Pass(BREAKER_OPEN));
    var trial := Next(half, 2, Enter);
    Reaches(half, 2, Enter);
    TrialOut(tripped);
    var gone := Next(trial, 2, Cancel(0));
    Reaches(trial, 2, Cancel(0));
    var still := Next(gone, 2, Pass(BREAKER_OPEN));
    Reaches(gone, 2, Pass(BREAKER_OPEN));
    y := Next(still, 2, Enter);
    Reaches(still, 2, Enter);
    CancelStrays(trial);
    SecondTrial(trial, 2, Cancel(0), BREAKER_OPEN);
    i, j := trial.owner, y.owner;
  }

  lemma CancelStrays(y: System)
    requires y.b.trial && y.owner != 0 && |y.calls| > 0 && y.calls[0].phase == Waiting
    ensures Stray(y, Cancel(0)) && Next(y, 2, Cancel(0)).b.openedAt == y.b.openedAt
  {}

  lemma TrialOut(y: System)
    requires y.b == Breaker([], Some(0), false) && y.now == 0 && y.calls == Hung(5) && y.since == []
    ensures var z := Next(Next(y, 2, Pass(BREAKER_OPEN)), 2, Enter);
            && Owned(z) && Window(z) && z.b.trial && z.owner == 6 && |z.calls| == 7 && z.calls[0].phase == Waiting
            && z.b.openedAt == Some(0) && z.now == BREAKER_OPEN
  {
    HungQueued(5);
  }
}
