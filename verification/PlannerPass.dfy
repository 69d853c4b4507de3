/** One file's pass: planners over one draft, each isolated from the others, then the applies and effects. */
module PlannerPasses {
  import opened Effects
  import opened Options

  /** Field to value; a field absent is cleared. */
  type Status = map<string, int>

  datatype Result = Result(effects: seq<Effect>, again: bool, unpaced: bool)

  const NOTHING := Result([], false, false)

  datatype Plan = Failed | Planned(out: Status, result: Result)

  /** A planner as one pass meets it: its fields, whether it applies, whether its Gather fails, and
      what its Plan makes of the draft (its error or panic is Failed). */
  datatype Planner = Planner(name: string, fields: set<string>, applies: bool, gatherFails: bool, plan: Status -> Plan)

  const PROBE := "probe"

  /** A lawful Copy: exactly the planner's fields, a field cleared in `from` cleared. */
  function Copy(fields: set<string>, from: Status, into: Status): Status {
    (into - fields) + map f | f in from && f in fields :: from[f]
  }

  function Read(s: Status, f: string): Option<int> { if f in s then Some(s[f]) else None }

  /** The first planner named probe, or none. */
  function ProbeAt(ps: seq<Planner>): (i: nat)
    ensures i <= |ps| && (i < |ps| ==> ps[i].name == PROBE) && forall j :: 0 <= j < i ==> ps[j].name != PROBE
  {
    if ps == [] || ps[0].name == PROBE then 0 else ProbeAt(ps[1..]) + 1
  }

  predicate Gated(ps: seq<Planner>, i: nat) { i > ProbeAt(ps) && ProbeAt(ps) < |ps| }

  method Gate(ps: seq<Planner>) returns (gated: seq<bool>)
    ensures |gated| == |ps| && forall i :: 0 <= i < |ps| ==> (gated[i] <==> Gated(ps, i))
  {
    gated := seq(|ps|, _ => false);
    var probe := 0;
    while probe < |ps| && ps[probe].name != PROBE
      invariant 0 <= probe <= ProbeAt(ps)
    {
      probe := probe + 1;
    }
    if probe == |ps| {
      return;
    }
    for i := probe + 1 to |ps|
      invariant |gated| == |ps|
      invariant forall j :: 0 <= j < |ps| ==> (gated[j] <==> probe < j < i)
    {
      gated := gated[i := true];
    }
  }

  /** A gated planner gathers nothing while the stored probe is pending. */
  predicate Skipped(ps: seq<Planner>, prevCurrent: bool, i: nat)
    requires i < |ps|
  {
    ps[i].applies && Gated(ps, i) && !prevCurrent
  }

  predicate GatherFailed(ps: seq<Planner>, prevCurrent: bool, i: nat)
    requires i < |ps|
  {
    ps[i].applies && !Skipped(ps, prevCurrent, i) && ps[i].gatherFails
  }

  /** What planner i's fields come from, over the draft the planners before it left. */
  datatype Source = Stored | StoredAgain | Cleared | Own

  function SourceOf(ps: seq<Planner>, prev: Status, current: Status -> bool, i: nat, draft: Status): Source
    requires i < |ps|
  {
    if Gated(ps, i) && !current(draft) then Stored
    else if Gated(ps, i) && Skipped(ps, current(prev), i) then StoredAgain
    else if !ps[i].applies then Cleared
    else if GatherFailed(ps, current(prev), i) then Stored
    else if ps[i].plan(draft).Failed? then Stored
    else Own
  }

  /** The draft with planner i's fields set. */
  function DraftStep(ps: seq<Planner>, prev: Status, current: Status -> bool, i: nat, draft: Status): Status
    requires i < |ps|
  {
    match SourceOf(ps, prev, current, i, draft)
    case Stored => Copy(ps[i].fields, prev, draft)
    case StoredAgain => Copy(ps[i].fields, prev, draft)
    case Cleared => Copy(ps[i].fields, map[], draft)
    case Own => Copy(ps[i].fields, ps[i].plan(draft).out, draft)
  }

  /** The draft once the first n planners have run. */
  function DraftAfter(ps: seq<Planner>, prev: Status, current: Status -> bool, n: nat): Status
    requires n <= |ps|
  {
    if n == 0 then prev else DraftStep(ps, prev, current, n - 1, DraftAfter(ps, prev, current, n - 1))
  }

  /** A planner kept back by a probe that landed this pass asks for another; only one that planned owes more. */
  function ResultAt(ps: seq<Planner>, prev: Status, current: Status -> bool, i: nat, draft: Status): Result
    requires i < |ps|
  {
    match SourceOf(ps, prev, current, i, draft)
    case Own => ps[i].plan(draft).result
    case StoredAgain => Result([], true, false)
    case _ => NOTHING
  }

  function ResultOf(ps: seq<Planner>, prev: Status, current: Status -> bool, i: nat): Result
    requires i < |ps|
  {
    ResultAt(ps, prev, current, i, DraftAfter(ps, prev, current, i))
  }

  /** Steps 3 and 4: every planner gathers, then each plans over the draft the planners before it left. */
  method PlanAll(ps: seq<Planner>, prev: Status, current: Status -> bool) returns (draft: Status, results: seq<Result>)
    ensures draft == DraftAfter(ps, prev, current, |ps|)
    ensures |results| == |ps| && forall i :: 0 <= i < |ps| ==> results[i] == ResultOf(ps, prev, current, i)
  {
    hide DraftStep, ResultAt;
    var gated := Gate(ps);
    var fails, skipped := GatherAll(ps, gated, current(prev));
    draft, results := prev, [];
    for i := 0 to |ps|
      invariant draft == DraftAfter(ps, prev, current, i)
      invariant |results| == i && forall j :: 0 <= j < i ==> results[j] == ResultOf(ps, prev, current, j)
    {
      var next, result := PlanOne(ps, prev, current, i, draft, gated[i], skipped[i], fails[i]);
      draft, results := next, results + [result];
    }
  }

  /** One planner's turn. */
  method PlanOne(ps: seq<Planner>, prev: Status, current: Status -> bool, i: nat, draft: Status,
                 gated: bool, skipped: bool, failed: bool)
    returns (next: Status, result: Result)
    requires i < |ps| && gated == Gated(ps, i)
    requires skipped == Skipped(ps, current(prev), i) && failed == GatherFailed(ps, current(prev), i)
    ensures next == DraftStep(ps, prev, current, i, draft) && result == ResultAt(ps, prev, current, i, draft)
  {
    hide Copy, Gated, Skipped, GatherFailed;
    var p := ps[i];
    next, result := draft, NOTHING;
    if gated && !current(draft) {
      next := Copy(p.fields, prev, next);
    } else if gated && skipped {
      next := Copy(p.fields, prev, next);
      result := Result([], true, false);
    } else if !p.applies {
      next := Copy(p.fields, map[], next);
    } else if failed {
      next := Copy(p.fields, prev, next);
    } else {
      var plan := p.plan(draft);
      if plan.Failed? {
        next := Copy(p.fields, prev, next);
      } else {
        next, result := Copy(p.fields, plan.out, next), plan.result;
      }
    }
  }

  method GatherAll(ps: seq<Planner>, gated: seq<bool>, prevCurrent: bool) returns (fails: seq<bool>, skipped: seq<bool>)
    requires |gated| == |ps| && forall i :: 0 <= i < |ps| ==> (gated[i] <==> Gated(ps, i))
    ensures |fails| == |skipped| == |ps|
    ensures forall i :: 0 <= i < |ps| ==> (fails[i] <==> GatherFailed(ps, prevCurrent, i))
    ensures forall i :: 0 <= i < |ps| ==> (skipped[i] <==> Skipped(ps, prevCurrent, i))
  {
    fails, skipped := seq(|ps|, _ => false), seq(|ps|, _ => false);
    for i := 0 to |ps|
      invariant |fails| == |skipped| == |ps|
      invariant forall j :: 0 <= j < |ps| ==> (fails[j] <==> j < i && GatherFailed(ps, prevCurrent, j))
      invariant forall j :: 0 <= j < |ps| ==> (skipped[j] <==> j < i && Skipped(ps, prevCurrent, j))
    {
      if !ps[i].applies {
        continue;
      }
      if gated[i] && !prevCurrent {
        skipped := skipped[i := true];
        continue;
      }
      fails := fails[i := ps[i].gatherFails];
    }
  }

  // What each planner's fields end as.

  /** No field is two planners'. */
  predicate Disjoint(ps: seq<Planner>) { forall i, j :: 0 <= i < j < |ps| ==> ps[i].fields !! ps[j].fields }

  lemma CopyReads(fields: set<string>, from: Status, into: Status, f: string)
    ensures Read(Copy(fields, from, into), f) == if f in fields then Read(from, f) else Read(into, f)
  {}

  lemma StepReads(ps: seq<Planner>, prev: Status, current: Status -> bool, i: nat, draft: Status, f: string)
    requires i < |ps|
    ensures f !in ps[i].fields ==> Read(DraftStep(ps, prev, current, i, draft), f) == Read(draft, f)
    ensures f in ps[i].fields ==>
              Read(DraftStep(ps, prev, current, i, draft), f) ==
                match SourceOf(ps, prev, current, i, draft)
                case Stored => Read(prev, f)
                case StoredAgain => Read(prev, f)
                case Cleared => None
                case Own => Read(ps[i].plan(draft).out, f)
  {
    hide Copy;
    CopyReads(ps[i].fields, prev, draft, f);
    CopyReads(ps[i].fields, map[], draft, f);
    match SourceOf(ps, prev, current, i, draft)
    case Own => CopyReads(ps[i].fields, ps[i].plan(draft).out, draft, f);
    case _ =>
  }

  /** Fields outside those of planners m to n are as planner m found them. */
  lemma {:induction false} Untouched(ps: seq<Planner>, prev: Status, current: Status -> bool, m: nat, n: nat, f: string)
    requires m <= n <= |ps| && forall i :: m <= i < n ==> f !in ps[i].fields
    ensures Read(DraftAfter(ps, prev, current, n), f) == Read(DraftAfter(ps, prev, current, m), f)
  {
    hide DraftStep, Read;
    if m < n {
      Untouched(ps, prev, current, m, n - 1, f);
      StepReads(ps, prev, current, n - 1, DraftAfter(ps, prev, current, n - 1), f);
    }
  }

  /** Whatever the planners fail, panic, skip or write, planner i's fields end as the stored value, the
      cleared value or its own output over the draft it was given; no other planner's write reaches them. */
  lemma FieldsOf(ps: seq<Planner>, prev: Status, current: Status -> bool, i: nat, f: string)
    requires Disjoint(ps) && i < |ps| && f in ps[i].fields
    ensures var given := DraftAfter(ps, prev, current, i);
            Read(DraftAfter(ps, prev, current, |ps|), f) ==
              match SourceOf(ps, prev, current, i, given)
              case Stored => Read(prev, f)
              case StoredAgain => Read(prev, f)
              case Cleared => None
              case Own => Read(ps[i].plan(given).out, f)
  {
    hide DraftStep, SourceOf, Read;
    StepReads(ps, prev, current, i, DraftAfter(ps, prev, current, i), f);
    Untouched(ps, prev, current, i + 1, |ps|, f);
  }

  /** Some planner before i is the probe. */
  predicate AfterProbe(ps: seq<Planner>, i: nat) { exists j :: 0 <= j < i && j < |ps| && ps[j].name == PROBE }

  lemma {:induction false} GatedExactly(ps: seq<Planner>, i: nat)
    requires i < |ps|
    ensures Gated(ps, i) <==> AfterProbe(ps, i)
  {
    if Gated(ps, i) { assert ps[ProbeAt(ps)].name == PROBE; }
  }

  /** Isolation, case by case. A planner after the probe keeps what is stored while the draft's probe is
      pending, and asks for another pass when only the stored one was. Past that gate its fields are cleared
      when it does not apply; they keep what is stored when its Gather or its Plan fails, and nothing of its
      result is left; else they, and the result, are its own. */
  lemma PlannerIsolates(ps: seq<Planner>, prev: Status, current: Status -> bool, i: nat, f: string)
    requires Disjoint(ps) && i < |ps| && f in ps[i].fields
    ensures var given := DraftAfter(ps, prev, current, i);
            var made, value := ResultOf(ps, prev, current, i), Read(DraftAfter(ps, prev, current, |ps|), f);
            if AfterProbe(ps, i) && !current(given) then
              value == Read(prev, f) && made == NOTHING
            else if AfterProbe(ps, i) && ps[i].applies && !current(prev) then
              value == Read(prev, f) && made.again && made.effects == [] && !made.unpaced
            else if !ps[i].applies then
              value == None && made == NOTHING
            else
              match ps[i].plan(given)
              case Planned(out, result) =>
                if ps[i].gatherFails then value == Read(prev, f) && made == NOTHING
                else value == Read(out, f) && made == result
              case Failed => value == Read(prev, f) && made == NOTHING
  {
    hide DraftAfter, Read, ProbeAt, Gated, Disjoint;
    FieldsOf(ps, prev, current, i, f);
    GatedExactly(ps, i);
  }

  /** A field that is no planner's keeps its stored value through the planners. */
  lemma FieldsOfNone(ps: seq<Planner>, prev: Status, current: Status -> bool, f: string)
    requires forall i :: 0 <= i < |ps| ==> f !in ps[i].fields
    ensures Read(DraftAfter(ps, prev, current, |ps|), f) == Read(prev, f)
  {
    hide DraftStep, Read;
    Untouched(ps, prev, current, 0, |ps|, f);
  }

  // The gate.

  /** The statuses agree outside the fields. */
  ghost predicate AgreeOutside(a: Status, b: Status, fields: set<string>) {
    forall f :: f !in fields ==> Read(a, f) == Read(b, f)
  }

  /** A function of the status that does not read the fields. */
  ghost predicate Ignores<R(!new)>(g: Status -> R, fields: set<string>) {
    forall a, b :: AgreeOutside(a, b, fields) ==> g(a) == g(b)
  }

  lemma StepAgrees(ps: seq<Planner>, prev: Status, current: Status -> bool, i: nat, draft: Status)
    requires i < |ps|
    ensures AgreeOutside(DraftStep(ps, prev, current, i, draft), draft, ps[i].fields)
  {
    hide DraftStep, Read;
    forall f | f !in ps[i].fields ensures Read(DraftStep(ps, prev, current, i, draft), f) == Read(draft, f) {
      StepReads(ps, prev, current, i, draft, f);
    }
  }

  /** Either every planner after the probe plans from a current probe, or none of them does. */
  lemma {:induction false} GateHolds(ps: seq<Planner>, prev: Status, current: Status -> bool, i: nat)
    requires ProbeAt(ps) < i < |ps|
    requires forall j :: ProbeAt(ps) < j < |ps| ==> Ignores(current, ps[j].fields)
    ensures current(DraftAfter(ps, prev, current, i)) == current(DraftAfter(ps, prev, current, ProbeAt(ps) + 1))
  {
    hide AgreeOutside, DraftStep;
    if i > ProbeAt(ps) + 1 {
      GateHolds(ps, prev, current, i - 1);
      StepAgrees(ps, prev, current, i - 1, DraftAfter(ps, prev, current, i - 1));
      assert Ignores(current, ps[i - 1].fields);
    }
  }

  // Isolation.

  /** Two passes alike but for what planner i does. */
  predicate Differ(ps: seq<Planner>, qs: seq<Planner>, i: nat) {
    && |ps| == |qs| && i < |ps|
    && ps[i].name == qs[i].name && ps[i].fields == qs[i].fields
  }

  /** Every other planner is the same in both and reads none of the fields in `touched`, or writes only there. */
  ghost predicate Contained(ps: seq<Planner>, qs: seq<Planner>, i: nat, touched: set<string>)
    requires Differ(ps, qs, i)
  {
    && ps[i].fields <= touched
    && forall j :: 0 <= j < |ps| && j != i ==>
         ps[j] == qs[j] && (ps[j].fields <= touched || Ignores(ps[j].plan, touched))
  }

  lemma SameGate(ps: seq<Planner>, qs: seq<Planner>)
    requires |ps| == |qs| && forall j :: 0 <= j < |ps| ==> ps[j].name == qs[j].name
    ensures forall j: nat :: Gated(ps, j) == Gated(qs, j)
  {
    SameProbe(ps, qs);
  }

  lemma {:induction false} SameProbe(ps: seq<Planner>, qs: seq<Planner>)
    requires |ps| == |qs| && forall j :: 0 <= j < |ps| ==> ps[j].name == qs[j].name
    ensures ProbeAt(ps) == ProbeAt(qs)
  {
    if ps != [] { SameProbe(ps[1..], qs[1..]); }
  }

  lemma SameStep(ps: seq<Planner>, qs: seq<Planner>, prev: Status, current: Status -> bool, j: nat,
                 a: Status, b: Status, touched: set<string>)
    requires |ps| == |qs| && j < |ps| && ps[j].fields == qs[j].fields
    requires forall m: nat :: Gated(ps, m) == Gated(qs, m)
    requires ps[j].fields <= touched || (ps[j] == qs[j] && ps[j].plan(a) == ps[j].plan(b))
    requires current(a) == current(b) && AgreeOutside(a, b, touched)
    ensures AgreeOutside(DraftStep(ps, prev, current, j, a), DraftStep(qs, prev, current, j, b), touched)
  {
    hide DraftStep, Read;
    forall f | f !in touched
      ensures Read(DraftStep(ps, prev, current, j, a), f) == Read(DraftStep(qs, prev, current, j, b), f)
    {
      StepReads(ps, prev, current, j, a, f);
      StepReads(qs, prev, current, j, b, f);
    }
  }

  lemma {:induction false} SameDrafts(ps: seq<Planner>, qs: seq<Planner>, prev: Status, current: Status -> bool, i: nat,
                                      n: nat, touched: set<string>)
    requires Differ(ps, qs, i) && Contained(ps, qs, i, touched) && Ignores(current, touched) && n <= |ps|
    requires forall m: nat :: Gated(ps, m) == Gated(qs, m)
    ensures AgreeOutside(DraftAfter(ps, prev, current, n), DraftAfter(qs, prev, current, n), touched)
  {
    hide DraftStep, Read, Gated;
    if n > 0 {
      SameDrafts(ps, qs, prev, current, i, n - 1, touched);
      var a, b := DraftAfter(ps, prev, current, n - 1), DraftAfter(qs, prev, current, n - 1);
      assert ps[n - 1].fields <= touched || Ignores(ps[n - 1].plan, touched);
      SameStep(ps, qs, prev, current, n - 1, a, b, touched);
    }
  }

  /** Whatever a planner but the probe does -- fail, panic, apply or not, write anything -- no field ends
      differently outside its own and those of the planners that read it, or read one that does. */
  lemma PlannerIsolated(ps: seq<Planner>, qs: seq<Planner>, prev: Status, current: Status -> bool, i: nat,
                        touched: set<string>, f: string)
    requires Differ(ps, qs, i) && Contained(ps, qs, i, touched) && Ignores(current, touched)
    requires f !in touched
    ensures Read(DraftAfter(ps, prev, current, |ps|), f) == Read(DraftAfter(qs, prev, current, |ps|), f)
  {
    hide DraftAfter, Read, Ignores;
    SameGate(ps, qs);
    SameDrafts(ps, qs, prev, current, i, |ps|, touched);
  }

  // The applies, and the effects that follow them.

  datatype Answer = Done | Conflict | Transient | Refused

  datatype Ended = Applied | Unchanged | ConflictEnd | StaleEnd | PacedEnd | ErrorEnd | RefusedEnd

  /** What the pass meets after planning: main and status answer the two applies, asked only when there
      is something to apply; written is false when the status was already stored. */
  datatype Fate = Fate(mainChanged: bool, main: Answer, changed: bool, paced: bool, status: Answer, written: bool,
                       stale: bool)

  predicate AnyUnpaced(results: seq<Result>) { exists i :: 0 <= i < |results| && results[i].unpaced }

  /** The main apply, when there was one, landed, and so did the status, or it was stored already. */
  predicate Landed(fate: Fate, results: seq<Result>) {
    && (fate.mainChanged ==> fate.main == Done)
    && (if fate.changed then fate.status == Done && (fate.paced ==> AnyUnpaced(results)) else !fate.stale)
  }

  function TriedAll(results: seq<Result>): seq<Effect> {
    if results == [] then [] else TriedAll(results[..|results| - 1]) + Tried(results[|results| - 1].effects)
  }

  method AnyUnpacedOf(results: seq<Result>) returns (unpaced: bool)
    ensures unpaced <==> AnyUnpaced(results)
  {
    for i := 0 to |results|
      invariant forall j :: 0 <= j < i ==> !results[j].unpaced
    {
      if results[i].unpaced {
        return true;
      }
    }
    unpaced := false;
  }

  /** What an apply that did not land ends the pass as. */
  predicate EndsAs(a: Answer, end: Ended) {
    && (a == Conflict ==> end == ConflictEnd)
    && (a == Transient ==> end == ErrorEnd)
    && (a == Refused ==> end == RefusedEnd)
  }

  /** Steps 6 to 8. */
  method Finish(results: seq<Result>, fate: Fate) returns (end: Ended, run: seq<Effect>)
    ensures run == if Landed(fate, results) then TriedAll(results) else []
    ensures end in {Applied, Unchanged} <==> Landed(fate, results)
    ensures fate.mainChanged && fate.main != Done ==> EndsAs(fate.main, end)
    ensures (fate.mainChanged ==> fate.main == Done) ==>
              if !fate.changed then end == if fate.stale then StaleEnd else Unchanged
              else if fate.paced && forall r <- results :: !r.unpaced then end == PacedEnd
              else if fate.status == Done then end == if fate.written then Applied else Unchanged
              else EndsAs(fate.status, end)
  {
    run := [];
    if fate.mainChanged {
      match fate.main
      case Conflict => return ConflictEnd, run;
      case Transient => return ErrorEnd, run;
      case Refused => return RefusedEnd, run;
      case Done =>
    }
    end := Unchanged;
    if fate.changed {
      var unpaced := AnyUnpacedOf(results);
      if !unpaced && fate.paced {
        return PacedEnd, run;
      }
      match fate.status
      case Conflict => return ConflictEnd, run;
      case Transient => return ErrorEnd, run;
      case Refused => return RefusedEnd, run;
      case Done =>
      if fate.written {
        end := Applied;
      }
    } else if fate.stale {
      return StaleEnd, run;
    }
    for i := 0 to |results|
      invariant run == TriedAll(results[..i])
    {
      assert results[..i + 1][..i] == results[..i];
      var ran := RunBatch(results[i].effects);
      run := run + ran;
    }
    assert results[..|results|] == results;
  }

  lemma {:induction false} TriedFrom(results: seq<Result>, e: Effect) returns (i: nat)
    requires e in TriedAll(results)
    ensures i < |results| && e in results[i].effects
  {
    var init := results[..|results| - 1];
    if e in TriedAll(init) {
      i := TriedFrom(init, e);
    } else {
      i := |results| - 1;
      TriedIn(results[i].effects, e);
    }
  }

  /** Every planner's batch runs, whatever came of those before it. */
  lemma {:induction false} EachBatchRuns(results: seq<Result>, i: nat)
    returns (before: seq<Effect>, after: seq<Effect>)
    requires i < |results|
    ensures TriedAll(results) == before + Tried(results[i].effects) + after
    ensures before == TriedAll(results[..i])
  {
    hide Tried;
    var init := results[..|results| - 1];
    if i < |init| {
      before, after := EachBatchRuns(init, i);
      assert init[..i] == results[..i];
      after := after + Tried(results[|results| - 1].effects);
    } else {
      before, after := TriedAll(init), [];
      assert results[..i] == init;
      assert before + Tried(results[i].effects) + [] == before + Tried(results[i].effects);
    }
  }

  /** An effect runs only when the applies it follows landed, and only a planner that planned, over a
      draft its gate let it read, emits one. */
  lemma EffectsOwed(ps: seq<Planner>, prev: Status, current: Status -> bool, results: seq<Result>, fate: Fate,
                    e: Effect)
    returns (i: nat)
    requires |results| == |ps| && forall j :: 0 <= j < |ps| ==> results[j] == ResultOf(ps, prev, current, j)
    requires Landed(fate, results) && e in TriedAll(results)
    ensures fate.mainChanged ==> fate.main == Done
    ensures if fate.changed then fate.status == Done && (fate.paced ==> exists r :: r in results && r.unpaced)
            else !fate.stale
    ensures i < |ps|
    ensures var given := DraftAfter(ps, prev, current, i);
            && ps[i].applies && !ps[i].gatherFails
            && ps[i].plan(given).Planned? && e in ps[i].plan(given).result.effects
            && (AfterProbe(ps, i) ==> current(given) && current(prev))
  {
    hide DraftAfter, Tried, TriedAll, Gated, AfterProbe;
    i := TriedFrom(results, e);
    GatedExactly(ps, i);
  }
}
