/** Whether anyone attends a durable: its consumer's lag, its agents' presence, and unserved requests. */
module Attendances {
  import opened Clock
  import opened Options
  import opened Slots

  const UNATTENDED_AFTER: int := 120_000_000_000

  datatype StateRead = StateErr | StateOk(pending: nat, ackPending: nat, waiting: nat)

  function LagOf(st: StateRead): nat
    requires st.StateOk?
  {
    st.pending + st.ackPending
  }

  /** Present also when no domain or no reader is asked. */
  datatype Presence = PresenceErr | Present | Absent

  datatype Attendance = Attendance(known: bool, lag: nat, lagSince: Time, stalled: bool, absentSince: Option<Time>,
                                   unattended: bool)

  const UNSEEN := Attendance(false, 0, 0, false, None, false)

  /** One detection: what was read, and when. */
  datatype Detection = Detection(st: StateRead, presence: Presence, now: Time)

  function WithState(a: Attendance, st: StateRead, now: Time): Attendance {
    if st.StateErr? then a
    else
      var b := if !a.known || LagOf(st) != a.lag then a.(lag := LagOf(st), lagSince := now, known := true) else a;
      b.(stalled := st.pending > 0 && st.waiting == 0 && now - b.lagSince >= UNATTENDED_AFTER)
  }

  function WithPresence(a: Attendance, presence: Presence, now: Time): Attendance {
    if presence.PresenceErr? then a
    else if presence.Absent? && a.known && a.lag > 0 then
      a.(absentSince := if a.absentSince.None? then Some(now) else a.absentSince)
    else a.(absentSince := None)
  }

  predicate NoAgent(a: Attendance, now: Time) {
    a.absentSince.Some? && now - a.absentSince.value >= UNATTENDED_AFTER
  }

  function Detected(a: Attendance, d: Detection): Attendance {
    var b := WithPresence(WithState(a, d.st, d.now), d.presence, d.now);
    b.(unattended := b.stalled || NoAgent(b, d.now))
  }

  function After(ds: seq<Detection>): Attendance {
    if ds == [] then UNSEEN else Detected(After(ds[..|ds| - 1]), ds[|ds| - 1])
  }

  predicate OnClock(ds: seq<Detection>) { forall i, j :: 0 <= i < j < |ds| ==> ds[i].now <= ds[j].now }

  // Stalled.

  predicate LastOk(ds: seq<Detection>, l: nat) {
    l < |ds| && ds[l].st.StateOk? && forall j :: l < j < |ds| ==> ds[j].st.StateErr?
  }

  /** Every successful read from i to l gave l's lag. */
  predicate SameLag(ds: seq<Detection>, i: nat, l: nat)
    requires i <= l < |ds| && ds[l].st.StateOk?
  {
    forall j :: i <= j <= l && ds[j].st.StateOk? ==> LagOf(ds[j].st) == LagOf(ds[l].st)
  }

  lemma LagBroken(ds: seq<Detection>, i: nat, l: nat) returns (j: nat)
    requires i <= l < |ds| && ds[l].st.StateOk? && !SameLag(ds, i, l)
    ensures i <= j <= l && ds[j].st.StateOk? && LagOf(ds[j].st) != LagOf(ds[l].st)
  {
    j :| i <= j <= l && ds[j].st.StateOk? && LagOf(ds[j].st) != LagOf(ds[l].st);
  }

  /** l is the last successful read and s the first of the reads up to it that gave its lag without a break. */
  ghost predicate LagRun(ds: seq<Detection>, s: nat, l: nat) {
    && LastOk(ds, l) && s <= l && ds[s].st.StateOk? && SameLag(ds, s, l)
    && forall i :: 0 <= i < s && ds[i].st.StateOk? ==> !SameLag(ds, i, l)
  }

  lemma RunThroughError(ds: seq<Detection>, d: Detection, s: nat, l: nat)
    requires LagRun(ds, s, l) && d.st.StateErr?
    ensures LagRun(ds + [d], s, l)
  {
    var all := ds + [d];
    forall i | 0 <= i < s && all[i].st.StateOk? ensures !SameLag(all, i, l) {
      assert all[i] == ds[i];
      var j := LagBroken(ds, i, l);
      assert all[j] == ds[j];
    }
  }

  lemma RunExtends(ds: seq<Detection>, d: Detection, s: nat, l: nat)
    requires LagRun(ds, s, l) && d.st.StateOk? && LagOf(d.st) == LagOf(ds[l].st)
    ensures LagRun(ds + [d], s, |ds|)
  {
    var all := ds + [d];
    forall i | 0 <= i < s && all[i].st.StateOk? ensures !SameLag(all, i, |ds|) {
      assert all[i] == ds[i];
      var j := LagBroken(ds, i, l);
      assert all[j] == ds[j];
    }
  }

  lemma RunStarts(ds: seq<Detection>, d: Detection, s: nat, l: nat)
    requires LagRun(ds, s, l) && d.st.StateOk? && LagOf(d.st) != LagOf(ds[l].st)
    ensures LagRun(ds + [d], |ds|, |ds|)
  {
    var all := ds + [d];
    forall i | 0 <= i < |ds| && all[i].st.StateOk? ensures !SameLag(all, i, |ds|) {
      assert all[l] == ds[l];
    }
  }

  lemma FirstRun(ds: seq<Detection>, d: Detection)
    requires d.st.StateOk? && forall i :: 0 <= i < |ds| ==> ds[i].st.StateErr?
    ensures LagRun(ds + [d], |ds|, |ds|)
  {}

  /** What the state half of the attendance says of the reads. */
  ghost predicate Describes(a: Attendance, ds: seq<Detection>, s: nat, l: nat) {
    if a.known then
      && LagRun(ds, s, l) && a.lag == LagOf(ds[l].st) && a.lagSince == ds[s].now
      && (a.stalled <==> ds[l].st.pending > 0 && ds[l].st.waiting == 0 && ds[l].now - ds[s].now >= UNATTENDED_AFTER)
    else !a.stalled && forall i :: 0 <= i < |ds| ==> ds[i].st.StateErr?
  }

  lemma {:induction false} LagSinceRun(ds: seq<Detection>) returns (s: nat, l: nat)
    ensures Describes(After(ds), ds, s, l)
  {
    hide LagRun, WithPresence;
    s, l := 0, 0;
    if ds != [] {
      var init, d := ds[..|ds| - 1], ds[|ds| - 1];
      assert ds == init + [d];
      s, l := LagSinceRun(init);
      var a := After(init);
      PresenceAside(WithState(a, d.st, d.now), d.presence, d.now);
      if d.st.StateErr? {
        if a.known { RunThroughError(init, d, s, l); RunWithin(init, s, l); }
      } else if !a.known {
        FirstRun(init, d);
        s, l := |init|, |init|;
      } else {
        RunWithin(init, s, l);
        if LagOf(d.st) == a.lag {
          RunExtends(init, d, s, l);
        } else {
          RunStarts(init, d, s, l);
          s := |init|;
        }
        l := |init|;
      }
    }
  }

  lemma RunWithin(ds: seq<Detection>, s: nat, l: nat)
    requires LagRun(ds, s, l)
    ensures s <= l < |ds|
  {}

  lemma PresenceAside(a: Attendance, presence: Presence, now: Time)
    ensures var b := WithPresence(a, presence, now);
            b.known == a.known && b.lag == a.lag && b.lagSince == a.lagSince && b.stalled == a.stalled
  {}

  /** l, s: the last successful read and one whose lag, and every lag between, it shares. */
  ghost predicate Stuck(ds: seq<Detection>, i: nat, l: nat) {
    && LastOk(ds, l) && i <= l && ds[i].st.StateOk? && SameLag(ds, i, l)
    && ds[l].now - ds[i].now >= UNATTENDED_AFTER && ds[l].st.pending > 0 && ds[l].st.waiting == 0
  }

  /** Stalled exactly when the last successful read shows work nobody pulls, and it and a read at least
      two minutes older gave one lag, as did every successful read between. */
  lemma StalledExactly(ds: seq<Detection>)
    requires OnClock(ds)
    ensures After(ds).stalled <==> exists i, l :: Stuck(ds, i, l)
  {
    hide After;
    var s, m := LagSinceRun(ds);
    if After(ds).stalled { assert Stuck(ds, s, m); }
    if i, l :| Stuck(ds, i, l) {
      assert After(ds).known;
      StuckIsRun(ds, s, m, i, l);
    }
  }

  lemma StuckIsRun(ds: seq<Detection>, s: nat, m: nat, i: nat, l: nat)
    requires OnClock(ds) && LagRun(ds, s, m) && Stuck(ds, i, l)
    ensures l == m && s <= i && ds[s].now <= ds[i].now
  {}

  // Absent.

  /** Detection j saw the agents absent while the durable, as then known, had lag. */
  predicate Missing(ds: seq<Detection>, j: nat)
    requires j < |ds|
  {
    ds[j].presence.Absent? && After(ds[..j + 1]).known && After(ds[..j + 1]).lag > 0
  }

  /** From i on every error-free observation saw that. */
  ghost predicate Unbroken(ds: seq<Detection>, i: nat) {
    i < |ds| && Missing(ds, i) && forall j :: i < j < |ds| && !ds[j].presence.PresenceErr? ==> Missing(ds, j)
  }

  lemma MissingBefore(ds: seq<Detection>, d: Detection, j: nat)
    requires j < |ds|
    ensures Missing(ds + [d], j) == Missing(ds, j)
  {
    assert (ds + [d])[..j + 1] == ds[..j + 1];
  }

  lemma UnbrokenGrows(ds: seq<Detection>, d: Detection, i: nat)
    ensures Unbroken(ds + [d], i) <==>
              if d.presence.PresenceErr? then Unbroken(ds, i)
              else Missing(ds + [d], |ds|) && (i == |ds| || Unbroken(ds, i))
  {
    hide Missing;
    var all := ds + [d];
    forall j | 0 <= j < |ds| ensures Missing(all, j) == Missing(ds, j) && all[j] == ds[j] {
      MissingBefore(ds, d, j);
    }
    if d.presence.PresenceErr? && i == |ds| { NotMissing(all, i); }
  }

  lemma NotMissing(ds: seq<Detection>, i: nat)
    requires i < |ds| && ds[i].presence.PresenceErr?
    ensures !Missing(ds, i)
  {}

  /** absentSince is the time of the first detection since which every error-free observation saw it. */
  ghost predicate Since(absent: Option<Time>, ds: seq<Detection>, s: nat) {
    if absent.None? then forall i: nat :: !Unbroken(ds, i)
    else Unbroken(ds, s) && absent.value == ds[s].now && forall i: nat :: Unbroken(ds, i) ==> s <= i
  }

  lemma {:induction false} AbsentSinceFirst(ds: seq<Detection>) returns (s: nat)
    ensures Since(After(ds).absentSince, ds, s)
  {
    hide Unbroken, Missing, WithState;
    s := 0;
    if ds == [] {
      NothingUnbroken();
    } else {
      var init, d := ds[..|ds| - 1], ds[|ds| - 1];
      assert ds == init + [d];
      s := AbsentSinceFirst(init);
      forall i: nat ensures Unbroken(ds, i) <==>
              if d.presence.PresenceErr? then Unbroken(init, i)
              else Missing(ds, |init|) && (i == |init| || Unbroken(init, i))
      {
        UnbrokenGrows(init, d, i);
      }
      LastMissing(init, d);
      UnbrokenWithin(init, s);
      if After(init).absentSince.None? { s := |init|; }
    }
  }

  lemma NothingUnbroken()
    ensures forall i: nat :: !Unbroken([], i)
  {}

  lemma UnbrokenWithin(ds: seq<Detection>, s: nat)
    ensures Unbroken(ds, s) ==> s < |ds|
    ensures forall i: nat :: Unbroken(ds, i) ==> i < |ds|
  {}

  lemma LastMissing(init: seq<Detection>, d: Detection)
    ensures var a := WithState(After(init), d.st, d.now);
            && a.absentSince == After(init).absentSince
            && (Missing(init + [d], |init|) <==> d.presence.Absent? && a.known && a.lag > 0)
            && After(init + [d]).absentSince == WithPresence(a, d.presence, d.now).absentSince
  {
    assert (init + [d])[..|init| + 1] == init + [d] && (init + [d])[..|init|] == init;
  }

  /** No agent exactly when the first of an unbroken run of absences is at least two minutes old; a
      read of presence that fails breaks nothing, so the last one may have failed. */
  lemma NoAgentExactly(ds: seq<Detection>)
    requires OnClock(ds) && ds != []
    ensures NoAgent(After(ds), ds[|ds| - 1].now) <==>
              exists i: nat :: Unbroken(ds, i) && ds[|ds| - 1].now - ds[i].now >= UNATTENDED_AFTER
  {
    hide After, Missing;
    var s := AbsentSinceFirst(ds);
    hide Since;
    SinceNoAgent(After(ds).absentSince, ds, s);
  }

  lemma SinceNoAgent(absent: Option<Time>, ds: seq<Detection>, s: nat)
    requires OnClock(ds) && ds != [] && Since(absent, ds, s)
    ensures (absent.Some? && ds[|ds| - 1].now - absent.value >= UNATTENDED_AFTER) <==>
              exists i: nat :: Unbroken(ds, i) && ds[|ds| - 1].now - ds[i].now >= UNATTENDED_AFTER
  {
    hide Missing;
  }

  /** The verdict is one of the two, and each was decided above. */
  lemma UnattendedExactly(ds: seq<Detection>)
    requires OnClock(ds) && ds != []
    ensures After(ds).unattended <==>
              || (exists i, l :: Stuck(ds, i, l))
              || (exists i: nat :: Unbroken(ds, i) && ds[|ds| - 1].now - ds[i].now >= UNATTENDED_AFTER)
  {
    hide Unbroken, Stuck, WithState, WithPresence;
    StalledExactly(ds);
    NoAgentExactly(ds);
    assert After(ds).unattended <==> After(ds).stalled || NoAgent(After(ds), ds[|ds| - 1].now);
  }

  // What a failed read keeps.

  /** The verdict was decided at `was`. */
  predicate DecidedAt(a: Attendance, was: Time) { a.unattended <==> a.stalled || NoAgent(a, was) }

  lemma DecidedAtLast(ds: seq<Detection>)
    ensures DecidedAt(After(ds), if ds == [] then 0 else ds[|ds| - 1].now)
  {
    hide WithState, WithPresence;
  }

  /** The lag kept is that of the last successful read: what is undelivered and what is unanswered. */
  lemma {:induction false} LagIs(ds: seq<Detection>)
    ensures ds != [] && ds[|ds| - 1].st.StateOk? ==>
              After(ds).known && After(ds).lag == ds[|ds| - 1].st.pending + ds[|ds| - 1].st.ackPending
    ensures ds != [] && ds[|ds| - 1].st.StateErr? ==>
              After(ds).lag == After(ds[..|ds| - 1]).lag && After(ds).known == After(ds[..|ds| - 1]).known
  {}

  /** The absence seen, if any, is not two minutes old yet. */
  predicate NotYet(a: Attendance, now: Time) { a.absentSince.None? || now - a.absentSince.value < UNATTENDED_AFTER }

  /** Both reads failed: the last verdict is kept exactly when it was unattended, or no absence has
      since turned two minutes old. */
  lemma FailedReadsKeep(a: Attendance, was: Time, now: Time)
    requires DecidedAt(a, was) && was <= now
    ensures Detected(a, Detection(StateErr, PresenceErr, now)).unattended == a.unattended <==>
              a.unattended || NotYet(a, now)
  {}

  /** The consumer's state could not be read: its half of the verdict is kept, and the whole exactly when
      an absence seen again keeps it, or presence takes nothing back. */
  lemma FailedStateKeeps(a: Attendance, was: Time, presence: Presence, now: Time)
    requires DecidedAt(a, was) && was <= now && !presence.PresenceErr?
    ensures Detected(a, Detection(StateErr, presence, now)).stalled == a.stalled
    ensures Detected(a, Detection(StateErr, presence, now)).unattended == a.unattended <==>
              if presence.Absent? && a.known && a.lag > 0 then a.unattended || NotYet(a, now)
              else a.stalled || !a.unattended
  {}

  /** Presence could not be read: the whole is kept exactly when a stall says what it said, or, with no
      stall, the absence already seen does. */
  lemma FailedPresenceKeeps(a: Attendance, was: Time, st: StateRead, now: Time)
    requires DecidedAt(a, was) && was <= now && st.StateOk?
    ensures Detected(a, Detection(st, PresenceErr, now)).absentSince == a.absentSince
    ensures Detected(a, Detection(st, PresenceErr, now)).unattended == a.unattended <==>
              if WithState(a, st, now).stalled then a.unattended else a.unattended == !NotYet(a, now)
  {}

  /** Over any history: two failed reads keep the verdict exactly when it was unattended, or no unbroken
      run of absences is two minutes old by then. */
  lemma FailedReadsKeepHistory(ds: seq<Detection>, now: Time)
    requires OnClock(ds) && ds != [] && ds[|ds| - 1].now <= now
    ensures After(ds + [Detection(StateErr, PresenceErr, now)]).unattended == After(ds).unattended <==>
              || After(ds).unattended
              || forall i: nat :: Unbroken(ds, i) ==> now - ds[i].now < UNATTENDED_AFTER
  {
    hide After, Unbroken, Detected;
    var d := Detection(StateErr, PresenceErr, now);
    AfterSnoc(ds, d);
    DecidedAtLast(ds);
    FailedReadsKeep(After(ds), ds[|ds| - 1].now, now);
    var s := AbsentSinceFirst(ds);
    OldestAbsence(After(ds), ds, s, now);
  }

  lemma AfterSnoc(ds: seq<Detection>, d: Detection)
    ensures After(ds + [d]) == Detected(After(ds), d)
  {
    hide Detected;
    assert (ds + [d])[..|ds|] == ds;
  }

  lemma OldestAbsence(a: Attendance, ds: seq<Detection>, s: nat, now: Time)
    requires OnClock(ds) && Since(a.absentSince, ds, s)
    ensures NotYet(a, now) <==> forall i: nat :: Unbroken(ds, i) ==> now - ds[i].now < UNATTENDED_AFTER
  {
    hide Missing;
    if a.absentSince.Some? && NotYet(a, now) {
      forall i: nat | Unbroken(ds, i) ensures now - ds[i].now < UNATTENDED_AFTER {
        assert s <= i < |ds|;
      }
    }
  }

  /** One absence seen, then only failed reads of presence: two minutes later nobody attends. */
  lemma FailedReadCrosses()
    ensures var a, b := Detection(StateOk(1, 0, 1), Absent, 0), Detection(StateErr, PresenceErr, UNATTENDED_AFTER);
            !After([a]).unattended && After([a, b]).unattended
  {
    var a, b := Detection(StateOk(1, 0, 1), Absent, 0), Detection(StateErr, PresenceErr, UNATTENDED_AFTER);
    assert [a, b][..1] == [a] && [a][..0] == [];
    assert After([]) == UNSEEN;
  }

  // Requests that found no responder.

  datatype Outcome = NoResponders | Timeout | Answered

  /** One domain's mark: when a request last found no responder. */
  function Observed(mark: Option<Time>, outcome: Outcome, now: Time): Option<Time> {
    match outcome
    case NoResponders => Some(now)
    case Timeout => mark
    case Answered => None
  }

  predicate Fresh(mark: Option<Time>, now: Time) { mark.Some? && now - mark.value <= 2 * UNATTENDED_AFTER }

  /** A look drops a stale mark. */
  function Looked(mark: Option<Time>, now: Time): Option<Time> { if Fresh(mark, now) then mark else None }

  datatype Event = Request(outcome: Outcome, now: Time) | Look(now: Time)

  function MarkAfter(es: seq<Event>): Option<Time> {
    if es == [] then None
    else
      var mark, e := MarkAfter(es[..|es| - 1]), es[|es| - 1];
      if e.Request? then Observed(mark, e.outcome, e.now) else Looked(mark, e.now)
  }

  predicate InTime(es: seq<Event>) { forall i, j :: 0 <= i < j < |es| ==> es[i].now <= es[j].now }

  /** Request i found no responder and none since was answered. */
  predicate Unanswered(es: seq<Event>, i: nat) {
    && i < |es| && es[i].Request? && es[i].outcome == NoResponders
    && forall j :: i < j < |es| && es[j].Request? ==> es[j].outcome == Timeout
  }

  lemma {:induction false} MarkIsUnanswered(es: seq<Event>)
    requires InTime(es)
    ensures MarkAfter(es).Some? ==> exists i: nat :: Unanswered(es, i) && es[i].now == MarkAfter(es).value
    ensures forall i: nat :: Unanswered(es, i) ==>
              MarkAfter(es) == Some(es[i].now) || es[|es| - 1].now - es[i].now > 2 * UNATTENDED_AFTER
  {
    if es != [] {
      var init, e := es[..|es| - 1], es[|es| - 1];
      MarkIsUnanswered(init);
      forall i: nat | i < |init| ensures Unanswered(es, i) <==>
        Unanswered(init, i) && (e.Request? ==> e.outcome == Timeout) {
        assert es[i] == init[i];
      }
      if MarkAfter(es).Some? && !(e.Request? && e.outcome == NoResponders) {
        var i: nat :| Unanswered(init, i) && init[i].now == MarkAfter(init).value;
        assert Unanswered(es, i);
      } else if e.Request? && e.outcome == NoResponders {
        assert Unanswered(es, |init|);
      }
    }
  }

  /** A look finds the domain unserved exactly when its last request but timeouts found no responder,
      within four minutes. */
  lemma {:induction false} UnservedExactly(es: seq<Event>, now: Time)
    requires InTime(es) && (es != [] ==> es[|es| - 1].now <= now)
    ensures Fresh(MarkAfter(es), now) <==> exists i: nat :: Unanswered(es, i) && now - es[i].now <= 2 * UNATTENDED_AFTER
  {
    hide MarkAfter, Unanswered;
    MarkIsUnanswered(es);
    UnansweredWithin(es);
  }

  /** Such a look keeps the mark as it was, and any other drops it. */
  lemma LookDrops(es: seq<Event>, now: Time)
    requires InTime(es) && (es != [] ==> es[|es| - 1].now <= now)
    ensures MarkAfter(es + [Look(now)]).Some? <==>
              exists i: nat :: Unanswered(es, i) && now - es[i].now <= 2 * UNATTENDED_AFTER
    ensures MarkAfter(es + [Look(now)]).Some? ==> MarkAfter(es + [Look(now)]) == MarkAfter(es)
  {
    hide Unanswered, InTime;
    UnservedExactly(es, now);
    assert (es + [Look(now)])[..|es|] == es;
  }

  lemma UnansweredWithin(es: seq<Event>)
    ensures forall i: nat :: Unanswered(es, i) ==> i < |es|
  {}

  // The ledger's half.

  function MarkOf(unserved: map<string, Time>, domain: string): Option<Time> {
    if domain in unserved then Some(unserved[domain]) else None
  }

  function AttendanceOf(attendance: map<string, Attendance>, durable: string): Attendance {
    if durable in attendance then attendance[durable] else UNSEEN
  }

  class Watch {
    var attendance: map<string, Attendance>
    var unserved: map<string, Time>
    /** The durables whose turning unattended was recorded. */
    var recorded: seq<string>

    constructor ()
      ensures attendance == map[] && unserved == map[] && recorded == []
    {
      attendance, unserved, recorded := map[], map[], [];
    }

    /** ObserveRequest, given the domain that serves the subject, if one does. */
    method ObserveRequest(domain: Option<string>, outcome: Outcome, now: Time)
      modifies `unserved
      ensures domain.None? ==> unserved == old(unserved)
      ensures domain.Some? ==>
                MarkOf(unserved, domain.value) == Observed(old(MarkOf(unserved, domain.value)), outcome, now)
      ensures forall o :: domain != Some(o) ==> MarkOf(unserved, o) == old(MarkOf(unserved, o))
    {
      if domain.None? {
        return;
      }
      match outcome
      case NoResponders => unserved := unserved[domain.value := now];
      case Timeout =>
      case Answered => unserved := unserved - {domain.value};
    }

    method UnservedLocked(domain: string, now: Time) returns (isUnserved: bool)
      modifies `unserved
      ensures isUnserved <==> Fresh(old(MarkOf(unserved, domain)), now)
      ensures MarkOf(unserved, domain) == Looked(old(MarkOf(unserved, domain)), now)
      ensures forall o :: o != domain ==> MarkOf(unserved, o) == old(MarkOf(unserved, o))
    {
      if domain !in unserved {
        return false;
      }
      if now - unserved[domain] > 2 * UNATTENDED_AFTER {
        unserved := unserved - {domain};
        return false;
      }
      isUnserved := true;
    }

    /** detect: st and presence are what was read, a durable with no domain not asked, and a domain whose verb
        found no responder counting as absent; a durable turning unattended is recorded. */
    method Detect(durable: string, domain: string, st: StateRead, presence: Presence, now: Time)
      modifies this
      ensures AttendanceOf(attendance, durable) ==
              Detected(old(AttendanceOf(attendance, durable)),
                       Detection(st, if domain == "" then Present
                                     else if Fresh(old(MarkOf(unserved, domain)), now) then Absent
                                     else presence, now))
      ensures forall o :: o != durable ==> AttendanceOf(attendance, o) == old(AttendanceOf(attendance, o))
      ensures forall o :: MarkOf(unserved, o) ==
                          if o == domain != "" then Looked(old(MarkOf(unserved, o)), now) else old(MarkOf(unserved, o))
      ensures var was := old(AttendanceOf(attendance, durable)).unattended;
              var turned := AttendanceOf(attendance, durable).unattended;
              recorded == old(recorded) + if turned && !was then [durable] else []
    {
      hide Detected, Looked, Fresh;
      var seen := if domain == "" then Present else presence;
      if domain != "" {
        var isUnserved := UnservedLocked(domain, now);
        if isUnserved {
          seen := Absent;
        }
      }
      var was := AttendanceOf(attendance, durable);
      var a := Decide(was, st, seen, now);
      attendance := attendance[durable := a];
      if a.unattended && !was.unattended {
        recorded := recorded + [durable];
      }
    }

    static method Decide(was: Attendance, st: StateRead, presence: Presence, now: Time) returns (a: Attendance)
      ensures a == Detected(was, Detection(st, presence, now))
    {
      a := was;
      if st.StateOk? {
        if !a.known || st.pending + st.ackPending != a.lag {
          a := a.(lag := st.pending + st.ackPending, lagSince := now, known := true);
        }
        a := a.(stalled := st.pending > 0 && st.waiting == 0 && now - a.lagSince >= UNATTENDED_AFTER);
      }
      if !presence.PresenceErr? {
        if presence.Absent? && a.known && a.lag > 0 {
          if a.absentSince.None? {
            a := a.(absentSince := Some(now));
          }
        } else {
          a := a.(absentSince := None);
        }
      }
      var noAgent := a.absentSince.Some? && now - a.absentSince.value >= UNATTENDED_AFTER;
      a := a.(unattended := a.stalled || noAgent);
    }
  }
}
