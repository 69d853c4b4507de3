/** Handlers and passes on one inbox, interleaved step by step. */
module InboxProtocol {
  import opened Options
  import opened Inboxes

  /** A parked entry's done channel, which holds one value. */
  datatype Chan = Empty | Sent(outcome: Outcome) | Closed

  /** Waiting on its channel; Leaving once its timer fired, its entry not yet dropped. */
  datatype Handler = Waiting | Leaving | Acked | Naked

  /** One entry's life: sending is what a Settle has yet to send; decided and left are its history,
      the outcome it was settled with and how often it left the inbox. */
  datatype Cell = Cell(entry: Entry, chan: Chan, sending: Option<Outcome>, handler: Handler, decided: Option<Outcome>,
                       left: nat)

  /** cells is indexed by entry id. A fault is a send that blocks or panics, or a second write. */
  datatype System = System(inbox: State, cells: seq<Cell>, fault: bool)

  datatype Step =
    | Park(owner: OwnerKey, msgID: string, at: int)
    | SettleLock(msgID: string, outcome: Outcome)
    | SettleSend(id: nat)
    | Receive(id: nat)
    | GiveUp(id: nat)
    | DropEntry(id: nat)

  const START := System(State(map[], map[], map[], [], 0), [], false)

  function Put(y: System, id: nat, c: Cell): System
    requires id < |y.cells|
  {
    y.(cells := y.cells[id := c])
  }

  function Left(c: Cell): Cell { c.(left := c.left + 1) }

  /** A write to the channel, right only on an empty one. */
  function Write(y: System, id: nat, c: Chan): System
    requires id < |y.cells|
  {
    if y.cells[id].chan == Empty then Put(y, id, y.cells[id].(chan := c)) else y.(fault := true)
  }

  /** The cell of the entry parked under msgID, if one is. */
  function CellOf(y: System, msgID: string): Option<nat> {
    if msgID in y.inbox.byID && y.inbox.byID[msgID].id < |y.cells| then Some(y.inbox.byID[msgID].id) else None
  }

  /** park's first half: an entry of the same message leaves, and its channel is closed. */
  function Supersede(y: System, msgID: string): System {
    var z := y.(inbox := Superseded(y.inbox, msgID));
    match CellOf(y, msgID)
    case None => z
    case Some(id) => Write(Put(z, id, Left(y.cells[id])), id, Closed)
  }

  function Next(y: System, max: nat, step: Step): System {
    match step
    case Park(owner, msgID, at) =>
      var z := Supersede(y, msgID);
      var parked := ParkedState(y.inbox, max, owner, msgID, at);
      z.(inbox := parked.0,
         cells := if parked.1.None? then z.cells
                  else z.cells + [Cell(parked.1.value, Empty, None, Waiting, None, 0)])
    case SettleLock(msgID, o) =>
      var z := y.(inbox := SettledState(y.inbox, msgID, o));
      (match CellOf(y, msgID)
       case None => z
       case Some(id) =>
         Put(z, id, Left(y.cells[id]).(sending := Some(o),
                                       decided := Some(o))).(fault := y.fault || y.cells[id].sending.Some?))
    case SettleSend(id) =>
      if id < |y.cells| && y.cells[id].sending.Some? then
        Write(Put(y, id, y.cells[id].(sending := None)), id, Sent(y.cells[id].sending.value))
      else y
    case Receive(id) =>
      if id < |y.cells| && y.cells[id].handler == Waiting && y.cells[id].chan != Empty then
        Put(y, id, y.cells[id].(handler := if y.cells[id].chan.Sent? then Acked else Naked))
      else y
    case GiveUp(id) =>
      if id < |y.cells| && y.cells[id].handler == Waiting then Put(y, id, y.cells[id].(handler := Leaving)) else y
    case DropEntry(id) =>
      if id < |y.cells| && y.cells[id].handler == Leaving then
        var c := y.cells[id];
        Put(y, id, (if Holds(y.inbox, c.entry) then Left(c)
          else c).(handler := Naked)).(inbox := DroppedState(y.inbox, c.entry))
      else y
  }

  function Run(max: nat, steps: seq<Step>): System {
    if steps == [] then START else Next(Run(max, steps[..|steps| - 1]), max, steps[|steps| - 1])
  }

  // What every interleaving keeps.

  /** An entry is parked, or being settled, or was settled, superseded or dropped: one of them. */
  predicate CellGood(c: Cell, id: nat, parked: bool) {
    && c.entry.id == id
    && c.left == (if parked then 0 else 1)
    && (parked ==> c.chan == Empty && c.sending.None? && c.handler in {Waiting, Leaving})
    && (c.sending.Some? ==> c.chan == Empty && c.decided == c.sending)
    && (c.chan.Sent? ==> c.decided == Some(c.chan.outcome))
    && (c.chan == Closed ==> c.decided.None?)
    && (c.decided.Some? ==> !parked && (c.sending.Some? || c.chan.Sent?))
    && (!parked && c.sending.None? && c.chan == Empty ==> c.handler == Naked)
    && (c.handler == Acked ==> c.chan.Sent?)
  }

  predicate At(y: System, id: nat) { id < |y.cells| && CellGood(y.cells[id], id, Holds(y.inbox, y.cells[id].entry)) }

  /** Every parked entry has its cell. */
  predicate Celled(s: State, cells: seq<Cell>) {
    && |cells| == s.next
    && forall m :: m in s.byID ==> s.byID[m].id < |cells| && cells[s.byID[m].id].entry == s.byID[m]
  }

  ghost predicate Inv(y: System, max: nat) {
    && !y.fault && Good(y.inbox, max) && Celled(y.inbox, y.cells)
    && forall id :: 0 <= id < |y.cells| ==> At(y, id)
  }

  /** Taking the message's entry out of the inbox takes out no other. */
  lemma OnlyItself(s: State, msgID: string)
    requires Agree(s)
    ensures forall f :: Holds(Superseded(s, msgID), f) <==> Holds(s, f) && f.msgID != msgID
    ensures Superseded(s, msgID).byID == s.byID - {msgID} && Superseded(s, msgID).next == s.next
  {}

  lemma SupersededGood(s: State, max: nat, msgID: string)
    requires Good(s, max)
    ensures Good(Superseded(s, msgID), max)
  {
    hide Agree, Removed;
    SupersededAgrees(s, msgID);
    SameSettled(s, msgID);
  }

  /** The cells after a step that changes one of them, and takes its entry out of the inbox or not. */
  lemma OneCell(y: System, z: System, max: nat, id: nat)
    requires Inv(y, max) && id < |y.cells| == |z.cells|
    requires Good(z.inbox, max) && z.inbox.next == y.inbox.next && !z.fault
    requires forall j :: 0 <= j < |y.cells| && j != id ==> z.cells[j] == y.cells[j]
    requires z.cells[id].entry == y.cells[id].entry && At(z, id)
    requires forall m :: m in z.inbox.byID ==> m in y.inbox.byID && z.inbox.byID[m] == y.inbox.byID[m]
    requires forall f :: Holds(y.inbox, f) && f.id != id ==> Holds(z.inbox, f)
    ensures Inv(z, max)
  {
    hide Good, CellGood, Holds;
    forall j | 0 <= j < |z.cells| ensures At(z, j) {
      if j != id { OtherCell(y, z, j, id); }
    }
    CelledStill(y, z);
  }

  lemma OtherCell(y: System, z: System, j: nat, id: nat)
    requires At(y, j) && j != id && j < |z.cells| && z.cells[j] == y.cells[j]
    requires forall m :: m in z.inbox.byID ==> m in y.inbox.byID && z.inbox.byID[m] == y.inbox.byID[m]
    requires forall f :: Holds(y.inbox, f) && f.id != id ==> Holds(z.inbox, f)
    ensures At(z, j)
  {}

  lemma CelledStill(y: System, z: System)
    requires Celled(y.inbox, y.cells) && |z.cells| == |y.cells| && z.inbox.next == y.inbox.next
    requires forall j :: 0 <= j < |y.cells| ==> z.cells[j].entry == y.cells[j].entry
    requires forall m :: m in z.inbox.byID ==> m in y.inbox.byID && z.inbox.byID[m] == y.inbox.byID[m]
    ensures Celled(z.inbox, z.cells)
  {}

  /** The parked entry of a message, in its cell. */
  lemma ParkedCell(y: System, max: nat, msgID: string)
    requires Inv(y, max) && msgID in y.inbox.byID
    ensures CellOf(y, msgID).Some? && y.inbox.byID[msgID].msgID == msgID
    ensures var id := CellOf(y, msgID).value;
            y.cells[id].entry == y.inbox.byID[msgID] && CellGood(y.cells[id], id, true)
  {
    hide CellGood, Ring;
    assert At(y, y.inbox.byID[msgID].id);
  }

  lemma SupersedeKeeps(y: System, max: nat, msgID: string)
    requires Inv(y, max)
    ensures Inv(Supersede(y, msgID), max) && msgID !in Supersede(y, msgID).inbox.byID
  {
    hide Good, Agree, Superseded, Inv;
    InvAgree(y, max);
    OnlyItself(y.inbox, msgID);
    SupersededGood(y.inbox, max, msgID);
    if msgID in y.inbox.byID {
      ParkedCell(y, max, msgID);
      OneCell(y, Supersede(y, msgID), max, CellOf(y, msgID).value);
    } else {
      NoneSuperseded(y, msgID);
    }
  }

  lemma InvAgree(y: System, max: nat)
    requires Inv(y, max)
    ensures Agree(y.inbox) && Good(y.inbox, max) && !y.fault
    ensures forall e, f :: Holds(y.inbox, e) && Holds(y.inbox, f) && e.id == f.id ==> e == f
  {}

  lemma NoneSuperseded(y: System, msgID: string)
    requires msgID !in y.inbox.byID
    ensures Supersede(y, msgID) == y
  {}

  lemma ParkKeeps(y: System, max: nat, owner: OwnerKey, msgID: string, at: int)
    requires Inv(y, max) && max >= 1
    ensures Inv(Next(y, max, Park(owner, msgID, at)), max)
  {
    hide Inv, Listed, Superseded, Write, CellOf;
    SupersedeKeeps(y, max, msgID);
    SupersedeShape(y, msgID);
    var z := Supersede(y, msgID);
    InvAgree(z, max);
    InvAgree(y, max);
    OnlyItself(y.inbox, msgID);
    if |z.inbox.byID| < max {
      ListKeeps(z, max, Entry(y.inbox.next, msgID, owner, at));
    }
  }

  lemma SupersedeShape(y: System, msgID: string)
    ensures Supersede(y, msgID).inbox == Superseded(y.inbox, msgID)
  {}

  /** A new entry, with its cell. */
  lemma ListKeeps(y: System, max: nat, e: Entry)
    requires Inv(y, max) && |y.inbox.byID| < max && e.id == y.inbox.next && e.msgID !in y.inbox.byID
    ensures Inv(System(Listed(y.inbox, e), y.cells + [Cell(e, Empty, None, Waiting, None, 0)], y.fault), max)
  {
    hide Agree, Ring, CellGood, Listed;
    var z := System(Listed(y.inbox, e), y.cells + [Cell(e, Empty, None, Waiting, None, 0)], y.fault);
    ListedAgrees(y.inbox, e);
    ListedSettled(y.inbox, e);
    SameRing(y.inbox, z.inbox);
    ListedHolds(y.inbox, e);
    NewCell(e);
    forall j | 0 <= j < |z.cells| ensures At(z, j) {
      if j < |y.cells| { InvAt(y, max, j); CellId(y, j); }
    }
  }

  lemma CellId(y: System, j: nat)
    requires At(y, j)
    ensures y.cells[j].entry.id == j
  {}

  lemma NewCell(e: Entry)
    ensures CellGood(Cell(e, Empty, None, Waiting, None, 0), e.id, true)
  {}

  lemma ListedHolds(s: State, e: Entry)
    requires e.msgID !in s.byID
    ensures Listed(s, e).byID == s.byID[e.msgID := e] && Listed(s, e).next == s.next + 1
    ensures forall f :: Holds(Listed(s, e), f) <==> Holds(s, f) || f == e
  {}

  lemma SettleLockKeeps(y: System, max: nat, msgID: string, o: Outcome)
    requires Inv(y, max)
    ensures Inv(Next(y, max, SettleLock(msgID, o)), max)
  {
    hide Good, Agree, SettledState, Inv;
    InvAgree(y, max);
    SettleGood(y.inbox, max, msgID, o);
    SettledHolds(y.inbox, msgID, o);
    var z := Next(y, max, SettleLock(msgID, o));
    if msgID in y.inbox.byID {
      ParkedCell(y, max, msgID);
      OneCell(y, z, max, CellOf(y, msgID).value);
    } else {
      SameCells(y, z, max);
    }
  }

  lemma SettledHolds(s: State, msgID: string, o: Outcome)
    requires Agree(s)
    ensures var t := SettledState(s, msgID, o);
            && t.next == s.next && t.byID == s.byID - {msgID}
            && forall e :: Holds(t, e) <==> Holds(s, e) && e.msgID != msgID
  {
    hide Unlisted;
  }

  /** Only what is remembered changed. */
  lemma SameCells(y: System, z: System, max: nat)
    requires Inv(y, max) && z == y.(inbox := z.inbox)
    requires Good(z.inbox, max) && z.inbox.byID == y.inbox.byID && z.inbox.next == y.inbox.next
    ensures Inv(z, max)
  {
    hide Good, CellGood;
    forall j | 0 <= j < |z.cells| ensures At(z, j) { assert At(y, j); }
  }

  lemma SettleSendKeeps(y: System, max: nat, id: nat)
    requires Inv(y, max)
    ensures Inv(Next(y, max, SettleSend(id)), max)
  {
    hide Good, Inv;
    InvAgree(y, max);
    if id < |y.cells| { InvAt(y, max, id); }
    if id < |y.cells| && y.cells[id].sending.Some? {
      OneCell(y, Next(y, max, SettleSend(id)), max, id);
    }
  }

  lemma InvAt(y: System, max: nat, id: nat)
    requires Inv(y, max) && id < |y.cells|
    ensures At(y, id)
  {}

  lemma HandlerKeeps(y: System, max: nat, step: Step)
    requires Inv(y, max) && (step.Receive? || step.GiveUp?)
    ensures Inv(Next(y, max, step), max)
  {
    hide Good, Inv;
    InvAgree(y, max);
    if step.id < |y.cells| {
      InvAt(y, max, step.id);
      OneCell(y, Next(y, max, step), max, step.id);
    }
  }

  lemma DropKeeps(y: System, max: nat, id: nat)
    requires Inv(y, max)
    ensures Inv(Next(y, max, DropEntry(id)), max)
  {
    hide Good, Inv, DroppedState;
    InvAgree(y, max);
    if id < |y.cells| && y.cells[id].handler == Leaving {
      InvAt(y, max, id);
      CellId(y, id);
      DropGood(y.inbox, max, y.cells[id].entry);
      DroppedOnly(y.inbox, y.cells[id].entry);
      OneCell(y, Next(y, max, DropEntry(id)), max, id);
    }
  }

  lemma DroppedOnly(s: State, e: Entry)
    ensures var t := DroppedState(s, e);
            && t.next == s.next
            && (forall m :: m in t.byID ==> m in s.byID && t.byID[m] == s.byID[m])
            && (forall f :: Holds(s, f) && f.id != e.id ==> Holds(t, f))
  {
    hide Unlisted;
  }

  // Every run.

  lemma NextKeeps(y: System, max: nat, step: Step)
    requires Inv(y, max) && max >= 1
    ensures Inv(Next(y, max, step), max)
  {
    hide Inv, Next;
    match step
    case Park(owner, msgID, at) => ParkKeeps(y, max, owner, msgID, at);
    case SettleLock(msgID, o) => SettleLockKeeps(y, max, msgID, o);
    case SettleSend(id) => SettleSendKeeps(y, max, id);
    case Receive(id) => HandlerKeeps(y, max, step);
    case GiveUp(id) => HandlerKeeps(y, max, step);
    case DropEntry(id) => DropKeeps(y, max, id);
  }

  lemma StartGood(max: nat)
    ensures Inv(START, max)
  {
    forall o ensures ListAgrees(START.inbox, o) {}
    var none: seq<string> := [];
    assert (set m | m in none) == {};
  }

  lemma {:induction false} RunKeeps(max: nat, steps: seq<Step>)
    requires max >= 1
    ensures Inv(Run(max, steps), max)
  {
    hide Inv, Next;
    if steps == [] {
      StartGood(max);
    } else {
      RunKeeps(max, steps[..|steps| - 1]);
      NextKeeps(Run(max, steps[..|steps| - 1]), max, steps[|steps| - 1]);
    }
  }

  /** In every interleaving of passes and handlers no send blocks or panics and no channel is written
      twice, at most max are parked, and byID and order hold the same entries once each. */
  lemma NeverFaults(max: nat, steps: seq<Step>)
    requires max >= 1
    ensures var y := Run(max, steps);
            !y.fault && |y.inbox.byID| <= max && Agree(y.inbox) && Ring(y.inbox) && |y.cells| == y.inbox.next
  {
    hide Run, Agree, Ring;
    RunKeeps(max, steps);
  }

  /** Every entry ever parked has left the inbox exactly once, or not while it is parked; its handler
      acks only when that entry was settled, having received the outcome it was settled with; and one
      still waiting on an entry no longer parked can receive or is about to be sent to. */
  lemma EveryEntry(max: nat, steps: seq<Step>, id: nat)
    requires max >= 1 && id < |Run(max, steps).cells|
    ensures var y := Run(max, steps);
            var c := y.cells[id];
            && c.left == (if Holds(y.inbox, c.entry) then 0 else 1)
            && (c.handler == Acked ==> c.decided.Some? && c.chan == Sent(c.decided.value))
            && (c.handler == Waiting && !Holds(y.inbox, c.entry) ==> c.sending.Some? || c.chan != Empty)
            && (c.decided.Some? ==> c.chan != Closed)
  {
    hide Run, Inv;
    RunKeeps(max, steps);
    InvAt(Run(max, steps), max, id);
  }

  // Who is acked.

  /** The step is a timer firing on entry id while its handler waits. */
  predicate GivesUp(y: System, step: Step, id: nat) {
    step == GiveUp(id) && id < |y.cells| && y.cells[id].handler == Waiting
  }

  /** Entry id's handler gave up somewhere in the run. */
  predicate GaveUp(max: nat, steps: seq<Step>, id: nat) {
    exists n :: 0 <= n < |steps| && GivesUp(Run(max, steps[..n]), steps[n], id)
  }

  lemma GaveUpSnoc(max: nat, init: seq<Step>, step: Step, id: nat)
    ensures GaveUp(max, init + [step], id) <==> GaveUp(max, init, id) || GivesUp(Run(max, init), step, id)
  {
    hide Run, GivesUp;
    var steps := init + [step];
    assert steps[..|init|] == init && steps[|init|] == step;
    assert forall n :: 0 <= n < |init| ==> steps[..n] == init[..n] && steps[n] == init[n];
    if GaveUp(max, init, id) {
      var n :| 0 <= n < |init| && GivesUp(Run(max, init[..n]), init[n], id);
      assert GivesUp(Run(max, steps[..n]), steps[n], id);
    }
  }

  /** What a handler's state says of whether it gave up. */
  predicate Tells(y: System, id: nat, gaveUp: bool) {
    if id >= |y.cells| then !gaveUp
    else match y.cells[id].handler
         case Waiting => !gaveUp
         case Acked => !gaveUp
         case Leaving => gaveUp
         case Naked => gaveUp || y.cells[id].chan == Closed
  }

  lemma TellsStep(y: System, max: nat, step: Step, id: nat, gaveUp: bool)
    requires Tells(y, id, gaveUp)
    ensures Tells(Next(y, max, step), id, gaveUp || GivesUp(y, step, id))
  {
    hide ParkedState, SettledState, DroppedState, Superseded, Holds;
  }

  lemma {:induction false} TellsRun(max: nat, steps: seq<Step>, id: nat)
    ensures Tells(Run(max, steps), id, GaveUp(max, steps, id))
  {
    hide GaveUp, Tells, Next;
    if steps == [] {
      TellsStart(max, id);
    } else {
      var init, step := steps[..|steps| - 1], steps[|steps| - 1];
      assert steps == init + [step];
      TellsRun(max, init, id);
      GaveUpSnoc(max, init, step, id);
      TellsStep(Run(max, init), max, step, id, GaveUp(max, init, id));
    }
  }

  lemma TellsStart(max: nat, id: nat)
    ensures Tells(Run(max, []), id, GaveUp(max, [], id))
  {}

  /** In every interleaving a settled candidate whose handler has finished is naked exactly when that
      handler's timer fired while it waited; otherwise it is acked. */
  lemma SettledNakedExactly(max: nat, steps: seq<Step>, id: nat)
    requires max >= 1 && id < |Run(max, steps).cells|
    ensures var c := Run(max, steps).cells[id];
            c.decided.Some? && c.handler in {Acked, Naked} ==> (c.handler == Naked <==> GaveUp(max, steps, id))
  {
    hide Run, Inv, GaveUp;
    RunKeeps(max, steps);
    InvAt(Run(max, steps), max, id);
    TellsRun(max, steps, id);
  }

  const OWNER := OwnerKey("Movie", "media", "m1")

  /** A handler whose timer fires as its candidate is settled naks a candidate that was taken. */
  lemma SettledYetNaked()
    ensures var y := Run(1, [Park(OWNER, "a", 0), GiveUp(0), SettleLock("a", Incorporated), SettleSend(0),
                             DropEntry(0)]);
            |y.cells| == 1 && y.cells[0].decided == Some(Incorporated) && y.cells[0].handler == Naked
  {
    hide Listed, Removed, SettledState, DroppedState, Run;
    var steps := [Park(OWNER, "a", 0), GiveUp(0), SettleLock("a", Incorporated), SettleSend(0), DropEntry(0)];
    FiveSteps(1, steps);
    var e := Entry(0, "a", OWNER, 0);
    ListedHolds(START.inbox, e);
    var y2 := Next(Next(START, 1, steps[0]), 1, steps[1]);
    assert y2.cells == [Cell(e, Empty, None, Leaving, None, 0)] && y2.inbox.byID["a"] == e;
    var y3 := Next(y2, 1, steps[2]);
    assert y3.cells == [Cell(e, Empty, Some(Incorporated), Leaving, Some(Incorporated), 1)];
    var y4 := Next(y3, 1, steps[3]);
    assert y4.cells == [Cell(e, Sent(Incorporated), None, Leaving, Some(Incorporated), 1)];
  }

  lemma FiveSteps(max: nat, s: seq<Step>)
    requires |s| == 5
    ensures Run(max, s) == Next(Next(Next(Next(Next(START, max, s[0]), max, s[1]), max, s[2]), max, s[3]), max, s[4])
  {
    hide Next;
    assert s[..5] == s && s[..4] == s[..5][..4] && s[..3] == s[..4][..3] && s[..2] == s[..3][..2] &&
           s[..1] == s[..2][..1];
    assert s[..0] == s[..1][..0] == [];
    assert Run(max, s[..1]) == Next(Run(max, s[..0]), max, s[0]);
    assert Run(max, s[..2]) == Next(Run(max, s[..1]), max, s[1]);
    assert Run(max, s[..3]) == Next(Run(max, s[..2]), max, s[2]);
    assert Run(max, s[..4]) == Next(Run(max, s[..3]), max, s[3]);
  }
}
