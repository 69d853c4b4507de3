/** Every run of ledger steps on one durable, on a clock that never goes back. */
module LedgerRuns {
  import opened Clock
  import opened Options
  import opened Slots
  import opened Lanes

  /** Whether the durable rebuilds from status, and its consumer. */
  datatype Terms = Terms(rebuildable: bool, spec: Option<ConsumerSpec>)

  datatype Op =
    | Admit(key: Key, seqNo: int, first: bool, unattended: bool)
    | Publish(key: Key, seqNo: int)
    | Answer(key: Key, seqNo: int)
    | Forget(key: Key)
    | ForgetItem(kind: string, namespace: string, name: string)
    | Wait(key: Key, reason: Reason)
    | Tick
    | CountWaiting
    | CountOutstanding
    | Rebuild(outs: seq<Outstanding>)
    | Release(due: set<(Key, int)>, inFlight: set<Key>, cutoff: Time)

  datatype Event = Event(op: Op, now: Time)

  /** booked once the ledger has made the durable a book, be it empty. */
  datatype State = State(lane: Lane, rebuilt: bool, booked: bool)

  function Step(t: Terms, s: State, e: Event): State {
    var l := s.lane;
    match e.op
    case Admit(k, q, first, unattended) =>
      s.(lane := AdmitLane(l, s.rebuilt, t.spec, k, q, first, unattended, e.now).0,
         booked := s.booked || (s.rebuilt && t.spec.Some?))
    case Publish(k, q) => s.(lane := PublishedLane(l, t.rebuildable, t.spec, k, q, e.now), booked := true)
    case Answer(k, q) => s.(lane := AnsweredLane(l, k, q), booked := true)
    case Forget(k) => s.(lane := ForgetLane(l, k))
    case ForgetItem(kind, namespace, name) =>
      if t.rebuildable then s.(lane := GoneLane(l, kind, namespace, name)) else s
    case Wait(k, reason) => s.(lane := WaitingLane(l, k, reason, e.now))
    case Tick => if s.booked then s.(lane := TickLane(l, e.now)) else s
    case CountWaiting => s.(lane := l.(waiting := FreshWaiting(l.waiting, e.now)))
    case CountOutstanding => s.(lane := Lapsed(l, e.now), booked := true)
    case Rebuild(outs) =>
      State(if t.rebuildable then l.(book := RebuiltBook(outs, e.now)) else l, true, s.booked || t.rebuildable)
    case Release(due, inFlight, cutoff) =>
      if t.rebuildable then s.(lane := AuditedLane(l, due, inFlight, cutoff)) else s
  }

  function Run(t: Terms, s: State, es: seq<Event>): State
    decreases |es|
  {
    if es == [] then s else Run(t, Step(t, s, es[0]), es[1..])
  }

  /** The clock at the end of a run. */
  function EndOf(es: seq<Event>, from: Time): Time { if es == [] then from else EndOf(es[1..], es[0].now) }

  predicate OnClock(es: seq<Event>, from: Time) {
    es != [] ==> es[0].now >= from && OnClock(es[1..], es[0].now)
  }

  // What every step keeps of every slot.

  /** A rebuildable durable's published dispatch never lapses. */
  predicate Forever(s: Slot) { Bottom(s).state == Published ==> Bottom(s).expires.None? }

  predicate GoodSlot(t: Terms, s: Slot, now: Time) { Chain(s) && s.at <= now && (t.rebuildable ==> Forever(s)) }

  predicate GoodBook(t: Terms, book: Book, now: Time) { forall k :: k in book ==> GoodSlot(t, book[k], now) }

  lemma LapsedGood(t: Terms, book: Book, now: Time)
    requires GoodBook(t, book, now)
    ensures GoodBook(t, LapsedBook(book, now), now)
    ensures forall k :: k in LapsedBook(book, now) ==> !Expired(LapsedBook(book, now)[k], now)
  {
    var out := LapsedBook(book, now);
    forall k | k in out ensures GoodSlot(t, out[k], now) && !Expired(out[k], now) {
      assert GoodSlot(t, book[k], now);
      LapseKeepsChain(book[k], now);
    }
  }

  lemma ReserveGood(t: Terms, book: Book, k: Key, q: int, now: Time)
    requires GoodBook(t, book, now) && !HoldsAt(book, k, q)
    ensures GoodBook(t, Reserve(book, k, q, now), now)
  {
    var out := Reserve(book, k, q, now);
    forall j | j in out ensures GoodSlot(t, out[j], now) {
      if j in book { assert GoodSlot(t, book[j], now); }
    }
  }

  lemma {:induction false} RebuiltGood(t: Terms, outs: seq<Outstanding>, now: Time)
    ensures GoodBook(t, RebuiltBook(outs, now), now)
  {
    if outs != [] {
      RebuiltGood(t, outs[..|outs| - 1], now);
    }
  }

  lemma AdmitGood(t: Terms, s: State, k: Key, q: int, first: bool, unattended: bool, now: Time)
    requires GoodBook(t, s.lane.book, now)
    ensures GoodBook(t, AdmitLane(s.lane, s.rebuilt, t.spec, k, q, first, unattended, now).0.book, now)
  {
    hide GoodBook, LapsedBook, Reserve, Limit;
    LapsedGood(t, s.lane.book, now);
    var book := LapsedBook(s.lane.book, now);
    if !HoldsAt(book, k, q) { ReserveGood(t, book, k, q, now); }
  }

  lemma StepGood(t: Terms, s: State, e: Event, before: Time)
    requires GoodBook(t, s.lane.book, before) && before <= e.now
    ensures GoodBook(t, Step(t, s, e).lane.book, e.now)
  {
    hide AdmitLane, LapsedBook, RebuiltBook;
    assert GoodBook(t, s.lane.book, e.now) by {
      forall k | k in s.lane.book ensures GoodSlot(t, s.lane.book[k], e.now) {
        assert GoodSlot(t, s.lane.book[k], before);
      }
    }
    match e.op
    case Admit(k, q, first, unattended) => AdmitGood(t, s, k, q, first, unattended, e.now);
    case Tick => LapsedGood(t, s.lane.book, e.now);
    case CountOutstanding => LapsedGood(t, s.lane.book, e.now);
    case Rebuild(outs) => RebuiltGood(t, outs, e.now);
    case _ =>
  }

  /** In every run every slot is a chain: reservations over at most one published dispatch. */
  lemma {:induction false} RunGood(t: Terms, s: State, es: seq<Event>, from: Time)
    requires GoodBook(t, s.lane.book, from) && OnClock(es, from)
    ensures GoodBook(t, Run(t, s, es).lane.book, EndOf(es, from))
    decreases |es|
  {
    hide Step, GoodBook;
    if es != [] {
      StepGood(t, s, es[0], from);
      RunGood(t, Step(t, s, es[0]), es[1..], es[0].now);
    }
  }

  /** A durable the ledger has made no book for holds nothing. */
  predicate BookFirst(s: State) { !s.booked ==> s.lane.book == map[] }

  lemma BookFirstKeeps(t: Terms, s: State, e: Event)
    requires BookFirst(s)
    ensures BookFirst(Step(t, s, e)) && (s.booked ==> Step(t, s, e).booked)
  {
    hide Reserve, LapsedBook, RebuiltBook;
  }

  // A published dispatch stays.

  /** A dispatch of k at seq q or later is held, published and never lapsing. */
  predicate Holding(book: Book, k: Key, q: int) { k in book && Lasts(book[k], q) }

  /** The steps that may let go of it: an answer at or above the head, the key forgotten, a rebuild
      that does not name it, an audit that releases it. */
  predicate LetsGo(t: Terms, book: Book, e: Event, k: Key, q: int) {
    match e.op
    case Answer(j, a) => j == k && Answers(Lane(book, map[], map[]), k, a)
    case Forget(j) => j == k
    case ForgetItem(kind, namespace, name) => t.rebuildable && SameItem(k, kind, namespace, name)
    case Rebuild(outs) => t.rebuildable && forall o <- outs :: o.key == k ==> o.seqNo < q
    case Release(due, inFlight, cutoff) => t.rebuildable && Releases(book, due, inFlight, cutoff, k)
    case _ => false
  }

  lemma AdmitHolds(t: Terms, s: State, j: Key, a: int, first: bool, unattended: bool, now: Time, k: Key, q: int)
    requires Holding(s.lane.book, k, q)
    ensures Holding(AdmitLane(s.lane, s.rebuilt, t.spec, j, a, first, unattended, now).0.book, k, q)
  {
    hide LapseSlot, Limit;
    LastsThroughLapse(s.lane.book[k], q, now);
  }

  /** Held on a rebuildable durable, it is still held after a step exactly when the step is none of those. */
  lemma HeldThroughStep(t: Terms, s: State, e: Event, before: Time, k: Key, q: int)
    requires t.rebuildable && GoodBook(t, s.lane.book, before) && Holding(s.lane.book, k, q)
    ensures Holding(Step(t, s, e).lane.book, k, q) <==> !LetsGo(t, s.lane.book, e, k, q)
  {
    hide AdmitLane, LapseSlot, GoodBook, Chain, RebuiltBook;
    HeadAbove(t, s, before, k, q);
    LastsThroughLapse(s.lane.book[k], q, e.now);
    match e.op
    case Admit(j, a, first, unattended) => AdmitHolds(t, s, j, a, first, unattended, e.now, k, q);
    case Rebuild(outs) => RebuiltHolds(outs, e.now, k, q);
    case _ =>
  }

  lemma HeadAbove(t: Terms, s: State, now: Time, k: Key, q: int)
    requires GoodBook(t, s.lane.book, now) && Holding(s.lane.book, k, q)
    ensures s.lane.book[k].seqNo >= q
  {
    assert GoodSlot(t, s.lane.book[k], now);
    LastsUnderHead(s.lane.book[k], q);
  }

  /** No step of the run lets go of it. */
  predicate Spared(t: Terms, s: State, es: seq<Event>, k: Key, q: int)
    decreases |es|
  {
    es != [] ==> !LetsGo(t, s.lane.book, es[0], k, q) && Spared(t, Step(t, s, es[0]), es[1..], k, q)
  }

  lemma {:induction false} HeldThroughRun(t: Terms, s: State, es: seq<Event>, from: Time, k: Key, q: int)
    requires t.rebuildable && GoodBook(t, s.lane.book, from) && OnClock(es, from)
    requires Holding(s.lane.book, k, q) && Spared(t, s, es, k, q)
    ensures Holding(Run(t, s, es).lane.book, k, q)
    decreases |es|
  {
    hide Step, GoodBook, LetsGo, Holding;
    if es != [] {
      StepGood(t, s, es[0], from);
      HeldThroughStep(t, s, es[0], from, k, q);
      HeldThroughRun(t, Step(t, s, es[0]), es[1..], es[0].now, k, q);
    }
  }

  /** Steps a caller can tell apart without the ledger's state: nothing forgets, rebuilds or audits,
      and k is answered only below q. */
  predicate Harmless(e: Event, k: Key, q: int) {
    match e.op
    case Answer(j, a) => j == k ==> a < q
    case Forget(j) => j != k
    case ForgetItem(kind, namespace, name) => !SameItem(k, kind, namespace, name)
    case Rebuild(_) => false
    case Release(_, _, _) => false
    case _ => true
  }

  /** Published at q on a rebuildable durable and recorded, the dispatch is held through every run
      of admissions, publishes, lapses and ticks, whatever their order and their keys. */
  lemma {:induction false} PublishedHeld(t: Terms, s: State, es: seq<Event>, from: Time, k: Key, q: int)
    requires t.rebuildable && GoodBook(t, s.lane.book, from) && OnClock(es, from)
    requires Holding(s.lane.book, k, q) && forall e <- es :: Harmless(e, k, q)
    ensures Holding(Run(t, s, es).lane.book, k, q)
    decreases |es|
  {
    hide Step, GoodBook, Holding;
    if es != [] {
      HarmlessSpares(t, s, es[0], from, k, q);
      StepGood(t, s, es[0], from);
      PublishedHeld(t, Step(t, s, es[0]), es[1..], es[0].now, k, q);
    }
  }

  lemma HarmlessSpares(t: Terms, s: State, e: Event, before: Time, k: Key, q: int)
    requires t.rebuildable && GoodBook(t, s.lane.book, before) && Holding(s.lane.book, k, q) && Harmless(e, k, q)
    ensures Holding(Step(t, s, e).lane.book, k, q)
  {
    hide Step, GoodBook;
    HeadAbove(t, s, before, k, q);
    HeldThroughStep(t, s, e, before, k, q);
  }

  /** A publish is recorded exactly when no newer slot covers k, or it was held already. */
  lemma PublishRecorded(t: Terms, l: Lane, k: Key, q: int, now: Time)
    requires t.rebuildable
    ensures Holding(PublishedLane(l, t.rebuildable, t.spec, k, q, now).book, k, q) <==>
              k !in l.book || l.book[k].seqNo <= q || Lasts(l.book[k], q)
  {
    if k in l.book && l.book[k].seqNo > q {
      assert PublishedLane(l, t.rebuildable, t.spec, k, q, now) == l;
    }
  }

  // What a step leaves of other keys, and of marks.

  /** A publish that is not covered writes its own slot and takes its own mark; one that is does nothing. */
  lemma PublishLeaves(t: Terms, l: Lane, k: Key, q: int, now: Time)
    ensures var m := PublishedLane(l, t.rebuildable, t.spec, k, q, now);
            if k in l.book && l.book[k].seqNo > q then m == l
            else
              && m.book - {k} == l.book - {k} && m.waiting == l.waiting - {k} && m.first == l.first
              && k in m.book && m.book[k].seqNo == q && m.book[k].state == Published && m.book[k].at == now
              && m.book[k].prev.None?
  {}

  lemma AnswerLeaves(l: Lane, k: Key, q: int)
    ensures var m := AnsweredLane(l, k, q);
            && m.book - {k} == l.book - {k} && m.waiting == l.waiting && m.first == l.first
            && (k in m.book <==> k in l.book && l.book[k].seqNo > q) && (k in m.book ==> m.book[k] == l.book[k])
  {}

  /** The latest reason a key gives for waiting stands, with the time it gave it. */
  lemma WaitLeaves(l: Lane, k: Key, reason: Reason, now: Time)
    ensures var m := WaitingLane(l, k, reason, now);
            && m.book == l.book && m.first == l.first && m.waiting - {k} == l.waiting - {k}
            && k in m.waiting && m.waiting[k].reason == reason && m.waiting[k].at == now
  {}

  /** A key forgotten is nowhere, and every other key where it was. */
  lemma ForgetLeaves(l: Lane, k: Key)
    ensures var m := ForgetLane(l, k);
            && k !in m.book && k !in m.waiting && k !in m.first
            && m.book == l.book - {k} && m.waiting == l.waiting - {k} && m.first == l.first - {k}
  {}

  /** So with the subs of an item. */
  lemma GoneLeaves(l: Lane, kind: string, namespace: string, name: string, k: Key)
    ensures var m := GoneLane(l, kind, namespace, name);
            if k.kind == kind && k.namespace == namespace && k.name == name then
              k !in m.book && k !in m.waiting && k !in m.first
            else
              && (k in m.book <==> k in l.book) && (k in m.book ==> m.book[k] == l.book[k])
              && (k in m.waiting <==> k in l.waiting) && (k in m.waiting ==> m.waiting[k] == l.waiting[k])
              && (k in m.first <==> k in l.first) && (k in m.first ==> m.first[k] == l.first[k])
  {}

  /** Steps that say nothing of k's waiting. */
  predicate Unmarking(e: Event, k: Key) {
    match e.op
    case Admit(j, _, _, _) => j != k
    case Publish(j, _) => j != k
    case Forget(j) => j != k
    case ForgetItem(kind, namespace, name) => !SameItem(k, kind, namespace, name)
    case Wait(j, _) => j != k
    case _ => true
  }

  /** A mark goes through such steps only when one of them, a tick or a count of the marks, finds it five
      minutes old. */
  lemma MarkStays(t: Terms, s: State, e: Event, k: Key)
    requires k in s.lane.waiting && Unmarking(e, k)
    ensures var found := e.op.CountWaiting? || (e.op.Tick? && s.booked);
            k in Step(t, s, e).lane.waiting <==> !(found && e.now - s.lane.waiting[k].at >= WAITING_TTL)
    ensures k in Step(t, s, e).lane.waiting ==> Step(t, s, e).lane.waiting[k] == s.lane.waiting[k]
  {
    hide AdmitLane, LapsedBook, RebuiltBook, Released;
    match e.op
    case Admit(j, a, first, unattended) => AdmitMarks(s.lane, s.rebuilt, t.spec, j, a, first, unattended, e.now);
    case _ =>
  }

  lemma AdmitMarks(l: Lane, rebuilt: bool, spec: Option<ConsumerSpec>, j: Key, a: int, first: bool,
                   unattended: bool, now: Time)
    ensures AdmitLane(l, rebuilt, spec, j, a, first, unattended, now).0.waiting in {l.waiting, l.waiting - {j}}
  {
    hide LapsedBook, Reserve, Limit, LiveClaims, Marked, HoldsAt;
  }

  lemma {:induction false} MarkLasts(t: Terms, s: State, es: seq<Event>, k: Key)
    requires k in s.lane.waiting
    requires forall e <- es :: Unmarking(e, k) && e.now - s.lane.waiting[k].at < WAITING_TTL
    ensures k in Run(t, s, es).lane.waiting && Run(t, s, es).lane.waiting[k] == s.lane.waiting[k]
    decreases |es|
  {
    hide Step, Unmarking;
    if es != [] {
      MarkStays(t, s, es[0], k);
      MarkLasts(t, Step(t, s, es[0]), es[1..], k);
    }
  }

  // A durable without a source remembers a published dispatch for a time.

  /** A dispatch of k at seq q or later is held, published, and not to lapse before `until`. */
  predicate HoldingUntil(book: Book, k: Key, q: int, until: Time) { k in book && LastsUntil(book[k], q, until) }

  /** The steps that let go of it: an answer at or above the head, the key forgotten, a step that lapses the
      book once it and all reservations over it are past their expiry. */
  predicate RunsOut(t: Terms, s: State, e: Event, k: Key)
    requires k in s.lane.book
  {
    match e.op
    case Answer(j, a) => j == k && s.lane.book[k].seqNo <= a
    case Forget(j) => j == k
    case Admit(_, _, _, _) => s.rebuilt && t.spec.Some? && Over(s.lane.book[k], e.now)
    case Tick => s.booked && Over(s.lane.book[k], e.now)
    case CountOutstanding => Over(s.lane.book[k], e.now)
    case _ => false
  }

  /** A publish that lands is held until its time to lapse, which is never for a durable unknown to the
      topology. */
  lemma PublishHeldUntil(t: Terms, l: Lane, k: Key, q: int, now: Time, until: Time)
    requires !t.rebuildable && (k in l.book ==> l.book[k].seqNo <= q)
    requires t.spec.Some? ==> until <= now + LapseAfter(t.spec.value)
    ensures var book := PublishedLane(l, false, t.spec, k, q, now).book;
            && HoldingUntil(book, k, q, until)
            && forall later :: Over(book[k], later) <==>
                 t.spec.Some?
                 && var c := t.spec.value;
                    later >= now + (if c.ackWait > 0 then c.ackWait else DEFAULT_ACK_WAIT) *
                                   (if c.maxDeliver > 1 then c.maxDeliver else 1)
  {}

  /** Held so on a durable without a source, it still is after a step exactly when the step is none of those. */
  lemma HeldUntilThroughStep(t: Terms, s: State, e: Event, before: Time, k: Key, q: int, until: Time)
    requires !t.rebuildable && GoodBook(t, s.lane.book, before) && HoldingUntil(s.lane.book, k, q, until)
    requires t.spec.Some? ==> until <= e.now + LapseAfter(t.spec.value)
    ensures HoldingUntil(Step(t, s, e).lane.book, k, q, until) <==> !RunsOut(t, s, e, k)
  {
    hide AdmitLane, LapseSlot, GoodBook, Chain, RebuiltBook, Over;
    ChainOf(t, s, before, k);
    LastsUntilOver(s.lane.book[k], q, until, e.now);
    BottomUnderHead(s.lane.book[k]);
    match e.op
    case Admit(j, a, first, unattended) => AdmitHoldsUntil(t, s, j, a, first, unattended, before, e.now, k, q, until);
    case _ =>
  }

  lemma ChainOf(t: Terms, s: State, now: Time, k: Key)
    requires GoodBook(t, s.lane.book, now) && k in s.lane.book
    ensures Chain(s.lane.book[k])
  {
    assert GoodSlot(t, s.lane.book[k], now);
  }

  lemma AdmitHoldsUntil(t: Terms, s: State, j: Key, a: int, first: bool, unattended: bool, before: Time, now: Time,
                        k: Key, q: int, until: Time)
    requires GoodBook(t, s.lane.book, before) && HoldingUntil(s.lane.book, k, q, until)
    ensures var book := AdmitLane(s.lane, s.rebuilt, t.spec, j, a, first, unattended, now).0.book;
            HoldingUntil(book, k, q, until) <==> !(s.rebuilt && t.spec.Some? && Over(s.lane.book[k], now))
  {
    hide AdmitLane, LapsedBook, Reserve, LapseSlot, GoodBook, Chain, Over, LastsUntil;
    ChainOf(t, s, before, k);
    LastsUntilOver(s.lane.book[k], q, until, now);
    AdmittedBook(s.lane, s.rebuilt, t.spec, j, a, first, unattended, now);
    LapsedHolds(s.lane.book, k, q, until, now);
    ReserveHolds(LapsedBook(s.lane.book, now), j, a, now, k, q, until);
  }

  /** An admission lapses the book, and may reserve a slot. */
  lemma AdmittedBook(l: Lane, rebuilt: bool, spec: Option<ConsumerSpec>, j: Key, a: int, first: bool,
                     unattended: bool, now: Time)
    ensures var book := AdmitLane(l, rebuilt, spec, j, a, first, unattended, now).0.book;
            if !rebuilt || spec.None? then book == l.book
            else book in {LapsedBook(l.book, now), Reserve(LapsedBook(l.book, now), j, a, now)}
  {
    hide LapsedBook, Reserve, Limit, LiveClaims, Marked, Others, HoldsAt;
  }

  lemma LapsedHolds(book: Book, k: Key, q: int, until: Time, now: Time)
    requires HoldingUntil(book, k, q, until)
    requires LapseSlot(book[k], now).None? <==> Over(book[k], now)
    requires !Over(book[k], now) ==> LastsUntil(LapseSlot(book[k], now).value, q, until)
    ensures HoldingUntil(LapsedBook(book, now), k, q, until) <==> !Over(book[k], now)
  {
    hide LapseSlot, Over, LastsUntil;
  }

  lemma ReserveHolds(book: Book, j: Key, a: int, now: Time, k: Key, q: int, until: Time)
    ensures HoldingUntil(Reserve(book, j, a, now), k, q, until) <==> HoldingUntil(book, k, q, until)
  {}

  /** Steps that neither answer k at or above q nor forget it. */
  predicate Undisturbed(e: Event, k: Key, q: int) {
    match e.op
    case Answer(j, a) => j == k ==> a < q
    case Forget(j) => j != k
    case _ => true
  }

  /** It is held through every run until then, whatever is admitted, published or lapsed. */
  lemma {:induction false} PublishedHeldUntil(t: Terms, s: State, es: seq<Event>, from: Time, k: Key, q: int,
                                              until: Time)
    requires !t.rebuildable && GoodBook(t, s.lane.book, from) && OnClock(es, from)
    requires HoldingUntil(s.lane.book, k, q, until)
    requires t.spec.Some? ==> until <= from + LapseAfter(t.spec.value)
    requires forall e <- es :: Undisturbed(e, k, q) && e.now < until
    ensures HoldingUntil(Run(t, s, es).lane.book, k, q, until)
    decreases |es|
  {
    hide Step, GoodBook, HoldingUntil, LapseAfter;
    if es != [] {
      UndisturbedHolds(t, s, es[0], from, k, q, until);
      StepGood(t, s, es[0], from);
      PublishedHeldUntil(t, Step(t, s, es[0]), es[1..], es[0].now, k, q, until);
    }
  }

  lemma UndisturbedHolds(t: Terms, s: State, e: Event, before: Time, k: Key, q: int, until: Time)
    requires !t.rebuildable && GoodBook(t, s.lane.book, before) && HoldingUntil(s.lane.book, k, q, until)
    requires Undisturbed(e, k, q) && before <= e.now < until
    requires t.spec.Some? ==> until <= before + LapseAfter(t.spec.value)
    ensures HoldingUntil(Step(t, s, e).lane.book, k, q, until)
  {
    hide Step, GoodBook, LapseAfter;
    ChainOf(t, s, before, k);
    BottomUnderHead(s.lane.book[k]);
    HeldUntilThroughStep(t, s, e, before, k, q, until);
  }

  /** A tick, a count of the book or an admission of another key then drops k exactly once it and all
      reservations over it are past their expiry. */
  lemma LapsesExactly(t: Terms, s: State, e: Event, before: Time, k: Key, q: int, until: Time)
    requires GoodBook(t, s.lane.book, before) && HoldingUntil(s.lane.book, k, q, until)
    requires match e.op
             case CountOutstanding => true
             case Tick => s.booked
             case Admit(j, _, _, _) => j != k && s.rebuilt && t.spec.Some?
             case _ => false
    ensures k !in Step(t, s, e).lane.book <==> Over(s.lane.book[k], e.now)
  {
    hide AdmitLane, LapseSlot, GoodBook, Over;
    ChainOf(t, s, before, k);
    LastsUntilOver(s.lane.book[k], q, until, e.now);
    match e.op
    case Admit(j, a, first, unattended) => AdmittedBook(s.lane, s.rebuilt, t.spec, j, a, first, unattended, e.now);
    case _ =>
  }

  /** Answered clears k down to and including a exactly when k's head is at or below a, k holds
      nothing, or k's oldest dispatch is above a: a dispatch under a newer reservation survives it. */
  lemma AnsweredClears(t: Terms, l: Lane, now: Time, k: Key, a: int)
    requires GoodBook(t, l.book, now)
    ensures var after := AnsweredLane(l, k, a).book;
            (k !in after || forall i :: 0 <= i < |Stack(after[k])| ==> Stack(after[k])[i].seqNo > a) <==>
              (k !in l.book || l.book[k].seqNo <= a || Bottom(l.book[k]).seqNo > a)
  {
    if k in l.book {
      assert GoodSlot(t, l.book[k], now);
      NoneAtOrBelow(l.book[k], a);
    }
  }

  /** A rebuilt book names exactly the keys status names, each at its newest seq. */
  lemma {:induction false} RebuiltNewest(outs: seq<Outstanding>, now: Time, k: Key)
    ensures var book := RebuiltBook(outs, now);
            && (k in book <==> exists i :: 0 <= i < |outs| && outs[i].key == k)
            && (k in book ==>
                  && (exists i :: 0 <= i < |outs| && outs[i] == Outstanding(k, book[k].seqNo))
                  && (forall i :: 0 <= i < |outs| && outs[i].key == k ==> outs[i].seqNo <= book[k].seqNo))
  {
    if outs != [] {
      var init, o := outs[..|outs| - 1], outs[|outs| - 1];
      RebuiltNewest(init, now, k);
      assert forall i :: 0 <= i < |init| ==> outs[i] == init[i];
    }
  }

  /** Every slot of it is published, from now on, without expiry and over nothing. */
  lemma {:induction false} RebuiltPublished(outs: seq<Outstanding>, now: Time, k: Key)
    ensures var book := RebuiltBook(outs, now);
            k in book ==>
              && book[k].state == Published && book[k].at == now
              && book[k].expires.None? && book[k].prev.None?
  {
    if outs != [] { RebuiltPublished(outs[..|outs| - 1], now, k); }
  }

  /** So it holds a dispatch exactly when status names one of its key as new. */
  lemma RebuiltHolds(outs: seq<Outstanding>, now: Time, k: Key, q: int)
    ensures Holding(RebuiltBook(outs, now), k, q) <==> exists o :: o in outs && o.key == k && o.seqNo >= q
  {
    hide RebuiltBook;
    RebuiltNewest(outs, now, k);
    RebuiltPublished(outs, now, k);
    if o :| o in outs && o.key == k && o.seqNo >= q {
      var i :| 0 <= i < |outs| && outs[i] == o;
    }
  }
}
