/** The audit's two looks with any steps in between, and where the ledger promises less than it says. */
module LedgerAudit {
  import opened Clock
  import opened Options
  import opened Slots
  import opened Lanes
  import opened LedgerRuns

  /** A published slot of k at q, older than the cutoff. */
  predicate StaleAt(book: Book, k: Key, q: int, cutoff: Time) {
    k in book && StaleSlot(book[k], cutoff) && book[k].seqNo == q
  }

  /** Whatever ran between the snapshot and the recheck, the audit removes k exactly when both saw the
      same published seq of it, stale, and status did not show it in flight. */
  lemma AuditRemoves(t: Terms, s: State, es: seq<Event>, inFlight: set<Key>, cutoff: Time, k: Key)
    ensures var now := Run(t, s, es).lane;
            k in now.book && k !in AuditedLane(now, Due(s.lane.book, cutoff), inFlight, cutoff).book <==>
              k !in inFlight && exists q :: StaleAt(s.lane.book, k, q, cutoff) && StaleAt(now.book, k, q, cutoff)
  {
    hide Run;
    var now := Run(t, s, es).lane;
    if k in now.book && k !in AuditedLane(now, Due(s.lane.book, cutoff), inFlight, cutoff).book {
      assert StaleAt(s.lane.book, k, now.book[k].seqNo, cutoff) && StaleAt(now.book, k, now.book[k].seqNo, cutoff);
    }
  }

  /** Whatever k has published is stamped at or after the cutoff. */
  predicate Restamped(book: Book, k: Key, cutoff: Time) {
    k in book ==> (Bottom(book[k]).state == Published ==> Bottom(book[k]).at >= cutoff)
  }

  lemma LapseRestamped(book: Book, now: Time, k: Key, cutoff: Time)
    requires Restamped(book, k, cutoff)
    ensures Restamped(LapsedBook(book, now), k, cutoff)
  {
    hide LapseSlot;
    if k in LapsedBook(book, now) { LapseBottom(book[k], now); }
  }

  lemma {:induction false} LapseBottom(s: Slot, now: Time)
    requires LapseSlot(s, now).Some?
    ensures Bottom(LapseSlot(s, now).value) == Bottom(s)
  {
    if Expired(s, now) { LapseBottom(s.prev.value, now); }
  }

  lemma {:induction false} RebuiltRestamped(outs: seq<Outstanding>, now: Time, k: Key, cutoff: Time)
    requires cutoff <= now
    ensures Restamped(RebuiltBook(outs, now), k, cutoff)
  {
    if outs != [] { RebuiltRestamped(outs[..|outs| - 1], now, k, cutoff); }
  }

  lemma AdmitRestamped(t: Terms, s: State, j: Key, q: int, first: bool, unattended: bool, now: Time, k: Key,
                       cutoff: Time)
    requires Restamped(s.lane.book, k, cutoff)
    ensures Restamped(AdmitLane(s.lane, s.rebuilt, t.spec, j, q, first, unattended, now).0.book, k, cutoff)
  {
    hide AdmitLane, LapsedBook;
    AdmittedBook(s.lane, s.rebuilt, t.spec, j, q, first, unattended, now);
    LapseRestamped(s.lane.book, now, k, cutoff);
  }

  lemma StepRestamped(t: Terms, s: State, e: Event, k: Key, cutoff: Time)
    requires Restamped(s.lane.book, k, cutoff) && cutoff <= e.now
    ensures Restamped(Step(t, s, e).lane.book, k, cutoff)
  {
    hide AdmitLane, LapsedBook, RebuiltBook, GoneIn, Released;
    LapseRestamped(s.lane.book, e.now, k, cutoff);
    match e.op
    case Admit(j, q, first, unattended) => AdmitRestamped(t, s, j, q, first, unattended, e.now, k, cutoff);
    case Rebuild(outs) => RebuiltRestamped(outs, e.now, k, cutoff);
    case _ =>
  }

  lemma {:induction false} RunRestamped(t: Terms, s: State, es: seq<Event>, from: Time, k: Key, cutoff: Time)
    requires Restamped(s.lane.book, k, cutoff) && cutoff <= from && OnClock(es, from)
    ensures Restamped(Run(t, s, es).lane.book, k, cutoff)
    decreases |es|
  {
    hide Step, Restamped;
    if es != [] {
      StepRestamped(t, s, es[0], k, cutoff);
      RunRestamped(t, Step(t, s, es[0]), es[1..], es[0].now, k, cutoff);
    }
  }

  /** Republished and recorded since the snapshot, k survives the recheck through whatever follows,
      whatever the snapshot and status say of it. */
  lemma RepublishedSurvives(t: Terms, s: State, q: int, at: Time, es: seq<Event>, due: set<(Key, int)>,
                            inFlight: set<Key>, cutoff: Time, k: Key)
    requires GoodBook(t, s.lane.book, at) && cutoff <= at && OnClock(es, at)
    requires k !in s.lane.book || s.lane.book[k].seqNo <= q
    ensures var now := Run(t, Step(t, s, Event(Publish(k, q), at)), es).lane;
            k in now.book ==> k in AuditedLane(now, due, inFlight, cutoff).book
  {
    var landed := Step(t, s, Event(Publish(k, q), at));
    assert Restamped(landed.lane.book, k, cutoff);
    RunRestamped(t, landed, es, at, k, cutoff);
    StepGood(t, s, Event(Publish(k, q), at), at);
    RunGood(t, landed, es, at);
    RestampedKept(t, Run(t, landed, es).lane, EndOf(es, at), due, inFlight, cutoff, k);
  }

  lemma RestampedKept(t: Terms, l: Lane, now: Time, due: set<(Key, int)>, inFlight: set<Key>, cutoff: Time, k: Key)
    requires GoodBook(t, l.book, now) && Restamped(l.book, k, cutoff)
    ensures k in l.book ==> k in AuditedLane(l, due, inFlight, cutoff).book
  {
    if k in l.book { assert GoodSlot(t, l.book[k], now); }
  }

  // What may happen to a stale slot between the two looks.

  /** The step takes k's published dispatch away or restamps it: a publish recorded, an answer at or above
      the head, a forget, a rebuild, a release. */
  predicate Touches(t: Terms, book: Book, e: Event, k: Key) {
    match e.op
    case Publish(j, q) => j == k && (k in book ==> book[k].seqNo <= q)
    case Answer(j, a) => j == k && Answers(Lane(book, map[], map[]), k, a)
    case Forget(j) => j == k
    case ForgetItem(kind, namespace, name) => t.rebuildable && SameItem(k, kind, namespace, name)
    case Rebuild(_) => t.rebuildable
    case Release(due, inFlight, cutoff) => t.rebuildable && Releases(book, due, inFlight, cutoff, k)
    case _ => false
  }

  predicate Untouched(t: Terms, s: State, es: seq<Event>, k: Key)
    decreases |es|
  {
    es != [] ==> !Touches(t, s.lane.book, es[0], k) && Untouched(t, Step(t, s, es[0]), es[1..], k)
  }

  /** The slot is at the bottom of k's chain, alone or under reservations. */
  predicate Under(book: Book, k: Key, sl: Slot) { k in book && Bottom(book[k]) == sl }

  lemma AdmitUnder(t: Terms, s: State, j: Key, q: int, first: bool, unattended: bool, now: Time, k: Key, sl: Slot)
    requires Under(s.lane.book, k, sl) && sl.state == Published && sl.expires.None?
    ensures Under(AdmitLane(s.lane, s.rebuilt, t.spec, j, q, first, unattended, now).0.book, k, sl)
  {
    hide LapseSlot, Limit, LiveClaims, Marked;
    LastsThroughLapse(s.lane.book[k], sl.seqNo, now);
    LapseBottom(s.lane.book[k], now);
  }

  /** A step leaves it there, or touches k and leaves nothing of k as old. */
  lemma StepUnder(t: Terms, s: State, e: Event, k: Key, sl: Slot, cutoff: Time)
    requires t.rebuildable && Under(s.lane.book, k, sl) && sl.state == Published && sl.expires.None? && cutoff <= e.now
    ensures !Touches(t, s.lane.book, e, k) ==> Under(Step(t, s, e).lane.book, k, sl)
    ensures Touches(t, s.lane.book, e, k) ==> Restamped(Step(t, s, e).lane.book, k, cutoff)
  {
    hide AdmitLane, LapseSlot, RebuiltBook, Restamped;
    LastsThroughLapse(s.lane.book[k], sl.seqNo, e.now);
    LapseBottom(s.lane.book[k], e.now);
    if Touches(t, s.lane.book, e, k) {
      TouchedRestamped(t, s, e, k, cutoff);
    } else if e.op.Admit? {
      AdmitUnder(t, s, e.op.key, e.op.seqNo, e.op.first, e.op.unattended, e.now, k, sl);
    }
  }

  lemma TouchedRestamped(t: Terms, s: State, e: Event, k: Key, cutoff: Time)
    requires t.rebuildable && Touches(t, s.lane.book, e, k) && cutoff <= e.now
    ensures Restamped(Step(t, s, e).lane.book, k, cutoff)
  {
    hide RebuiltBook, AdmitLane, LapsedBook;
    if e.op.Rebuild? { RebuiltRestamped(e.op.outs, e.now, k, cutoff); }
  }

  lemma {:induction false} RunUnder(t: Terms, s: State, es: seq<Event>, from: Time, k: Key, sl: Slot, cutoff: Time)
    requires t.rebuildable && Under(s.lane.book, k, sl) && sl.state == Published && sl.expires.None?
    requires cutoff <= from && OnClock(es, from)
    ensures Untouched(t, s, es, k) ==> Under(Run(t, s, es).lane.book, k, sl)
    ensures !Untouched(t, s, es, k) ==> Restamped(Run(t, s, es).lane.book, k, cutoff)
    decreases |es|
  {
    hide Step, Under, Restamped, Touches;
    if es != [] {
      StepUnder(t, s, es[0], k, sl, cutoff);
      if Touches(t, s.lane.book, es[0], k) {
        RunRestamped(t, Step(t, s, es[0]), es[1..], es[0].now, k, cutoff);
      } else {
        RunUnder(t, Step(t, s, es[0]), es[1..], es[0].now, k, sl, cutoff);
      }
    }
  }

  /** At the recheck the slot of the snapshot is still k's head, published and stale, exactly when nothing
      touched it and no reservation is over it. */
  lemma StillStale(t: Terms, s: State, es: seq<Event>, from: Time, cutoff: Time, k: Key)
    requires t.rebuildable && GoodBook(t, s.lane.book, from) && cutoff <= from && OnClock(es, from)
    requires k in s.lane.book && StaleSlot(s.lane.book[k], cutoff)
    ensures var now := Run(t, s, es).lane.book;
            StaleAt(now, k, s.lane.book[k].seqNo, cutoff) <==>
              Untouched(t, s, es, k) && k in now && now[k].state == Published
  {
    hide Run, Untouched, GoodBook, OnClock;
    var sl := s.lane.book[k];
    GoodAt(t, s.lane.book, from, k);
    RunUnder(t, s, es, from, k, sl, cutoff);
    RunGood(t, s, es, from);
    if k in Run(t, s, es).lane.book { GoodAt(t, Run(t, s, es).lane.book, EndOf(es, from), k); }
  }

  lemma GoodAt(t: Terms, book: Book, now: Time, k: Key)
    requires GoodBook(t, book, now) && k in book
    ensures GoodSlot(t, book[k], now)
  {}

  /** Over any steps between its two looks the audit removes k exactly when the snapshot saw it published
      and stale, status does not show it in flight, no step published, answered, forgot, rebuilt or
      released it, and no reservation is over it. */
  lemma AuditRemovesOver(t: Terms, s: State, es: seq<Event>, from: Time, inFlight: set<Key>, cutoff: Time, k: Key)
    requires t.rebuildable && GoodBook(t, s.lane.book, from) && cutoff <= from && OnClock(es, from)
    ensures var now := Run(t, s, es).lane;
            k in now.book && k !in AuditedLane(now, Due(s.lane.book, cutoff), inFlight, cutoff).book <==>
              && k !in inFlight && k in s.lane.book && StaleSlot(s.lane.book[k], cutoff)
              && Untouched(t, s, es, k) && k in now.book && now.book[k].state == Published
  {
    hide Run, Untouched, GoodBook, OnClock, StaleSlot, AuditedLane, Due;
    AuditRemoves(t, s, es, inFlight, cutoff, k);
    if k in s.lane.book && StaleSlot(s.lane.book[k], cutoff) { StillStale(t, s, es, from, cutoff, k); }
  }

  // Where the code promises less than its comments.

  const ITEM := Key("Episode", "media", "e1", "search")
  const LANES := Terms(true, Some(ConsumerSpec(8, 0, 5)))
  const EMPTY := State(Lane(map[], map[], map[]), true, true)

  function At(seconds: int): Time { seconds * 1_000_000_000 }

  function Underneath(): seq<Event> {
    [Event(Publish(ITEM, 1), At(0)), Event(Admit(ITEM, 2, false, false), At(10)), Event(Answer(ITEM, 1), At(20)),
     Event(Tick, At(70))]
  }

  /** Answered at 1 under a newer reservation, which then lapses: the answered dispatch is back. */
  lemma AnsweredComesBack()
    ensures Holding(Run(LANES, EMPTY, Underneath()).lane.book, ITEM, 1)
  {
    var s1 := Step(LANES, EMPTY, Event(Publish(ITEM, 1), At(0)));
    var one := Slot(1, Published, None, None, 0);
    assert s1.lane.book == map[ITEM := one];
    assert LapsedBook(s1.lane.book, At(10)) == s1.lane.book;
    assert s1.lane.book.Keys - {ITEM} == {};
    assert LiveClaims(map[], At(10)).Keys - {ITEM} == {};
    var s2 := Step(LANES, s1, Event(Admit(ITEM, 2, false, false), At(10)));
    var two := Slot(2, Reserved, Some(At(70)), Some(one), At(10));
    assert s2.lane.book == map[ITEM := two];
    var s3 := Step(LANES, s2, Event(Answer(ITEM, 1), At(20)));
    assert s3 == s2;
    var s4 := Step(LANES, s3, Event(Tick, At(70)));
    assert LapseSlot(two, At(70)) == Some(one);
    assert s4.lane.book[ITEM] == one;
    FourSteps(LANES, EMPTY, Event(Publish(ITEM, 1), At(0)), Event(Admit(ITEM, 2, false, false), At(10)),
              Event(Answer(ITEM, 1), At(20)), Event(Tick, At(70)));
  }

  /** And nothing but an answer at or above its head, a forget, a rebuild that omits it or an audit that
      releases it takes it away again. */
  lemma AnsweredStays(es: seq<Event>)
    requires OnClock(es, At(70)) && Spared(LANES, Run(LANES, EMPTY, Underneath()), es, ITEM, 1)
    ensures Holding(Run(LANES, Run(LANES, EMPTY, Underneath()), es).lane.book, ITEM, 1)
  {
    hide Run, Step, Spared, GoodBook;
    AnsweredComesBack();
    EmptyGood();
    UnderneathClock();
    RunGood(LANES, EMPTY, Underneath(), At(0));
    HeldThroughRun(LANES, Run(LANES, EMPTY, Underneath()), es, At(70), ITEM, 1);
  }

  lemma EmptyGood()
    ensures GoodBook(LANES, EMPTY.lane.book, At(0))
  {}

  lemma UnderneathClock()
    ensures OnClock(Underneath(), At(0)) && EndOf(Underneath(), At(0)) == At(70)
  {
    var es := Underneath();
    assert es[1..][1..] == es[2..] && es[2..][1..] == es[3..] && es[3..][1..] == [];
    assert OnClock(es[3..], At(20)) && EndOf(es[3..], At(20)) == At(70);
    assert OnClock(es[2..], At(10)) && EndOf(es[2..], At(10)) == At(70);
    assert OnClock(es[1..], At(0)) && EndOf(es[1..], At(0)) == At(70);
  }

  lemma FourSteps(t: Terms, s: State, a: Event, b: Event, c: Event, d: Event)
    ensures Run(t, s, [a, b, c, d]) == Step(t, Step(t, Step(t, Step(t, s, a), b), c), d)
  {
    hide Step;
    assert [a, b, c, d][1..] == [b, c, d] && [b, c, d][1..] == [c, d] && [c, d][1..] == [d] && [d][1..] == [];
    assert Run(t, Step(t, s, a), [b, c, d]) == Run(t, Step(t, Step(t, s, a), b), [c, d]);
    assert Run(t, Step(t, Step(t, s, a), b), [c, d]) == Run(t, Step(t, Step(t, Step(t, s, a), b), c), [d]);
    var s3 := Step(t, Step(t, Step(t, s, a), b), c);
    assert Run(t, s3, [d]) == Run(t, Step(t, s3, d), []);
  }

  /** A publish that lands under a newer reservation is dropped, and once the reservation lapses the
      ledger holds nothing of a dispatch that is in flight. */
  lemma PublishLost()
    ensures var es := [Event(Admit(ITEM, 2, false, false), At(0)), Event(Publish(ITEM, 1), At(10)),
                       Event(Tick, At(60))];
            ITEM !in Run(LANES, EMPTY, es).lane.book
  {
    var none: Book := map[];
    assert LapsedBook(none, At(0)) == none;
    assert none.Keys - {ITEM} == {};
    assert LiveClaims(map[], At(0)).Keys - {ITEM} == {};
    var s1 := Step(LANES, EMPTY, Event(Admit(ITEM, 2, false, false), At(0)));
    assert s1.lane.book == map[ITEM := Slot(2, Reserved, Some(At(60)), None, At(0))];
    var s2 := Step(LANES, s1, Event(Publish(ITEM, 1), At(10)));
    assert s2 == s1;
    ThreeSteps(LANES, EMPTY, Event(Admit(ITEM, 2, false, false), At(0)), Event(Publish(ITEM, 1), At(10)),
               Event(Tick, At(60)));
  }

  lemma ThreeSteps(t: Terms, s: State, a: Event, b: Event, c: Event)
    ensures Run(t, s, [a, b, c]) == Step(t, Step(t, Step(t, s, a), b), c)
  {
    hide Step;
    assert [a, b, c][1..] == [b, c] && [b, c][1..] == [c] && [c][1..] == [];
    assert Run(t, Step(t, s, a), [b, c]) == Run(t, Step(t, Step(t, s, a), b), [c]);
    assert Run(t, Step(t, Step(t, s, a), b), [c]) == Run(t, Step(t, Step(t, Step(t, s, a), b), c), []);
  }
}
