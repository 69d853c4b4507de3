/** What admission keeps of the budget and of the claims ahead of it. */
module LedgerBudget {
  import opened Clock
  import opened Options
  import opened Slots
  import opened Lanes
  import opened LedgerRuns

  /** A slot is free for k once everything expired has lapsed. */
  predicate Free(l: Lane, c: ConsumerSpec, k: Key, q: int, first: bool, now: Time) {
    !HoldsAt(l.book, k, q) && Others(l.book, k) < Limit(l, c, k, first, now)
  }

  /** The step admits k by writing a slot, rather than finding one. */
  predicate Writes(t: Terms, s: State, e: Event) {
    && e.op.Admit? && t.spec.Some? && s.rebuilt
    && Free(Lapsed(s.lane, e.now), t.spec.value, e.op.key, e.op.seqNo, e.op.first, e.now)
  }

  /** The lane holds a new reservation of k at q, over an older dispatch if any, and no mark of k. */
  ghost predicate Granted(was: Lane, l: Lane, k: Key, q: int, now: Time) {
    && l.book.Keys == was.book.Keys + {k}
    && l.book[k].seqNo == q && l.book[k].state == Reserved && l.book[k].at == now
    && l.book[k].prev == Prev(was.book, k) && (l.book[k].prev.Some? ==> l.book[k].prev.value.seqNo < q)
    && k !in l.waiting && k !in l.first
  }

  lemma DecideGranted(l: Lane, c: ConsumerSpec, k: Key, q: int, first: bool, unattended: bool, now: Time)
    ensures var d := DecideLane(l, c, k, q, first, unattended, now);
            && (d.1 == Admitted <==> HoldsAt(l.book, k, q) || Free(l, c, k, q, first, now))
            && (Free(l, c, k, q, first, now) ==> Granted(l, d.0, k, q, now))
            && (!Free(l, c, k, q, first, now) ==> d.0.book == l.book)
  {
    hide LiveClaims, Marked, Limit, Others;
  }

  /** The keys but k that hold a slot once everything expired has lapsed, and those with a live claim. */
  function OtherHolders(l: Lane, k: Key, now: Time): set<Key> {
    set j | j in l.book && j != k && LapseSlot(l.book[j], now).Some?
  }

  function OtherClaimers(l: Lane, k: Key, now: Time): set<Key> {
    set j | j in l.first && j != k && now - l.first[j].seen < FIRST_TTL
  }

  /** When an admission is granted, in numbers: k holds a dispatch as new, or the slots of others, and for a
      routine dispatch the live claims of others, are fewer than the budget of two for each the durable may
      have pending. Otherwise it says why not. */
  lemma AdmittedWhen(t: Terms, s: State, k: Key, q: int, first: bool, unattended: bool, now: Time)
    ensures var d := AdmitLane(s.lane, s.rebuilt, t.spec, k, q, first, unattended, now).1;
            if !s.rebuilt then d == Refused(Rebuilding)
            else if t.spec.None? then d == Refused(Budget)
            else
              var held := k in s.lane.book && LapseSlot(s.lane.book[k], now).Some?
                          && LapseSlot(s.lane.book[k], now).value.seqNo >= q;
              var ahead := |OtherHolders(s.lane, k, now)| + if first then 0 else |OtherClaimers(s.lane, k, now)|;
              var pending := t.spec.value.maxAckPending;
              var most := if pending > 1 then pending * 2 else 2;
              d == if held || ahead < most then Admitted else Refused(if unattended then NoAgent else Budget)
  {
    hide LapseSlot, LapsedBook, DecideLane, OtherHolders, OtherClaimers, HoldsAt, Free;
    OthersLapsed(s.lane, k, q, now);
    if s.rebuilt && t.spec.Some? {
      DecidedWhen(Lapsed(s.lane, now), t.spec.value, k, q, first, unattended, now);
    }
  }

  /** What an admission does besides: the mark of a key admitted goes, every other key keeps what a lapse
      leaves it, and refused before that it touches nothing. */
  lemma AdmitLeaves(t: Terms, s: State, k: Key, q: int, first: bool, unattended: bool, now: Time)
    ensures var d := AdmitLane(s.lane, s.rebuilt, t.spec, k, q, first, unattended, now);
            if !s.rebuilt || t.spec.None? then d.0 == s.lane
            else
              && d.0.waiting == (if d.1 == Admitted then s.lane.waiting - {k} else s.lane.waiting)
              && (forall j :: j != k || d.1 != Admitted ==>
                    (j in d.0.book <==> j in s.lane.book && LapseSlot(s.lane.book[j], now).Some?))
              && forall j :: j in d.0.book && (j != k || d.1 != Admitted) ==>
                   Some(d.0.book[j]) == LapseSlot(s.lane.book[j], now)
  {
    hide LapseSlot, Limit, LiveClaims, Marked, Others;
  }

  lemma OthersLapsed(l: Lane, k: Key, q: int, now: Time)
    ensures Others(LapsedBook(l.book, now), k) == |OtherHolders(l, k, now)|
    ensures Others(LiveClaims(l.first, now), k) == |OtherClaimers(l, k, now)|
    ensures HoldsAt(LapsedBook(l.book, now), k, q) <==>
              k in l.book && LapseSlot(l.book[k], now).Some? && LapseSlot(l.book[k], now).value.seqNo >= q
  {
    hide LapseSlot;
    assert LapsedBook(l.book, now).Keys - {k} == OtherHolders(l, k, now);
    assert LiveClaims(l.first, now).Keys - {k} == OtherClaimers(l, k, now);
  }

  lemma DecidedWhen(l: Lane, c: ConsumerSpec, k: Key, q: int, first: bool, unattended: bool, now: Time)
    ensures var ahead := Others(l.book, k) + if first then 0 else Others(LiveClaims(l.first, now), k);
            var most := if c.maxAckPending > 1 then c.maxAckPending * 2 else 2;
            DecideLane(l, c, k, q, first, unattended, now).1 ==
              if HoldsAt(l.book, k, q) || ahead < most then Admitted
              else Refused(if unattended then NoAgent else Budget)
  {
    hide LiveClaims, Marked, Reserve, HoldsAt, Others;
  }

  /** An admission is granted exactly when k holds the dispatch already or a slot is written for it; a
      slot written is a reservation at the seq asked for, over what k held. */
  lemma GrantedExactly(t: Terms, s: State, e: Event)
    requires e.op.Admit?
    ensures var lapsed := Lapsed(s.lane, e.now);
            var after := AdmitLane(s.lane, s.rebuilt, t.spec, e.op.key, e.op.seqNo, e.op.first, e.op.unattended, e.now);
            && (after.1 == Admitted <==>
                  Writes(t, s, e) || (s.rebuilt && t.spec.Some? && HoldsAt(lapsed.book, e.op.key, e.op.seqNo)))
            && (Writes(t, s, e) ==> Granted(lapsed, after.0, e.op.key, e.op.seqNo, e.now))
  {
    hide LapsedBook, DecideLane, Limit, Others, HoldsAt, Granted;
    if s.rebuilt && t.spec.Some? {
      DecideGranted(Lapsed(s.lane, e.now), t.spec.value, e.op.key, e.op.seqNo, e.op.first, e.op.unattended, e.now);
    }
  }

  lemma OthersAnd<V>(m: map<Key, V>, k: Key, v: V)
    ensures |m[k := v]| == Others(m, k) + 1
    ensures Others(m, k) <= |m|
  {
    assert m[k := v].Keys == (m.Keys - {k}) + {k};
    if k in m { assert m.Keys == (m.Keys - {k}) + {k}; } else { assert m.Keys == m.Keys - {k}; }
  }

  lemma {:induction false} Subset<T>(a: set<T>, b: set<T>)
    requires a <= b
    ensures |a| <= |b|
  {
    if a != {} {
      var x :| x in a;
      Subset(a - {x}, b - {x});
    }
  }

  /** An admission that writes a slot leaves the book within the budget, and a routine one also leaves
      a free slot for every live claim of another key. */
  lemma AdmissionFits(t: Terms, s: State, e: Event)
    requires Writes(t, s, e)
    ensures |Step(t, s, e).lane.book| <= BudgetOf(t.spec.value)
    ensures !e.op.first ==>
              BudgetOf(t.spec.value) - |Step(t, s, e).lane.book| >= |LiveClaims(s.lane.first, e.now).Keys - {e.op.key}|
  {
    hide LapsedBook, LiveClaims;
    var book := LapsedBook(s.lane.book, e.now);
    var k, q := e.op.key, e.op.seqNo;
    OthersAnd(book, k, Slot(q, Reserved, Some(e.now + RESERVATION_TTL), Prev(book, k), e.now));
  }

  /** A step the budget does not bound: a publish for a key with no slot, or a rebuild. */
  predicate Unbounded(s: State, e: Event) { (e.op.Publish? && e.op.key !in s.lane.book) || e.op.Rebuild? }

  /** Only such a step, or an admission within the budget, makes a book larger. */
  lemma OnlyGrowth(t: Terms, s: State, e: Event)
    requires |Step(t, s, e).lane.book| > |s.lane.book| && !Unbounded(s, e)
    ensures Writes(t, s, e) && |Step(t, s, e).lane.book| <= BudgetOf(t.spec.value)
  {
    if Writes(t, s, e) {
      AdmissionFits(t, s, e);
    } else {
      NoGrowth(t, s, e);
    }
  }

  lemma NoGrowth(t: Terms, s: State, e: Event)
    requires !Writes(t, s, e) && !Unbounded(s, e)
    ensures |Step(t, s, e).lane.book| <= |s.lane.book|
  {
    hide Step;
    KeysShrink(t, s, e);
    Subset(Step(t, s, e).lane.book.Keys, s.lane.book.Keys);
  }

  lemma LapsedKeys(book: Book, now: Time)
    ensures LapsedBook(book, now).Keys <= book.Keys
  {}

  lemma AdmitKeys(t: Terms, s: State, e: Event)
    requires e.op.Admit? && !Writes(t, s, e)
    ensures Step(t, s, e).lane.book.Keys <= s.lane.book.Keys
  {
    hide LapsedBook, LiveClaims, Marked, Reserve, Limit;
    LapsedKeys(s.lane.book, e.now);
  }

  /** Any other step writes no new key. */
  lemma KeysShrink(t: Terms, s: State, e: Event)
    requires !Writes(t, s, e) && !Unbounded(s, e)
    ensures Step(t, s, e).lane.book.Keys <= s.lane.book.Keys
  {
    hide Writes, AdmitLane, LapsedBook, RebuiltBook, GoneIn, Released;
    LapsedKeys(s.lane.book, e.now);
    if e.op.Admit? { AdmitKeys(t, s, e); }
  }

  /** How many publishes of the run found no slot of their key. */
  function Unreserved(t: Terms, s: State, es: seq<Event>): nat
    decreases |es|
  {
    if es == [] then 0
    else (if Unbounded(s, es[0]) then 1 else 0) + Unreserved(t, Step(t, s, es[0]), es[1..])
  }

  /** Over every run without a rebuild a book stays within the budget, or where it began, but for one
      slot for each publish that found none. */
  lemma {:induction false} RunFits(t: Terms, s: State, es: seq<Event>)
    requires t.spec.Some? && forall e <- es :: !e.op.Rebuild?
    ensures |Run(t, s, es).lane.book| <= Max(BudgetOf(t.spec.value), |s.lane.book|) + Unreserved(t, s, es)
    decreases |es|
  {
    hide Step, BudgetOf, Unbounded;
    if es != [] {
      RunFits(t, Step(t, s, es[0]), es[1..]);
      StepFits(t, s, es[0]);
    }
  }

  lemma StepFits(t: Terms, s: State, e: Event)
    requires t.spec.Some? && !e.op.Rebuild?
    ensures |Step(t, s, e).lane.book| <= Max(BudgetOf(t.spec.value), |s.lane.book|) + if Unbounded(s, e) then 1 else 0
  {
    hide BudgetOf;
    if Unbounded(s, e) {
      OthersAnd(s.lane.book, e.op.key, Landed(t.rebuildable, t.spec, e.op.seqNo, e.now));
    } else if |Step(t, s, e).lane.book| > |s.lane.book| {
      OnlyGrowth(t, s, e);
    }
  }

  // A claim keeps the next slot.

  /** A refused AdmitFirst leaves a claim seen now, in the place it had or else a new one, and every other
      claim as it was; a refused Admit forgets the expired claims and no other. */
  lemma RefusedClaims(t: Terms, s: State, k: Key, q: int, first: bool, unattended: bool, now: Time)
    requires s.rebuilt && t.spec.Some?
    requires AdmitLane(s.lane, s.rebuilt, t.spec, k, q, first, unattended, now).1.Refused?
    ensures var was := s.lane.first;
            var left := AdmitLane(s.lane, s.rebuilt, t.spec, k, q, first, unattended, now).0.first;
            if first then
              && k in left && left[k].seen == now && left[k].since == (if k in was then was[k].since else now)
              && forall j :: j != k ==> (j in left <==> j in was) && (j in left ==> left[j] == was[j])
            else
              forall j :: (j in left <==> j in was && now - was[j].seen < FIRST_TTL) &&
                          (j in left ==> left[j] == was[j])
  {
    hide LapsedBook, Limit, Others;
  }

  /** A slot written takes the key's own claim, a routine one's the expired claims of others too; a dispatch
      held already takes none. */
  lemma AdmittedClaims(t: Terms, s: State, k: Key, q: int, first: bool, unattended: bool, now: Time)
    requires s.rebuilt && t.spec.Some?
    requires AdmitLane(s.lane, s.rebuilt, t.spec, k, q, first, unattended, now).1 == Admitted
    ensures var was := s.lane.first;
            var left := AdmitLane(s.lane, s.rebuilt, t.spec, k, q, first, unattended, now).0.first;
            if HoldsAt(LapsedBook(s.lane.book, now), k, q) then left == was
            else
              forall j :: (j in left <==> j != k && j in was && (first || now - was[j].seen < FIRST_TTL)) &&
                          (j in left ==> left[j] == was[j])
  {
    hide LapsedBook, Limit, Others;
  }

  /** f waits through AdmitFirst and there is a slot for it. */
  predicate Promised(t: Terms, s: State, f: Key) {
    && t.spec.Some? && s.rebuilt && f in s.lane.first && Others(s.lane.book, f) < BudgetOf(t.spec.value)
  }

  /** Steps that are nobody else's claim, nor a publish the ledger did not admit, while f's claim lives. */
  predicate Ordinary(s: State, e: Event, f: Key) {
    && !Unbounded(s, e)
    && (e.op.Admit? ==> !e.op.first && e.op.key != f)
    && (e.op.Forget? ==> e.op.key != f)
    && (e.op.ForgetItem? ==> !SameItem(f, e.op.kind, e.op.namespace, e.op.name))
    && (f in s.lane.first ==> e.now - s.lane.first[f].seen < FIRST_TTL)
  }

  predicate OrdinaryRun(t: Terms, s: State, es: seq<Event>, f: Key)
    decreases |es|
  {
    es != [] ==> Ordinary(s, es[0], f) && OrdinaryRun(t, Step(t, s, es[0]), es[1..], f)
  }

  lemma OthersShrink(a: Book, b: Book, k: Key)
    requires a.Keys <= b.Keys
    ensures Others(a, k) <= Others(b, k)
  {
    Subset(a.Keys - {k}, b.Keys - {k});
  }

  /** f waits through AdmitFirst. */
  predicate Claiming(t: Terms, s: State, f: Key) { t.spec.Some? && s.rebuilt && f in s.lane.first }

  lemma ClaimStays(t: Terms, s: State, e: Event, f: Key)
    requires Claiming(t, s, f) && Ordinary(s, e, f)
    ensures f in Step(t, s, e).lane.first && Step(t, s, e).lane.first[f] == s.lane.first[f]
    ensures Step(t, s, e).rebuilt
  {
    hide AdmitLane, LapsedBook, RebuiltBook, Released, BudgetOf;
    if e.op.Admit? { RoutineClaims(t, s, e.op.key, e.op.seqNo, e.op.unattended, e.now, f); }
  }

  /** A routine admission of another key leaves a live claim alone. */
  lemma RoutineClaims(t: Terms, s: State, k: Key, q: int, unattended: bool, now: Time, f: Key)
    requires k != f && f in s.lane.first && now - s.lane.first[f].seen < FIRST_TTL
    ensures var claims := AdmitLane(s.lane, s.rebuilt, t.spec, k, q, false, unattended, now).0.first;
            f in claims && claims[f] == s.lane.first[f]
  {
    hide LapsedBook, DecideLane, LiveClaims;
    if s.rebuilt && t.spec.Some? {
      DecideFirst(Lapsed(s.lane, now), t.spec.value, k, q, unattended, now);
      LiveHas(s.lane.first, now, f);
    }
  }

  lemma DecideFirst(l: Lane, c: ConsumerSpec, k: Key, q: int, unattended: bool, now: Time)
    ensures DecideLane(l, c, k, q, false, unattended, now).0.first in
              {l.first, LiveClaims(l.first, now), LiveClaims(l.first, now) - {k}}
  {
    hide LiveClaims, Reserve, Limit, HoldsAt;
  }

  lemma LiveHas(first: map<Key, Claim>, now: Time, f: Key)
    requires f in first && now - first[f].seen < FIRST_TTL
    ensures f in LiveClaims(first, now) && LiveClaims(first, now)[f] == first[f]
  {}

  lemma PromiseKept(t: Terms, s: State, e: Event, f: Key)
    requires Promised(t, s, f) && Ordinary(s, e, f)
    ensures Promised(t, Step(t, s, e), f)
  {
    hide Step, Writes, BudgetOf;
    ClaimStays(t, s, e, f);
    var book := Step(t, s, e).lane.book;
    if Writes(t, s, e) {
      WriterIsRoutine(t, s, e, f);
      AdmissionFits(t, s, e);
      Subset({f}, LiveClaims(s.lane.first, e.now).Keys - {e.op.key});
      StrictlyFewer(book, f);
    } else {
      KeysShrink(t, s, e);
      OthersShrink(book, s.lane.book, f);
    }
  }

  lemma WriterIsRoutine(t: Terms, s: State, e: Event, f: Key)
    requires Promised(t, s, f) && Ordinary(s, e, f) && Writes(t, s, e)
    ensures e.op.Admit? && !e.op.first && f in LiveClaims(s.lane.first, e.now).Keys - {e.op.key}
  {}

  lemma StrictlyFewer(book: Book, f: Key)
    ensures Others(book, f) <= |book|
  {
    Subset(book.Keys - {f}, book.Keys);
  }

  /** While only such steps run, f's claim keeps a slot: when f asks again it is admitted. */
  lemma {:induction false} ClaimServed(t: Terms, s: State, es: seq<Event>, f: Key, q: int, unattended: bool, now: Time)
    requires Promised(t, s, f) && OrdinaryRun(t, s, es, f)
    ensures var end := Run(t, s, es);
            AdmitLane(end.lane, end.rebuilt, t.spec, f, q, true, unattended, now).1 == Admitted
    decreases |es|
  {
    if es == [] {
      OthersShrink(LapsedBook(s.lane.book, now), s.lane.book, f);
    } else {
      PromiseKept(t, s, es[0], f);
      ClaimServed(t, Step(t, s, es[0]), es[1..], f, q, unattended, now);
    }
  }

  lemma {:induction false} ClaimKept(t: Terms, s: State, es: seq<Event>, f: Key)
    requires Claiming(t, s, f) && OrdinaryRun(t, s, es, f)
    ensures Claiming(t, Run(t, s, es), f) && Run(t, s, es).lane.first[f] == s.lane.first[f]
    decreases |es|
  {
    hide Step;
    if es != [] {
      ClaimStays(t, s, es[0], f);
      ClaimKept(t, Step(t, s, es[0]), es[1..], f);
    }
  }

  /** Refused, f leaves its claim; once a slot frees, and while only such steps run, it keeps it: when f asks
      again it is admitted, whatever routine dispatches asked between. */
  lemma RefusedServed(t: Terms, s: State, f: Key, q: int, unattended: bool, at: Time, es: seq<Event>, n: nat, now: Time)
    requires s.rebuilt && t.spec.Some?
    requires AdmitLane(s.lane, s.rebuilt, t.spec, f, q, true, unattended, at).1.Refused?
    requires var refused := Step(t, s, Event(Admit(f, q, true, unattended), at));
             && n <= |es| && OrdinaryRun(t, refused, es[..n], f)
             && OrdinaryRun(t, Run(t, refused, es[..n]), es[n..], f)
             && Others(Run(t, refused, es[..n]).lane.book, f) < BudgetOf(t.spec.value)
    ensures var refused := Step(t, s, Event(Admit(f, q, true, unattended), at));
            var end := Run(t, refused, es);
            AdmitLane(end.lane, end.rebuilt, t.spec, f, q, true, unattended, now).1 == Admitted
  {
    hide AdmitLane, OrdinaryRun, BudgetOf;
    var refused := Step(t, s, Event(Admit(f, q, true, unattended), at));
    RefusedClaims(t, s, f, q, true, unattended, at);
    ClaimKept(t, refused, es[..n], f);
    ClaimServed(t, Run(t, refused, es[..n]), es[n..], f, q, unattended, now);
    RunConcat(t, refused, es[..n], es[n..]);
    assert es[..n] + es[n..] == es;
  }

  lemma {:induction false} RunConcat(t: Terms, s: State, es: seq<Event>, fs: seq<Event>)
    ensures Run(t, s, es + fs) == Run(t, Run(t, s, es), fs)
    decreases |es|
  {
    hide Step;
    if es == [] {
      assert es + fs == fs;
    } else {
      assert (es + fs)[1..] == es[1..] + fs;
      RunConcat(t, Step(t, s, es[0]), es[1..], fs);
    }
  }
}
