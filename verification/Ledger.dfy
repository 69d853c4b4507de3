/** The dispatch ledger: every operation one step under its lock, the clock read once a step. */
module Ledgers {
  import opened Clock
  import opened Options
  import opened Slots
  import opened Lanes
  import opened Wakes

  const ENGINE_PREFIX := "grab-engine-"

  function Get<V>(m: map<string, map<Key, V>>, durable: string): map<Key, V> {
    if durable in m then m[durable] else map[]
  }

  datatype Tables = Tables(books: map<string, Book>, waiting: map<string, map<Key, Waiting>>,
                           first: map<string, map<Key, Claim>>)

  function LaneIn(t: Tables, durable: string): Lane {
    Lane(Get(t.books, durable), Get(t.waiting, durable), Get(t.first, durable))
  }

  class Ledger {
    /** The durables with a Source, which rebuild from status. */
    const sources: set<string>
    const topology: map<string, ConsumerSpec>
    const engine: ConsumerSpec
    var rebuilt: bool
    var books: map<string, Book>
    var waiting: map<string, map<Key, Waiting>>
    var first: map<string, map<Key, Claim>>
    /** The wakes not yet taken. */
    var wakes: seq<Key>
    /** The durables last detected unattended. */
    var unattended: set<string>

    constructor (sources: set<string>, topology: map<string, ConsumerSpec>, engine: ConsumerSpec)
      ensures this.sources == sources && this.topology == topology && this.engine == engine
      ensures !rebuilt && wakes == [] && unattended == {} && books == map[]
      ensures forall d :: LaneOf(d) == Lane(map[], map[], map[])
    {
      this.sources, this.topology, this.engine := sources, topology, engine;
      rebuilt, wakes, unattended := false, [], {};
      books, waiting, first := map[], map[], map[];
    }

    function LaneOf(durable: string): Lane
      reads this
    {
      Lane(Get(books, durable), Get(waiting, durable), Get(first, durable))
    }

    function Snapshot(): Tables
      reads this
    {
      Tables(books, waiting, first)
    }

    function SpecOf(durable: string): Option<ConsumerSpec> {
      if durable in topology then Some(topology[durable])
      else if ENGINE_PREFIX <= durable then Some(engine)
      else None
    }

    method FreedLocked(durable: string, n: int)
      modifies `wakes
      ensures Woke(old(wakes), wakes, LaneOf(durable), n, durable in sources)
    {
      if n <= 0 || durable !in sources {
        return;
      }
      ghost var l := LaneOf(durable);
      var firsts, routine := Gather(Lane(Get(books, durable), Get(waiting, durable), Get(first, durable)));
      SortedLists(firsts, FirstWaiters(l));
      SortedLists(routine, RoutineWaiters(l));
      var all := SortByAge(firsts) + SortByAge(routine);
      PrefixPicked(SortByAge(firsts), SortByAge(routine), l, n, Max(WAKE_BUFFER - |wakes|, 0));
      Send(all, 2 * n);
    }

    /** The sends that do not block, until enough are woken. */
    method Send(all: seq<Waiter>, most: nat)
      modifies `wakes
      ensures wakes == old(wakes) + Keys(all[..Min(Min(most, Max(WAKE_BUFFER - |old(wakes)|, 0)), |all|)])
    {
      var want := most;
      for i := 0 to |all|
        invariant want == most - i && i <= Min(most, Max(WAKE_BUFFER - |old(wakes)|, 0))
        invariant wakes == old(wakes) + Keys(all[..i])
      {
        if want == 0 || |wakes| >= WAKE_BUFFER {
          return;
        }
        assert Keys(all[..i + 1]) == Keys(all[..i]) + [all[i].key];
        wakes := wakes + [all[i].key];
        want := want - 1;
      }
    }

    method LapseLocked(durable: string, now: Time)
      requires durable in books
      modifies `books, `wakes
      ensures LaneOf(durable) == Lapsed(old(LaneOf(durable)), now)
      ensures books.Keys == old(books).Keys
      ensures forall d :: d != durable ==> LaneOf(d) == old(LaneOf(d))
      ensures Woke(old(wakes), wakes, LaneOf(durable), |old(LaneOf(durable)).book| - |LaneOf(durable).book|,
                   durable in sources)
    {
      var book, freed := LapseEach(books[durable], now);
      books := books[durable := book];
      FreedLocked(durable, freed);
    }

    /** The book's slots lapsed one by one. */
    static method LapseEach(before: Book, now: Time) returns (book: Book, freed: nat)
      ensures book == LapsedBook(before, now) && freed == |before| - |book|
    {
      hide LapseSlot;
      book, freed := before, 0;
      var todo := before.Keys;
      while todo != {}
        invariant todo <= before.Keys
        invariant book.Keys <= before.Keys && freed == |before| - |book|
        invariant forall k :: k in todo ==> k in book && book[k] == before[k]
        invariant forall k :: k in before && k !in todo ==>
          if LapseSlot(before[k], now).Some? then k in book &&
            book[k] == LapseSlot(before[k], now).value else k !in book
      {
        var k :| k in todo;
        todo := todo - {k};
        var s := LapseOne(book[k], now);
        OthersOf(book, k);
        if s.None? {
          book := book - {k};
          freed := freed + 1;
        } else {
          SameKeys(book, k, s.value);
          book := book[k := s.value];
        }
      }
    }

    static method LapseOne(head: Slot, now: Time) returns (s: Option<Slot>)
      ensures s == LapseSlot(head, now)
    {
      s := Some(head);
      while s.Some? && s.value.expires.Some? && now >= s.value.expires.value
        invariant LapseSlot(head, now) == if s.None? then None else LapseSlot(s.value, now)
        decreases s
      {
        s := s.value.prev;
      }
    }

    /** durable's book, made when it has none. */
    method BookLocked(durable: string)
      modifies `books
      ensures durable in books && books[durable] == old(Get(books, durable))
      ensures books.Keys == old(books).Keys + {durable}
      ensures forall d :: LaneOf(d) == old(LaneOf(d))
    {
      if durable !in books {
        books := books[durable := map[]];
      }
    }

    method ClearWaitingLocked(durable: string, k: Key)
      modifies `waiting
      ensures Get(waiting, durable) == old(Get(waiting, durable)) - {k}
      ensures forall d :: d != durable ==> Get(waiting, d) == old(Get(waiting, d))
    {
      if durable in waiting {
        waiting := waiting[durable := waiting[durable] - {k}];
      }
    }

    /** The live claims of keys other than k; the rest are forgotten. */
    method FirstWaitingLocked(durable: string, k: Key, now: Time) returns (n: nat)
      modifies `first
      ensures Get(first, durable) == LiveClaims(old(Get(first, durable)), now)
      ensures forall d :: d != durable ==> Get(first, d) == old(Get(first, d))
      ensures n == Others(Get(first, durable), k)
    {
      hide LiveClaims, Others;
      NoClaims(k, now);
      n := 0;
      if durable !in first {
        return;
      }
      var live, others := CountClaims(first[durable], k, now);
      first := first[durable := live];
      n := others;
    }

    static method CountClaims(before: map<Key, Claim>, k: Key, now: Time) returns (live: map<Key, Claim>, n: nat)
      ensures live == LiveClaims(before, now) && n == Others(live, k)
    {
      hide LiveClaims, Others;
      live, n := before, 0;
      var todo := before.Keys;
      assert live.Keys - todo - {k} == {};
      while todo != {}
        invariant todo <= live.Keys <= before.Keys
        invariant forall w :: w in before && w !in todo ==> (w in live <==> now - before[w].seen < FIRST_TTL)
        invariant forall w :: w in live ==> live[w] == before[w]
        invariant n == |live.Keys - todo - {k}|
      {
        var w :| w in todo;
        CountStep(live.Keys, todo, w, k);
        todo := todo - {w};
        if now - live[w].seen >= FIRST_TTL {
          live := live - {w};
          continue;
        }
        if w != k {
          n := n + 1;
        }
      }
      ClaimsCounted(before, live, k, now);
    }

    method MarkFirstLocked(durable: string, k: Key, now: Time)
      modifies `first
      ensures Get(first, durable) == Marked(old(Get(first, durable)), k, now)
      ensures forall d :: d != durable ==> Get(first, d) == old(Get(first, d))
    {
      var m := Get(first, durable);
      var since := now;
      if k in m {
        since := m[k].since;
      }
      first := first[durable := m[k := Claim(since, now)]];
    }

    /** Admit, and AdmitFirst when ahead. */
    method Admit(durable: string, k: Key, seqNo: int, ahead: bool, now: Time) returns (d: Decision)
      modifies `books, `waiting, `first, `wakes
      ensures (LaneOf(durable), d) ==
              AdmitLane(old(LaneOf(durable)), rebuilt, SpecOf(durable), k, seqNo, ahead, durable in unattended, now)
      ensures books.Keys == old(books).Keys + if rebuilt && SpecOf(durable).Some? then {durable} else {}
      ensures forall o :: o != durable ==> LaneOf(o) == old(LaneOf(o))
      ensures !rebuilt || SpecOf(durable).None? ==> wakes == old(wakes)
      ensures rebuilt && SpecOf(durable).Some? ==>
                var l, m := old(LaneOf(durable)), Lapsed(old(LaneOf(durable)), now);
                Woke(old(wakes), wakes, m, |l.book| - |m.book|, durable in sources)
    {
      hide DecideLane, Lapsed, LapsedBook, Woke;
      if !rebuilt {
        return Refused(Rebuilding);
      }
      var c := SpecOf(durable);
      if c.None? {
        return Refused(Budget);
      }
      BookLocked(durable);
      LapseLocked(durable, now);
      d := Decide(durable, c.value, k, seqNo, ahead, now);
    }

    method Decide(durable: string, c: ConsumerSpec, k: Key, seqNo: int, ahead: bool, now: Time) returns (d: Decision)
      requires durable in books
      modifies `books, `waiting, `first
      ensures (LaneOf(durable), d) == DecideLane(old(LaneOf(durable)), c, k, seqNo, ahead, durable in unattended, now)
      ensures books.Keys == old(books).Keys
      ensures forall o :: o != durable ==> LaneOf(o) == old(LaneOf(o))
    {
      hide LiveClaims, Others, Marked, BudgetOf;
      var book := books[durable];
      if k in book && book[k].seqNo >= seqNo {
        ClearWaitingLocked(durable, k);
        return Admitted;
      }
      var n := |book|;
      if k in book {
        n := n - 1;
      }
      OthersOf(book, k);
      var limit: int := BudgetOf(c);
      if !ahead {
        var claims := FirstWaitingLocked(durable, k, now);
        limit := limit - claims;
      }
      if n >= limit {
        if ahead {
          MarkFirstLocked(durable, k, now);
        }
        return Refused(if durable in unattended then NoAgent else Budget);
      }
      Grant(durable, k, Slot(seqNo, Reserved, Some(now + RESERVATION_TTL), Prev(book, k), now));
      d := Admitted;
    }

    method Grant(durable: string, k: Key, s: Slot)
      requires durable in books
      modifies `books, `waiting, `first
      ensures LaneOf(durable) ==
              Lane(old(LaneOf(durable)).book[k := s], old(LaneOf(durable)).waiting - {k},
                   old(LaneOf(durable)).first - {k})
      ensures books.Keys == old(books).Keys
      ensures forall o :: o != durable ==> LaneOf(o) == old(LaneOf(o))
    {
      books := books[durable := books[durable][k := s]];
      ClearWaitingLocked(durable, k);
      if durable in first {
        first := first[durable := first[durable] - {k}];
      }
    }

    /** Published: the publish of k at seqNo landed. */
    method Published(durable: string, k: Key, seqNo: int, now: Time)
      modifies `books, `waiting
      ensures LaneOf(durable) == PublishedLane(old(LaneOf(durable)), durable in sources, SpecOf(durable), k, seqNo, now)
      ensures books.Keys == old(books).Keys + {durable}
      ensures forall o :: o != durable ==> LaneOf(o) == old(LaneOf(o))
    {
      BookLocked(durable);
      var book := books[durable];
      if k in book && book[k].seqNo > seqNo {
        return;
      }
      var s := Slot(seqNo, SlotState.Published, None, None, now);
      if durable !in sources {
        var c := SpecOf(durable);
        if c.Some? {
          s := s.(expires := Some(now + LapseAfter(c.value)));
        }
      }
      books := books[durable := book[k := s]];
      ClearWaitingLocked(durable, k);
    }

    /** Answered: the planner took, or closed, k's dispatch at seqNo. */
    method Answered(durable: string, k: Key, seqNo: int)
      modifies `books, `wakes
      ensures LaneOf(durable) == AnsweredLane(old(LaneOf(durable)), k, seqNo)
      ensures books.Keys == old(books).Keys + {durable}
      ensures forall o :: o != durable ==> LaneOf(o) == old(LaneOf(o))
      ensures Woke(old(wakes), wakes, LaneOf(durable),
                   if Answers(old(LaneOf(durable)), k, seqNo) then 1 else 0, durable in sources)
    {
      BookLocked(durable);
      var book := books[durable];
      if k in book && book[k].seqNo <= seqNo {
        books := books[durable := book - {k}];
        FreedLocked(durable, 1);
      }
    }

    static method DropGone<V>(m: map<Key, V>, kind: string, namespace: string, name: string)
      returns (left: map<Key, V>, n: nat)
      ensures left == m - GoneIn(m, kind, namespace, name) && n == |m| - |left|
    {
      left, n := m, 0;
      var todo := m.Keys;
      while todo != {}
        invariant todo <= left.Keys <= m.Keys && n == |m| - |left|
        invariant forall k :: k in m && k !in todo ==> (k in left <==> !SameItem(k, kind, namespace, name))
        invariant forall k :: k in left ==> left[k] == m[k]
      {
        var k :| k in todo;
        todo := todo - {k};
        if k.kind == kind && k.namespace == namespace && k.name == name {
          OthersOf(left, k);
          left := left - {k};
          n := n + 1;
        }
      }
    }

    method DropSlots(durable: string, kind: string, namespace: string, name: string) returns (freed: int)
      modifies `books
      ensures Get(books, durable) == old(Get(books, durable)) - GoneIn(old(Get(books, durable)), kind, namespace, name)
      ensures forall o :: o != durable ==> Get(books, o) == old(Get(books, o))
      ensures freed == |old(Get(books, durable))| - |Get(books, durable)|
      ensures books.Keys == old(books).Keys
    {
      NoneGone<Slot>(kind, namespace, name);
      freed := 0;
      if durable in books {
        var left, n := DropGone(books[durable], kind, namespace, name);
        books, freed := books[durable := left], n;
      }
    }

    method DropMarks(durable: string, kind: string, namespace: string, name: string)
      modifies `waiting, `first
      ensures Get(waiting, durable) ==
              old(Get(waiting, durable)) - GoneIn(old(Get(waiting, durable)), kind, namespace, name)
      ensures Get(first, durable) == old(Get(first, durable)) - GoneIn(old(Get(first, durable)), kind, namespace, name)
      ensures forall o :: o != durable ==> Get(waiting, o) == old(Get(waiting, o))
      ensures forall o :: o != durable ==> Get(first, o) == old(Get(first, o))
    {
      hide GoneIn;
      NoneGone<Waiting>(kind, namespace, name);
      NoneGone<Claim>(kind, namespace, name);
      if durable in waiting {
        var left, _ := DropGone(waiting[durable], kind, namespace, name);
        waiting := waiting[durable := left];
      }
      if durable in first {
        var left, _ := DropGone(first[durable], kind, namespace, name);
        first := first[durable := left];
      }
    }

    /** ForgetGone on one durable. */
    method ForgetGoneOn(durable: string, kind: string, namespace: string, name: string)
      requires durable in sources
      modifies `books, `waiting, `first, `wakes
      ensures LaneOf(durable) == GoneLane(old(LaneOf(durable)), kind, namespace, name)
      ensures forall o :: o != durable ==> LaneOf(o) == old(LaneOf(o))
      ensures books.Keys == old(books).Keys
      ensures var f := GoneFreed(old(LaneOf(durable)), kind, namespace, name);
              Woke(old(wakes), wakes, f.lane, f.n, f.rebuildable)
    {
      hide Woke, GoneIn, Get;
      var freed := DropSlots(durable, kind, namespace, name);
      DropMarks(durable, kind, namespace, name);
      FreedLocked(durable, freed);
    }

    /** ForgetGone: the item is gone, so every rebuildable durable drops it, in some order, and wakes
        whoever waits for the slots it freed. */
    method ForgetGone(kind: string, namespace: string, name: string)
      returns (ghost visited: seq<string>)
      modifies `books, `waiting, `first, `wakes
      ensures forall d :: d in sources ==> LaneOf(d) == GoneLane(old(LaneOf(d)), kind, namespace, name)
      ensures forall d :: d !in sources ==> LaneOf(d) == old(LaneOf(d))
      ensures books.Keys == old(books).Keys && multiset(visited) == multiset(sources)
      ensures WokeEach(old(wakes), wakes, GoneEach(old(Snapshot()), visited, kind, namespace, name))
    {
      hide GoneLane, Woke, WokeEach, GoneEach, GoneFreed;
      var todo := sources;
      ghost var was := Snapshot();
      visited := [];
      NoneGoneYet(was, kind, namespace, name);
      WokeNone(wakes);
      while todo != {}
        invariant todo <= sources && books.Keys == old(books).Keys
        invariant forall d :: d in sources - todo ==> LaneOf(d) == GoneLane(old(LaneOf(d)), kind, namespace, name)
        invariant forall d :: d !in sources - todo ==> LaneOf(d) == old(LaneOf(d))
        invariant multiset(visited) + multiset(todo) == multiset(sources)
        invariant WokeEach(old(wakes), wakes, GoneEach(was, visited, kind, namespace, name))
      {
        var durable :| durable in todo;
        ghost var mid := wakes;
        assert LaneOf(durable) == old(LaneOf(durable));
        ForgetGoneOn(durable, kind, namespace, name);
        ghost var f := GoneFreed(LaneIn(was, durable), kind, namespace, name);
        WokeNext(old(wakes), mid, wakes, GoneEach(was, visited, kind, namespace, name), f);
        GoneSnoc(was, visited, durable, kind, namespace, name);
        TakenOut(todo, durable);
        todo := todo - {durable};
        visited := visited + [durable];
      }
    }

    /** Holds: a slot of k at or below seqNo is still held. */
    method Holds(durable: string, k: Key, seqNo: int) returns (held: bool)
      ensures held <==> Answers(LaneOf(durable), k, seqNo)
    {
      var book := Get(books, durable);
      held := k in book && book[k].seqNo <= seqNo;
    }

    method MarkWaiting(durable: string, k: Key, reason: Reason, now: Time)
      modifies `waiting
      ensures LaneOf(durable) == WaitingLane(old(LaneOf(durable)), k, reason, now)
      ensures forall o :: o != durable ==> LaneOf(o) == old(LaneOf(o))
    {
      var w := Get(waiting, durable);
      waiting := waiting[durable := w[k := Waiting(reason, now)]];
    }

    /** Forget: k is gone from every durable; one after the other those that held it wake their waiters,
        k's own marks still among them. */
    method Forget(k: Key) returns (ghost visited: seq<string>)
      modifies `books, `waiting, `first, `wakes
      ensures forall d :: LaneOf(d) == ForgetLane(old(LaneOf(d)), k)
      ensures books.Keys == old(books).Keys && multiset(visited) == multiset(old(books).Keys)
      ensures WokeEach(old(wakes), wakes, ForgetEach(old(Snapshot()), visited, k, sources))
    {
      hide Woke, WokeEach;
      visited := ForgetSlots(k);
      waiting := map d | d in waiting :: waiting[d] - {k};
      first := map d | d in first :: first[d] - {k};
    }

    method ForgetSlots(k: Key) returns (ghost visited: seq<string>)
      modifies `books, `wakes
      ensures forall d :: Get(books, d) == old(Get(books, d)) - {k}
      ensures books.Keys == old(books).Keys && multiset(visited) == multiset(old(books).Keys)
      ensures WokeEach(old(wakes), wakes, ForgetEach(old(Snapshot()), visited, k, sources))
    {
      hide Woke, WokeEach, ForgetEach, ForgetFreed;
      var todo := books.Keys;
      ghost var was := Snapshot();
      visited := [];
      NoneForgottenYet(was, k, sources);
      WokeNone(wakes);
      while todo != {}
        invariant todo <= books.Keys == old(books.Keys)
        invariant forall d :: d in books ==> books[d] == if d in todo then old(books)[d] else old(books)[d] - {k}
        invariant multiset(visited) + multiset(todo) == multiset(old(books).Keys)
        invariant WokeEach(old(wakes), wakes, ForgetEach(was, visited, k, sources))
      {
        var durable :| durable in todo;
        ghost var mid := wakes;
        assert LaneOf(durable) == old(LaneOf(durable));
        ForgetOne(durable, k);
        ghost var f := ForgetFreed(LaneIn(was, durable), k, durable in sources);
        WokeNext(old(wakes), mid, wakes, ForgetEach(was, visited, k, sources), f);
        ForgetSnoc(was, visited, durable, k, sources);
        TakenOut(todo, durable);
        todo := todo - {durable};
        visited := visited + [durable];
      }
    }

    method ForgetOne(durable: string, k: Key)
      requires durable in books
      modifies `books, `wakes
      ensures books == old(books)[durable := old(books)[durable] - {k}]
      ensures var f := ForgetFreed(old(LaneOf(durable)), k, durable in sources);
              Woke(old(wakes), wakes, f.lane, f.n, f.rebuildable)
    {
      var book := books[durable];
      if k in book {
        books := books[durable := book - {k}];
        FreedLocked(durable, 1);
      } else {
        assert book - {k} == book && books[durable := book] == books;
      }
    }

    method LapseWaitingLocked(durable: string, now: Time)
      modifies `waiting
      ensures LaneOf(durable) == old(LaneOf(durable)).(waiting := FreshWaiting(old(LaneOf(durable)).waiting, now))
      ensures forall o :: o != durable ==> LaneOf(o) == old(LaneOf(o))
    {
      if durable in waiting {
        var left := LapseMarks(waiting[durable], now);
        waiting := waiting[durable := left];
      }
    }

    static method LapseMarks(w: map<Key, Waiting>, now: Time) returns (left: map<Key, Waiting>)
      ensures left == FreshWaiting(w, now)
    {
      left := w;
      var todo := w.Keys;
      while todo != {}
        invariant todo <= left.Keys <= w.Keys
        invariant forall k :: k in w && k !in todo ==> (k in left <==> now - w[k].at < WAITING_TTL)
        invariant forall k :: k in left ==> left[k] == w[k]
      {
        var k :| k in todo;
        todo := todo - {k};
        if now - left[k].at >= WAITING_TTL {
          left := left - {k};
        }
      }
    }

    method WaitingCount(durable: string, now: Time) returns (n: nat)
      modifies `waiting
      ensures LaneOf(durable) == old(LaneOf(durable)).(waiting := FreshWaiting(old(LaneOf(durable)).waiting, now))
      ensures forall o :: o != durable ==> LaneOf(o) == old(LaneOf(o))
      ensures n == |LaneOf(durable).waiting|
    {
      LapseWaitingLocked(durable, now);
      n := |Get(waiting, durable)|;
    }

    method OutstandingCount(durable: string, now: Time) returns (n: nat)
      modifies `books, `wakes
      ensures LaneOf(durable) == Lapsed(old(LaneOf(durable)), now) && n == |LaneOf(durable).book|
      ensures books.Keys == old(books).Keys + {durable}
      ensures forall o :: o != durable ==> LaneOf(o) == old(LaneOf(o))
      ensures Woke(old(wakes), wakes, LaneOf(durable), |old(LaneOf(durable)).book| - n, durable in sources)
    {
      hide Lapsed, Woke;
      BookLocked(durable);
      LapseLocked(durable, now);
      n := |books[durable]|;
    }

    /** The tick's first half: every book lapses, with its waiting marks, and wakes its waiters before the
        stale ones among them are dropped. */
    method LapseAll(now: Time) returns (ghost visited: seq<string>)
      modifies `books, `waiting, `wakes
      ensures forall d :: LaneOf(d) == if d in old(books) then TickLane(old(LaneOf(d)), now) else old(LaneOf(d))
      ensures books.Keys == old(books).Keys && multiset(visited) == multiset(old(books).Keys)
      ensures WokeEach(old(wakes), wakes, LapsedEach(old(Snapshot()), visited, now, sources))
    {
      hide TickLane, Woke, WokeEach, LapsedEach, LapseFreed, Lapsed;
      var todo := books.Keys;
      ghost var was, all := Snapshot(), books.Keys;
      visited := [];
      NoneLapsedYet(was, now, sources);
      WokeNone(wakes);
      while todo != {}
        invariant todo <= all == books.Keys
        invariant forall d :: LaneOf(d) ==
                                if d in all - todo then TickLane(LaneIn(was, d), now) else LaneIn(was, d)
        invariant multiset(visited) + multiset(todo) == multiset(all)
        invariant WokeEach(old(wakes), wakes, LapsedEach(was, visited, now, sources))
      {
        var durable :| durable in todo;
        ghost var mid := wakes;
        assert LaneOf(durable) == LaneIn(was, durable);
        TickOne(durable, now);
        ghost var f := LapseFreed(LaneIn(was, durable), now, durable in sources);
        WokeNext(old(wakes), mid, wakes, LapsedEach(was, visited, now, sources), f);
        LapseSnoc(was, visited, durable, now, sources);
        TakenOut(todo, durable);
        todo := todo - {durable};
        visited := visited + [durable];
      }
    }

    method TickOne(durable: string, now: Time)
      requires durable in books
      modifies `books, `waiting, `wakes
      ensures LaneOf(durable) == TickLane(old(LaneOf(durable)), now) && books.Keys == old(books).Keys
      ensures forall o :: o != durable ==> LaneOf(o) == old(LaneOf(o))
      ensures var f := LapseFreed(old(LaneOf(durable)), now, durable in sources);
              Woke(old(wakes), wakes, f.lane, f.n, f.rebuildable)
    {
      hide Woke, LapsedBook, FreshWaiting;
      LapseLocked(durable, now);
      LapseWaitingLocked(durable, now);
    }

    /** One source's answer as a book: each key at its newest seq. */
    static method BuildBook(outs: seq<Outstanding>, now: Time) returns (book: Book)
      ensures book == RebuiltBook(outs, now)
    {
      book := map[];
      for i := 0 to |outs|
        invariant book == RebuiltBook(outs[..i], now)
      {
        assert outs[..i + 1][..i] == outs[..i];
        var o := outs[i];
        if o.key in book && book[o.key].seqNo >= o.seqNo {
          continue;
        }
        book := book[o.key := Slot(o.seqNo, SlotState.Published, None, None, now)];
      }
      assert outs[..|outs|] == outs;
    }

    /** rebuild: answers holds what each source answered, None for an error. */
    method Rebuild(answers: map<string, Option<seq<Outstanding>>>, now: Time) returns (ok: bool)
      requires sources <= answers.Keys
      modifies `books, `rebuilt
      ensures ok <==> forall d :: d in sources ==> answers[d].Some?
      ensures rebuilt == (ok || old(rebuilt))
      ensures !ok ==> books == old(books)
      ensures ok ==> forall d :: d in sources ==>
                LaneOf(d) == old(LaneOf(d)).(book := RebuiltBook(answers[d].value, now))
      ensures ok ==> books.Keys == old(books).Keys + sources
      ensures ok ==> forall d :: d !in sources ==> LaneOf(d) == old(LaneOf(d))
    {
      var built: map<string, Book> := map[];
      var todo := sources;
      while todo != {}
        invariant todo <= sources && built.Keys == sources - todo
        invariant forall d :: d in built ==> answers[d].Some? && built[d] == RebuiltBook(answers[d].value, now)
        invariant books == old(books) && rebuilt == old(rebuilt)
      {
        var durable :| durable in todo;
        todo := todo - {durable};
        if answers[durable].None? {
          return false;
        }
        var book := BuildBook(answers[durable].value, now);
        built := built[durable := book];
      }
      books := books + built;
      rebuilt := true;
      ok := true;
    }

    /** The audit's first look: the published slots older than twenty minutes. */
    method AuditDue(durable: string, now: Time) returns (due: set<(Key, int)>, cutoff: Time)
      ensures cutoff == now - AUDIT_AGE && due == Due(LaneOf(durable).book, cutoff)
    {
      cutoff := now - AUDIT_AGE;
      var book := Get(books, durable);
      due := {};
      var todo := book.Keys;
      while todo != {}
        invariant todo <= book.Keys
        invariant due == set k | k in book.Keys - todo && StaleSlot(book[k], cutoff) :: (k, book[k].seqNo)
      {
        var k :| k in todo;
        todo := todo - {k};
        var s := book[k];
        if s.state == SlotState.Published && s.at < cutoff {
          due := due + {(k, s.seqNo)};
        }
      }
      assert due == set k | k in book.Keys - todo && StaleSlot(book[k], cutoff) :: (k, book[k].seqNo);
    }

    /** The audit's second look, once status has answered which of the keys are in flight. */
    method AuditRelease(durable: string, due: set<(Key, int)>, inFlight: set<Key>, cutoff: Time) returns (n: nat)
      modifies `books, `wakes
      ensures LaneOf(durable) == AuditedLane(old(LaneOf(durable)), due, inFlight, cutoff)
      ensures books.Keys == old(books).Keys
      ensures forall o :: o != durable ==> LaneOf(o) == old(LaneOf(o))
      ensures n == |old(LaneOf(durable)).book| - |LaneOf(durable).book|
      ensures Woke(old(wakes), wakes, LaneOf(durable), n, durable in sources)
    {
      hide Woke;
      var book;
      book, n := ReleaseEach(Get(books, durable), due, inFlight, cutoff);
      if durable in books {
        books := books[durable := book];
      }
      FreedLocked(durable, n);
    }

    static method ReleaseEach(before: Book, due: set<(Key, int)>, inFlight: set<Key>, cutoff: Time)
      returns (book: Book, n: nat)
      ensures book == before - Released(before, due, inFlight, cutoff) && n == |before| - |book|
    {
      book, n := before, 0;
      var todo := due;
      while todo != {}
        invariant todo <= due && book.Keys <= before.Keys && n == |before| - |book|
        invariant forall k :: k in before ==>
          (k in book <==> !(Releases(before, due, inFlight, cutoff, k) && (k, before[k].seqNo) !in todo))
        invariant forall k :: k in book ==> book[k] == before[k]
      {
        var st :| st in todo;
        todo := todo - {st};
        var k := st.0;
        if k in book && book[k].state == SlotState.Published && book[k].seqNo == st.1 && book[k].at < cutoff &&
          k !in inFlight {
          OthersOf(book, k);
          book := book - {k};
          n := n + 1;
        }
      }
    }
  }

  // What a step frees of a durable, and who then waits on it.

  function GoneFreed(l: Lane, kind: string, namespace: string, name: string): Freed {
    var left := GoneLane(l, kind, namespace, name);
    Freed(left, |l.book| - |left.book|, true)
  }

  function ForgetFreed(l: Lane, k: Key, rebuildable: bool): Freed {
    Freed(l.(book := l.book - {k}), if k in l.book then 1 else 0, rebuildable)
  }

  function LapseFreed(l: Lane, now: Time, rebuildable: bool): Freed {
    Freed(Lapsed(l, now), |l.book| - |Lapsed(l, now).book|, rebuildable)
  }

  /** What each counts is the slots the durable's book lost. */
  lemma FreedCounts(l: Lane, kind: string, namespace: string, name: string, k: Key, now: Time, rebuildable: bool)
    ensures var f := GoneFreed(l, kind, namespace, name); f.n == |l.book| - |f.lane.book|
    ensures var f := ForgetFreed(l, k, rebuildable); f.n == |l.book| - |f.lane.book|
    ensures var f := LapseFreed(l, now, rebuildable); f.n == |l.book| - |f.lane.book|
  {
    OthersOf(l.book, k);
  }

  function GoneEach(t: Tables, ds: seq<string>, kind: string, namespace: string, name: string): seq<Freed> {
    seq(|ds|, i requires 0 <= i < |ds| => GoneFreed(LaneIn(t, ds[i]), kind, namespace, name))
  }

  lemma GoneSnoc(t: Tables, ds: seq<string>, d: string, kind: string, namespace: string, name: string)
    ensures GoneEach(t, ds + [d], kind, namespace, name) ==
              GoneEach(t, ds, kind, namespace, name) + [GoneFreed(LaneIn(t, d), kind, namespace, name)]
  {}

  function ForgetEach(t: Tables, ds: seq<string>, k: Key, sources: set<string>): seq<Freed> {
    seq(|ds|, i requires 0 <= i < |ds| => ForgetFreed(LaneIn(t, ds[i]), k, ds[i] in sources))
  }

  lemma ForgetSnoc(t: Tables, ds: seq<string>, d: string, k: Key, sources: set<string>)
    ensures ForgetEach(t, ds + [d], k, sources) ==
              ForgetEach(t, ds, k, sources) + [ForgetFreed(LaneIn(t, d), k, d in sources)]
  {}

  function LapsedEach(t: Tables, ds: seq<string>, now: Time, sources: set<string>): seq<Freed> {
    seq(|ds|, i requires 0 <= i < |ds| => LapseFreed(LaneIn(t, ds[i]), now, ds[i] in sources))
  }

  lemma LapseSnoc(t: Tables, ds: seq<string>, d: string, now: Time, sources: set<string>)
    ensures LapsedEach(t, ds + [d], now, sources) ==
              LapsedEach(t, ds, now, sources) + [LapseFreed(LaneIn(t, d), now, d in sources)]
  {}

  lemma NoneGoneYet(t: Tables, kind: string, namespace: string, name: string)
    ensures GoneEach(t, [], kind, namespace, name) == []
  {}

  lemma NoneForgottenYet(t: Tables, k: Key, sources: set<string>)
    ensures ForgetEach(t, [], k, sources) == []
  {}

  lemma NoneLapsedYet(t: Tables, now: Time, sources: set<string>)
    ensures LapsedEach(t, [], now, sources) == []
  {}

  lemma TakenOut(s: set<string>, x: string)
    requires x in s
    ensures multiset(s) == multiset(s - {x}) + multiset{x}
  {
    assert s == (s - {x}) + {x};
  }

  lemma NoneGone<V>(kind: string, namespace: string, name: string)
    ensures GoneIn<V>(map[], kind, namespace, name) == {}
  {}

  lemma NoClaims(k: Key, now: Time)
    ensures LiveClaims(map[], now) == map[] && Others<Claim>(map[], k) == 0
  {
    var none: map<Key, Claim> := map[];
    assert none.Keys - {k} == {};
  }

  lemma ClaimsCounted(before: map<Key, Claim>, live: map<Key, Claim>, k: Key, now: Time)
    requires forall w :: w in live ==> w in before && live[w] == before[w]
    requires forall w :: w in before ==> (w in live <==> now - before[w].seen < FIRST_TTL)
    ensures live == LiveClaims(before, now) && |live.Keys - {} - {k}| == Others(live, k)
  {
    assert live.Keys - {} - {k} == live.Keys - {k};
  }

  lemma CountStep(live: set<Key>, todo: set<Key>, w: Key, k: Key)
    requires w in todo && todo <= live
    ensures |live - (todo - {w}) - {k}| == |live - todo - {k}| + if w == k then 0 else 1
    ensures |(live - {w}) - (todo - {w}) - {k}| == |live - todo - {k}|
  {
    assert (live - {w}) - (todo - {w}) - {k} == live - todo - {k};
    if w == k {
      assert live - (todo - {w}) - {k} == live - todo - {k};
    } else {
      assert live - (todo - {w}) - {k} == (live - todo - {k}) + {w};
    }
  }

  lemma SameKeys<V>(m: map<Key, V>, k: Key, v: V)
    requires k in m
    ensures |m[k := v]| == |m|
  {
    assert m[k := v].Keys == m.Keys;
  }

  lemma OthersOf<V>(m: map<Key, V>, k: Key)
    ensures Others(m, k) == |m| - if k in m then 1 else 0
    ensures |m - {k}| == Others(m, k)
  {
    assert (m - {k}).Keys == m.Keys - {k};
    if k in m {
      assert m.Keys == (m.Keys - {k}) + {k};
    } else {
      assert m.Keys == m.Keys - {k};
    }
  }
}
