/** Which waiting keys a freed slot wakes. */
module Wakes {
  import opened Seqs
  import opened Clock
  import opened Slots
  import opened Lanes

  const WAKE_BUFFER: nat := 512

  /** A key waiting on a durable: through AdmitFirst, or refused for budget. */
  datatype Waiter = Waiter(key: Key, first: bool, since: Time)

  function FirstWaiters(l: Lane): set<Waiter> { set k | k in l.first :: Waiter(k, true, l.first[k].since) }

  predicate Routine(l: Lane, k: Key) { k in l.waiting && k !in l.first && l.waiting[k].reason == Budget }

  function RoutineWaiters(l: Lane): set<Waiter> {
    set k | k in l.waiting && Routine(l, k) :: Waiter(k, false, l.waiting[k].at)
  }

  function Waiters(l: Lane): set<Waiter> { FirstWaiters(l) + RoutineWaiters(l) }

  /** a is to be woken before b: claims before the rest, the longest waiting first. */
  predicate Ahead(a: Waiter, b: Waiter) { (a.first && !b.first) || (a.first == b.first && a.since < b.since) }

  function Min(a: int, b: int): int { if a <= b then a else b }

  predicate InTurn(ws: seq<Waiter>) { forall i, j :: 0 <= i < j < |ws| ==> !Ahead(ws[j], ws[i]) }

  function Keys(ws: seq<Waiter>): (ks: seq<Key>)
    ensures |ks| == |ws| && forall i :: 0 <= i < |ws| ==> ks[i] == ws[i].key
  {
    seq(|ws|, i requires 0 <= i < |ws| => ws[i].key)
  }

  /** ws are the waiters woken for n freed slots when `room` wakes fit: twice as many as freed, each
      once, in turn, and nobody left waiting is ahead of one woken. */
  ghost predicate Picked(ws: seq<Waiter>, l: Lane, n: int, room: nat) {
    && |ws| == Min(Min(2 * n, room), |Waiters(l)|)
    && Distinct(ws) && InTurn(ws)
    && (forall i :: 0 <= i < |ws| ==> ws[i] in Waiters(l))
    && (forall w, i :: w in Waiters(l) && w !in ws && 0 <= i < |ws| ==> !Ahead(w, ws[i]))
  }

  /** The wakes after n slots freed. */
  ghost predicate Woke(before: seq<Key>, after: seq<Key>, l: Lane, n: int, rebuildable: bool) {
    if n <= 0 || !rebuildable then after == before
    else exists ws :: Picked(ws, l, n, Max(WAKE_BUFFER - |before|, 0)) && after == before + Keys(ws)
  }

  /** n slots of a durable freed, with who then waits on it. */
  datatype Freed = Freed(lane: Lane, n: int, rebuildable: bool)

  /** The wakes held before each durable's turn and after the last. */
  ghost predicate Traced(trace: seq<seq<Key>>, freed: seq<Freed>) {
    && |trace| == |freed| + 1
    && forall i, j :: 0 <= i < j < |trace| && j == i + 1 ==>
         Woke(trace[i], trace[j], freed[i].lane, freed[i].n, freed[i].rebuildable)
  }

  /** The wakes after durables freed slots one after the other. */
  ghost predicate WokeEach(before: seq<Key>, after: seq<Key>, freed: seq<Freed>) {
    exists trace :: Traced(trace, freed) && trace[0] == before && trace[|freed|] == after
  }

  lemma WokeNone(wakes: seq<Key>)
    ensures WokeEach(wakes, wakes, [])
  {
    assert Traced([wakes], []);
  }

  lemma WokeNext(before: seq<Key>, mid: seq<Key>, after: seq<Key>, freed: seq<Freed>, f: Freed)
    requires WokeEach(before, mid, freed) && Woke(mid, after, f.lane, f.n, f.rebuildable)
    ensures WokeEach(before, after, freed + [f])
  {
    hide Woke;
    var trace :| Traced(trace, freed) && trace[0] == before && trace[|freed|] == mid;
    assert Traced(trace + [after], freed + [f]);
  }

  /** A key refused for budget is woken only when every claim is, and a claim or a key refused for
      budget only when every one of its kind that has waited longer is. */
  lemma ClaimsWokenFirst(ws: seq<Waiter>, l: Lane, n: int, room: nat, k: Key, j: Key)
    requires Picked(ws, l, n, room) && k in Keys(ws)
    ensures j in l.first && k !in l.first ==> j in Keys(ws)
    ensures j in l.first && k in l.first && l.first[j].since < l.first[k].since ==> j in Keys(ws)
    ensures Routine(l, j) && Routine(l, k) && l.waiting[j].at < l.waiting[k].at ==> j in Keys(ws)
  {
    var i :| 0 <= i < |ws| && Keys(ws)[i] == k;
    assert ws[i] in Waiters(l);
    KeyWoken(ws, l, n, room, i, j);
  }

  /** Only keys claiming or refused for budget are woken, no more than twice as many as slots freed, and
      all of them when that leaves room. */
  lemma WokenWaited(ws: seq<Waiter>, l: Lane, n: nat, room: nat)
    requires Picked(ws, l, n, room)
    ensures |Keys(ws)| <= 2 * n && |Keys(ws)| <= room
    ensures forall k :: k in Keys(ws) ==> k in l.first || (k in l.waiting && l.waiting[k].reason == Budget)
    ensures |Keys(ws)| < 2 * n && |Keys(ws)| < room ==>
              forall k :: k in l.first || (k in l.waiting && l.waiting[k].reason == Budget) ==> k in Keys(ws)
  {
    forall k | k in Keys(ws) ensures k in l.first || (k in l.waiting && l.waiting[k].reason == Budget) {
      var i :| 0 <= i < |ws| && Keys(ws)[i] == k;
      assert ws[i] in Waiters(l);
    }
    if |Keys(ws)| < 2 * n && |Keys(ws)| < room {
      DistinctCount(ws);
      WholeSet(Elements(ws), Waiters(l));
      forall k | k in l.first || (k in l.waiting && l.waiting[k].reason == Budget) ensures k in Keys(ws) {
        var w := if k in l.first then Waiter(k, true, l.first[k].since) else Waiter(k, false, l.waiting[k].at);
        assert w in Waiters(l);
        InKeys(ws, w);
      }
    }
  }

  /** A set with as many elements as a set it lies in is that set. */
  lemma {:induction false} WholeSet<T>(a: set<T>, b: set<T>)
    requires a <= b && |a| == |b|
    ensures a == b
  {
    assert |b - a| == |b| - |a|;
  }

  lemma KeyWoken(ws: seq<Waiter>, l: Lane, n: int, room: nat, i: nat, j: Key)
    requires Picked(ws, l, n, room) && i < |ws|
    ensures j in l.first && Ahead(Waiter(j, true, l.first[j].since), ws[i]) ==> j in Keys(ws)
    ensures Routine(l, j) && Ahead(Waiter(j, false, l.waiting[j].at), ws[i]) ==> j in Keys(ws)
  {
    if j in l.first { InKeys(ws, Waiter(j, true, l.first[j].since)); }
    if Routine(l, j) { InKeys(ws, Waiter(j, false, l.waiting[j].at)); }
  }

  lemma InKeys(ws: seq<Waiter>, w: Waiter)
    ensures w in ws ==> w.key in Keys(ws)
  {
    if w in ws {
      var i :| 0 <= i < |ws| && ws[i] == w;
      assert Keys(ws)[i] == w.key;
    }
  }

  // Gathering and sorting.

  function Elements(ws: seq<Waiter>): set<Waiter> { set w | w in ws }

  /** w is put after those at least as old. */
  function InsertByAge(w: Waiter, ws: seq<Waiter>): seq<Waiter> {
    if ws == [] || w.since < ws[0].since then [w] + ws else [ws[0]] + InsertByAge(w, ws[1..])
  }

  function SortByAge(ws: seq<Waiter>): seq<Waiter> {
    if ws == [] then [] else InsertByAge(ws[|ws| - 1], SortByAge(ws[..|ws| - 1]))
  }

  predicate ByAge(ws: seq<Waiter>) { forall i, j :: 0 <= i < j < |ws| ==> ws[i].since <= ws[j].since }

  lemma {:induction false} InsertByAgeKeeps(w: Waiter, ws: seq<Waiter>)
    ensures multiset(InsertByAge(w, ws)) == multiset(ws) + multiset{w}
  {
    if ws != [] && w.since >= ws[0].since {
      InsertByAgeKeeps(w, ws[1..]);
      assert ws == [ws[0]] + ws[1..];
    }
  }

  lemma {:induction false} InsertByAgeSorts(w: Waiter, ws: seq<Waiter>)
    requires ByAge(ws)
    ensures ByAge(InsertByAge(w, ws))
  {
    if ws != [] && w.since >= ws[0].since {
      InsertByAgeSorts(w, ws[1..]);
      InsertByAgeKeeps(w, ws[1..]);
      var out := InsertByAge(w, ws[1..]);
      forall k | 0 <= k < |out| ensures ws[0].since <= out[k].since {
        assert out[k] in multiset(out);
      }
    }
  }

  lemma {:induction false} SortByAgeSorts(ws: seq<Waiter>)
    ensures ByAge(SortByAge(ws)) && multiset(SortByAge(ws)) == multiset(ws)
  {
    if ws != [] {
      var init := ws[..|ws| - 1];
      SortByAgeSorts(init);
      InsertByAgeSorts(ws[|ws| - 1], SortByAge(init));
      InsertByAgeKeeps(ws[|ws| - 1], SortByAge(init));
      assert ws == init + [ws[|ws| - 1]];
    }
  }

  /** Every waiter of one class, once each. */
  predicate Lists(ws: seq<Waiter>, s: set<Waiter>) { Distinct(ws) && Elements(ws) == s }

  lemma SortedLists(ws: seq<Waiter>, s: set<Waiter>)
    requires Lists(ws, s)
    ensures Lists(SortByAge(ws), s) && ByAge(SortByAge(ws))
  {
    SortByAgeSorts(ws);
    var out := SortByAge(ws);
    forall w ensures w in out <==> w in ws {
      assert w in out <==> w in multiset(out);
      assert w in ws <==> w in multiset(ws);
    }
    DistinctOnce(ws);
    forall i, j | 0 <= i < j < |out| ensures out[i] != out[j] {
      if out[i] == out[j] {
        TwicePresent(out, i, j);
      }
    }
  }

  lemma TwicePresent(s: seq<Waiter>, i: nat, j: nat)
    requires i < j < |s| && s[i] == s[j]
    ensures multiset(s)[s[i]] >= 2
  {
    assert s == s[..j] + s[j..];
    assert s[i] in multiset(s[..j]) && s[j] in multiset(s[j..]);
  }

  lemma {:induction false} DistinctOnce(s: seq<Waiter>)
    requires Distinct(s)
    ensures forall w :: multiset(s)[w] <= 1
  {
    if s != [] {
      var init, x := s[..|s| - 1], s[|s| - 1];
      DistinctOnce(init);
      assert s == init + [x];
      assert x !in init && x !in multiset(init);
    }
  }

  lemma {:induction false} DistinctCount(s: seq<Waiter>)
    requires Distinct(s)
    ensures |Elements(s)| == |s|
  {
    if s != [] {
      var init, x := s[..|s| - 1], s[|s| - 1];
      DistinctCount(init);
      assert Elements(s) == Elements(init) + {x} && x !in Elements(init);
    }
  }

  /** The claims in order and then the rest in order; a prefix of them is what to wake. */
  lemma PrefixPicked(firsts: seq<Waiter>, routine: seq<Waiter>, l: Lane, n: int, room: nat)
    requires n > 0
    requires Lists(firsts, FirstWaiters(l)) && ByAge(firsts) && Lists(routine, RoutineWaiters(l)) && ByAge(routine)
    ensures |Waiters(l)| == |firsts + routine|
    ensures Picked((firsts + routine)[..Min(Min(2 * n, room), |firsts + routine|)], l, n, room)
  {
    var all := firsts + routine;
    forall i | 0 <= i < |all|
      ensures all[i] in Waiters(l) && all[i].first == (i < |firsts|)
    {
      if i < |firsts| { assert all[i] in Elements(firsts); } else { assert all[i] in Elements(routine); }
    }
    assert Distinct(all);
    assert InTurn(all);
    forall w ensures w in Elements(all) <==> w in Waiters(l) {
      assert w in firsts <==> w in Elements(firsts);
      assert w in routine <==> w in Elements(routine);
    }
    assert Elements(all) == Waiters(l);
    DistinctCount(all);
    PrefixInTurn(all, l, Min(Min(2 * n, room), |all|));
  }

  lemma InPrefix(s: seq<Waiter>, m: nat)
    requires m <= |s|
    ensures forall j :: 0 <= j < m ==> s[j] in s[..m]
  {
    forall j | 0 <= j < m ensures s[j] in s[..m] { assert s[..m][j] == s[j]; }
  }

  lemma PrefixInTurn(all: seq<Waiter>, l: Lane, m: nat)
    requires Distinct(all) && InTurn(all) && m <= |all| && Elements(all) == Waiters(l)
    ensures Distinct(all[..m]) && InTurn(all[..m])
    ensures forall i :: 0 <= i < m ==> all[..m][i] in Waiters(l)
    ensures forall w, i :: w in Waiters(l) && w !in all[..m] && 0 <= i < m ==> !Ahead(w, all[..m][i])
  {
    forall i | 0 <= i < m ensures all[..m][i] in Waiters(l) {
      assert all[i] in Elements(all);
    }
    InPrefix(all, m);
    forall w, i | w in Waiters(l) && w !in all[..m] && 0 <= i < m ensures !Ahead(w, all[..m][i]) {
      assert w in Elements(all);
      var j :| 0 <= j < |all| && all[j] == w;
    }
  }

  /** The waiters of each class, in the order the maps give them. */
  method Gather(l: Lane) returns (firsts: seq<Waiter>, routine: seq<Waiter>)
    ensures Lists(firsts, FirstWaiters(l)) && Lists(routine, RoutineWaiters(l))
  {
    firsts, routine := [], [];
    var todo := l.first.Keys;
    while todo != {}
      invariant todo <= l.first.Keys
      invariant Lists(firsts, set k | k in l.first.Keys - todo :: Waiter(k, true, l.first[k].since))
    {
      var k :| k in todo;
      var w := Waiter(k, true, l.first[k].since);
      assert w !in Elements(firsts);
      assert Elements(firsts + [w]) == Elements(firsts) + {w};
      firsts, todo := firsts + [w], todo - {k};
    }
    assert FirstWaiters(l) == set k | k in l.first.Keys - todo :: Waiter(k, true, l.first[k].since);
    todo := l.waiting.Keys;
    while todo != {}
      invariant todo <= l.waiting.Keys
      invariant Lists(routine, set k | k in l.waiting.Keys - todo && Routine(l, k) :: Waiter(k, false, l.waiting[k].at))
    {
      var k :| k in todo;
      todo := todo - {k};
      if k !in l.first && l.waiting[k].reason == Budget {
        var w := Waiter(k, false, l.waiting[k].at);
        assert w !in Elements(routine);
        assert Elements(routine + [w]) == Elements(routine) + {w};
        routine := routine + [w];
      }
    }
    assert RoutineWaiters(l) == set k | k in l.waiting.Keys - todo &&
           Routine(l, k) :: Waiter(k, false, l.waiting[k].at);
  }
}
