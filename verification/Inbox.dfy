/** The candidate inbox: what is parked, by owner and by message, and the settlements remembered. */
module Inboxes {
  import opened Seqs
  import opened Options

  datatype Outcome = Incorporated | Pended | Refused

  datatype OwnerKey = OwnerKey(kind: string, namespace: string, name: string)

  /** A parked candidate; id tells apart entries of one message parked twice. */
  datatype Entry = Entry(id: nat, msgID: string, owner: OwnerKey, at: int)

  datatype State = State(order: map<OwnerKey, seq<Entry>>, byID: map<string, Entry>,
                         settled: map<string, Outcome>, settledOrder: seq<string>, next: nat)

  const SETTLED_MAX: nat := 1024

  function Without(s: seq<Entry>, e: Entry): seq<Entry> {
    if s == [] then [] else if s[0] == e then Without(s[1..], e) else [s[0]] + Without(s[1..], e)
  }

  function ListOf(order: map<OwnerKey, seq<Entry>>, owner: OwnerKey): seq<Entry> {
    if owner in order then order[owner] else []
  }

  function Unlisted(order: map<OwnerKey, seq<Entry>>, e: Entry): map<OwnerKey, seq<Entry>> {
    var left := Without(ListOf(order, e.owner), e);
    if left == [] then order - {e.owner} else order[e.owner := left]
  }

  function Removed(s: State, e: Entry): State {
    s.(byID := s.byID - {e.msgID}, order := Unlisted(s.order, e))
  }

  function Superseded(s: State, msgID: string): State { if msgID in s.byID then Removed(s, s.byID[msgID]) else s }

  function Listed(s: State, e: Entry): State {
    s.(byID := s.byID[e.msgID := e], order := s.order[e.owner := ListOf(s.order, e.owner) + [e]], next := s.next + 1)
  }

  /** park: the entry held, unless the inbox is full. */
  function ParkedState(s: State, max: nat, owner: OwnerKey, msgID: string, at: int): (State, Option<Entry>) {
    var t := Superseded(s, msgID);
    if |t.byID| >= max then (t, None)
    else
      var e := Entry(s.next, msgID, owner, at);
      (Listed(t, e), Some(e))
  }

  /** The settlement remembered, the oldest forgotten past the bound. */
  function Remembered(s: State, msgID: string, o: Outcome): State {
    if msgID in s.settled then s.(settled := s.settled[msgID := o])
    else
      var ring := s.settledOrder + [msgID];
      if |ring| > SETTLED_MAX then s.(settled := (s.settled - {ring[0]})[msgID := o], settledOrder := ring[1..])
      else s.(settled := s.settled[msgID := o], settledOrder := ring)
  }

  /** Settle's locked half. */
  function SettledState(s: State, msgID: string, o: Outcome): State { Remembered(Superseded(s, msgID), msgID, o) }

  function DroppedState(s: State, e: Entry): State {
    if e.msgID in s.byID && s.byID[e.msgID] == e then Removed(s, e) else s
  }

  // What every step keeps.

  /** Parked in this order. */
  predicate InParkingOrder(es: seq<Entry>) { forall i, j :: 0 <= i < j < |es| ==> es[i].id < es[j].id }

  predicate Holds(s: State, e: Entry) { e.msgID in s.byID && s.byID[e.msgID] == e }

  /** An owner's list holds exactly its parked entries, once each, in the order they were parked. */
  ghost predicate ListAgrees(s: State, o: OwnerKey) {
    && InParkingOrder(ListOf(s.order, o)) && (o in s.order ==> s.order[o] != [])
    && forall e :: e in ListOf(s.order, o) <==> Holds(s, e) && e.owner == o
  }

  /** Each message's entry is its own, and no two share an id. */
  predicate Indexed(byID: map<string, Entry>, next: nat) {
    && (forall m :: m in byID ==> byID[m].msgID == m && byID[m].id < next)
    && (forall m, n :: m in byID && n in byID && byID[m].id == byID[n].id ==> m == n)
  }

  /** byID and order hold the same entries, each once. */
  ghost predicate Agree(s: State) { Indexed(s.byID, s.next) && forall o :: ListAgrees(s, o) }

  /** The settlements remembered, at most SETTLED_MAX of them, once each in the order they came. */
  predicate Ring(s: State) {
    && Distinct(s.settledOrder) && |s.settledOrder| <= SETTLED_MAX
    && s.settled.Keys == set m | m in s.settledOrder
  }

  ghost predicate Good(s: State, max: nat) { Agree(s) && Ring(s) && |s.byID| <= max }

  lemma {:induction false} WithoutKeeps(s: seq<Entry>, e: Entry)
    requires InParkingOrder(s)
    ensures InParkingOrder(Without(s, e)) && forall x :: x in Without(s, e) <==> x in s && x != e
  {
    if s != [] {
      WithoutKeeps(s[1..], e);
      assert forall x :: x in s <==> x == s[0] || x in s[1..];
      var rest := Without(s[1..], e);
      forall i | 0 <= i < |rest| ensures s[0].id < rest[i].id {
        assert rest[i] in rest;
      }
    }
  }

  lemma RemovedAgrees(s: State, e: Entry)
    requires Agree(s) && Holds(s, e)
    ensures Agree(Removed(s, e)) && |Removed(s, e).byID| == |s.byID| - 1
  {
    hide ListAgrees, Indexed, Unlisted;
    RemovedIndexed(s, e);
    forall o ensures ListAgrees(Removed(s, e), o) {
      RemovedList(s, e, o);
    }
  }

  lemma RemovedIndexed(s: State, e: Entry)
    requires Indexed(s.byID, s.next) && Holds(s, e)
    ensures Indexed(Removed(s, e).byID, s.next) && |Removed(s, e).byID| == |s.byID| - 1
  {
    FewerByOne(s.byID, e.msgID);
  }

  lemma RemovedList(s: State, e: Entry, o: OwnerKey)
    requires Indexed(s.byID, s.next) && ListAgrees(s, o) && Holds(s, e)
    ensures ListAgrees(Removed(s, e), o)
  {
    hide Without;
    WithoutKeeps(ListOf(s.order, o), e);
  }

  lemma FewerByOne(m: map<string, Entry>, k: string)
    requires k in m
    ensures |m - {k}| == |m| - 1
  {
    assert (m - {k}).Keys == m.Keys - {k};
  }

  lemma ListedAgrees(s: State, e: Entry)
    requires Agree(s) && e.msgID !in s.byID && e.id == s.next
    ensures Agree(Listed(s, e)) && |Listed(s, e).byID| == |s.byID| + 1
  {
    hide ListAgrees, Indexed, ListOf;
    ListedIndexed(s, e);
    forall o ensures ListAgrees(Listed(s, e), o) {
      ListedList(s, e, o);
    }
  }

  lemma ListedIndexed(s: State, e: Entry)
    requires Indexed(s.byID, s.next) && e.msgID !in s.byID && e.id == s.next
    ensures Indexed(Listed(s, e).byID, Listed(s, e).next) && |Listed(s, e).byID| == |s.byID| + 1
  {
    hide Indexed, ListOf;
    IndexedOneMore(s.byID, s.next, e);
  }

  lemma IndexedOneMore(byID: map<string, Entry>, next: nat, e: Entry)
    requires Indexed(byID, next) && e.msgID !in byID && e.id == next
    ensures Indexed(byID[e.msgID := e], next + 1) && |byID[e.msgID := e]| == |byID| + 1
  {
    assert byID[e.msgID := e].Keys == byID.Keys + {e.msgID};
  }

  lemma ListedList(s: State, e: Entry, o: OwnerKey)
    requires Indexed(s.byID, s.next) && ListAgrees(s, o) && e.msgID !in s.byID && e.id == s.next
    ensures ListAgrees(Listed(s, e), o)
  {
    var list := ListOf(s.order, o);
    forall i | 0 <= i < |list| ensures list[i].id < e.id {
      assert list[i] in list;
    }
  }

  lemma SupersededAgrees(s: State, msgID: string)
    requires Agree(s)
    ensures Agree(Superseded(s, msgID)) && msgID !in Superseded(s, msgID).byID
    ensures |Superseded(s, msgID).byID| == |s.byID| - if msgID in s.byID then 1 else 0
    ensures forall m :: m in s.byID && m != msgID ==> m in Superseded(s, msgID).byID
  {
    if msgID in s.byID { RemovedAgrees(s, s.byID[msgID]); }
  }

  /** A redelivery is never refused: superseding its own entry makes the room it needs. */
  lemma ParkGood(s: State, max: nat, owner: OwnerKey, msgID: string, at: int)
    requires Good(s, max) && max >= 1
    ensures Good(ParkedState(s, max, owner, msgID, at).0, max)
    ensures ParkedState(s, max, owner, msgID, at).1.None? <==> msgID !in s.byID && |s.byID| == max
  {
    hide Agree, Listed, Removed;
    SupersededAgrees(s, msgID);
    SameSettled(s, msgID);
    var t := Superseded(s, msgID);
    var e := Entry(s.next, msgID, owner, at);
    if |t.byID| < max { ListedAgrees(t, e); ListedSettled(t, e); }
  }

  lemma SameSettled(s: State, msgID: string)
    ensures var t := Superseded(s, msgID);
            t.settled == s.settled && t.settledOrder == s.settledOrder && t.next == s.next
  {}

  lemma ListedSettled(s: State, e: Entry)
    ensures Listed(s, e).settled == s.settled && Listed(s, e).settledOrder == s.settledOrder
  {}

  lemma RememberedRing(s: State, msgID: string, o: Outcome)
    requires Ring(s)
    ensures Ring(Remembered(s, msgID, o)) && Remembered(s, msgID, o).settled[msgID] == o
    ensures forall m :: m in Remembered(s, msgID, o).settled && m != msgID ==>
              m in s.settled && Remembered(s, msgID, o).settled[m] == s.settled[m]
  {
    hide Distinct;
    if msgID !in s.settled { PushRing(s.settledOrder, msgID); }
  }

  /** A settlement forgets nothing but, when new to a full ring, the oldest; it is the newest then, and
      otherwise keeps its place. */
  lemma RememberedExactly(s: State, msgID: string, o: Outcome)
    requires Ring(s)
    ensures var t := Remembered(s, msgID, o);
            var isNew, full := msgID !in s.settled, |s.settledOrder| == SETTLED_MAX;
            && (forall m :: m in t.settled <==>
                  m == msgID || (m in s.settled && !(isNew && full && m == s.settledOrder[0])))
            && (forall m :: m in t.settled ==> t.settled[m] == if m == msgID then o else s.settled[m])
            && |t.settledOrder| == |s.settledOrder| + (if isNew && !full then 1 else 0)
            && (isNew ==> t.settledOrder[|t.settledOrder| - 1] == msgID)
            && forall p :: 0 <= p < |s.settledOrder| && !(isNew && full && p == 0) ==>
                 t.settledOrder[p - if isNew && full then 1 else 0] == s.settledOrder[p]
  {}

  function SettledAll(s: State, os: seq<(string, Outcome)>): State
    decreases |os|
  {
    if os == [] then s else SettledAll(Remembered(s, os[0].0, os[0].1), os[1..])
  }

  /** A settlement is remembered while those since, with it, are no more than the ring holds. */
  lemma {:induction false} SettlementLasts(s: State, os: seq<(string, Outcome)>, p: nat)
    requires Ring(s) && p < |s.settledOrder| && |s.settledOrder| - p + |os| <= SETTLED_MAX
    ensures s.settledOrder[p] in SettledAll(s, os).settled
    decreases |os|
  {
    hide Ring, Remembered;
    RingHas(s, p);
    if os != [] {
      var msgID, o := os[0].0, os[0].1;
      RememberedExactly(s, msgID, o);
      RememberedRing(s, msgID, o);
      var full := msgID !in s.settled && |s.settledOrder| == SETTLED_MAX;
      SettlementLasts(Remembered(s, msgID, o), os[1..], if full then p - 1 else p);
    }
  }

  lemma RingHas(s: State, p: nat)
    requires Ring(s) && p < |s.settledOrder|
    ensures s.settledOrder[p] in s.settled && |s.settledOrder| <= SETTLED_MAX
  {
    assert s.settledOrder[p] in s.settledOrder;
  }

  lemma PushRing(order: seq<string>, msgID: string)
    requires Distinct(order) && msgID !in order
    ensures var ring := order + [msgID];
            && Distinct(ring) && Distinct(ring[1..])
            && (set m | m in ring) == (set m | m in order) + {msgID}
            && (order != [] ==> ring[0] != msgID && (set m | m in ring[1..]) == (set m | m in ring) - {ring[0]})
  {
    var ring := order + [msgID];
    assert Distinct(ring);
    if order != [] {
      assert ring[0] == order[0];
      assert ring == [ring[0]] + ring[1..];
      assert ring[0] !in ring[1..];
    }
  }

  /** A settlement takes its message out and is remembered, and the rest stays parked. */
  lemma SettleGood(s: State, max: nat, msgID: string, o: Outcome)
    requires Good(s, max)
    ensures Good(SettledState(s, msgID, o), max) && SettledState(s, msgID, o).settled[msgID] == o
    ensures msgID !in SettledState(s, msgID, o).byID
  {
    hide Removed, Indexed, ListAgrees, Ring, Remembered;
    SupersededAgrees(s, msgID);
    SameSettled(s, msgID);
    SameRing(s, Superseded(s, msgID));
    RememberedRing(Superseded(s, msgID), msgID, o);
    SameParked(Superseded(s, msgID), msgID, o);
  }

  lemma SameRing(s: State, t: State)
    requires Ring(s) && t.settled == s.settled && t.settledOrder == s.settledOrder
    ensures Ring(t)
  {}

  lemma SameParked(s: State, msgID: string, o: Outcome)
    requires Agree(s)
    ensures var t := Remembered(s, msgID, o);
            t.byID == s.byID && t.order == s.order && t.next == s.next && Agree(t)
  {
    var t := Remembered(s, msgID, o);
    forall x ensures ListAgrees(t, x) {
      assert ListAgrees(s, x);
    }
  }

  lemma DropGood(s: State, max: nat, e: Entry)
    requires Good(s, max)
    ensures Good(DroppedState(s, e), max) && !Holds(DroppedState(s, e), e)
  {
    if Holds(s, e) {
      RemovedAgrees(s, e);
      assert Ring(Removed(s, e));
    }
  }

  class Inbox {
    const max: nat
    var order: map<OwnerKey, seq<Entry>>
    var byID: map<string, Entry>
    var settled: map<string, Outcome>
    var settledOrder: seq<string>
    var next: nat

    function S(): State
      reads this
    {
      State(order, byID, settled, settledOrder, next)
    }

    ghost predicate Valid()
      reads this
    {
      max >= 1 && Good(S(), max)
    }

    constructor (limit: int)
      ensures Valid() && max == (if limit < 1 then 1 else limit) && S() == State(map[], map[], map[], [], 0)
    {
      max := if limit < 1 then 1 else limit;
      order, byID, settled, settledOrder, next := map[], map[], map[], [], 0;
    }

    /** Take: the owner's parked candidates, oldest first; they stay parked. */
    method Take(owner: OwnerKey) returns (out: seq<Entry>)
      requires Valid()
      ensures InParkingOrder(out) && forall e :: e in out <==> Holds(S(), e) && e.owner == owner
    {
      var ps := ListOf(order, owner);
      out := [];
      for i := 0 to |ps|
        invariant out == ps[..i]
      {
        out := out + [ps[i]];
      }
      assert ListAgrees(S(), owner);
    }

    method RemoveLocked(e: Entry)
      modifies `order, `byID
      ensures S() == Removed(old(S()), e)
    {
      byID := byID - {e.msgID};
      var left := Without(ListOf(order, e.owner), e);
      if |left| == 0 {
        order := order - {e.owner};
      } else {
        order := order[e.owner := left];
      }
    }

    /** Settle's locked half: waiter is the entry whose handler is then sent the outcome. */
    method SettleLocked(msgID: string, o: Outcome) returns (waiter: Option<Entry>)
      requires Valid()
      modifies this
      ensures Valid() && S() == SettledState(old(S()), msgID, o)
      ensures waiter == if msgID in old(byID) then Some(old(byID)[msgID]) else None
    {
      hide Good, Removed;
      SettleGood(S(), max, msgID, o);
      waiter := None;
      if msgID in byID {
        waiter := Some(byID[msgID]);
        RemoveLocked(byID[msgID]);
      }
      Remember(msgID, o);
    }

    method Remember(msgID: string, o: Outcome)
      modifies `settled, `settledOrder
      ensures S() == Remembered(old(S()), msgID, o)
    {
      if msgID !in settled {
        settledOrder := settledOrder + [msgID];
        if |settledOrder| > SETTLED_MAX {
          settled := settled - {settledOrder[0]};
          settledOrder := settledOrder[1..];
        }
      }
      settled := settled[msgID := o];
    }

    /** park: closed is the superseded entry, whose handler is released. */
    method Park(owner: OwnerKey, msgID: string, at: int) returns (e: Option<Entry>, closed: Option<Entry>)
      requires Valid()
      modifies this
      ensures Valid() && (S(), e) == ParkedState(old(S()), max, owner, msgID, at)
      ensures closed == if msgID in old(byID) then Some(old(byID)[msgID]) else None
    {
      hide Good, Removed;
      ParkGood(S(), max, owner, msgID, at);
      closed := None;
      if msgID in byID {
        closed := Some(byID[msgID]);
        RemoveLocked(byID[msgID]);
      }
      if |byID| >= max {
        return None, closed;
      }
      var p := Entry(next, msgID, owner, at);
      byID := byID[msgID := p];
      order := order[owner := ListOf(order, owner) + [p]];
      next := next + 1;
      e := Some(p);
    }

    /** drop: e's handler gave up. */
    method Drop(e: Entry)
      requires Valid()
      modifies this
      ensures Valid() && S() == DroppedState(old(S()), e)
    {
      hide Good, Removed;
      DropGood(S(), max, e);
      if e.msgID in byID && byID[e.msgID] == e {
        RemoveLocked(e);
      }
    }
  }
}
