/** A dispatch's place in the ledger: the slot, and the dispatches a reservation superseded. */
module Slots {
  import opened Clock
  import opened Options

  const RESERVATION_TTL: int := 60_000_000_000

  datatype SlotState = Reserved | Published

  /** expires None never lapses; prev is what comes back when a reservation lapses. */
  datatype Slot = Slot(seqNo: int, state: SlotState, expires: Option<Time>, prev: Option<Slot>, at: Time)

  predicate Expired(s: Slot, now: Time) { s.expires.Some? && now >= s.expires.value }

  /** What is left of a slot once everything past its expiry is dropped. */
  function LapseSlot(s: Slot, now: Time): Option<Slot> {
    if !Expired(s, now) then Some(s)
    else if s.prev.None? then None
    else LapseSlot(s.prev.value, now)
  }

  /** The slot and every dispatch under it, newest first. */
  function Stack(s: Slot): (c: seq<Slot>)
    ensures c != [] && c[0] == s
  {
    if s.prev.None? then [s] else [s] + Stack(s.prev.value)
  }

  function Bottom(s: Slot): Slot { if s.prev.None? then s else Bottom(s.prev.value) }

  /** What every ledger step keeps of a slot. */
  predicate Chain(s: Slot) {
    && (s.state == Reserved ==> s.expires == Some(s.at + RESERVATION_TTL))
    && (s.prev.Some? ==>
          && s.state == Reserved
          && s.prev.value.seqNo < s.seqNo && s.prev.value.at <= s.at
          && Chain(s.prev.value))
  }

  /** A chain is reservations with strictly falling seq, each lapsing no later than the one above it,
      over at most one published slot. */
  lemma {:induction false} ChainShape(s: Slot, i: nat, j: nat)
    requires Chain(s) && i < j < |Stack(s)|
    ensures Stack(s)[i].seqNo > Stack(s)[j].seqNo
    ensures Stack(s)[i].state == Reserved && Stack(s)[i].expires.Some?
    ensures Stack(s)[j].state == Reserved ==>
              Stack(s)[j].expires.Some? && Stack(s)[j].expires.value <= Stack(s)[i].expires.value
  {
    var p := s.prev.value;
    assert Stack(s) == [s] + Stack(p);
    if i > 0 {
      ChainShape(p, i - 1, j - 1);
    } else if j > 1 {
      ChainShape(p, 0, j - 1);
    }
  }

  lemma {:induction false} BottomIsLast(s: Slot)
    ensures Bottom(s) == Stack(s)[|Stack(s)| - 1]
  {
    if s.prev.Some? { BottomIsLast(s.prev.value); }
  }

  /** A lapse keeps the head, or uncovers the published dispatch at the bottom, or leaves nothing. */
  lemma {:induction false} LapseUncovers(s: Slot, now: Time)
    requires Chain(s)
    ensures LapseSlot(s, now) ==
              if !Expired(s, now) then Some(s)
              else if Bottom(s).state == Published && !Expired(Bottom(s), now) then Some(Bottom(s))
              else None
  {
    if Expired(s, now) && s.prev.Some? {
      LapseUncovers(s.prev.value, now);
    }
  }

  lemma {:induction false} LapseKeepsChain(s: Slot, now: Time)
    requires Chain(s) && LapseSlot(s, now).Some?
    ensures Chain(LapseSlot(s, now).value) && !Expired(LapseSlot(s, now).value, now)
    ensures Bottom(LapseSlot(s, now).value) == Bottom(s)
    ensures LapseSlot(s, now).value.seqNo <= s.seqNo && LapseSlot(s, now).value.at <= s.at
    ensures LapseSlot(s, now).value in Stack(s)
  {
    if Expired(s, now) {
      LapseKeepsChain(s.prev.value, now);
    }
  }

  /** A dispatch at seq q or later, published and never lapsing, is under the slot. */
  predicate Lasts(s: Slot, q: int) {
    Bottom(s).state == Published && Bottom(s).expires.None? && Bottom(s).seqNo >= q
  }

  lemma {:induction false} LastsUnderHead(s: Slot, q: int)
    requires Chain(s) && Lasts(s, q)
    ensures s.seqNo >= q
  {
    if s.prev.Some? { LastsUnderHead(s.prev.value, q); }
  }

  /** No lapse takes it. */
  lemma {:induction false} LastsThroughLapse(s: Slot, q: int, now: Time)
    requires Lasts(s, q)
    ensures LapseSlot(s, now).Some? && Lasts(LapseSlot(s, now).value, q)
  {
    if Expired(s, now) && s.prev.Some? {
      LastsThroughLapse(s.prev.value, q, now);
    }
  }

  /** A published dispatch at seq q or later is under the slot, not to lapse before `until`. */
  predicate LastsUntil(s: Slot, q: int, until: Time) {
    && Bottom(s).state == Published && Bottom(s).seqNo >= q
    && (Bottom(s).expires.Some? ==> until <= Bottom(s).expires.value)
  }

  /** It and every reservation over it are past their expiry. */
  predicate Over(s: Slot, now: Time) { Expired(s, now) && Expired(Bottom(s), now) }

  lemma {:induction false} BottomUnderHead(s: Slot)
    requires Chain(s)
    ensures Bottom(s).seqNo <= s.seqNo
  {
    if s.prev.Some? { BottomUnderHead(s.prev.value); }
  }

  /** A lapse takes it exactly when all of the slot is over. */
  lemma LastsUntilOver(s: Slot, q: int, until: Time, now: Time)
    requires Chain(s) && LastsUntil(s, q, until)
    ensures LapseSlot(s, now).None? <==> Over(s, now)
    ensures !Over(s, now) ==> LastsUntil(LapseSlot(s, now).value, q, until)
  {
    LapseUncovers(s, now);
    BottomOfBottom(s);
  }

  lemma {:induction false} BottomOfBottom(s: Slot)
    ensures Bottom(Bottom(s)) == Bottom(s)
  {
    if s.prev.Some? { BottomOfBottom(s.prev.value); }
  }

  /** The seqs at or below a that a chain holds: none exactly when its oldest is above a. */
  lemma {:induction false} NoneAtOrBelow(s: Slot, a: int)
    requires Chain(s)
    ensures (forall i :: 0 <= i < |Stack(s)| ==> Stack(s)[i].seqNo > a) <==> Bottom(s).seqNo > a
  {
    BottomIsLast(s);
    var c := Stack(s);
    if Bottom(s).seqNo > a {
      forall i | 0 <= i < |c| ensures c[i].seqNo > a {
        if i < |c| - 1 { ChainShape(s, i, |c| - 1); }
      }
    }
  }
}
