/** The delivery book: the nak and term advisories of each key, and the delivery block shown from it. */
module Deliveries {
  import opened Seqs
  import opened Clock
  import opened Options
  import opened Slots
  import opened Lanes

  type Byte = b: int | 0 <= b < 256

  type Text = seq<Byte>

  function Ascii(s: string): (t: Text)
    ensures |t| == |s|
  {
    seq(|s|, i requires 0 <= i < |s| => s[i] as int % 256)
  }

  datatype Phase = WaitingPhase | PublishedPhase | ClaimedPhase | RetryingPhase | DeadLetteredPhase

  datatype DeliveryState = DeliveryState(phase: Phase, reason: Text, message: Text, attempts: int,
                                         lastNakAt: Option<Time>, deadLetteredAt: Option<Time>)

  datatype Entry = Entry(seqNo: int, state: DeliveryState)

  type Entries = map<Key, Entry>

  // Recording advisories.

  datatype Advisory =
    | Nak(key: Key, seqNo: int, deliveries: int, at: Time, last: bool)
    | Term(key: Key, seqNo: int, at: Time)

  function LastTry(last: bool): Text {
    if last then Ascii("the next delivery is the last before the task is dead-lettered") else []
  }

  function Retry(a: Advisory): DeliveryState
    requires a.Nak?
  {
    DeliveryState(RetryingPhase, Ascii("Nak"), LastTry(a.last), a.deliveries, Some(a.at), None)
  }

  /** The dead-lettered state, carrying over what was recorded of the same dispatch. */
  function Dead(m: Entries, a: Advisory): DeliveryState
    requires a.Term?
  {
    var same := a.key in m && m[a.key].seqNo == a.seqNo;
    DeliveryState(DeadLetteredPhase, [], [], if same then m[a.key].state.attempts else 0,
                  if same then m[a.key].state.lastNakAt else None, Some(a.at))
  }

  function Record(m: Entries, a: Advisory): Entries {
    if a.key in m && m[a.key].seqNo > a.seqNo then m
    else if a.Term? then m[a.key := Entry(a.seqNo, Dead(m, a))]
    else if a.key in m && m[a.key].seqNo == a.seqNo && m[a.key].state.phase == DeadLetteredPhase then m
    else m[a.key := Entry(a.seqNo, Retry(a))]
  }

  function RecordAll(m: Entries, advisories: seq<Advisory>): Entries {
    if advisories == [] then m
    else Record(RecordAll(m, advisories[..|advisories| - 1]), advisories[|advisories| - 1])
  }

  /** The entries at or below seqNo of k dropped. */
  function Forgotten(m: Entries, k: Key, seqNo: int): Entries {
    if k in m && m[k].seqNo <= seqNo then m - {k} else m
  }

  function Found(m: Entries, k: Key, seqNo: int): Option<DeliveryState> {
    if k in m && m[k].seqNo == seqNo then Some(m[k].state) else None
  }

  class DeliveryBook {
    var m: Entries

    constructor ()
      ensures m == map[]
    {
      m := map[];
    }

    method Newer(k: Key, seqNo: int) returns (newer: bool)
      ensures newer <==> k in m && m[k].seqNo > seqNo
    {
      newer := k in m && m[k].seqNo > seqNo;
    }

    method Seen(k: Key, seqNo: int) returns (seen: bool)
      ensures seen <==> Found(m, k, seqNo).Some?
    {
      seen := k in m && m[k].seqNo == seqNo;
    }

    method Retrying(k: Key, seqNo: int, deliveries: int, at: Time, last: bool)
      modifies this
      ensures m == Record(old(m), Nak(k, seqNo, deliveries, at, last))
    {
      if k in m && m[k].seqNo > seqNo {
        return;
      }
      if k in m && m[k].seqNo == seqNo && m[k].state.phase == DeadLetteredPhase {
        return;
      }
      var st := DeliveryState(RetryingPhase, Ascii("Nak"), [], deliveries, Some(at), None);
      if last {
        st := st.(message := Ascii("the next delivery is the last before the task is dead-lettered"));
      }
      m := m[k := Entry(seqNo, st)];
    }

    method DeadLettered(k: Key, seqNo: int, at: Time)
      modifies this
      ensures m == Record(old(m), Term(k, seqNo, at))
    {
      if k in m && m[k].seqNo > seqNo {
        return;
      }
      var st := DeliveryState(DeadLetteredPhase, [], [], 0, None, Some(at));
      if k in m && m[k].seqNo == seqNo {
        st := st.(attempts := m[k].state.attempts, lastNakAt := m[k].state.lastNakAt);
      }
      m := m[k := Entry(seqNo, st)];
    }

    method Lookup(k: Key, seqNo: int) returns (st: Option<DeliveryState>)
      ensures st == Found(m, k, seqNo)
    {
      if k !in m || m[k].seqNo != seqNo {
        return None;
      }
      st := Some(m[k].state);
    }

    method Forget(k: Key, seqNo: int)
      modifies this
      ensures m == Forgotten(old(m), k, seqNo)
    {
      if k in m && m[k].seqNo <= seqNo {
        m := m - {k};
      }
    }
  }

  // What the book says of a key: the newest seq, and whether it is dead-lettered.

  datatype Rank = Rank(seqNo: int, dead: bool)

  /** A later dispatch, or the same one dead-lettered. */
  predicate Below(a: Rank, b: Rank) { a.seqNo < b.seqNo || (a.seqNo == b.seqNo && !a.dead && b.dead) }

  function RankOf(a: Advisory): Rank { Rank(a.seqNo, a.Term?) }

  function Says(m: Entries, k: Key): Option<Rank> {
    if k in m then Some(Rank(m[k].seqNo, m[k].state.phase == DeadLetteredPhase)) else None
  }

  /** Every advisory of k, in any number and order, leaves exactly the highest of their ranks. */
  lemma {:induction false} BookIsMaximum(advisories: seq<Advisory>, k: Key)
    ensures match Says(RecordAll(map[], advisories), k)
            case None => forall a <- advisories :: a.key != k
            case Some(r) => && (exists a :: a in advisories && a.key == k && RankOf(a) == r)
                            && (forall a :: a in advisories && a.key == k ==> !Below(r, RankOf(a)))
  {
    if advisories != [] {
      var init, a := advisories[..|advisories| - 1], advisories[|advisories| - 1];
      BookIsMaximum(init, k);
      assert advisories == init + [a];
      assert forall b :: b in advisories <==> b in init || b == a;
      RecordRaises(RecordAll(map[], init), a, k);
    }
  }

  /** One advisory raises its own key's rank to its own when that is higher, and no other key's. */
  lemma RecordRaises(m: Entries, a: Advisory, k: Key)
    ensures Says(Record(m, a), k) ==
              if k != a.key then Says(m, k)
              else if Says(m, k).Some? && !Below(Says(m, k).value, RankOf(a)) then Says(m, k)
              else Some(RankOf(a))
  {}

  /** Order and duplicates do not matter to what the book says. */
  lemma OrderIrrelevant(xs: seq<Advisory>, ys: seq<Advisory>, k: Key)
    requires forall a :: a in xs <==> a in ys
    ensures Says(RecordAll(map[], xs), k) == Says(RecordAll(map[], ys), k)
  {
    BookIsMaximum(xs, k);
    BookIsMaximum(ys, k);
  }

  /** Once dead-lettered at q, k stays so through every advisory at or below q. */
  lemma {:induction false} DeadLetteredStays(m: Entries, advisories: seq<Advisory>, k: Key, q: int)
    requires Says(m, k) == Some(Rank(q, true))
    requires forall a <- advisories :: a.key == k ==> a.seqNo <= q
    ensures Says(RecordAll(m, advisories), k) == Some(Rank(q, true))
  {
    if advisories != [] {
      DeadLetteredStays(m, advisories[..|advisories| - 1], k, q);
    }
  }

  // The attempts shown, which do depend on the order.

  predicate NakOf(a: Advisory, k: Key, q: int) { a.Nak? && a.key == k && a.seqNo == q }

  predicate TermOf(a: Advisory, k: Key, q: int) { a.Term? && a.key == k && a.seqNo == q }

  predicate Terminated(xs: seq<Advisory>, k: Key, q: int) { exists a :: a in xs && TermOf(a, k, q) }

  /** The deliveries of the last nak of the dispatch before its first term, 0 for none. */
  function Attempts(xs: seq<Advisory>, k: Key, q: int): int {
    if xs == [] then 0
    else
      var init, a := xs[..|xs| - 1], xs[|xs| - 1];
      if NakOf(a, k, q) && !Terminated(init, k, q) then a.deliveries else Attempts(init, k, q)
  }

  /** Nothing later than q is said of k, and something of q is. */
  predicate Newest(xs: seq<Advisory>, k: Key, q: int) {
    && (forall a <- xs :: a.key == k ==> a.seqNo <= q)
    && exists a :: a in xs && a.key == k && a.seqNo == q
  }

  /** The book holds k's dispatch at q exactly when q is the newest said of k. */
  lemma FoundNewest(xs: seq<Advisory>, k: Key, q: int)
    ensures Found(RecordAll(map[], xs), k, q).Some? <==> Newest(xs, k, q)
  {
    BookIsMaximum(xs, k);
    if Newest(xs, k, q) {
      var a :| a in xs && a.key == k && a.seqNo == q;
      var r := Says(RecordAll(map[], xs), k).value;
      assert !Below(r, RankOf(a));
    }
  }

  lemma SnocSaid(init: seq<Advisory>, a: Advisory, k: Key, q: int)
    ensures Terminated(init + [a], k, q) <==> Terminated(init, k, q) || TermOf(a, k, q)
    ensures Attempts(init + [a], k, q) ==
              if NakOf(a, k, q) && !Terminated(init, k, q) then a.deliveries else Attempts(init, k, q)
  {
    assert (init + [a])[..|init|] == init;
    assert forall b :: b in init + [a] <==> b in init || b == a;
  }

  /** With nothing later than q, the entry at q, if there is one, is dead-lettered once terminated and
      shows those attempts; and with none nothing was said of q. */
  lemma {:induction false} AttemptsKept(xs: seq<Advisory>, k: Key, q: int)
    requires forall a <- xs :: a.key == k ==> a.seqNo <= q
    ensures match Found(RecordAll(map[], xs), k, q)
            case Some(st) =>
              st.attempts == Attempts(xs, k, q) && (st.phase == DeadLetteredPhase <==> Terminated(xs, k, q))
            case None => Attempts(xs, k, q) == 0 && !Terminated(xs, k, q)
    ensures k in RecordAll(map[], xs) ==> RecordAll(map[], xs)[k].seqNo <= q
  {
    hide Terminated, Attempts;
    if xs == [] {
      NothingSaid(k, q);
    } else {
      var init, a := xs[..|xs| - 1], xs[|xs| - 1];
      assert xs == init + [a];
      AttemptsKept(init, k, q);
      SnocSaid(init, a, k, q);
    }
  }

  lemma NothingSaid(k: Key, q: int)
    ensures Attempts([], k, q) == 0 && !Terminated([], k, q)
  {}

  /** Whatever the advisories, the attempts shown of a dispatch are the deliveries of its last nak before
      its first term, or 0. */
  lemma AttemptsAre(xs: seq<Advisory>, k: Key, q: int)
    requires Found(RecordAll(map[], xs), k, q).Some?
    ensures Found(RecordAll(map[], xs), k, q).value.attempts == Attempts(xs, k, q)
  {
    hide RecordAll, Attempts;
    FoundNewest(xs, k, q);
    AttemptsKept(xs, k, q);
  }

  // The rest of what is kept of a dispatch.

  /** The nak whose deliveries are its attempts. */
  function CountedNak(xs: seq<Advisory>, k: Key, q: int): Option<Advisory> {
    if xs == [] then None
    else
      var init, a := xs[..|xs| - 1], xs[|xs| - 1];
      if NakOf(a, k, q) && !Terminated(init, k, q) then Some(a) else CountedNak(init, k, q)
  }

  /** When its last term came. */
  function LastTerm(xs: seq<Advisory>, k: Key, q: int): Option<Time> {
    if xs == [] then None
    else
      var init, a := xs[..|xs| - 1], xs[|xs| - 1];
      if TermOf(a, k, q) then Some(a.at) else LastTerm(init, k, q)
  }

  /** What the book keeps of its newest dispatch: when it was last naked before any term, and when last
      terminated; the reason and, of its last try, the message of a nak until a term clears them. */
  predicate KeptOf(st: DeliveryState, nak: Option<Advisory>, term: Option<Time>) {
    && (nak.Some? ==> nak.value.Nak?)
    && st.lastNakAt == (if nak.Some? then Some(nak.value.at) else None)
    && st.deadLetteredAt == term
    && (if term.Some? then st.phase == DeadLetteredPhase && st.reason == [] && st.message == []
        else
          && st.phase == RetryingPhase && st.reason == Ascii("Nak") && nak.Some?
          && (nak.value.last ==> st.message == Ascii("the next delivery is the last before the task is dead-lettered"))
          && (!nak.value.last ==> st.message == []))
  }

  /** With nothing later than q recorded of k, what is recorded of q is that. */
  predicate EntryAt(m: Entries, k: Key, q: int, nak: Option<Advisory>, term: Option<Time>) {
    && (k in m ==> m[k].seqNo <= q)
    && match Found(m, k, q)
       case Some(st) => KeptOf(st, nak, term)
       case None => nak.None? && term.None?
  }

  lemma EntryStep(m: Entries, a: Advisory, k: Key, q: int, nak: Option<Advisory>, term: Option<Time>)
    requires EntryAt(m, k, q, nak, term) && (a.key == k ==> a.seqNo <= q)
    ensures EntryAt(Record(m, a), k, q, if NakOf(a, k, q) && term.None? then Some(a) else nak,
                    if TermOf(a, k, q) then Some(a.at) else term)
  {
    hide Ascii;
  }

  lemma KeptSnoc(init: seq<Advisory>, a: Advisory, k: Key, q: int)
    ensures CountedNak(init + [a], k, q) ==
              if NakOf(a, k, q) && !Terminated(init, k, q) then Some(a) else CountedNak(init, k, q)
    ensures LastTerm(init + [a], k, q) == if TermOf(a, k, q) then Some(a.at) else LastTerm(init, k, q)
  {
    assert (init + [a])[..|init|] == init;
  }

  lemma {:induction false} EntryKept(xs: seq<Advisory>, k: Key, q: int)
    requires forall a <- xs :: a.key == k ==> a.seqNo <= q
    ensures EntryAt(RecordAll(map[], xs), k, q, CountedNak(xs, k, q), LastTerm(xs, k, q))
    ensures LastTerm(xs, k, q).Some? <==> Terminated(xs, k, q)
  {
    hide KeptOf, Terminated, Record, CountedNak, LastTerm, EntryAt;
    if xs == [] {
      NothingKept(k, q);
    } else {
      var init, a := xs[..|xs| - 1], xs[|xs| - 1];
      assert xs == init + [a];
      EntryKept(init, k, q);
      SnocSaid(init, a, k, q);
      KeptSnoc(init, a, k, q);
      EntryStep(RecordAll(map[], init), a, k, q, CountedNak(init, k, q), LastTerm(init, k, q));
    }
  }

  lemma NothingKept(k: Key, q: int)
    ensures EntryAt(map[], k, q, CountedNak([], k, q), LastTerm([], k, q))
    ensures LastTerm([], k, q).None? && !Terminated([], k, q)
  {}

  /** Whatever the advisories, these times are those of a nak and a term that came. */
  lemma EntryIs(xs: seq<Advisory>, k: Key, q: int)
    requires Found(RecordAll(map[], xs), k, q).Some?
    ensures KeptOf(Found(RecordAll(map[], xs), k, q).value, CountedNak(xs, k, q), LastTerm(xs, k, q))
  {
    hide RecordAll, CountedNak, LastTerm, KeptOf;
    FoundNewest(xs, k, q);
    EntryKept(xs, k, q);
  }

  /** The nak is the one counted, and the term the last. */
  lemma {:induction false} KeptCounted(xs: seq<Advisory>, k: Key, q: int)
    ensures forall i: nat :: Counted(xs, k, q, i) ==> CountedNak(xs, k, q) == Some(xs[i])
    ensures (forall i: nat :: !Counted(xs, k, q, i)) ==> CountedNak(xs, k, q) == None
    ensures match LastTerm(xs, k, q)
            case None => forall i :: 0 <= i < |xs| ==> !TermOf(xs[i], k, q)
            case Some(at) => exists i :: 0 <= i < |xs| && TermOf(xs[i], k, q) && xs[i].at == at
                                         && forall j :: i < j < |xs| ==> !TermOf(xs[j], k, q)
  {
    if xs != [] {
      var init, a := xs[..|xs| - 1], xs[|xs| - 1];
      assert xs == init + [a];
      KeptCounted(init, k, q);
      SnocCounted(init, a, k, q);
      assert forall i :: 0 <= i < |init| ==> xs[i] == init[i];
      if NakOf(a, k, q) && !Terminated(init, k, q) { assert Counted(xs, k, q, |init|); }
      if TermOf(a, k, q) { assert TermOf(xs[|init|], k, q); }
    }
  }

  /** Position i is the last nak before the first term. */
  ghost predicate Counted(xs: seq<Advisory>, k: Key, q: int, i: nat) {
    && i < |xs| && NakOf(xs[i], k, q) && (forall j :: 0 <= j < i ==> !TermOf(xs[j], k, q))
    && forall j :: i < j < |xs| && NakOf(xs[j], k, q) ==> exists l :: i < l < j && TermOf(xs[l], k, q)
  }

  lemma {:induction false} AttemptsCounted(xs: seq<Advisory>, k: Key, q: int)
    ensures forall i: nat :: Counted(xs, k, q, i) ==> Attempts(xs, k, q) == xs[i].deliveries
    ensures (forall i: nat :: !Counted(xs, k, q, i)) ==> Attempts(xs, k, q) == 0
  {
    if xs != [] {
      var init, a := xs[..|xs| - 1], xs[|xs| - 1];
      assert xs == init + [a];
      AttemptsCounted(init, k, q);
      SnocSaid(init, a, k, q);
      SnocCounted(init, a, k, q);
      if NakOf(a, k, q) && !Terminated(init, k, q) { assert Counted(xs, k, q, |init|); }
    }
  }

  lemma SnocCounted(init: seq<Advisory>, a: Advisory, k: Key, q: int)
    ensures forall i: nat :: Counted(init + [a], k, q, i) <==>
              if NakOf(a, k, q) && !Terminated(init, k, q) then i == |init| else Counted(init, k, q, i)
  {
    var xs := init + [a];
    assert xs[|init|] == a && forall j :: 0 <= j < |init| ==> xs[j] == init[j];
    if Terminated(init, k, q) {
      var t: nat :| t < |init| && TermOf(init[t], k, q);
      forall i: nat ensures Counted(xs, k, q, i) <==> Counted(init, k, q, i) {
        TermAfter(init, a, k, q, i, t);
      }
    } else {
      assert forall j :: 0 <= j < |init| ==> init[j] in init;
    }
  }

  lemma TermAfter(init: seq<Advisory>, a: Advisory, k: Key, q: int, i: nat, t: nat)
    requires t < |init| && TermOf(init[t], k, q)
    ensures Counted(init + [a], k, q, i) <==> Counted(init, k, q, i)
  {
    var xs := init + [a];
    assert xs[|init|] == a && forall j :: 0 <= j < |init| ==> xs[j] == init[j];
    if i < |init| && Counted(init, k, q, i) {
      assert t > i;
      forall j | i < j < |xs| && NakOf(xs[j], k, q) ensures exists l :: i < l < j && TermOf(xs[l], k, q) {
        if j == |init| {
          assert TermOf(xs[t], k, q);
        } else {
          var l :| i < l < j && TermOf(init[l], k, q);
          assert TermOf(xs[l], k, q);
        }
      }
    }
    if Counted(xs, k, q, i) && i < |init| {
      forall j | i < j < |init| && NakOf(init[j], k, q) ensures exists l :: i < l < j && TermOf(init[l], k, q) {
        assert NakOf(xs[j], k, q);
        var l :| i < l < j && TermOf(xs[l], k, q);
        assert TermOf(init[l], k, q);
      }
    }
  }

  /** The attempts shown of a dispatch, 0 when the book does not hold it. */
  function AttemptsShown(xs: seq<Advisory>, k: Key, q: int): int {
    match Found(RecordAll(map[], xs), k, q) case Some(st) => st.attempts case None => 0
  }

  /** Every order of the advisories shows the same attempts. */
  ghost predicate OrderFree(xs: seq<Advisory>, k: Key, q: int) {
    forall ys: seq<Advisory> :: multiset(ys) == multiset(xs) ==> AttemptsShown(ys, k, q) == AttemptsShown(xs, k, q)
  }

  /** No nak counts deliveries, or there is no term and all naks count the same. */
  predicate NaksAgree(xs: seq<Advisory>, k: Key, q: int) {
    || (forall a :: a in xs && NakOf(a, k, q) ==> a.deliveries == 0)
    || (!Terminated(xs, k, q) && forall a, b :: a in xs && b in xs && NakOf(a, k, q) && NakOf(b, k, q) ==>
          a.deliveries == b.deliveries)
  }

  /** The order does not matter to the attempts shown exactly when no nak of the dispatch counts deliveries,
      or none is terminated and they all count the same. */
  lemma AttemptsOrderFree(xs: seq<Advisory>, k: Key, q: int)
    requires Newest(xs, k, q)
    ensures OrderFree(xs, k, q) <==> NaksAgree(xs, k, q)
  {
    hide AttemptsShown, Attempts, NakOf, TermOf;
    if NaksAgree(xs, k, q) {
      forall ys: seq<Advisory> | multiset(ys) == multiset(xs)
        ensures AttemptsShown(ys, k, q) == AttemptsShown(xs, k, q)
      {
        SameAdvisories(xs, ys, k, q);
        AgreedAttempts(xs, ys, k, q);
      }
    } else {
      var ys, zs := Orders(xs, k, q);
    }
  }

  /** Two sequences of the same advisories show the attempts of the same dispatches. */
  lemma SameAdvisories(xs: seq<Advisory>, ys: seq<Advisory>, k: Key, q: int)
    requires Newest(xs, k, q) && multiset(ys) == multiset(xs)
    ensures forall a :: a in xs <==> a in ys
    ensures AttemptsShown(xs, k, q) == Attempts(xs, k, q) && AttemptsShown(ys, k, q) == Attempts(ys, k, q)
  {
    forall a ensures a in xs <==> a in ys {
      assert a in multiset(xs) <==> a in multiset(ys);
    }
    hide RecordAll, Attempts, Found;
    FoundNewest(xs, k, q);
    FoundNewest(ys, k, q);
    AttemptsAre(xs, k, q);
    AttemptsAre(ys, k, q);
  }

  lemma {:induction false} AttemptsOfNak(xs: seq<Advisory>, k: Key, q: int)
    ensures (exists a :: a in xs && NakOf(a, k, q) && a.deliveries == Attempts(xs, k, q)) || Attempts(xs, k, q) == 0
    ensures !Terminated(xs, k, q) && (exists a :: a in xs && NakOf(a, k, q)) ==>
              exists a :: a in xs && NakOf(a, k, q) && a.deliveries == Attempts(xs, k, q)
  {
    if xs != [] {
      var init, a := xs[..|xs| - 1], xs[|xs| - 1];
      assert xs == init + [a];
      AttemptsOfNak(init, k, q);
      SnocSaid(init, a, k, q);
      assert forall b :: b in xs <==> b in init || b == a;
    }
  }

  lemma AgreedAttempts(xs: seq<Advisory>, ys: seq<Advisory>, k: Key, q: int)
    requires NaksAgree(xs, k, q) && forall a :: a in xs <==> a in ys
    ensures Attempts(xs, k, q) == Attempts(ys, k, q)
  {
    hide Attempts;
    AttemptsOfNak(xs, k, q);
    AttemptsOfNak(ys, k, q);
  }

  /** Otherwise two orders disagree: a counted nak before and after the term, or two naks each last. */
  lemma Orders(xs: seq<Advisory>, k: Key, q: int) returns (ys: seq<Advisory>, zs: seq<Advisory>)
    requires Newest(xs, k, q) && !NaksAgree(xs, k, q)
    ensures multiset(ys) == multiset(zs) == multiset(xs)
    ensures AttemptsShown(ys, k, q) != AttemptsShown(zs, k, q)
  {
    hide AttemptsShown, Attempts, Newest, Terminated, NakOf, TermOf;
    if Terminated(xs, k, q) {
      ys, zs := TermOrders(xs, k, q);
    } else {
      ys, zs := NakOrders(xs, k, q);
    }
    SameAdvisories(xs, ys, k, q);
    SameAdvisories(xs, zs, k, q);
  }

  lemma TermOrders(xs: seq<Advisory>, k: Key, q: int) returns (ys: seq<Advisory>, zs: seq<Advisory>)
    requires !NaksAgree(xs, k, q) && Terminated(xs, k, q)
    ensures multiset(ys) == multiset(xs) && multiset(zs) == multiset(xs)
    ensures Attempts(ys, k, q) != Attempts(zs, k, q)
  {
    hide Attempts;
    var x :| x in xs && NakOf(x, k, q) && x.deliveries != 0;
    var term :| term in xs && TermOf(term, k, q);
    var rest := Apart2(xs, x, term);
    FirstTwo(x, term, rest, k, q);
    ys, zs := [x, term] + rest, [term, x] + rest;
    assert multiset([x, term]) == multiset([term, x]) == multiset{x, term};
  }

  lemma NakOrders(xs: seq<Advisory>, k: Key, q: int) returns (ys: seq<Advisory>, zs: seq<Advisory>)
    requires !NaksAgree(xs, k, q) && !Terminated(xs, k, q)
    ensures multiset(ys) == multiset(xs) && multiset(zs) == multiset(xs)
    ensures Attempts(ys, k, q) != Attempts(zs, k, q)
  {
    hide Attempts;
    var y, z :| y in xs && z in xs && NakOf(y, k, q) && NakOf(z, k, q) && y.deliveries != z.deliveries;
    var rest := Apart2(xs, y, z);
    forall a | a in rest ensures a in xs {
      assert a in multiset(rest) + multiset{y, z};
    }
    LastTwo(y, z, rest, k, q);
    ys, zs := rest + [y, z], rest + [z, y];
    assert multiset([y, z]) == multiset([z, y]) == multiset{y, z};
  }

  /** The advisories but for two of them. */
  lemma Apart2(xs: seq<Advisory>, a: Advisory, b: Advisory) returns (rest: seq<Advisory>)
    requires a in xs && b in xs && a != b
    ensures multiset(rest) + multiset{a, b} == multiset(xs)
  {
    var less := TakeOne(xs, a);
    assert b in multiset(less) + multiset{a};
    rest := TakeOne(less, b);
  }

  /** Once terminated, what follows changes nothing. */
  lemma {:induction false} AfterTerm(head: seq<Advisory>, more: seq<Advisory>, k: Key, q: int)
    requires Terminated(head, k, q)
    ensures Attempts(head + more, k, q) == Attempts(head, k, q) && Terminated(head + more, k, q)
  {
    hide Attempts, Terminated;
    if more == [] {
      assert head + more == head;
    } else {
      var init, a := more[..|more| - 1], more[|more| - 1];
      AfterTerm(head, init, k, q);
      assert head + more == head + init + [a];
      SnocSaid(head + init, a, k, q);
    }
  }

  lemma FirstTwo(nak: Advisory, term: Advisory, rest: seq<Advisory>, k: Key, q: int)
    requires NakOf(nak, k, q) && TermOf(term, k, q)
    ensures Attempts([nak, term] + rest, k, q) == nak.deliveries && Attempts([term, nak] + rest, k, q) == 0
  {
    hide Attempts, Terminated;
    NothingSaid(k, q);
    SnocSaid([], nak, k, q);
    SnocSaid([], term, k, q);
    assert [] + [nak] == [nak] && [] + [term] == [term];
    SnocSaid([nak], term, k, q);
    SnocSaid([term], nak, k, q);
    assert [nak] + [term] == [nak, term] && [term] + [nak] == [term, nak];
    AfterTerm([nak, term], rest, k, q);
    AfterTerm([term, nak], rest, k, q);
  }

  lemma LastTwo(y: Advisory, z: Advisory, rest: seq<Advisory>, k: Key, q: int)
    requires NakOf(y, k, q) && NakOf(z, k, q) && !Terminated(rest, k, q)
    ensures Attempts(rest + [y, z], k, q) == z.deliveries && Attempts(rest + [z, y], k, q) == y.deliveries
  {
    hide Attempts, Terminated;
    SnocSaid(rest, y, k, q);
    SnocSaid(rest + [y], z, k, q);
    SnocSaid(rest, z, k, q);
    SnocSaid(rest + [z], y, k, q);
    assert rest + [y, z] == rest + [y] + [z] && rest + [z, y] == rest + [z] + [y];
  }

  /** The attempts shown do depend on the order: a nak that comes after the term it preceded is lost. */
  lemma AttemptsDependOnOrder(k: Key, q: int, n: int, at: Time, end: Time)
    requires n != 0
    ensures var nak, term := Nak(k, q, n, at, false), Term(k, q, end);
            && Found(RecordAll(map[], [nak, term]), k, q).Some? && Found(RecordAll(map[], [term, nak]), k, q).Some?
            && Found(RecordAll(map[], [nak, term]), k, q).value.attempts == n
            && Found(RecordAll(map[], [term, nak]), k, q).value.attempts == 0
  {
    var nak, term := Nak(k, q, n, at, false), Term(k, q, end);
    assert [nak, term][..1] == [nak] && [term, nak][..1] == [term] && [nak][..0] == [] && [term][..0] == [];
    assert RecordAll(map[], [nak]) == Record(map[], nak) && RecordAll(map[], [term]) == Record(map[], term);
  }

  /** Forget clears k down to and including seqNo, and nothing else. */
  lemma ForgetClears(m: Entries, k: Key, seqNo: int)
    ensures k in Forgotten(m, k, seqNo) ==> Forgotten(m, k, seqNo)[k].seqNo > seqNo
    ensures forall j :: j in m && (j != k || m[j].seqNo > seqNo) <==> j in Forgotten(m, k, seqNo)
    ensures forall j :: j in Forgotten(m, k, seqNo) ==> Forgotten(m, k, seqNo)[j] == m[j]
  {}

  // Clamping a text.

  const MAX_DESTINATION: nat := 253
  const MAX_REASON: nat := 64
  const MAX_MESSAGE: nat := 256

  /** The first byte of a rune in UTF-8. */
  predicate RuneStart(b: Byte) { !(128 <= b < 192) }

  /** A rune's bytes: its first, then continuation bytes. */
  predicate IsRune(r: Text) { r != [] && RuneStart(r[0]) && forall i :: 1 <= i < |r| ==> !RuneStart(r[i]) }

  function Join(runes: seq<Text>): Text { if runes == [] then [] else Join(runes[..|runes| - 1]) + runes[|runes| - 1] }

  /** Where a text of more than n bytes is cut: the last rune start at or before n. */
  predicate CutAt(s: Text, n: nat, p: nat) {
    && p <= n < |s| && (p == 0 || RuneStart(s[p])) && forall i :: p < i <= n ==> !RuneStart(s[i])
  }

  /** The last rune start at or before n. */
  function CutPoint(s: Text, n: nat): (p: nat)
    requires n < |s|
    ensures CutAt(s, n, p)
  {
    if n > 0 && !RuneStart(s[n]) then CutPoint(s, n - 1) else n
  }

  function Clamped(s: Text, most: nat): (c: Text)
    ensures |c| <= most && c <= s && (|s| <= most ==> c == s)
  {
    if |s| <= most then s else s[..CutPoint(s, most)]
  }

  method Clamp(s: Text, most: nat) returns (c: Text)
    ensures c == Clamped(s, most)
  {
    if |s| <= most {
      return s;
    }
    var n := most;
    while n > 0 && !RuneStart(s[n])
      invariant 0 <= n <= most && CutPoint(s, n) == CutPoint(s, most)
    {
      n := n - 1;
    }
    c := s[..n];
  }

  lemma {:induction false} JoinStarts(runes: seq<Text>, p: nat) returns (j: nat)
    requires (forall r <- runes :: IsRune(r)) && p < |Join(runes)| && RuneStart(Join(runes)[p])
    ensures j < |runes| && |Join(runes[..j])| == p && Join(runes)[..p] == Join(runes[..j])
    ensures |Join(runes[..j + 1])| == p + |runes[j]|
  {
    var init, r := runes[..|runes| - 1], runes[|runes| - 1];
    assert IsRune(r) && Join(runes) == Join(init) + r;
    if p < |Join(init)| {
      assert Join(runes)[p] == Join(init)[p];
      j := JoinStarts(init, p);
      assert runes[..j] == init[..j] && runes[..j + 1] == init[..j + 1];
      assert Join(runes)[..p] == Join(init)[..p];
    } else {
      assert Join(runes)[p] == r[p - |Join(init)|];
      assert p == |Join(init)|;
      j := |runes| - 1;
      assert Join(runes)[..p] == Join(init);
      assert runes[..j + 1] == runes;
    }
  }

  lemma {:induction false} JoinBoundary(runes: seq<Text>, j: nat)
    requires (forall r <- runes :: IsRune(r)) && j < |runes|
    ensures |Join(runes[..j])| < |Join(runes)| && RuneStart(Join(runes)[|Join(runes[..j])|])
    ensures |Join(runes[..j + 1])| == |Join(runes[..j])| + |runes[j]| <= |Join(runes)|
  {
    var init, r := runes[..|runes| - 1], runes[|runes| - 1];
    assert IsRune(r);
    if j == |runes| - 1 {
      assert runes[..j + 1] == runes;
      assert Join(runes)[|Join(init)|] == r[0];
    } else {
      JoinBoundary(init, j);
      assert runes[..j] == init[..j] && runes[..j + 1] == init[..j + 1];
    }
  }

  /** A text too long is cut to as many whole runes as fit: none is split, and the next would not fit. */
  lemma ClampWholeRunes(runes: seq<Text>, n: nat) returns (j: nat)
    requires (forall r <- runes :: IsRune(r)) && |Join(runes)| > n
    ensures j < |runes| && Clamped(Join(runes), n) == Join(runes[..j]) && |Join(runes[..j + 1])| > n
  {
    var p := CutPoint(Join(runes), n);
    if p == 0 { JoinBoundary(runes, 0); assert runes[..0] == []; }
    j := JoinStarts(runes, p);
    assert IsRune(runes[j]);
    if j + 1 < |runes| {
      JoinBoundary(runes, j + 1);
    } else {
      assert runes[..j + 1] == runes;
    }
  }

  // The delivery block.

  datatype Verdict = Admitted | Refused(reason: Text, message: Text)

  class Dispatch {
    var seqNo: int
    var answeredSeq: int
    var destination: Text
    var delivery: Option<DeliveryState>

    predicate InFlight()
      reads this
    {
      seqNo > answeredSeq
    }
  }

  function Bare(phase: Phase): DeliveryState { DeliveryState(phase, [], [], 0, None, None) }

  function Fitted(st: DeliveryState): DeliveryState {
    st.(reason := Clamped(st.reason, MAX_REASON), message := Clamped(st.message, MAX_MESSAGE))
  }

  /** The delivery to show of a dispatch at seqNo, in flight or not. */
  function Shown(was: Option<DeliveryState>, seqNo: int, inFlight: bool, dec: Option<Verdict>, m: Entries, k: Key)
    : Option<DeliveryState>
  {
    if dec.Some? && dec.value.Refused? then
      Some(Fitted(Bare(WaitingPhase).(reason := dec.value.reason, message := dec.value.message)))
    else if !inFlight then None
    else match Found(m, k, seqNo)
         case Some(st) => Some(Fitted(st))
         case None => if was.Some? && was.value.phase == ClaimedPhase then was else Some(Bare(PublishedPhase))
  }

  method Render(d: Dispatch?, destination: Text, dec: Option<Verdict>, book: DeliveryBook?, k: Key)
    modifies d
    ensures d != null ==>
              && d.seqNo == old(d.seqNo) && d.answeredSeq == old(d.answeredSeq)
              && d.destination == (if destination == [] then old(d.destination)
                else Clamped(destination, MAX_DESTINATION))
              && d.delivery == Shown(old(d.delivery), d.seqNo, d.InFlight(), dec, if book == null then map[]
                else old(book.m), k)
  {
    if d == null {
      return;
    }
    if destination != [] {
      d.destination := Clamp(destination, MAX_DESTINATION);
    }
    if dec.Some? && dec.value.Refused? {
      var reason := Clamp(dec.value.reason, MAX_REASON);
      var message := Clamp(dec.value.message, MAX_MESSAGE);
      d.delivery := Some(DeliveryState(WaitingPhase, reason, message, 0, None, None));
      return;
    }
    if !d.InFlight() {
      d.delivery := None;
      return;
    }
    if book != null {
      var st := book.Lookup(k, d.seqNo);
      if st.Some? {
        var reason := Clamp(st.value.reason, MAX_REASON);
        var message := Clamp(st.value.message, MAX_MESSAGE);
        d.delivery := Some(st.value.(reason := reason, message := message));
        return;
      }
    }
    if d.delivery.Some? && d.delivery.value.phase == ClaimedPhase {
      return;
    }
    d.delivery := Some(DeliveryState(PublishedPhase, [], [], 0, None, None));
  }

  /** Out of any advisories: a dispatch shows dead-lettered exactly when it is in flight, was not
      refused, and a term named its seq and no advisory a later one; retrying likewise for a nak and no term. */
  lemma ShownFromAdvisories(was: Option<DeliveryState>, q: int, inFlight: bool, dec: Option<Verdict>,
                            advisories: seq<Advisory>, k: Key, dead: bool)
    ensures var shown := Shown(was, q, inFlight, dec, RecordAll(map[], advisories), k);
            (shown.Some? && shown.value.phase == (if dead then DeadLetteredPhase else RetryingPhase)) <==>
              && inFlight && !(dec.Some? && dec.value.Refused?)
              && (exists a :: a in advisories && a.key == k && RankOf(a) == Rank(q, dead))
              && (forall a :: a in advisories && a.key == k ==> !Below(Rank(q, dead), RankOf(a)))
  {
    hide Clamped;
    BookIsMaximum(advisories, k);
    PhasesOf(advisories, k);
  }

  /** A text as it is shown: all of it if it fits, and else a part of its beginning that does. */
  predicate Fits(shown: Text, s: Text, most: nat) { shown <= s && |shown| <= most && (|s| <= most ==> shown == s) }

  /** What the book says of a dispatch in flight and not refused is shown as it stands, its texts fitted; a
      refusal is shown with its own texts fitted and nothing else. */
  lemma ShownFitted(was: Option<DeliveryState>, q: int, inFlight: bool, dec: Option<Verdict>, m: Entries, k: Key)
    ensures var shown := Shown(was, q, inFlight, dec, m, k);
            if dec.Some? && dec.value.Refused? then
              && shown.Some? && Fits(shown.value.reason, dec.value.reason, MAX_REASON)
              && Fits(shown.value.message, dec.value.message, MAX_MESSAGE)
              && shown.value.attempts == 0 && shown.value.lastNakAt.None? && shown.value.deadLetteredAt.None?
            else inFlight && k in m && m[k].seqNo == q ==>
              && shown.Some? && Fits(shown.value.reason, m[k].state.reason, MAX_REASON)
              && Fits(shown.value.message, m[k].state.message, MAX_MESSAGE)
              && shown.value.phase == m[k].state.phase && shown.value.attempts == m[k].state.attempts
              && shown.value.lastNakAt == m[k].state.lastNakAt
              && shown.value.deadLetteredAt == m[k].state.deadLetteredAt
  {
    hide Clamped;
  }

  /** What else a dispatch shows: waiting, with the reason and message clamped, exactly when it was refused;
      nothing exactly when it is answered and was not; and in flight with nothing recorded of its seq, claimed
      if it was claimed, as it was, and published if not. */
  lemma ShownOtherwise(was: Option<DeliveryState>, q: int, inFlight: bool, dec: Option<Verdict>,
                       advisories: seq<Advisory>, k: Key)
    ensures var shown := Shown(was, q, inFlight, dec, RecordAll(map[], advisories), k);
            var refused := dec.Some? && dec.value.Refused?;
            var quiet := inFlight && !refused && !Newest(advisories, k, q);
            var claimed := was.Some? && was.value.phase == ClaimedPhase;
            && (shown.Some? && shown.value.phase == WaitingPhase <==> refused)
            && (shown.None? <==> !refused && !inFlight)
            && (shown.Some? && shown.value.phase == ClaimedPhase <==> quiet && claimed)
            && (shown.Some? && shown.value.phase == PublishedPhase <==> quiet && !claimed)
            && (refused ==> shown.value.reason <= dec.value.reason && shown.value.message <= dec.value.message)
            && (quiet && claimed ==> shown == was)
  {
    hide Clamped, Newest;
    FoundNewest(advisories, k, q);
    PhasesOf(advisories, k);
  }

  /** An entry is retrying or dead-lettered. */
  lemma {:induction false} PhasesOf(advisories: seq<Advisory>, k: Key)
    ensures var m := RecordAll(map[], advisories);
            k in m ==> m[k].state.phase in {RetryingPhase, DeadLetteredPhase}
  {
    if advisories != [] { PhasesOf(advisories[..|advisories| - 1], k); }
  }
}
