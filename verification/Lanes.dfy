/** One durable's share of the dispatch ledger, and what each operation makes of it. */
module Lanes {
  import opened Clock
  import opened Options
  import opened Slots

  /** A dispatching CR, and the sub of a CR with several dispatches. */
  datatype Key = Key(kind: string, namespace: string, name: string, sub: string)

  datatype Reason = Rebuilding | Budget | NoAgent | NoCapableAgent | EngineNotReady | Paced

  datatype Waiting = Waiting(reason: Reason, at: Time)

  /** A key refused by AdmitFirst: its place, and when it last asked. */
  datatype Claim = Claim(since: Time, seen: Time)

  type Book = map<Key, Slot>

  datatype Lane = Lane(book: Book, waiting: map<Key, Waiting>, first: map<Key, Claim>)

  datatype ConsumerSpec = ConsumerSpec(maxAckPending: int, ackWait: int, maxDeliver: int)

  datatype Decision = Admitted | Refused(reason: Reason)

  const WAITING_TTL: int := 300_000_000_000
  const FIRST_TTL: int := 120_000_000_000
  const AUDIT_AGE: int := 1_200_000_000_000
  const DEFAULT_ACK_WAIT: int := 30_000_000_000

  function Max(a: int, b: int): int { if a >= b then a else b }

  function BudgetOf(c: ConsumerSpec): nat { 2 * Max(c.maxAckPending, 1) }

  /** How long a published dispatch of a durable that cannot be rebuilt is remembered. */
  function LapseAfter(c: ConsumerSpec): int {
    (if c.ackWait <= 0 then DEFAULT_ACK_WAIT else c.ackWait) * Max(c.maxDeliver, 1)
  }

  function LapsedBook(book: Book, now: Time): Book {
    map k | k in book && LapseSlot(book[k], now).Some? :: LapseSlot(book[k], now).value
  }

  function Lapsed(l: Lane, now: Time): Lane { l.(book := LapsedBook(l.book, now)) }

  function FreshWaiting(w: map<Key, Waiting>, now: Time): map<Key, Waiting> {
    map k | k in w && now - w[k].at < WAITING_TTL :: w[k]
  }

  function LiveClaims(first: map<Key, Claim>, now: Time): map<Key, Claim> {
    map k | k in first && now - first[k].seen < FIRST_TTL :: first[k]
  }

  /** The entries of a map other than k's. */
  function Others<V>(m: map<Key, V>, k: Key): nat { |m.Keys - {k}| }

  function Marked(first: map<Key, Claim>, k: Key, now: Time): map<Key, Claim> {
    first[k := Claim(if k in first then first[k].since else now, now)]
  }

  function Prev(book: Book, k: Key): Option<Slot> { if k in book then Some(book[k]) else None }

  function Reserve(book: Book, k: Key, seqNo: int, now: Time): Book {
    book[k := Slot(seqNo, Reserved, Some(now + RESERVATION_TTL), Prev(book, k), now)]
  }

  /** The slots left to k under the budget: routine dispatches leave one per live claim of another key. */
  function Limit(l: Lane, c: ConsumerSpec, k: Key, first: bool, now: Time): int {
    BudgetOf(c) - if first then 0 else Others(LiveClaims(l.first, now), k)
  }

  function AdmitLane(l: Lane, rebuilt: bool, spec: Option<ConsumerSpec>, k: Key, seqNo: int, first: bool,
                     unattended: bool, now: Time): (Lane, Decision)
  {
    if !rebuilt then (l, Refused(Rebuilding))
    else if spec.None? then (l, Refused(Budget))
    else DecideLane(Lapsed(l, now), spec.value, k, seqNo, first, unattended, now)
  }

  /** k already holds a dispatch at least as new. */
  predicate HoldsAt(book: Book, k: Key, seqNo: int) { k in book && book[k].seqNo >= seqNo }

  /** Admission once everything expired has lapsed. */
  function DecideLane(l: Lane, c: ConsumerSpec, k: Key, seqNo: int, first: bool, unattended: bool, now: Time)
    : (Lane, Decision)
  {
    if HoldsAt(l.book, k, seqNo) then (l.(waiting := l.waiting - {k}), Admitted)
    else
      var claims := if first then l.first else LiveClaims(l.first, now);
      if Others(l.book, k) >= Limit(l, c, k, first, now) then
        (l.(first := if first then Marked(l.first, k, now) else claims), Refused(if unattended then NoAgent
          else Budget))
      else
        (Lane(Reserve(l.book, k, seqNo, now), l.waiting - {k}, claims - {k}), Admitted)
  }

  function Landed(rebuildable: bool, spec: Option<ConsumerSpec>, seqNo: int, now: Time): Slot {
    Slot(seqNo, Published, if rebuildable || spec.None? then None else Some(now + LapseAfter(spec.value)), None, now)
  }

  function PublishedLane(l: Lane, rebuildable: bool, spec: Option<ConsumerSpec>, k: Key, seqNo: int, now: Time): Lane {
    if k in l.book && l.book[k].seqNo > seqNo then l
    else l.(book := l.book[k := Landed(rebuildable, spec, seqNo, now)], waiting := l.waiting - {k})
  }

  /** Whether Answered releases k. */
  predicate Answers(l: Lane, k: Key, seqNo: int) { k in l.book && l.book[k].seqNo <= seqNo }

  function AnsweredLane(l: Lane, k: Key, seqNo: int): Lane {
    if Answers(l, k, seqNo) then l.(book := l.book - {k}) else l
  }

  function ForgetLane(l: Lane, k: Key): Lane { Lane(l.book - {k}, l.waiting - {k}, l.first - {k}) }

  predicate SameItem(k: Key, kind: string, namespace: string, name: string) {
    k.kind == kind && k.namespace == namespace && k.name == name
  }

  /** An item's entries of a map, whatever their sub. */
  function GoneIn<V>(m: map<Key, V>, kind: string, namespace: string, name: string): set<Key> {
    set k | k in m && SameItem(k, kind, namespace, name)
  }

  function GoneLane(l: Lane, kind: string, namespace: string, name: string): Lane {
    Lane(l.book - GoneIn(l.book, kind, namespace, name), l.waiting - GoneIn(l.waiting, kind, namespace, name),
         l.first - GoneIn(l.first, kind, namespace, name))
  }

  function TickLane(l: Lane, now: Time): Lane { Lapsed(l, now).(waiting := FreshWaiting(l.waiting, now)) }

  function WaitingLane(l: Lane, k: Key, reason: Reason, now: Time): Lane {
    l.(waiting := l.waiting[k := Waiting(reason, now)])
  }

  /** A dispatch a CR's status says is in flight. */
  datatype Outstanding = Outstanding(key: Key, seqNo: int)

  /** The published dispatches status names, the newest of each key. */
  function RebuiltBook(outs: seq<Outstanding>, now: Time): Book {
    if outs == [] then map[] else AddOutstanding(RebuiltBook(outs[..|outs| - 1], now), outs[|outs| - 1], now)
  }

  function AddOutstanding(book: Book, o: Outstanding, now: Time): Book {
    if o.key in book && book[o.key].seqNo >= o.seqNo then book
    else book[o.key := Slot(o.seqNo, Published, None, None, now)]
  }

  // The audit's two looks at a book.

  predicate StaleSlot(s: Slot, cutoff: Time) { s.state == Published && s.at < cutoff }

  /** The keys and seqs the audit asks status about. */
  function Due(book: Book, cutoff: Time): set<(Key, int)> {
    set k | k in book && StaleSlot(book[k], cutoff) :: (k, book[k].seqNo)
  }

  /** Those it then releases. */
  predicate Releases(book: Book, due: set<(Key, int)>, inFlight: set<Key>, cutoff: Time, k: Key) {
    k in book && StaleSlot(book[k], cutoff) && (k, book[k].seqNo) in due && k !in inFlight
  }

  function Released(book: Book, due: set<(Key, int)>, inFlight: set<Key>, cutoff: Time): set<Key> {
    set k | k in book && Releases(book, due, inFlight, cutoff, k)
  }

  function AuditedLane(l: Lane, due: set<(Key, int)>, inFlight: set<Key>, cutoff: Time): Lane {
    l.(book := l.book - Released(l.book, due, inFlight, cutoff))
  }
}
