/** The I/O executor: a fixed pool, a breaker over it, and calls interleaved through both. */
module IoExecutors {
  import opened Seqs
  import opened Clock
  import opened Options

  const BREAKER_TRIPS: nat := 5
  const BREAKER_WINDOW: int := 30_000_000_000
  const BREAKER_OPEN: int := 60_000_000_000

  datatype Breaker = Breaker(timeouts: seq<Time>, openedAt: Option<Time>, trial: bool)

  const CLOSED := Breaker([], None, false)

  /** Whether a call may run, and the breaker after it was asked. */
  predicate Admits(b: Breaker, now: Time) {
    b.openedAt.None? || (now - b.openedAt.value >= BREAKER_OPEN && !b.trial)
  }

  function Admitted(b: Breaker, now: Time): Breaker {
    if b.openedAt.Some? && Admits(b, now) then b.(trial := true) else b
  }

  /** The timeouts still inside the window. */
  function Kept(ts: seq<Time>, now: Time): seq<Time> {
    if ts == [] then []
    else if now - ts[|ts| - 1] < BREAKER_WINDOW then Kept(ts[..|ts| - 1], now) + [ts[|ts| - 1]]
    else Kept(ts[..|ts| - 1], now)
  }

  function TimedOut(b: Breaker, now: Time): Breaker {
    if b.trial then b.(openedAt := Some(now), trial := false)
    else
      var kept := Kept(b.timeouts, now) + [now];
      if |kept| >= BREAKER_TRIPS then b.(openedAt := Some(now), timeouts := []) else b.(timeouts := kept)
  }

  function Abandoned(b: Breaker): Breaker { b.(trial := false) }

  function Closed(b: Breaker): Breaker { if b.trial then b.(openedAt := None, trial := false) else b }

  class IoExecutor {
    const workers: nat
    var busy: nat
    var timeouts: seq<Time>
    var openedAt: Option<Time>
    var trial: bool

    function B(): Breaker
      reads this
    {
      Breaker(timeouts, openedAt, trial)
    }

    constructor (workers: int)
      ensures this.workers == (if workers < 1 then 1 else workers) && busy == 0 && B() == CLOSED
    {
      this.workers := if workers < 1 then 1 else workers;
      busy, timeouts, openedAt, trial := 0, [], None, false;
    }

    method Take() returns (ok: bool)
      modifies `busy
      ensures ok <==> old(busy) < workers
      ensures busy == old(busy) + if ok then 1 else 0
    {
      if busy >= workers {
        return false;
      }
      busy := busy + 1;
      ok := true;
    }

    method Give()
      requires busy > 0
      modifies `busy
      ensures busy == old(busy) - 1
    {
      busy := busy - 1;
    }

    method Admit(now: Time) returns (ok: bool)
      modifies `trial
      ensures ok <==> Admits(old(B()), now)
      ensures B() == Admitted(old(B()), now)
    {
      if openedAt.None? {
        return true;
      }
      if now - openedAt.value < BREAKER_OPEN || trial {
        return false;
      }
      trial := true;
      ok := true;
    }

    method RecordTimeout(now: Time)
      modifies `timeouts, `openedAt, `trial
      ensures B() == TimedOut(old(B()), now)
    {
      if trial {
        openedAt, trial := Some(now), false;
        return;
      }
      var kept: seq<Time> := [];
      for i := 0 to |timeouts|
        invariant kept == Kept(timeouts[..i], now)
        invariant B() == old(B())
      {
        assert timeouts[..i + 1][..i] == timeouts[..i];
        if now - timeouts[i] < BREAKER_WINDOW {
          kept := kept + [timeouts[i]];
        }
      }
      assert timeouts[..|timeouts|] == timeouts;
      kept := kept + [now];
      timeouts := kept;
      if |timeouts| >= BREAKER_TRIPS {
        openedAt, timeouts := Some(now), [];
      }
    }

    method AbandonTrial()
      modifies `trial
      ensures B() == Abandoned(old(B()))
    {
      trial := false;
    }

    method CloseTrial()
      modifies `openedAt, `trial
      ensures B() == Closed(old(B()))
    {
      if trial {
        openedAt, trial := None, false;
      }
    }
  }

  // The window.

  /** On a rising clock the timeouts kept are the latest ones. */
  lemma {:induction false} KeptSuffix(ts: seq<Time>, now: Time) returns (c: nat)
    requires Ascending(ts)
    ensures c <= |ts| && Kept(ts, now) == ts[c..]
    ensures forall i :: 0 <= i < |ts| ==> (now - ts[i] < BREAKER_WINDOW <==> i >= c)
  {
    if ts == [] {
      c := 0;
    } else {
      var init, last := ts[..|ts| - 1], ts[|ts| - 1];
      c := KeptSuffix(init, now);
      if now - last < BREAKER_WINDOW {
        assert ts[c..] == init[c..] + [last];
      } else {
        NoneKept(init, now);
        c := |ts|;
      }
    }
  }

  lemma {:induction false} NoneKept(ts: seq<Time>, now: Time)
    requires forall i :: 0 <= i < |ts| ==> now - ts[i] >= BREAKER_WINDOW
    ensures Kept(ts, now) == []
  {
    if ts != [] { NoneKept(ts[..|ts| - 1], now); }
  }

  /** What was dropped once stays dropped. */
  lemma {:induction false} KeptAgain(ts: seq<Time>, now: Time, later: Time)
    requires now <= later
    ensures Kept(Kept(ts, now), later) == Kept(ts, later)
  {
    if ts != [] {
      var init, last := ts[..|ts| - 1], ts[|ts| - 1];
      KeptAgain(init, now, later);
      if now - last < BREAKER_WINDOW {
        assert (Kept(init, now) + [last])[..|Kept(init, now)|] == Kept(init, now);
      }
    }
  }

  /** The breaker, given every timeout since it last had none: those inside the window of the last. */
  predicate Remembers(b: Breaker, since: seq<Time>) {
    && Ascending(since)
    && b.timeouts == (if since == [] then [] else Kept(since, since[|since| - 1]))
    && |b.timeouts| < BREAKER_TRIPS
  }

  /** Outside a trial a timeout opens the breaker exactly when it is the fifth inside thirty seconds. */
  lemma OpensOnFifth(b: Breaker, since: seq<Time>, now: Time)
    requires Remembers(b, since) && !b.trial && (since != [] ==> since[|since| - 1] <= now)
    ensures var all := since + [now];
            && (TimedOut(b, now).timeouts == [] <==>
              |all| >= BREAKER_TRIPS && now - all[|all| - BREAKER_TRIPS] < BREAKER_WINDOW)
            && (TimedOut(b, now).timeouts == [] ==> TimedOut(b, now).openedAt == Some(now))
            && (TimedOut(b, now).timeouts != [] ==> TimedOut(b, now).openedAt == b.openedAt)
            && Remembers(TimedOut(b, now), if TimedOut(b, now).timeouts == [] then [] else all)
  {
    var all := since + [now];
    assert all[..|since|] == since;
    assert Kept(all, now) == Kept(since, now) + [now];
    if since != [] { KeptAgain(since, since[|since| - 1], now); }
    assert TimedOut(b, now) == if |Kept(all, now)| >= BREAKER_TRIPS then b.(openedAt := Some(now), timeouts := [])
                              else b.(timeouts := Kept(all, now));
    var c := KeptSuffix(all, now);
  }
}
