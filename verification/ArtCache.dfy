/** The byte-bounded least-recently-used cache of artwork. */
module ArtCaches {
  import opened Options

  type Byte = b: int | 0 <= b < 256

  datatype Entry = Entry(digest: string, body: seq<Byte>)

  function SizeOf(order: seq<Entry>): nat { if order == [] then 0 else |order[0].body| + SizeOf(order[1..]) }

  /** No digest twice. */
  predicate Once(order: seq<Entry>) {
    forall i, j :: 0 <= i < j < |order| ==> order[i].digest != order[j].digest
  }

  function Digests(order: seq<Entry>): set<string> { set e | e in order :: e.digest }

  function Find(order: seq<Entry>, digest: string): (i: nat)
    ensures i <= |order| && (i < |order| ==> order[i].digest == digest)
    ensures i < |order| <==> digest in Digests(order)
    ensures forall j :: 0 <= j < i ==> order[j].digest != digest
  {
    if order == [] then 0
    else if order[0].digest == digest then (assert order[0] in order; 0)
    else
      (assert order == [order[0]] + order[1..];
       var i := Find(order[1..], digest);
       i + 1)
  }

  /** The entry at i moved to the front. */
  function Fronted(order: seq<Entry>, i: nat): seq<Entry>
    requires i < |order|
  {
    [order[i]] + order[..i] + order[i + 1..]
  }

  /** The most recent entries that fit in the space. */
  function Keep(order: seq<Entry>, space: int): seq<Entry> {
    if order == [] || SizeOf(order) <= space then order else Keep(order[..|order| - 1], space)
  }

  /** One lookup. */
  function Got(order: seq<Entry>, digest: string): seq<Entry> {
    var i := Find(order, digest);
    if digest == "" || i == |order| then order else Fronted(order, i)
  }

  predicate Kept(budget: int, digest: string, body: seq<Byte>) {
    digest != "" && budget > 0 && |body| <= budget / 4
  }

  /** One add: an entry known moves to the front, a new one goes before the most recent that still fit. */
  function Added(order: seq<Entry>, budget: int, digest: string, body: seq<Byte>): seq<Entry> {
    if !Kept(budget, digest, body) then order
    else if digest in Digests(order) then Fronted(order, Find(order, digest))
    else [Entry(digest, body)] + Keep(order, budget - |body|)
  }

  // Sizes.

  lemma {:induction false} SizeConcat(a: seq<Entry>, b: seq<Entry>)
    ensures SizeOf(a + b) == SizeOf(a) + SizeOf(b)
  {
    if a == [] {
      assert a + b == b;
    } else {
      assert (a + b)[1..] == a[1..] + b;
      SizeConcat(a[1..], b);
    }
  }

  lemma SizeFronted(order: seq<Entry>, i: nat)
    requires i < |order|
    ensures SizeOf(Fronted(order, i)) == SizeOf(order)
  {
    hide SizeOf;
    var a, e, b := order[..i], [order[i]], order[i + 1..];
    assert order == a + e + b;
    SizeConcat(a + e, b);
    SizeConcat(a, e);
    SizeConcat(e + a, b);
    SizeConcat(e, a);
  }

  lemma SizeLast(order: seq<Entry>)
    requires order != []
    ensures SizeOf(order) == SizeOf(order[..|order| - 1]) + |order[|order| - 1].body|
  {
    var init, last := order[..|order| - 1], [order[|order| - 1]];
    assert order == init + last;
    SizeConcat(init, last);
    assert last[1..] == [];
  }

  /** Keep is the longest prefix that fits: nothing longer does. */
  lemma {:induction false} KeepLongest(order: seq<Entry>, space: int)
    ensures Keep(order, space) <= order
    ensures SizeOf(Keep(order, space)) <= space || Keep(order, space) == []
    ensures forall n :: |Keep(order, space)| < n <= |order| ==> SizeOf(order[..n]) > space
  {
    if order != [] && SizeOf(order) > space {
      var init := order[..|order| - 1];
      KeepLongest(init, space);
      assert order[..|order|] == order;
      assert forall n :: 0 <= n <= |init| ==> order[..n] == init[..n];
    }
  }

  predicate Mapped(order: seq<Entry>, byKey: map<string, seq<Byte>>) {
    byKey.Keys == Digests(order) && forall e <- order :: byKey[e.digest] == e.body
  }

  class ArtCache {
    const budget: int
    var used: int
    /** Front is the most recent. */
    var order: seq<Entry>
    /** Each digest's body; the source keeps its place in the list. */
    var byKey: map<string, seq<Byte>>

    /** The list and the map agree, and used is the sum of the sizes kept, within the budget. */
    predicate Valid()
      reads this
    {
      && Once(order)
      && Mapped(order, byKey)
      && used == SizeOf(order)
      && (used == 0 || used <= budget)
      && (budget <= 0 ==> order == [])
    }

    constructor (budget: int)
      ensures Valid() && this.budget == budget && order == []
    {
      this.budget, used, order, byKey := budget, 0, [], map[];
    }

    method MoveToFront(digest: string)
      requires Valid() && digest in byKey
      modifies `order
      ensures Valid() && order == Fronted(old(order), Find(old(order), digest))
    {
      hide SizeOf, Once, Digests;
      var i := Find(order, digest);
      SizeFronted(order, i);
      FrontedSame(order, i);
      order := [order[i]] + order[..i] + order[i + 1..];
    }

    method Get(digest: string) returns (body: Option<seq<Byte>>)
      requires Valid()
      modifies `order
      ensures Valid() && order == Got(old(order), digest)
      ensures body.Some? <==> digest != "" && digest in Digests(old(order))
      ensures body.Some? ==> Entry(digest, body.value) in order && order[0] == Entry(digest, body.value)
    {
      if digest == "" || digest !in byKey {
        return None;
      }
      MoveToFront(digest);
      body := Some(byKey[digest]);
    }

    method DropBack()
      requires Valid() && order != []
      modifies `order, `byKey, `used
      ensures Valid() && order == old(order)[..|old(order)| - 1]
    {
      var last := order[|order| - 1];
      SizeLast(order);
      DropLast(order);
      order := order[..|order| - 1];
      byKey := byKey - {last.digest};
      used := used - |last.body|;
    }

    method Add(digest: string, body: seq<Byte>)
      requires Valid()
      modifies this
      ensures Valid() && order == Added(old(order), budget, digest, body)
    {
      hide SizeOf, Keep, Once, Digests, Find, Mapped;
      if digest == "" || budget <= 0 || |body| > budget / 4 {
        return;
      }
      MappedKeys(order, byKey);
      if digest in byKey {
        MoveToFront(digest);
        return;
      }
      MakeRoom(|body|);
      KeepLongest(old(order), budget - |body|);
      KeepDigests(old(order), budget - |body|, digest);
      MappedKeys(order, byKey);
      PushFront(order, Entry(digest, body), byKey);
      byKey := byKey[digest := body];
      order := [Entry(digest, body)] + order;
      used := used + |body|;
    }

    /** Evicts from the back until size fits. */
    method MakeRoom(size: nat)
      requires Valid() && size <= budget
      modifies `order, `byKey, `used
      ensures Valid() && order == Keep(old(order), budget - size) && used + size <= budget
    {
      hide Once, Digests;
      while used + size > budget
        invariant Valid()
        invariant Keep(order, budget - size) == Keep(old(order), budget - size)
        decreases |order|
      {
        if order == [] {
          break;
        }
        DropBack();
      }
    }
  }

  lemma KeepDigests(order: seq<Entry>, space: int, digest: string)
    requires digest !in Digests(order)
    ensures digest !in Digests(Keep(order, space))
  {
    KeepLongest(order, space);
    forall e | e in Keep(order, space) ensures e in order {}
  }

  lemma FrontedSame(order: seq<Entry>, i: nat)
    requires i < |order| && Once(order)
    ensures Once(Fronted(order, i)) && Digests(Fronted(order, i)) == Digests(order)
    ensures forall e :: e in Fronted(order, i) <==> e in order
  {
    var out := Fronted(order, i);
    assert order == order[..i] + [order[i]] + order[i + 1..];
    forall e ensures e in out <==> e in order {}
  }

  lemma DropLast(order: seq<Entry>)
    requires order != [] && Once(order)
    ensures var init, last := order[..|order| - 1], order[|order| - 1];
            Once(init) && Digests(init) == Digests(order) - {last.digest} && last.digest !in Digests(init)
  {
    var init, last := order[..|order| - 1], order[|order| - 1];
    assert order == init + [last];
  }

  lemma MappedKeys(order: seq<Entry>, byKey: map<string, seq<Byte>>)
    requires Mapped(order, byKey)
    ensures byKey.Keys == Digests(order)
  {}

  lemma PushFront(order: seq<Entry>, e: Entry, byKey: map<string, seq<Byte>>)
    requires Once(order) && e.digest !in Digests(order) && Mapped(order, byKey)
    ensures Once([e] + order) && Mapped([e] + order, byKey[e.digest := e.body])
    ensures SizeOf([e] + order) == |e.body| + SizeOf(order)
  {
    FrontSize(order, e);
    forall i | 0 <= i < |order| ensures order[i].digest != e.digest {
      assert order[i] in order;
    }
    assert Digests([e] + order) == Digests(order) + {e.digest};
  }

  // What adding keeps.

  lemma {:induction false} SizeGrows(order: seq<Entry>, n: nat, m: nat)
    requires n <= m <= |order|
    ensures SizeOf(order[..n]) <= SizeOf(order[..m])
  {
    assert order[..m] == order[..n] + order[n..m];
    SizeConcat(order[..n], order[n..m]);
  }

  /** A new entry evicts exactly those whose bytes, with all more recent ones and its own, do not fit. */
  lemma EvictsExactly(order: seq<Entry>, budget: int, digest: string, body: seq<Byte>, i: nat)
    requires Once(order) && i < |order| && Kept(budget, digest, body) && digest !in Digests(order)
    ensures order[i].digest in Digests(Added(order, budget, digest, body)) <==>
              SizeOf(order[..i + 1]) + |body| <= budget
  {
    hide SizeOf, Keep, Kept, Digests;
    var kept := Keep(order, budget - |body|);
    KeepLongest(order, budget - |body|);
    EmptySize(order);
    assert order[..|kept|] == kept;
    InPrefix(order, kept, Entry(digest, body), i);
    if i < |kept| { SizeGrows(order, i + 1, |kept|); }
  }

  lemma InPrefix(order: seq<Entry>, kept: seq<Entry>, e: Entry, i: nat)
    requires Once(order) && i < |order| && kept <= order && e.digest !in Digests(order)
    ensures order[i].digest in Digests([e] + kept) <==> i < |kept|
  {
    assert order[i] in order;
    if i < |kept| {
      assert kept[i] in [e] + kept;
    } else {
      forall k | k in kept ensures k.digest != order[i].digest {
        var j :| 0 <= j < |kept| && kept[j] == k;
        assert order[j] == k;
      }
    }
  }

  lemma EmptySize(order: seq<Entry>)
    ensures SizeOf(order[..0]) == 0
  {}

  datatype Use = GetOf(digest: string) | AddOf(digest: string, body: seq<Byte>)

  function Used(order: seq<Entry>, budget: int, u: Use): seq<Entry> {
    match u
    case GetOf(d) => Got(order, d)
    case AddOf(d, body) => Added(order, budget, d, body)
  }

  function UsedAll(budget: int, us: seq<Use>): seq<Entry> {
    if us == [] then [] else Used(UsedAll(budget, us[..|us| - 1]), budget, us[|us| - 1])
  }

  /** No digest twice, all within the budget, nothing over a quarter of it. */
  predicate Fit(order: seq<Entry>, budget: nat) {
    Once(order) && SizeOf(order) <= budget && forall e <- order :: |e.body| <= budget / 4
  }

  /** Every sequence of gets and adds leaves a list that fits. */
  lemma {:induction false} UsedAllFits(budget: nat, us: seq<Use>)
    ensures Fit(UsedAll(budget, us), budget)
  {
    hide Fit, Used, Digests, Find;
    if us == [] {
      NothingFits(budget);
    } else {
      var before, u := UsedAll(budget, us[..|us| - 1]), us[|us| - 1];
      UsedAllFits(budget, us[..|us| - 1]);
      UseFits(before, budget, u);
    }
  }

  /** The use looks for the digest, or would keep it. */
  predicate Touches(u: Use, budget: int) {
    match u
    case GetOf(d) => d != ""
    case AddOf(d, body) => Kept(budget, d, body)
  }

  /** Which use last touched the digest; -1 for none. */
  function LastUse(us: seq<Use>, budget: int, digest: string): int {
    if us == [] then -1
    else if us[|us| - 1].digest == digest && Touches(us[|us| - 1], budget) then |us| - 1
    else LastUse(us[..|us| - 1], budget, digest)
  }

  predicate ByRecency(order: seq<Entry>, us: seq<Use>, budget: int) {
    forall i, j :: 0 <= i < j < |order| ==>
      LastUse(us, budget, order[i].digest) > LastUse(us, budget, order[j].digest)
  }

  /** After every sequence of gets and adds the entries stand in the order of their last use, and each has the
      body it was first added with since. */
  lemma {:induction false} LeastRecentLast(budget: nat, us: seq<Use>)
    ensures ByRecency(UsedAll(budget, us), us, budget)
    ensures forall e :: e in UsedAll(budget, us) ==> AddOf(e.digest, e.body) in us
  {
    hide Fit, Used, ByRecency, LastUse;
    if us == [] {
      NoneByRecency(budget);
    } else {
      var init, u := us[..|us| - 1], us[|us| - 1];
      LeastRecentLast(budget, init);
      UsedAllFits(budget, init);
      FitOnce(UsedAll(budget, init), budget);
      UseByRecency(UsedAll(budget, init), init, budget, u);
      assert us == init + [u];
    }
  }

  lemma NoneByRecency(budget: nat)
    ensures ByRecency([], [], budget)
  {}

  lemma LastUseSnoc(us: seq<Use>, u: Use, budget: int)
    ensures forall d :: LastUse(us + [u], budget, d) ==
              if u.digest == d && Touches(u, budget) then |us| else LastUse(us, budget, d)
  {
    assert (us + [u])[..|us|] == us;
  }

  lemma {:induction false} LastUseBefore(us: seq<Use>, budget: int, d: string)
    ensures LastUse(us, budget, d) < |us|
  {
    if us != [] { LastUseBefore(us[..|us| - 1], budget, d); }
  }

  lemma UseByRecency(order: seq<Entry>, us: seq<Use>, budget: nat, u: Use)
    requires Once(order) && ByRecency(order, us, budget)
    ensures ByRecency(Used(order, budget, u), us + [u], budget)
    ensures forall e :: e in Used(order, budget, u) ==> e in order || u == AddOf(e.digest, e.body)
  {
    hide LastUse, Keep, Digests, Fronted, Once;
    LastUseSnoc(us, u, budget);
    forall d ensures LastUse(us, budget, d) < |us| {
      LastUseBefore(us, budget, d);
    }
    var i := Find(order, u.digest);
    if i < |order| {
      FrontedSame(order, i);
      if Touches(u, budget) { FrontedByRecency(order, us, budget, u, i); }
    } else {
      KeepLongest(order, if u.AddOf? then budget - |u.body| else budget);
      NotIn(order, u.digest);
    }
  }

  lemma NotIn(order: seq<Entry>, digest: string)
    requires digest !in Digests(order)
    ensures forall e <- order :: e.digest != digest
  {}

  lemma FrontedByRecency(order: seq<Entry>, us: seq<Use>, budget: nat, u: Use, i: nat)
    requires Once(order) && ByRecency(order, us, budget) && i < |order|
    requires order[i].digest == u.digest && Touches(u, budget)
    requires forall d :: LastUse(us, budget, d) < |us|
    requires forall d :: LastUse(us + [u], budget, d) == if u.digest == d then |us| else LastUse(us, budget, d)
    ensures ByRecency(Fronted(order, i), us + [u], budget)
  {
    hide LastUse, Fronted, Once, ByRecency, Touches;
    var out := Fronted(order, i);
    FrontedAt(order, i);
    forall a, b | 0 <= a < b < |out|
      ensures LastUse(us + [u], budget, out[a].digest) > LastUse(us + [u], budget, out[b].digest)
    {
      if a > 0 { InRecency(order, us, budget, if a <= i then a - 1 else a, if b <= i then b - 1 else b); }
    }
    AllRecency(out, us + [u], budget);
  }

  lemma InRecency(order: seq<Entry>, us: seq<Use>, budget: int, a: nat, b: nat)
    requires ByRecency(order, us, budget) && a < b < |order|
    ensures LastUse(us, budget, order[a].digest) > LastUse(us, budget, order[b].digest)
  {}

  lemma AllRecency(order: seq<Entry>, us: seq<Use>, budget: int)
    requires forall a, b :: 0 <= a < b < |order| ==>
               LastUse(us, budget, order[a].digest) > LastUse(us, budget, order[b].digest)
    ensures ByRecency(order, us, budget)
  {}

  /** The entry at i comes first, and the others keep their order behind it. */
  lemma FrontedAt(order: seq<Entry>, i: nat)
    requires Once(order) && i < |order|
    ensures var out := Fronted(order, i);
            && |out| == |order| && out[0] == order[i]
            && forall j :: 0 < j < |out| ==>
                 out[j] == order[if j <= i then j - 1 else j] && out[j].digest != order[i].digest
  {}

  lemma NothingFits(budget: nat)
    ensures Fit([], budget)
  {}

  lemma UseFits(order: seq<Entry>, budget: nat, u: Use)
    requires Fit(order, budget)
    ensures Fit(Used(order, budget, u), budget)
  {
    hide Fit, Digests, Keep, Fronted;
    var i := Find(order, u.digest);
    if i < |order| { FrontedFits(order, budget, i); }
    if u.AddOf? && i == |order| && Kept(budget, u.digest, u.body) {
      PushedFits(order, budget, Entry(u.digest, u.body));
    }
  }

  lemma FrontedFits(order: seq<Entry>, budget: nat, i: nat)
    requires Fit(order, budget) && i < |order|
    ensures Fit(Fronted(order, i), budget)
  {
    hide SizeOf, Once, Fronted;
    SizeFronted(order, i);
    FitOnce(order, budget);
    FrontedSame(order, i);
  }

  lemma FitOnce(order: seq<Entry>, budget: nat)
    requires Fit(order, budget)
    ensures Once(order)
  {}

  lemma PushedFits(order: seq<Entry>, budget: nat, e: Entry)
    requires Fit(order, budget) && e.digest !in Digests(order) && |e.body| <= budget / 4
    ensures Fit([e] + Keep(order, budget - |e.body|), budget)
  {
    hide SizeOf, Keep;
    var kept := Keep(order, budget - |e.body|);
    KeepLongest(order, budget - |e.body|);
    FrontSize(kept, e);
    EmptySize(order);
    assert order[..0] == [];
    forall j | 0 <= j < |kept| ensures kept[j] == order[j] && kept[j].digest != e.digest {
      assert order[j] in order;
    }
  }

  lemma FrontSize(order: seq<Entry>, e: Entry)
    ensures SizeOf([e] + order) == |e.body| + SizeOf(order)
  {
    assert ([e] + order)[1..] == order;
  }
}
