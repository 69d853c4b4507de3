/** One item's pass: its stages merged, the item applied, the other managers' sets chained after it, then effects. */
module ItemPasses {
  import opened Seqs
  import opened Effects
  import opened Options
  import opened ItemSets

  datatype ItemResult = ItemResult(contribution: Fields, sets: seq<ItemSet>, effects: seq<Effect>)

  /** A stage as one pass meets it: fails for an error, a transient fault or a panic; declares are the
      managers it says it contributes to. */
  datatype Stage = Stage(name: string, applies: bool, fails: bool, result: ItemResult, declares: set<string>)

  const STAGE_ORDER: seq<string> := ["grab", "downloads", "search", "metadata", "imageset", "artwork", "overlay"]

  /** The stages of that name the kind has. */
  function Meeting(stages: seq<Stage>, name: string): seq<Stage> {
    if stages == [] then []
    else Meeting(stages[..|stages| - 1], name) +
         if Last(stages).name == name && Last(stages).applies then [Last(stages)] else []
  }

  /** The stages a pass runs, in order. */
  function InOrder(stages: seq<Stage>, names: seq<string>): seq<Stage> {
    if names == [] then [] else InOrder(stages, names[..|names| - 1]) + Meeting(stages, Last(names))
  }

  /** What the stages run so far have made. */
  datatype Gathered = Gathered(merged: Fields, sets: Sets, results: map<string, ItemResult>, order: seq<string>,
                               skip: set<string>)

  const NONE_YET := Gathered(map[], map[], map[], [], {})

  /** One stage's outcome folded in; None is the panic when two stages set one field. */
  function Gather(g: Gathered, s: Stage): Option<Gathered> {
    if s.fails then Some(g.(skip := g.skip + s.declares))
    else
      var c, sets := MergeContribution(g.merged, s.result.contribution), AddSets(g.sets, s.result.sets);
      if c.None? || sets.None? then None
      else Some(Gathered(c.value, sets.value, g.results[s.name := s.result], g.order + [s.name], g.skip))
  }

  function GatherAll(ss: seq<Stage>): Option<Gathered> {
    if ss == [] then Some(NONE_YET)
    else match GatherAll(ss[..|ss| - 1])
         case None => None
         case Some(g) => Gather(g, Last(ss))
  }

  lemma GatherSnoc(ss: seq<Stage>, s: Stage)
    ensures GatherAll(ss + [s]) == match GatherAll(ss) case None => None case Some(g) => Gather(g, s)
  {
    assert (ss + [s])[..|ss|] == ss;
  }

  lemma {:induction false} GatherStops(ss: seq<Stage>, more: seq<Stage>)
    requires GatherAll(ss).None?
    ensures GatherAll(ss + more).None?
  {
    if more == [] {
      assert ss + more == ss;
    } else {
      GatherStops(ss, more[..|more| - 1]);
      assert ss + more == ss + more[..|more| - 1] + [Last(more)];
      GatherSnoc(ss + more[..|more| - 1], Last(more));
    }
  }

  /** The stage loops. */
  method RunStages(stages: seq<Stage>) returns (g: Option<Gathered>)
    ensures g == GatherAll(InOrder(stages, STAGE_ORDER))
  {
    hide Gather, GatherAll;
    GatherNone();
    var cur := NONE_YET;
    for i := 0 to |STAGE_ORDER|
      invariant GatherAll(InOrder(stages, STAGE_ORDER[..i])) == Some(cur)
    {
      var next := RunNamed(stages, STAGE_ORDER[i], cur, InOrder(stages, STAGE_ORDER[..i]));
      assert STAGE_ORDER[..i + 1][..i] == STAGE_ORDER[..i];
      if next.None? {
        InOrderExtends(stages, STAGE_ORDER, i + 1);
        return None;
      }
      cur := next.value;
    }
    assert STAGE_ORDER[..|STAGE_ORDER|] == STAGE_ORDER;
    g := Some(cur);
  }

  lemma GatherNone()
    ensures GatherAll([]) == Some(NONE_YET)
  {}

  lemma {:induction false} InOrderExtends(stages: seq<Stage>, names: seq<string>, n: nat)
    requires n <= |names| && GatherAll(InOrder(stages, names[..n])).None?
    ensures GatherAll(InOrder(stages, names)).None?
  {
    hide GatherAll;
    if n == |names| {
      assert names[..n] == names;
    } else {
      assert names[..|names| - 1][..n] == names[..n];
      InOrderExtends(stages, names[..|names| - 1], n);
      GatherStops(InOrder(stages, names[..|names| - 1]), Meeting(stages, Last(names)));
    }
  }

  method RunNamed(stages: seq<Stage>, name: string, before: Gathered, ghost done: seq<Stage>)
    returns (g: Option<Gathered>)
    requires GatherAll(done) == Some(before)
    ensures g == GatherAll(done + Meeting(stages, name))
  {
    hide GatherAll, Gather;
    var cur := before;
    assert done + [] == done;
    for i := 0 to |stages|
      invariant GatherAll(done + Meeting(stages[..i], name)) == Some(cur)
    {
      assert stages[..i + 1][..i] == stages[..i];
      var s := stages[i];
      if s.name != name || !s.applies {
        assert Meeting(stages[..i + 1], name) == Meeting(stages[..i], name) + [] == Meeting(stages[..i], name);
        continue;
      }
      GatherSnoc(done + Meeting(stages[..i], name), s);
      assert done + Meeting(stages[..i + 1], name) == done + Meeting(stages[..i], name) + [s];
      var next := GatherOne(cur, s);
      if next.None? {
        MeetingExtends(stages, name, done, i + 1);
        return None;
      }
      cur := next.value;
    }
    assert stages[..|stages|] == stages;
    g := Some(cur);
  }

  lemma {:induction false} MeetingExtends(stages: seq<Stage>, name: string, done: seq<Stage>, n: nat)
    requires n <= |stages| && GatherAll(done + Meeting(stages[..n], name)).None?
    ensures GatherAll(done + Meeting(stages, name)).None?
  {
    hide GatherAll;
    if n == |stages| {
      assert stages[..n] == stages;
    } else {
      var init := stages[..|stages| - 1];
      assert init[..n] == stages[..n];
      MeetingExtends(init, name, done, n);
      var more := Meeting(stages, name)[|Meeting(init, name)|..];
      assert done + Meeting(stages, name) == done + Meeting(init, name) + more;
      GatherStops(done + Meeting(init, name), more);
    }
  }

  method GatherOne(g: Gathered, s: Stage) returns (out: Option<Gathered>)
    ensures out == Gather(g, s)
  {
    if s.fails {
      return Some(g.(skip := g.skip + s.declares));
    }
    var merged := MergeContribution(g.merged, s.result.contribution);
    if merged.None? {
      return None;
    }
    var sets := MergeSets(g.sets, s.result.sets);
    if sets.None? {
      return None;
    }
    out := Some(Gathered(merged.value, sets.value, g.results[s.name := s.result], g.order + [s.name], g.skip));
  }

  // What the stages make together.

  /** The sets of the stages that succeeded. */
  function SetsOf(ss: seq<Stage>): seq<ItemSet> {
    if ss == [] then [] else SetsOf(ss[..|ss| - 1]) + if Last(ss).fails then [] else Last(ss).result.sets
  }

  lemma {:induction false} AddSetsConcat(into: Sets, a: seq<ItemSet>, b: seq<ItemSet>)
    ensures AddSets(into, a + b) == match AddSets(into, a) case None => None case Some(m) => AddSets(m, b)
  {
    if b == [] {
      assert a + b == a;
    } else {
      var init := b[..|b| - 1];
      AddSetsConcat(into, a, init);
      assert (a + b)[..|a + b| - 1] == a + init && Last(a + b) == Last(b);
    }
  }

  lemma {:induction false} GatheredSets(ss: seq<Stage>)
    requires GatherAll(ss).Some?
    ensures AddSets(map[], SetsOf(ss)) == Some(GatherAll(ss).value.sets)
  {
    if ss != [] {
      GatheredSets(ss[..|ss| - 1]);
      hide AddSets;
      if !Last(ss).fails { AddSetsConcat(map[], SetsOf(ss[..|ss| - 1]), Last(ss).result.sets); }
      assert Last(ss).fails ==> SetsOf(ss) == SetsOf(ss[..|ss| - 1]) + [] == SetsOf(ss[..|ss| - 1]);
    }
  }

  /** The managers failed stages declare. */
  lemma {:induction false} GatheredSkips(ss: seq<Stage>, m: string)
    requires GatherAll(ss).Some?
    ensures m in GatherAll(ss).value.skip <==> exists i :: 0 <= i < |ss| && ss[i].fails && m in ss[i].declares
  {
    if ss != [] {
      var init := ss[..|ss| - 1];
      GatheredSkips(init, m);
      hide MergeContribution, AddSets;
      assert forall i :: 0 <= i < |init| ==> init[i] == ss[i];
      assert ss[|init|] == Last(ss);
    }
  }

  // The other managers' sets.

  datatype SetAnswer = Landed(rv: int) | Conflict | Refused

  /** One apply: the resourceVersion it was preconditioned on, and the answer. */
  datatype Write = Write(rv: int, sent: ItemSet, answer: SetAnswer)

  function Get(status: Fields, f: string): int { if f in status then status[f] else 0 }

  /** The set would change nothing. */
  predicate SetEqual(status: Fields, fields: Fields) { forall f :: f in fields ==> Get(status, f) == fields[f] }

  predicate IsDue(s: ItemSet, skip: set<string>, status: Fields) { s.manager !in skip && !SetEqual(status, s.fields) }

  /** That is, laying it over the status would leave every field as it is. */
  lemma EqualChangesNothing(status: Fields, fields: Fields)
    ensures SetEqual(status, fields) <==> forall f :: Get(status + fields, f) == Get(status, f)
  {
    if forall f :: Get(status + fields, f) == Get(status, f) {
      forall f | f in fields ensures Get(status, f) == fields[f] {
        assert Get(status + fields, f) == Get(status, f);
      }
    }
  }

  function Due(out: seq<ItemSet>, skip: set<string>, status: Fields): (due: seq<ItemSet>)
    ensures forall s <- due :: s in out && IsDue(s, skip, status)
  {
    if out == [] then []
    else Due(out[..|out| - 1], skip, status) + if IsDue(Last(out), skip, status) then [Last(out)] else []
  }

  /** A set is due exactly when its manager is not skipped and some field of it differs from the status. */
  lemma {:induction false} DueExactly(out: seq<ItemSet>, skip: set<string>, status: Fields, s: ItemSet)
    ensures s in Due(out, skip, status) <==>
              s in out && s.manager !in skip && exists f :: f in s.fields && Get(status, f) != s.fields[f]
  {
    hide Get;
    if out != [] {
      DueExactly(out[..|out| - 1], skip, status, s);
      assert out == out[..|out| - 1] + [Last(out)];
    }
  }

  /** The writes are the first of the due sets in order, the first at rv and each other at what the one
      before returned; only the last may have failed. */
  ghost predicate Chained(log: seq<Write>, rv: int, due: seq<ItemSet>) {
    && |log| <= |due|
    && (forall k :: 0 <= k < |log| ==> log[k].sent == due[k])
    && (log != [] ==> log[0].rv == rv)
    && (forall k, l :: 0 <= k < l < |log| && l == k + 1 ==> log[k].answer == Landed(log[l].rv))
  }

  predicate AllLanded(log: seq<Write>, due: seq<ItemSet>) {
    |log| == |due| && (log != [] ==> Last(log).answer.Landed?)
  }

  /** Every answer is the server's to what was sent, and a pass that stops short does so on one that did
      not land. */
  ghost predicate Applied(log: seq<Write>, rv: int, due: seq<ItemSet>, server: (int, ItemSet) -> SetAnswer) {
    && Chained(log, rv, due)
    && (forall k :: 0 <= k < |log| ==> log[k].answer == server(log[k].rv, log[k].sent))
    && (|log| < |due| ==> log != [] && !Last(log).answer.Landed?)
  }

  /** The resourceVersion the next apply is preconditioned on. */
  function NextRV(log: seq<Write>, rv: int): int {
    if log == [] then rv else match Last(log).answer case Landed(next) => next case _ => rv
  }

  datatype SetsEnd = SetsDone | SetConflict | SetRefused

  /** What the sets end as, from the last answer when not all landed. */
  function EndOf(log: seq<Write>, due: seq<ItemSet>): SetsEnd {
    if AllLanded(log, due) then SetsDone
    else if log != [] && Last(log).answer == Conflict then SetConflict
    else SetRefused
  }

  method SetEqualOf(status: Fields, fields: Fields) returns (equal: bool)
    ensures equal <==> SetEqual(status, fields)
  {
    var todo := fields.Keys;
    while todo != {}
      invariant todo <= fields.Keys
      invariant forall f :: f in fields.Keys - todo ==> Get(status, f) == fields[f]
    {
      var f :| f in todo;
      todo := todo - {f};
      if Get(status, f) != fields[f] {
        return false;
      }
    }
    equal := true;
  }

  /** Step 5: server answers an apply of a set at a resourceVersion. */
  method ApplySets(out: seq<ItemSet>, skip: set<string>, status: Fields, landed: int,
                   server: (int, ItemSet) -> SetAnswer)
    returns (log: seq<Write>, end: SetsEnd)
    ensures Applied(log, landed, Due(out, skip, status), server)
    ensures end == EndOf(log, Due(out, skip, status))
  {
    hide SetEqual, Applied, AllLanded, NextRV, Due, EndOf;
    var rv := landed;
    log := [];
    NothingDue(landed, skip, status, server);
    for i := 0 to |out|
      invariant Applied(log, landed, Due(out[..i], skip, status), server) && AllLanded(log, Due(out[..i], skip, status))
      invariant rv == NextRV(log, landed)
    {
      assert out[..i + 1][..i] == out[..i];
      DueSnoc(out, skip, status, i);
      var s := out[i];
      var equal := SetEqualOf(status, s.fields);
      if s.manager in skip || equal {
        continue;
      }
      var answer := server(rv, s);
      ChainGrows(log, landed, Due(out[..i], skip, status), s, server);
      log := log + [Write(rv, s, answer)];
      DuePrefix(out, skip, status, i + 1);
      if !answer.Landed? {
        ChainStops(log, landed, Due(out[..i + 1], skip, status), Due(out, skip, status), server);
        return log, if answer == Conflict then SetConflict else SetRefused;
      }
      rv := answer.rv;
    }
    assert out[..|out|] == out;
    end := SetsDone;
    DoneWhenLanded(log, Due(out, skip, status));
  }

  lemma NothingDue(rv: int, skip: set<string>, status: Fields, server: (int, ItemSet) -> SetAnswer)
    ensures Applied([], rv, Due([], skip, status), server) && AllLanded([], Due([], skip, status))
    ensures NextRV([], rv) == rv
  {}

  lemma DoneWhenLanded(log: seq<Write>, due: seq<ItemSet>)
    requires AllLanded(log, due)
    ensures EndOf(log, due) == SetsDone
  {}

  lemma DueSnoc(out: seq<ItemSet>, skip: set<string>, status: Fields, i: nat)
    requires i < |out|
    ensures Due(out[..i + 1], skip, status) ==
              if IsDue(out[i], skip, status) then Due(out[..i], skip, status) + [out[i]]
                else Due(out[..i], skip, status)
  {
    hide SetEqual;
    assert out[..i + 1][..i] == out[..i];
  }

  lemma ChainGrows(log: seq<Write>, rv: int, due: seq<ItemSet>, s: ItemSet, server: (int, ItemSet) -> SetAnswer)
    requires Applied(log, rv, due, server) && AllLanded(log, due)
    ensures var at := NextRV(log, rv);
            var more := log + [Write(at, s, server(at, s))];
            && Applied(more, rv, due + [s], server)
            && (server(at, s).Landed? <==> AllLanded(more, due + [s]))
            && Last(more).answer == server(at, s) && (server(at, s).Landed? ==> NextRV(more, rv) == server(at, s).rv)
  {}

  lemma ChainStops(log: seq<Write>, rv: int, due: seq<ItemSet>, full: seq<ItemSet>, server: (int, ItemSet) -> SetAnswer)
    requires Applied(log, rv, due, server) && due <= full && log != [] && !Last(log).answer.Landed?
    ensures Applied(log, rv, full, server)
    ensures EndOf(log, full) == if Last(log).answer == Conflict then SetConflict else SetRefused
  {}

  lemma {:induction false} DuePrefix(out: seq<ItemSet>, skip: set<string>, status: Fields, n: nat)
    requires n <= |out|
    ensures Due(out[..n], skip, status) <= Due(out, skip, status)
  {
    if n == |out| {
      assert out[..n] == out;
    } else {
      assert out[..|out| - 1][..n] == out[..n];
      DuePrefix(out[..|out| - 1], skip, status, n);
    }
  }

  // Effects.

  function TriedAll(order: seq<string>, results: map<string, ItemResult>): seq<Effect> {
    if order == [] then []
    else TriedAll(order[..|order| - 1], results) +
         if Last(order) in results then Tried(results[Last(order)].effects) else []
  }

  method RunEffects(order: seq<string>, results: map<string, ItemResult>) returns (run: seq<Effect>)
    ensures run == TriedAll(order, results)
  {
    run := [];
    for i := 0 to |order|
      invariant run == TriedAll(order[..i], results)
    {
      assert order[..i + 1][..i] == order[..i];
      if order[i] in results {
        var batch := RunBatch(results[order[i]].effects);
        run := run + batch;
      }
    }
    assert order[..|order|] == order;
  }

  // The pass.

  datatype End = Panicked | ItemEnded | SetsEnded(sets: SetsEnd) | Finished

  datatype ItemAnswer = ItemLanded(rv: int) | NotLanded

  /** What a pass over the stages in order ends as: a panic, the item's own pass not landing, or the
      sets applied up to the first the server does not land, and effects only when it landed them all. */
  ghost predicate PassOf(ss: seq<Stage>, status: Fields, item: Fields -> ItemAnswer,
                         server: (int, ItemSet) -> SetAnswer, end: End, log: seq<Write>, run: seq<Effect>,
                         out: seq<ItemSet>)
  {
    match GatherAll(ss)
    case None => end == Panicked && log == [] && run == []
    case Some(g) =>
      match item(g.merged)
      case NotLanded => end == ItemEnded && log == [] && run == []
      case ItemLanded(rv) =>
        var due := Due(out, g.skip, status);
        && Ordered(out, g.sets) && Applied(log, rv, due, server)
        && end == (if AllLanded(log, due) then Finished else SetsEnded(EndOf(log, due)))
        && run == (if AllLanded(log, due) then TriedAll(g.order, g.results) else [])
  }

  /** One staged pass: item answers the kind's own pass given the merged contribution. */
  method Staged(stages: seq<Stage>, status: Fields, item: Fields -> ItemAnswer, server: (int, ItemSet) -> SetAnswer)
    returns (end: End, log: seq<Write>, run: seq<Effect>, ghost out: seq<ItemSet>)
    ensures PassOf(InOrder(stages, STAGE_ORDER), status, item, server, end, log, run, out)
    ensures var g := GatherAll(InOrder(stages, STAGE_ORDER));
            && (end == Panicked <==> g.None?)
            && (end == ItemEnded <==> g.Some? && item(g.value.merged).NotLanded?)
            && (run == [] || end == Finished)
    ensures forall k :: 0 <= k < |log| ==> log[k].answer == server(log[k].rv, log[k].sent)
  {
    hide InOrder, GatherAll, Ordered, AllLanded, Due, TriedAll;
    log, run, out := [], [], [];
    var gathered := RunStages(stages);
    if gathered.None? {
      return Panicked, log, run, out;
    }
    var g := gathered.value;
    var answer := item(g.merged);
    if answer.NotLanded? {
      return ItemEnded, log, run, out;
    }
    var sets := OrderedSets(g.sets);
    out := sets;
    var setsEnd;
    log, setsEnd := ApplySets(sets, g.skip, status, answer.rv, server);
    if setsEnd != SetsDone {
      return SetsEnded(setsEnd), log, run, out;
    }
    run := RunEffects(g.order, g.results);
    end := Finished;
  }

  // What a pass writes.

  predicate Holds(fields: Fields, f: string, v: int) { f in fields && fields[f] == v }

  /** Stage i succeeded and gives the field of the item's own apply the value. */
  predicate Contributes(s: Stage, f: string, v: int) {
    !s.fails && Holds(s.result.contribution, f, v)
  }

  /** No two stages that succeeded contribute one field. */
  predicate NoOverlap(ss: seq<Stage>) {
    forall i, j :: 0 <= i < j < |ss| && !ss[i].fails && !ss[j].fails ==>
      ss[i].result.contribution.Keys !! ss[j].result.contribution.Keys
  }

  /** A pass panics exactly when two stages that succeeded set one field, of the item's apply or of one
      manager's set; otherwise the apply's fields are those the stages contributed. */
  lemma {:induction false} GatheredUnion(ss: seq<Stage>)
    ensures GatherAll(ss).Some? <==> NoOverlap(ss) && NoClash(SetsOf(ss))
    ensures GatherAll(ss).Some? ==>
              forall f, v :: Holds(GatherAll(ss).value.merged, f, v) <==>
                exists i :: 0 <= i < |ss| && Contributes(ss[i], f, v)
  {
    hide AddSets, NoClash, NoOverlap, GatherAll, SetsOf;
    if ss == [] {
      NothingGathered();
    } else {
      var init, s := ss[..|ss| - 1], Last(ss);
      assert ss == init + [s];
      GatheredUnion(init);
      ClashSnoc(init, s);
      if GatherAll(init).Some? {
        UnionSnoc(init, s);
      } else {
        GatherSnoc(init, s);
        OverlapMore(init, s);
      }
    }
  }

  lemma NothingGathered()
    ensures GatherAll([]) == Some(NONE_YET) && NoOverlap([]) && NoClash(SetsOf([]))
  {}

  lemma UnionSnoc(init: seq<Stage>, s: Stage)
    requires GatherAll(init).Some? && NoOverlap(init)
    requires forall f, v :: Holds(GatherAll(init).value.merged, f, v) <==>
               exists i :: 0 <= i < |init| && Contributes(init[i], f, v)
    ensures GatherAll(init + [s]).Some? <==> NoOverlap(init + [s]) && NoClash(SetsOf(init + [s]))
    ensures GatherAll(init + [s]).Some? ==>
              forall f, v :: Holds(GatherAll(init + [s]).value.merged, f, v) <==>
                exists i :: 0 <= i < |init + [s]| && Contributes((init + [s])[i], f, v)
  {
    hide AddSets, NoClash, NoOverlap, GatherAll, SetsOf, Holds;
    var merged := GatherAll(init).value.merged;
    GatherSnoc(init, s);
    ClashSnoc(init, s);
    GatheredSets(init);
    OverlapSnoc(init, s, merged);
    AddSetsConcat(map[], SetsOf(init), s.result.sets);
    ClashSome(SetsOf(init));
    ClashSome(SetsOf(init) + s.result.sets);
    MergedHolds(merged, s.result.contribution);
    if GatherAll(init + [s]).Some? {
      var after := GatherAll(init + [s]).value.merged;
      forall f, v
        ensures Holds(after, f, v) <==> exists i :: 0 <= i < |init + [s]| && Contributes((init + [s])[i], f, v)
      {
        ContributesSnoc(init, s, f, v);
        assert Holds(after, f, v) <==> Holds(merged, f, v) || Contributes(s, f, v);
      }
    }
  }

  lemma ClashSome(sets: seq<ItemSet>)
    ensures AddSets(map[], sets).Some? <==> NoClash(sets)
  {
    MergedUnion(sets);
  }

  lemma MergedHolds(into: Fields, c: Fields)
    ensures into.Keys !! c.Keys ==> forall f, v :: Holds(into + c, f, v) <==> Holds(into, f, v) || Holds(c, f, v)
  {}

  lemma ClashSnoc(init: seq<Stage>, s: Stage)
    ensures SetsOf(init + [s]) == if s.fails then SetsOf(init) else SetsOf(init) + s.result.sets
    ensures NoClash(SetsOf(init + [s])) ==> NoClash(SetsOf(init))
  {
    assert (init + [s])[..|init|] == init;
    var a, all := SetsOf(init), SetsOf(init + [s]);
    assert SetsOf(init) + [] == SetsOf(init);
    assert forall i :: 0 <= i < |a| ==> all[i] == a[i];
  }

  lemma OverlapMore(init: seq<Stage>, s: Stage)
    ensures NoOverlap(init + [s]) ==> NoOverlap(init)
  {
    assert forall i :: 0 <= i < |init| ==> (init + [s])[i] == init[i];
  }

  lemma ContributesSnoc(init: seq<Stage>, s: Stage, f: string, v: int)
    ensures (exists i :: 0 <= i < |init + [s]| && Contributes((init + [s])[i], f, v)) <==>
              (exists i :: 0 <= i < |init| && Contributes(init[i], f, v)) || Contributes(s, f, v)
  {
    hide Contributes;
    var all := init + [s];
    assert all[|init|] == s && forall i :: 0 <= i < |init| ==> all[i] == init[i];
  }

  lemma OverlapSnoc(init: seq<Stage>, s: Stage, merged: Fields)
    requires NoOverlap(init)
    requires forall f, v :: Holds(merged, f, v) <==> exists i :: 0 <= i < |init| && Contributes(init[i], f, v)
    ensures NoOverlap(init + [s]) <==> s.fails || merged.Keys !! s.result.contribution.Keys
  {
    var all := init + [s];
    assert all[|init|] == s && forall i :: 0 <= i < |init| ==> all[i] == init[i];
    if !s.fails {
      if merged.Keys !! s.result.contribution.Keys {
        forall i | 0 <= i < |init| && !init[i].fails
          ensures init[i].result.contribution.Keys !! s.result.contribution.Keys
        {
          forall f | f in init[i].result.contribution ensures f in merged {
            assert Contributes(init[i], f, init[i].result.contribution[f]);
            assert Holds(merged, f, init[i].result.contribution[f]);
          }
        }
      } else {
        var f :| f in merged && f in s.result.contribution;
        assert Holds(merged, f, merged[f]);
        var i :| 0 <= i < |init| && Contributes(init[i], f, merged[f]);
        assert f in all[i].result.contribution.Keys * all[|init|].result.contribution.Keys;
      }
    }
  }

  lemma Declared(ss: seq<Stage>, s: Stage, m: string)
    requires GatherAll(ss).Some?
    ensures s in ss && s.fails && m in s.declares ==> m in GatherAll(ss).value.skip
  {
    GatheredSkips(ss, m);
    if s in ss && s.fails && m in s.declares {
      var i :| 0 <= i < |ss| && ss[i] == s;
    }
  }

  predicate InTurn(sets: seq<ItemSet>) {
    forall i, j :: 0 <= i < j < |sets| ==> Precedes(sets[i].manager, sets[j].manager)
  }

  /** Some part gives the manager's field the value. */
  predicate GivenBy(sets: seq<ItemSet>, manager: string, f: string, v: int) {
    exists i :: 0 <= i < |sets| && Gives(sets[i], manager, f, v)
  }

  /** The writes of a pass: each manager's set at most once, in the order to apply them, none of a
      manager a failed stage declares, each the union of what the stages that succeeded give it, and each
      sent at the resourceVersion the server answered the one before with. */
  lemma WritesOfPass(ss: seq<Stage>, status: Fields, item: Fields -> ItemAnswer, server: (int, ItemSet) -> SetAnswer,
                     end: End, log: seq<Write>, run: seq<Effect>, out: seq<ItemSet>)
    requires PassOf(ss, status, item, server, end, log, run, out)
    ensures forall i, j :: 0 <= i < j < |log| ==> Precedes(log[i].sent.manager, log[j].sent.manager)
    ensures forall k, s :: 0 <= k < |log| && s in ss && s.fails ==> log[k].sent.manager !in s.declares
    ensures forall k, f, v :: 0 <= k < |log| ==>
              (Holds(log[k].sent.fields, f, v) <==> GivenBy(SetsOf(ss), log[k].sent.manager, f, v))
    ensures log != [] ==> GatherAll(ss).Some? && item(GatherAll(ss).value.merged) == ItemLanded(log[0].rv)
    ensures forall k, l :: 0 <= k < l < |log| && l == k + 1 ==> server(log[k].rv, log[k].sent) == Landed(log[l].rv)
  {
    hide GatherAll, SetsOf, Precedes, SetEqual, TriedAll, EndOf, GivenBy, Holds;
    if log != [] {
      var g := GatherAll(ss).value;
      DueOrdered(out, g.skip, status);
      forall k, s | 0 <= k < |log| && s in ss && s.fails ensures log[k].sent.manager !in s.declares {
        assert log[k].sent in Due(out, g.skip, status);
        Declared(ss, s, log[k].sent.manager);
      }
      forall k, f, v | 0 <= k < |log|
        ensures Holds(log[k].sent.fields, f, v) <==> GivenBy(SetsOf(ss), log[k].sent.manager, f, v)
      {
        assert log[k].sent in Due(out, g.skip, status);
        SentUnion(ss, out, log[k].sent, f, v);
      }
    }
  }

  lemma SentUnion(ss: seq<Stage>, out: seq<ItemSet>, s: ItemSet, f: string, v: int)
    requires GatherAll(ss).Some? && Ordered(out, GatherAll(ss).value.sets) && s in out
    ensures Holds(s.fields, f, v) <==> GivenBy(SetsOf(ss), s.manager, f, v)
  {
    hide GatherAll, SetsOf, Precedes;
    GatheredSets(ss);
    MergedUnion(SetsOf(ss));
    assert Has(GatherAll(ss).value.sets, s.manager, f, v) <==> Holds(s.fields, f, v);
  }

  lemma {:induction false} DueOrdered(out: seq<ItemSet>, skip: set<string>, status: Fields)
    requires InTurn(out)
    ensures InTurn(Due(out, skip, status))
  {
    hide Precedes, IsDue;
    if out != [] {
      var init, last := out[..|out| - 1], Last(out);
      DueOrdered(init, skip, status);
      var due := Due(init, skip, status);
      forall i | 0 <= i < |due| ensures Precedes(due[i].manager, last.manager) {
        assert due[i] in init;
        var k :| 0 <= k < |init| && init[k] == due[i];
        assert out[k] == due[i];
      }
      assert InTurn(due + [last]);
    }
  }

  /** What a pass that finished has written: wherever a stage that succeeded gives a manager's field a value the
      status has not, and no failed stage declares the manager, the server landed a set with it. */
  lemma FinishedWrites(ss: seq<Stage>, status: Fields, item: Fields -> ItemAnswer, server: (int, ItemSet) -> SetAnswer,
                       log: seq<Write>, run: seq<Effect>, out: seq<ItemSet>, s: Stage, p: ItemSet, f: string)
    returns (k: nat)
    requires PassOf(ss, status, item, server, Finished, log, run, out)
    requires s in ss && !s.fails && p in s.result.sets && f in p.fields && Get(status, f) != p.fields[f]
    requires forall z <- ss :: z.fails ==> p.manager !in z.declares
    ensures k < |log| && log[k].sent.manager == p.manager && Holds(log[k].sent.fields, f, p.fields[f])
    ensures server(log[k].rv, log[k].sent).Landed?
  {
    hide GatherAll, SetsOf, Precedes, SetEqual, TriedAll, EndOf, GivenBy, Due, Get;
    var g := GatherAll(ss).value;
    PartOf(ss, s, p);
    var w := MergedInto(ss, out, p, f);
    DueExactly(out, g.skip, status, w);
    GatheredSkips(ss, p.manager);
    assert w in Due(out, g.skip, status);
    var due := Due(out, g.skip, status);
    k :| k < |due| && due[k] == w;
    if k < |log| - 1 { assert log[k].answer == Landed(log[k + 1].rv); }
  }

  lemma {:induction false} PartOf(ss: seq<Stage>, s: Stage, p: ItemSet)
    requires s in ss && !s.fails && p in s.result.sets
    ensures p in SetsOf(ss)
  {
    if s in ss[..|ss| - 1] { PartOf(ss[..|ss| - 1], s, p); }
  }

  lemma MergedInto(ss: seq<Stage>, out: seq<ItemSet>, p: ItemSet, f: string) returns (w: ItemSet)
    requires GatherAll(ss).Some? && Ordered(out, GatherAll(ss).value.sets) && p in SetsOf(ss) && f in p.fields
    ensures w in out && w.manager == p.manager && Holds(w.fields, f, p.fields[f])
  {
    hide GatherAll, SetsOf, Precedes;
    GatheredSets(ss);
    MergedUnion(SetsOf(ss));
    var i :| 0 <= i < |SetsOf(ss)| && SetsOf(ss)[i] == p;
    assert Gives(SetsOf(ss)[i], p.manager, f, p.fields[f]);
    assert Has(GatherAll(ss).value.sets, p.manager, f, p.fields[f]);
    var j :| 0 <= j < |out| && out[j].manager == p.manager;
    w := out[j];
  }

  /** The stages a pass runs are those the kind has, in the order of the names. */
  lemma {:induction false} InOrderExactly(stages: seq<Stage>, names: seq<string>, s: Stage)
    ensures s in InOrder(stages, names) <==> s in stages && s.applies && s.name in names
  {
    if names != [] {
      InOrderExactly(stages, names[..|names| - 1], s);
      MeetingExactly(stages, Last(names), s);
      assert names == names[..|names| - 1] + [Last(names)];
    }
  }

  lemma {:induction false} MeetingExactly(stages: seq<Stage>, name: string, s: Stage)
    ensures s in Meeting(stages, name) <==> s in stages && s.applies && s.name == name
  {
    if stages != [] {
      MeetingExactly(stages[..|stages| - 1], name, s);
      assert stages == stages[..|stages| - 1] + [Last(stages)];
    }
  }

  /** Each comes after those of every name before its own. */
  lemma {:induction false} InOrderInTurn(stages: seq<Stage>, names: seq<string>, i: nat, j: nat)
    requires Distinct(names) && i < j < |InOrder(stages, names)|
    ensures var ss := InOrder(stages, names);
            exists m, n :: 0 <= m <= n < |names| && ss[i].name == names[m] && ss[j].name == names[n]
  {
    var init, last := names[..|names| - 1], Last(names);
    var before := InOrder(stages, init);
    if j < |before| {
      InOrderInTurn(stages, init, i, j);
      var m, n :| 0 <= m <= n < |init| && before[i].name == init[m] && before[j].name == init[n];
      assert names[m] == init[m] && names[n] == init[n];
    } else {
      var ss := InOrder(stages, names);
      MeetingExactly(stages, last, ss[j]);
      assert ss[j] in Meeting(stages, last);
      assert ss[j].name == names[|names| - 1];
      if i < |before| {
        InOrderExactly(stages, init, before[i]);
        assert before[i] in before;
        var m :| 0 <= m < |init| && init[m] == before[i].name;
        assert names[m] == init[m];
      } else {
        MeetingExactly(stages, last, ss[i]);
        assert ss[i] in Meeting(stages, last);
      }
    }
  }

  /** A stage that succeeded comes in the order of effects behind those before it, its result kept when no other
      that succeeded has its name. */
  lemma {:induction false} StageKept(ss: seq<Stage>, i: nat) returns (after: seq<string>)
    requires GatherAll(ss).Some? && i < |ss| && !ss[i].fails
    ensures GatherAll(ss[..i]).Some?
    ensures GatherAll(ss).value.order == GatherAll(ss[..i]).value.order + [ss[i].name] + after
    ensures ss[i].name in GatherAll(ss).value.results
    ensures (forall j :: 0 <= j < |ss| && j != i && !ss[j].fails ==> ss[j].name != ss[i].name) ==>
              GatherAll(ss).value.results[ss[i].name] == ss[i].result
  {
    hide MergeContribution, AddSets;
    var init := ss[..|ss| - 1];
    if i == |init| {
      after := [];
      assert ss[..i] == init;
      var order := GatherAll(init).value.order;
      assert order + [ss[i].name] + [] == order + [ss[i].name];
    } else {
      assert init[..i] == ss[..i];
      after := StageKept(init, i);
      if !Last(ss).fails { after := after + [Last(ss).name]; }
      assert Last(ss) == ss[|init|];
    }
  }

  /** Every stage's batch runs, whatever came of those before it. */
  lemma {:induction false} EachBatchRuns(order: seq<string>, results: map<string, ItemResult>, i: nat)
    returns (before: seq<Effect>, after: seq<Effect>)
    requires i < |order| && order[i] in results
    ensures TriedAll(order, results) == before + Tried(results[order[i]].effects) + after
    ensures before == TriedAll(order[..i], results)
  {
    hide Tried;
    var init := order[..|order| - 1];
    if i < |init| {
      before, after := EachBatchRuns(init, results, i);
      assert init[..i] == order[..i];
      after := after + if Last(order) in results then Tried(results[Last(order)].effects) else [];
    } else {
      before, after := TriedAll(init, results), [];
      assert order[..i] == init;
      assert before + Tried(results[order[i]].effects) + [] == before + Tried(results[order[i]].effects);
    }
  }

  /** No manager precedes itself, so none is written twice. */
  lemma PrecedesOnce(m: string)
    ensures !Precedes(m, m)
  {
    BeforeOrders(m, "", "");
  }

  lemma {:induction false} TriedFrom(order: seq<string>, results: map<string, ItemResult>, e: Effect)
    requires e in TriedAll(order, results)
    ensures exists n :: n in order && n in results && e in results[n].effects
  {
    if e in TriedAll(order[..|order| - 1], results) {
      TriedFrom(order[..|order| - 1], results, e);
    } else {
      TriedIn(results[Last(order)].effects, e);
    }
  }

  /** Every result kept is a stage's that succeeded, so a failed stage's effects never run. */
  lemma {:induction false} ResultsFrom(ss: seq<Stage>, n: string)
    requires GatherAll(ss).Some? && n in GatherAll(ss).value.results
    ensures exists s :: s in ss && !s.fails && s.name == n && s.result == GatherAll(ss).value.results[n]
  {
    var init := ss[..|ss| - 1];
    hide AddSets, MergeContribution;
    assert ss == init + [Last(ss)];
    if n in GatherAll(init).value.results { ResultsFrom(init, n); }
  }

  /** An effect that runs is one of a stage that succeeded, and runs only once the item's own pass landed
      and the server landed every set that was due. */
  lemma EffectsOfPass(ss: seq<Stage>, status: Fields, item: Fields -> ItemAnswer, server: (int, ItemSet) -> SetAnswer,
                      end: End, log: seq<Write>, run: seq<Effect>, out: seq<ItemSet>, e: Effect)
    requires PassOf(ss, status, item, server, end, log, run, out) && e in run
    ensures GatherAll(ss).Some? && item(GatherAll(ss).value.merged).ItemLanded?
    ensures forall s :: s in Due(out, GatherAll(ss).value.skip, status) ==>
              exists k :: 0 <= k < |log| && log[k].sent == s && server(log[k].rv, s).Landed?
    ensures exists s :: s in ss && !s.fails && e in s.result.effects
  {
    hide GatherAll, TriedAll, Due, Ordered, EndOf;
    var g := GatherAll(ss).value;
    var due := Due(out, g.skip, status);
    forall s | s in due ensures exists k :: 0 <= k < |log| && log[k].sent == s && server(log[k].rv, s).Landed? {
      var k :| 0 <= k < |due| && due[k] == s;
      assert log[k].sent == s;
      if k < |log| - 1 { assert log[k].answer == Landed(log[k + 1].rv); }
    }
    TriedFrom(g.order, g.results, e);
    var n :| n in g.order && n in g.results && e in g.results[n].effects;
    ResultsFrom(ss, n);
  }
}
