/** The parts the stages of an item pass contribute, merged: each field from at most one stage. */
module ItemSets {
  import opened Seqs
  import opened Options

  /** Field to value; zero stands for nil and for what is empty. */
  type Fields = map<string, int>

  /** One field manager's fields. */
  datatype ItemSet = ItemSet(manager: string, fields: Fields)

  type Sets = map<string, Fields>

  const GRAB := "catalog-grab"
  const METADATA := "catalog-metadata"
  const ARTWORK := "catalog-artwork"
  const SET_ORDER: seq<string> := [GRAB, METADATA, ARTWORK]

  /** The stage's part of the catalog apply folded in; None when a field was set already. */
  function MergeContribution(into: Fields, c: Fields): Option<Fields> {
    if into.Keys !! c.Keys then Some(into + c) else None
  }

  function FieldsOf(sets: Sets, manager: string): Fields { if manager in sets then sets[manager] else map[] }

  function AddSet(into: Sets, s: ItemSet): Option<Sets> {
    var cur := FieldsOf(into, s.manager);
    if cur.Keys !! s.fields.Keys then Some(into[s.manager := cur + s.fields]) else None
  }

  function AddSets(into: Sets, sets: seq<ItemSet>): Option<Sets> {
    if sets == [] then Some(into)
    else match AddSets(into, sets[..|sets| - 1])
         case None => None
         case Some(m) => AddSet(m, sets[|sets| - 1])
  }

  /** One set's fields folded in, in whatever order the map gives them. */
  method AddFields(cur: Fields, fields: Fields) returns (out: Option<Fields>)
    ensures out == if cur.Keys !! fields.Keys then Some(cur + fields) else None
  {
    var merged, todo := cur, fields.Keys;
    while todo != {}
      invariant todo <= fields.Keys
      invariant cur.Keys !! (fields.Keys - todo)
      invariant merged == cur + (fields - todo)
    {
      var name :| name in todo;
      if name in merged {
        assert name in cur;
        return None;
      }
      merged := merged[name := fields[name]];
      todo := todo - {name};
    }
    assert fields - todo == fields;
    out := Some(merged);
  }

  method MergeSets(into: Sets, sets: seq<ItemSet>) returns (out: Option<Sets>)
    ensures out == AddSets(into, sets)
  {
    var merged := into;
    for i := 0 to |sets|
      invariant AddSets(into, sets[..i]) == Some(merged)
    {
      assert sets[..i + 1][..i] == sets[..i];
      var s := sets[i];
      var cur := FieldsOf(merged, s.manager);
      var fields := AddFields(cur, s.fields);
      if fields.None? {
        AddSetsStops(into, sets, i + 1);
        return None;
      }
      merged := merged[s.manager := fields.value];
    }
    assert sets[..|sets|] == sets;
    out := Some(merged);
  }

  lemma {:induction false} AddSetsStops(into: Sets, sets: seq<ItemSet>, n: nat)
    requires n <= |sets| && AddSets(into, sets[..n]).None?
    ensures AddSets(into, sets).None?
  {
    if n < |sets| {
      assert sets[..|sets| - 1][..n] == sets[..n];
      AddSetsStops(into, sets[..|sets| - 1], n);
    } else {
      assert sets[..n] == sets;
    }
  }

  // What merging means.

  /** No two of the sets give one manager one field. */
  predicate NoClash(sets: seq<ItemSet>) {
    forall i, j :: 0 <= i < j < |sets| && sets[i].manager == sets[j].manager ==>
      sets[i].fields.Keys !! sets[j].fields.Keys
  }

  /** Set i gives the manager's field f the value. */
  predicate Gives(s: ItemSet, manager: string, f: string, v: int) {
    s.manager == manager && f in s.fields && s.fields[f] == v
  }

  predicate Has(m: Sets, manager: string, f: string, v: int) { manager in m && f in m[manager] && m[manager][f] == v }

  /** The merge fails exactly on a clash; otherwise each manager's fields are the union of the parts. */
  lemma {:induction false} MergedUnion(sets: seq<ItemSet>)
    ensures AddSets(map[], sets).Some? <==> NoClash(sets)
    ensures AddSets(map[], sets).Some? ==>
              forall manager, f, v :: Has(AddSets(map[], sets).value, manager, f, v) <==>
                exists i :: 0 <= i < |sets| && Gives(sets[i], manager, f, v)
    ensures AddSets(map[], sets).Some? ==>
              forall manager :: manager in AddSets(map[], sets).value <==>
                exists i :: 0 <= i < |sets| && sets[i].manager == manager
  {
    if sets != [] {
      var init, s := sets[..|sets| - 1], sets[|sets| - 1];
      MergedUnion(init);
      InitLast(sets);
      if AddSets(map[], init).Some? {
        AddedUnion(init, s, AddSets(map[], init).value);
      }
    }
  }

  lemma AddedUnion(init: seq<ItemSet>, s: ItemSet, m: Sets)
    requires forall manager, f, v :: Has(m, manager, f, v) <==>
               exists i :: 0 <= i < |init| && Gives(init[i], manager, f, v)
    requires forall manager :: manager in m <==> exists i :: 0 <= i < |init| && init[i].manager == manager
    requires NoClash(init)
    ensures AddSet(m, s).Some? <==> NoClash(init + [s])
    ensures AddSet(m, s).Some? ==>
              forall manager, f, v :: Has(AddSet(m, s).value, manager, f, v) <==>
                exists i :: 0 <= i < |init + [s]| && Gives((init + [s])[i], manager, f, v)
    ensures AddSet(m, s).Some? ==>
              forall manager :: manager in AddSet(m, s).value <==>
                exists i :: 0 <= i < |init + [s]| && (init + [s])[i].manager == manager
  {
    ClashIsShared(init, s, m);
    if AddSet(m, s).Some? {
      var out, all := AddSet(m, s).value, init + [s];
      forall manager, f, v
        ensures Has(out, manager, f, v) <==> exists i :: 0 <= i < |all| && Gives(all[i], manager, f, v)
      {
        SnocGives(init, s, manager, f, v);
        assert Has(out, manager, f, v) <==> Has(m, manager, f, v) || Gives(s, manager, f, v);
      }
      forall manager ensures manager in out <==> exists i :: 0 <= i < |all| && all[i].manager == manager {
        SnocManager(init, s, manager);
      }
    }
  }

  lemma SnocGives(init: seq<ItemSet>, s: ItemSet, manager: string, f: string, v: int)
    ensures (exists i :: 0 <= i < |init + [s]| && Gives((init + [s])[i], manager, f, v)) <==>
              (exists i :: 0 <= i < |init| && Gives(init[i], manager, f, v)) || Gives(s, manager, f, v)
  {
    var all := init + [s];
    assert all[|init|] == s && forall i :: 0 <= i < |init| ==> all[i] == init[i];
  }

  lemma SnocManager(init: seq<ItemSet>, s: ItemSet, manager: string)
    ensures (exists i :: 0 <= i < |init + [s]| && (init + [s])[i].manager == manager) <==>
              (exists i :: 0 <= i < |init| && init[i].manager == manager) || s.manager == manager
  {
    var all := init + [s];
    assert all[|init|] == s && forall i :: 0 <= i < |init| ==> all[i] == init[i];
  }

  lemma ClashIsShared(init: seq<ItemSet>, s: ItemSet, m: Sets)
    requires forall manager, f, v :: Has(m, manager, f, v) <==>
               exists i :: 0 <= i < |init| && Gives(init[i], manager, f, v)
    requires NoClash(init)
    ensures FieldsOf(m, s.manager).Keys !! s.fields.Keys <==> NoClash(init + [s])
  {
    var all := init + [s];
    assert all[|init|] == s && forall i :: 0 <= i < |init| ==> all[i] == init[i];
    var cur := FieldsOf(m, s.manager);
    if cur.Keys !! s.fields.Keys {
      forall i | 0 <= i < |init| && init[i].manager == s.manager ensures init[i].fields.Keys !! s.fields.Keys {
        forall f | f in init[i].fields ensures f in cur {
          assert Gives(init[i], s.manager, f, init[i].fields[f]);
          assert Has(m, s.manager, f, init[i].fields[f]);
        }
      }
    } else {
      var f :| f in cur && f in s.fields;
      assert Has(m, s.manager, f, cur[f]);
      var i :| 0 <= i < |init| && Gives(init[i], s.manager, f, cur[f]);
      assert all[i].manager == all[|init|].manager && f in all[i].fields.Keys * all[|init|].fields.Keys;
    }
  }

  // The order they are applied in.

  /** Byte order. */
  predicate Before(a: string, b: string) {
    b != "" && (a == "" || a[0] < b[0] || (a[0] == b[0] && Before(a[1..], b[1..])))
  }

  lemma {:induction false} BeforeOrders(a: string, b: string, c: string)
    ensures !Before(a, a)
    ensures Before(a, b) && Before(b, c) ==> Before(a, c)
    ensures a == b || Before(a, b) || Before(b, a)
    decreases |a| + |b| + |c|
  {
    if a != "" && b != "" && c != "" {
      BeforeOrders(a[1..], b[1..], c[1..]);
      if a[0] == b[0] && a[1..] == b[1..] { assert a == [a[0]] + a[1..] == b; }
    } else if a != "" {
      BeforeOrders(a[1..], "", "");
      if b != "" {
        BeforeOrders(a[1..], b[1..], "");
        if a[0] == b[0] && a[1..] == b[1..] { assert a == [a[0]] + a[1..] == b; }
      }
    }
  }

  /** Strings are ordered at their first difference, and a prefix comes first. */
  lemma {:induction false} BeforeIsBytes(p: string, a: string, b: string)
    requires a == "" || b == "" || a[0] != b[0]
    ensures Before(p + a, p + b) <==> b != "" && (a == "" || a[0] < b[0])
  {
    if p == "" {
      assert p + a == a && p + b == b;
    } else {
      assert (p + a)[1..] == p[1..] + a && (p + b)[1..] == p[1..] + b;
      BeforeIsBytes(p[1..], a, b);
    }
  }

  function InsertName(x: string, s: seq<string>): seq<string> {
    if s == [] || Before(x, s[0]) then [x] + s else [s[0]] + InsertName(x, s[1..])
  }

  function SortNames(s: seq<string>): seq<string> { if s == [] then [] else InsertName(s[0], SortNames(s[1..])) }

  predicate ByName(s: seq<string>) { forall i, j :: 0 <= i < j < |s| ==> Before(s[i], s[j]) }

  lemma {:induction false} InsertRises(x: string, s: seq<string>)
    requires ByName(s) && x !in s
    ensures ByName(InsertName(x, s)) && forall y :: y in InsertName(x, s) <==> y == x || y in s
  {
    if s == [] {
    } else if Before(x, s[0]) {
      forall j | 0 <= j < |s| ensures Before(x, s[j]) {
        BeforeOrders(x, s[0], s[j]);
      }
    } else {
      BeforeOrders(x, s[0], "");
      assert x !in s[1..];
      InsertRises(x, s[1..]);
      var rest := InsertName(x, s[1..]);
      assert forall y :: y in s <==> y == s[0] || y in s[1..];
      forall j | 0 <= j < |rest| ensures Before(s[0], rest[j]) {
        assert rest[j] in rest;
        if rest[j] in s[1..] { var k :| 0 <= k < |s[1..]| && s[1..][k] == rest[j]; assert s[k + 1] == rest[j]; }
      }
    }
  }

  lemma {:induction false} SortRises(s: seq<string>)
    requires Distinct(s)
    ensures ByName(SortNames(s)) && forall y :: y in SortNames(s) <==> y in s
  {
    if s != [] {
      SortRises(s[1..]);
      assert s[0] !in s[1..];
      InsertRises(s[0], SortNames(s[1..]));
      assert forall y :: y in s <==> y == s[0] || y in s[1..];
    }
  }

  /** a is applied before b: the named managers in their order, then the others by name. */
  predicate Precedes(a: string, b: string) {
    if a in SET_ORDER && b in SET_ORDER then Rank(a) < Rank(b)
    else if a in SET_ORDER || b in SET_ORDER then a in SET_ORDER
    else Before(a, b)
  }

  function Rank(m: string): nat { if m == GRAB then 0 else if m == METADATA then 1 else 2 }

  method NamesOf(names: set<string>) returns (s: seq<string>)
    ensures Distinct(s) && forall y :: y in s <==> y in names
  {
    s := [];
    var todo := names;
    while todo != {}
      invariant todo <= names && Distinct(s)
      invariant forall y :: y in s <==> y in names - todo
    {
      var x :| x in todo;
      assert x !in s;
      s, todo := s + [x], todo - {x};
    }
  }

  /** The names that have a set. */
  function Having(names: seq<string>, merged: Sets): (out: seq<string>)
    ensures forall m <- out :: m in merged && m in names
  {
    if names == [] then []
    else
      var out, last := Having(names[..|names| - 1], merged), names[|names| - 1];
      if last in merged then out + [last] else out
  }

  /** The names with no place in SET_ORDER. */
  function Unnamed(names: seq<string>): (out: seq<string>)
    ensures forall m <- out :: m in names && m !in SET_ORDER
  {
    if names == [] then []
    else
      var out, last := Unnamed(names[..|names| - 1]), names[|names| - 1];
      if last in SET_ORDER then out else out + [last]
  }

  lemma {:induction false} UnnamedRises(names: seq<string>)
    requires ByName(names)
    ensures ByName(Unnamed(names)) && forall m :: m in names && m !in SET_ORDER ==> m in Unnamed(names)
  {
    hide Before;
    if names != [] {
      var init, last := names[..|names| - 1], names[|names| - 1];
      UnnamedRises(init);
      assert names == init + [last];
      var out := Unnamed(init);
      forall j | 0 <= j < |out| ensures Before(out[j], last) {
        assert out[j] in init;
        var k :| 0 <= k < |init| && init[k] == out[j];
        assert names[k] == out[j];
      }
    }
  }

  predicate RanksRise(s: seq<string>) { forall i, j :: 0 <= i < j < |s| ==> Rank(s[i]) < Rank(s[j]) }

  function If(m: string, merged: Sets): seq<string> { if m in merged then [m] else [] }

  lemma HavingSnoc(names: seq<string>, m: string, merged: Sets)
    ensures Having(names + [m], merged) == Having(names, merged) + If(m, merged)
  {
    assert (names + [m])[..|names|] == names;
  }

  lemma NamedHaving(merged: Sets)
    ensures RanksRise(Having(SET_ORDER, merged))
    ensures forall m :: m in SET_ORDER && m in merged ==> m in Having(SET_ORDER, merged)
  {
    hide Having, RanksRise, Rank, If;
    HavingSnoc([GRAB, METADATA], ARTWORK, merged);
    HavingSnoc([GRAB], METADATA, merged);
    HavingSnoc([], GRAB, merged);
    NoneHaving(merged);
    assert SET_ORDER == [GRAB, METADATA] + [ARTWORK] && [GRAB, METADATA] == [GRAB] + [METADATA] &&
           [GRAB] == [] + [GRAB];
    ThreeParts(merged);
  }

  lemma NoneHaving(merged: Sets)
    ensures Having([], merged) == []
  {}

  lemma ThreeParts(merged: Sets)
    ensures var out := [] + If(GRAB, merged) + If(METADATA, merged) + If(ARTWORK, merged);
            RanksRise(out) && forall m :: m in SET_ORDER && m in merged ==> m in out
  {}

  function SetsFor(names: seq<string>, merged: Sets): (out: seq<ItemSet>)
    requires forall m <- names :: m in merged
    ensures |out| == |names| && forall i :: 0 <= i < |names| ==> out[i] == ItemSet(names[i], merged[names[i]])
  {
    seq(|names|, i requires 0 <= i < |names| => ItemSet(names[i], merged[names[i]]))
  }

  /** Grabs before metadata before artwork before every other manager, and those by name. */
  lemma PrecedesIs(a: string, b: string)
    ensures Precedes(a, b) <==>
              || (a == GRAB && b != GRAB)
              || (a == METADATA && b != GRAB && b != METADATA)
              || (a == ARTWORK && b !in {GRAB, METADATA, ARTWORK})
              || (a !in {GRAB, METADATA, ARTWORK} && b !in {GRAB, METADATA, ARTWORK} && Before(a, b))
  {
    hide Before;
  }

  /** Every merged set once, in the order to apply them. */
  ghost predicate Ordered(out: seq<ItemSet>, merged: Sets) {
    && (forall i :: 0 <= i < |out| ==> out[i].manager in merged && out[i].fields == merged[out[i].manager])
    && (forall m :: m in merged ==> exists i :: 0 <= i < |out| && out[i].manager == m)
    && (forall i, j :: 0 <= i < j < |out| ==> Precedes(out[i].manager, out[j].manager))
  }

  lemma OrderedParts(names: seq<string>, merged: Sets)
    requires ByName(names) && forall m :: m in names <==> m in merged
    ensures Ordered(SetsFor(Having(SET_ORDER, merged) + Unnamed(names), merged), merged)
  {
    hide Before, Having, Unnamed, ByName, RanksRise, Precedes;
    NamedHaving(merged);
    UnnamedRises(names);
    var a, b := Having(SET_ORDER, merged), Unnamed(names);
    var out := SetsFor(a + b, merged);
    forall m | m in merged ensures exists i :: 0 <= i < |out| && out[i].manager == m {
      assert m in a || m in b;
      var i := InEither(a, b, m);
      assert out[i].manager == m;
    }
    PartsPrecede(a, b);
  }

  lemma InEither(a: seq<string>, b: seq<string>, m: string) returns (i: nat)
    requires m in a || m in b
    ensures i < |a + b| && (a + b)[i] == m
  {
    if m in a {
      i :| i < |a| && a[i] == m;
    } else {
      var j :| 0 <= j < |b| && b[j] == m;
      i := |a| + j;
    }
  }

  lemma PartsPrecede(a: seq<string>, b: seq<string>)
    requires (forall m <- a :: m in SET_ORDER) && (forall m <- b :: m !in SET_ORDER)
    requires RanksRise(a) && ByName(b)
    ensures forall i, j :: 0 <= i < j < |a + b| ==> Precedes((a + b)[i], (a + b)[j])
  {
    hide Before, Rank;
    var all := a + b;
    forall i, j | 0 <= i < j < |all| ensures Precedes(all[i], all[j]) {
      if i < |a| { assert all[i] == a[i]; } else { assert all[i] == b[i - |a|]; }
      if j < |a| { assert all[j] == a[j]; } else { assert all[j] == b[j - |a|]; }
    }
  }

  method OrderedSets(merged: Sets) returns (out: seq<ItemSet>)
    ensures Ordered(out, merged)
  {
    hide *;
    out := NamedSets(merged);
    var names := NamesOf(merged.Keys);
    SortRises(names);
    var sorted := SortNames(names);
    out := AddUnnamed(out, sorted, merged, Having(SET_ORDER, merged));
    OrderedParts(sorted, merged);
  }

  /** The loop over the named managers. */
  method NamedSets(merged: Sets) returns (out: seq<ItemSet>)
    ensures out == SetsFor(Having(SET_ORDER, merged), merged)
  {
    out := [];
    for i := 0 to |SET_ORDER|
      invariant out == SetsFor(Having(SET_ORDER[..i], merged), merged)
    {
      assert SET_ORDER[..i + 1][..i] == SET_ORDER[..i];
      var m := SET_ORDER[i];
      if m in merged {
        out := out + [ItemSet(m, merged[m])];
      }
    }
    assert SET_ORDER[..|SET_ORDER|] == SET_ORDER;
  }

  /** The loop over the others. */
  method AddUnnamed(before: seq<ItemSet>, sorted: seq<string>, merged: Sets, ghost named: seq<string>)
    returns (out: seq<ItemSet>)
    requires (forall m <- named :: m in merged) && (forall m <- sorted :: m in merged)
    requires before == SetsFor(named, merged)
    ensures out == SetsFor(named + Unnamed(sorted), merged)
  {
    out := before;
    assert named + [] == named;
    for i := 0 to |sorted|
      invariant out == SetsFor(named + Unnamed(sorted[..i]), merged)
    {
      assert sorted[..i + 1][..i] == sorted[..i];
      var m := sorted[i];
      assert m in sorted;
      if m !in SET_ORDER {
        SetsForSnoc(named, Unnamed(sorted[..i]), m, merged);
        out := out + [ItemSet(m, merged[m])];
      }
    }
    assert sorted[..|sorted|] == sorted;
  }

  lemma SetsForSnoc(named: seq<string>, others: seq<string>, m: string, merged: Sets)
    requires (forall x <- named :: x in merged) && (forall x <- others :: x in merged) && m in merged
    ensures SetsFor(named + (others + [m]), merged) == SetsFor(named + others, merged) + [ItemSet(m, merged[m])]
  {
    assert named + (others + [m]) == named + others + [m];
  }
}
