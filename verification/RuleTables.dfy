/** Rules (triggers and reports) as an import lists them, by the external id of their counter, and as
    tables hold them, by the row id of their counter. */
module RuleTables {
  import opened Text
  import opened Keyed

  /** A rule of an export, named within its counter. */
  datatype ExportRule<B> = ExportRule(name: string, body: B)

  /** A rule listed together with its counter's external id. */
  datatype FlatRule<B> = FlatRule(cid: string, rule: ExportRule<B>)

  /** The rules nested in one counter of an export. */
  datatype Owned<B> = Owned(cid: string, rules: seq<ExportRule<B>>)

  /** A stored rule belongs to a counter row and has a name. */
  type RuleKey = (int, string)

  type RuleTable<V> = Table<RuleKey, V>

  function Under<B>(cid: string, rules: seq<ExportRule<B>>): seq<FlatRule<B>> {
    if rules == [] then []
    else Under(cid, rules[..|rules| - 1]) + [FlatRule(cid, rules[|rules| - 1])]
  }

  /** Nested rules as one flat list, in the order of the counters. */
  function Flatten<B>(groups: seq<Owned<B>>): seq<FlatRule<B>> {
    if groups == [] then []
    else
      var last := groups[|groups| - 1];
      Flatten(groups[..|groups| - 1]) + Under(last.cid, last.rules)
  }

  /** The row id of a counter, if the table has it. */
  function CounterRow<W>(counters: Table<string, W>, cid: string): Option<int> {
    var i := Find(counters.rows, cid);
    if i < 0 then None else Some(counters.rows[i].id)
  }

  /** Rules with their counters looked up and their values in stored form; or the first counter that is
      not in the table. */
  function Resolve<B, V, W>(counters: Table<string, W>, rules: seq<FlatRule<B>>, stored: B -> V)
    : Result<seq<(RuleKey, V)>, string>
  {
    if rules == [] then Ok([])
    else
      match Resolve(counters, rules[..|rules| - 1], stored)
      case Err(cid) => Err(cid)
      case Ok(before) =>
        var last := rules[|rules| - 1];
        match CounterRow(counters, last.cid)
        case None => Err(last.cid)
        case Some(id) => Ok(before + [((id, last.rule.name), stored(last.rule.body))])
  }

  /** Replacing always inserts; merging updates the rule of that name, if the counter has one. */
  function RulesAfter<V>(t: RuleTable<V>, items: seq<(RuleKey, V)>, replace: bool): RuleTable<V> {
    if replace then InsertAll(t, items) else PutAll(t, items, Overwrite)
  }

  function Overwrite<V>(before: V, listed: V): V {
    listed
  }

  /** The table after a list of rules, or the first counter that is missing. */
  function RulesApplied<B, V, W>(counters: Table<string, W>, t: RuleTable<V>, rules: seq<FlatRule<B>>, stored: B -> V,
                                 replace: bool)
    : Result<RuleTable<V>, string>
  {
    var items :- Resolve(counters, rules, stored);
    Ok(RulesAfter(t, items, replace))
  }

  /** The rules of one counter row, in row order, in exported form. */
  function Collected<B, V>(rows: seq<Row<RuleKey, V>>, id: int, listed: V -> B): seq<ExportRule<B>> {
    if rows == [] then []
    else
      var last, before := rows[|rows| - 1], Collected(rows[..|rows| - 1], id, listed);
      if last.key.0 == id then before + [ExportRule(last.key.1, listed(last.val))] else before
  }

  // ---- The loops of the import and the export ----

  /** The ids found so far are those of the table. */
  ghost predicate Cached<W>(ids: map<string, int>, counters: Table<string, W>) {
    forall cid :: cid in ids ==> CounterRow(counters, cid) == Some(ids[cid])
  }

  /** Looks a counter up among the ids found so far, then in the table. */
  method EnsureCounter<W>(ids: map<string, int>, counters: Table<string, W>, cid: string)
    returns (id: Option<int>, found: map<string, int>)
    requires Cached(ids, counters)
    ensures id == CounterRow(counters, cid)
    ensures Cached(found, counters)
  {
    if cid in ids {
      return Some(ids[cid]), ids;
    }
    id := CounterRow(counters, cid);
    found := ids;
    if id.Some? {
      found := ids[cid := id.value];
    }
  }

  /** Applies rules one by one: each becomes a new row, or under merging updates the one of its name.
      Every rule is counted once, and the created ones are the rows gained. */
  method ApplyRules<B, V, W>(counters: Table<string, W>, ids: map<string, int>, table: RuleTable<V>,
                             rules: seq<FlatRule<B>>, stored: B -> V, replace: bool)
    returns (r: Result<RuleTable<V>, string>, found: map<string, int>, created: nat, updated: nat)
    requires Cached(ids, counters)
    ensures Cached(found, counters)
    ensures r == RulesApplied(counters, table, rules, stored, replace)
    ensures r.Ok? ==> created + updated == |rules| && |r.value.rows| == |table.rows| + created
    ensures replace ==> updated == 0
  {
    hide Find, Resolve, CounterRow, PutAll, InsertAll;
    var t := table;
    ghost var items := [];
    found, created, updated := ids, 0, 0;
    NothingApplied(counters, table, stored, replace);
    var i := 0;
    while i < |rules|
      invariant 0 <= i <= |rules|
      invariant Cached(found, counters)
      invariant Resolve(counters, rules[..i], stored) == Ok(items) && t == RulesAfter(table, items, replace)
      invariant created + updated == i && |t.rows| == |table.rows| + created
      invariant replace ==> updated == 0
    {
      var x := rules[i];
      var id;
      id, found := EnsureCounter(found, counters, x.cid);
      ResolveMore(counters, rules, i, stored);
      if id == None {
        RefusedStays(counters, rules, i + 1, stored);
        assert rules[..|rules|] == rules;
        return Err(x.cid), found, created, updated;
      }
      var key, val := (id.value, x.rule.name), stored(x.rule.body);
      AppliedMore(table, items, key, val, replace);
      var at := if replace then -1 else Find(t.rows, key);
      if at >= 0 {
        t := t.(rows := t.rows[at := t.rows[at].(val := val)]);
        updated := updated + 1;
      } else {
        t := Insert(t, key, val);
        created := created + 1;
      }
      items := items + [(key, val)];
      i := i + 1;
    }
    assert rules[..|rules|] == rules;
    r := Ok(t);
  }

  lemma NothingApplied<B, V, W>(counters: Table<string, W>, t: RuleTable<V>, stored: B -> V, replace: bool)
    ensures Resolve(counters, [], stored) == Ok([])
    ensures RulesAfter(t, [], replace) == t
  {
  }

  lemma ResolveMore<B, V, W>(counters: Table<string, W>, rules: seq<FlatRule<B>>, i: nat, stored: B -> V)
    requires i < |rules|
    ensures var before, x := Resolve(counters, rules[..i], stored), rules[i];
            before.Ok? ==>
              Resolve(counters, rules[..i + 1], stored)
              == match CounterRow(counters, x.cid)
                 case None => Err(x.cid)
                 case Some(id) => Ok(before.value + [((id, x.rule.name), stored(x.rule.body))])
  {
    hide CounterRow;
    assert rules[..i + 1][..i] == rules[..i];
  }

  lemma {:induction false} RefusedStays<B, V, W>(counters: Table<string, W>, rules: seq<FlatRule<B>>, i: nat,
                                                 stored: B -> V)
    requires i <= |rules| && Resolve(counters, rules[..i], stored).Err?
    ensures Resolve(counters, rules, stored) == Resolve(counters, rules[..i], stored)
    decreases |rules|
  {
    hide CounterRow;
    if i < |rules| {
      var init := rules[..|rules| - 1];
      assert init[..i] == rules[..i];
      RefusedStays(counters, init, i, stored);
    } else {
      assert rules[..i] == rules;
    }
  }

  lemma AppliedMore<V>(t: RuleTable<V>, items: seq<(RuleKey, V)>, k: RuleKey, v: V, replace: bool)
    ensures RulesAfter(t, items + [(k, v)], replace)
         == if replace then Insert(RulesAfter(t, items, replace), k, v)
            else Put(RulesAfter(t, items, replace), k, v, Overwrite)
  {
    hide Find;
    var more := items + [(k, v)];
    assert more[..|more| - 1] == items;
  }

  /** The rules of one counter row, gathered by walking the table. */
  method Collect<B, V>(rows: seq<Row<RuleKey, V>>, id: int, listed: V -> B) returns (out: seq<ExportRule<B>>)
    ensures out == Collected(rows, id, listed)
  {
    out := [];
    var i := 0;
    while i < |rows|
      invariant 0 <= i <= |rows|
      invariant out == Collected(rows[..i], id, listed)
    {
      assert rows[..i + 1][..i] == rows[..i];
      if rows[i].key.0 == id {
        out := out + [ExportRule(rows[i].key.1, listed(rows[i].val))];
      }
      i := i + 1;
    }
    assert rows[..|rows|] == rows;
  }

  // ---- Nested rules inserted in place come back as they were ----

  function Place<B, V>(id: int, rules: seq<ExportRule<B>>, stored: B -> V): seq<(RuleKey, V)> {
    if rules == [] then []
    else
      var last := rules[|rules| - 1];
      Place(id, rules[..|rules| - 1], stored) + [((id, last.name), stored(last.body))]
  }

  /** Groups of rules placed under counter rows numbered in order. */
  function PlaceAll<B, V>(first: int, groups: seq<Owned<B>>, stored: B -> V): seq<(RuleKey, V)> {
    if groups == [] then []
    else
      var n := |groups| - 1;
      PlaceAll(first, groups[..n], stored) + Place(first + n, groups[n].rules, stored)
  }

  /** Storing a rule and listing it again gives the rule back. */
  ghost predicate Survives<B, V>(rules: seq<ExportRule<B>>, stored: B -> V, listed: V -> B) {
    forall i :: 0 <= i < |rules| ==> listed(stored(rules[i].body)) == rules[i].body
  }

  lemma {:induction false} InsertAllJoins<K, V>(t: Table<K, V>, a: seq<(K, V)>, b: seq<(K, V)>)
    ensures InsertAll(t, a + b) == InsertAll(InsertAll(t, a), b)
  {
    if b == [] {
      assert a + b == a;
    } else {
      var n := |b| - 1;
      InsertAllJoins(t, a, b[..n]);
      assert (a + b)[..|a + b| - 1] == a + b[..n];
    }
  }

  lemma CollectedMore<B, V>(rows: seq<Row<RuleKey, V>>, x: Row<RuleKey, V>, id: int, listed: V -> B)
    ensures Collected(rows + [x], id, listed)
         == Collected(rows, id, listed) + if x.key.0 == id then [ExportRule(x.key.1, listed(x.val))] else []
  {
    assert (rows + [x])[..|rows|] == rows;
  }

  lemma {:induction false} PlacedComesBack<B, V>(t: RuleTable<V>, owner: int, rules: seq<ExportRule<B>>, id: int,
                                                 stored: B -> V, listed: V -> B)
    requires Survives(rules, stored, listed)
    ensures Collected(InsertAll(t, Place(owner, rules, stored)).rows, id, listed)
         == Collected(t.rows, id, listed) + if id == owner then rules else []
  {
    hide Collected;
    if rules != [] {
      var init, x := rules[..|rules| - 1], rules[|rules| - 1];
      PlacedComesBack(t, owner, init, id, stored, listed);
      var items := Place(owner, init, stored);
      var more := items + [((owner, x.name), stored(x.body))];
      assert more[..|more| - 1] == items;
      var u := InsertAll(t, items);
      var row := Row(u.next, (owner, x.name), stored(x.body));
      assert InsertAll(t, more).rows == u.rows + [row];
      CollectedMore(u.rows, row, id, listed);
      assert init + [x] == rules;
    }
  }

  lemma {:induction false} AllPlacedComeBack<B, V>(t: RuleTable<V>, first: int, groups: seq<Owned<B>>, i: nat,
                                                   stored: B -> V, listed: V -> B)
    requires forall g :: g in groups ==> Survives(g.rules, stored, listed)
    ensures Collected(InsertAll(t, PlaceAll(first, groups, stored)).rows, first + i, listed)
         == Collected(t.rows, first + i, listed) + if i < |groups| then groups[i].rules else []
  {
    hide Collected, InsertAll, Place, Survives;
    if groups == [] {
      NothingInserted(t);
    } else {
      var n := |groups| - 1;
      var items, mine := PlaceAll(first, groups[..n], stored), Place(first + n, groups[n].rules, stored);
      AllPlacedComeBack(t, first, groups[..n], i, stored, listed);
      InsertAllJoins(t, items, mine);
      assert groups[n] in groups;
      PlacedComesBack(InsertAll(t, items), first + n, groups[n].rules, first + i, stored, listed);
    }
  }

  lemma NothingInserted<K, V>(t: Table<K, V>)
    ensures InsertAll(t, []) == t
  {
  }

  /** Counters inserted in order are found under consecutive row ids. */
  ghost predicate Numbered<B, W>(counters: Table<string, W>, first: int, groups: seq<Owned<B>>) {
    forall i :: 0 <= i < |groups| ==> CounterRow(counters, groups[i].cid) == Some(first + i)
  }

  lemma {:induction false} ResolveUnder<B, V, W>(counters: Table<string, W>, before: seq<FlatRule<B>>, cid: string,
                                                 id: int, rules: seq<ExportRule<B>>, stored: B -> V)
    requires CounterRow(counters, cid) == Some(id) && Resolve(counters, before, stored).Ok?
    ensures Resolve(counters, before + Under(cid, rules), stored)
         == Ok(Resolve(counters, before, stored).value + Place(id, rules, stored))
  {
    hide CounterRow;
    if rules == [] {
      assert before + Under(cid, rules) == before;
      var done := Resolve(counters, before, stored).value;
      assert done + Place(id, rules, stored) == done;
    } else {
      hide Resolve;
      var init, x := rules[..|rules| - 1], rules[|rules| - 1];
      ResolveUnder(counters, before, cid, id, init, stored);
      var shorter := before + Under(cid, init);
      var all := before + Under(cid, rules);
      assert all == shorter + [FlatRule(cid, x)];
      assert all[..|shorter|] == shorter && all[..|shorter| + 1] == all;
      ResolveMore(counters, all, |shorter|, stored);
      var done, placed := Resolve(counters, before, stored).value, Place(id, init, stored);
      var more := ((id, x.name), stored(x.body));
      assert (done + placed) + [more] == done + (placed + [more]);
    }
  }

  lemma {:induction false} ResolveFlattened<B, V, W>(counters: Table<string, W>, first: int, groups: seq<Owned<B>>,
                                                     stored: B -> V)
    requires Numbered(counters, first, groups)
    ensures Resolve(counters, Flatten(groups), stored) == Ok(PlaceAll(first, groups, stored))
  {
    hide CounterRow, Under, Place;
    if groups == [] {
      assert Resolve<B, V, W>(counters, [], stored) == Ok([]);
    } else {
      hide Resolve;
      var n := |groups| - 1;
      ResolveFlattened(counters, first, groups[..n], stored);
      ResolveUnder(counters, Flatten(groups[..n]), groups[n].cid, first + n, groups[n].rules, stored);
    }
  }

  // ---- Every rule points at a counter ----

  predicate HasId<K, V>(t: Table<K, V>, id: int) {
    exists i :: 0 <= i < |t.rows| && t.rows[i].id == id
  }

  ghost predicate Anchored<V, W>(t: RuleTable<V>, counters: Table<string, W>) {
    forall i :: 0 <= i < |t.rows| ==> HasId(counters, t.rows[i].key.0)
  }

  lemma {:induction false} ResolvedAnchored<B, V, W>(counters: Table<string, W>, rules: seq<FlatRule<B>>,
                                                     stored: B -> V)
    requires Resolve(counters, rules, stored).Ok?
    ensures forall x :: x in Resolve(counters, rules, stored).value ==> HasId(counters, x.0.0)
  {
    hide Find;
    if rules != [] {
      ResolvedAnchored(counters, rules[..|rules| - 1], stored);
      var at := Find(counters.rows, rules[|rules| - 1].cid);
      assert HasId(counters, counters.rows[at].id);
    }
  }

  lemma {:induction false} AppliedAnchored<V, W>(t: RuleTable<V>, counters: Table<string, W>, items: seq<(RuleKey, V)>,
                                                 replace: bool)
    requires Anchored(t, counters) && forall x :: x in items ==> HasId(counters, x.0.0)
    ensures Anchored(RulesAfter(t, items, replace), counters)
  {
    hide Find, HasId;
    if items != [] {
      var n := |items| - 1;
      AppliedAnchored(t, counters, items[..n], replace);
      assert items == items[..n] + [items[n]];
      AppliedMore(t, items[..n], items[n].0, items[n].1, replace);
      hide RulesAfter;
    }
  }
}
