/** Exactly when a valid payload is applied. */
module Accepted {
  import opened Text
  import opened Keyed
  import opened RuleTables
  import opened Settings
  import opened Database
  import opened Replace
  import opened Merge
  import opened MergeTwice

  predicate ListedId(counters: seq<ExportCounter>, cid: string) {
    exists i :: 0 <= i < |counters| && Trim(counters[i].cid) == cid
  }

  /** A flat rule may name a counter of the same payload or, when merging, one the database has. */
  predicate Known(s: State, p: Payload, replace: bool, cid: string) {
    ListedId(p.counters, cid) || (!replace && CounterRow(s.counters, cid).Some?)
  }

  ghost predicate FlatKnown<B>(s: State, p: Payload, replace: bool, rules: seq<FlatRule<B>>) {
    forall i :: 0 <= i < |rules| ==> Known(s, p, replace, Trim(rules[i].cid))
  }

  lemma DistinctIff(t: Counters, counters: seq<ExportCounter>)
    requires t.rows == []
    ensures CountersAfter(t, CounterItems(counters), true).Ok? <==> DistinctIds(counters)
    ensures DistinctIds(counters)
            ==> CountersAfter(t, CounterItems(counters), true).value == InsertAll(t, CounterItems(counters))
  {
    hide Find, Trim, InsertUnique, InsertAll, StoredCounter;
    var items := CounterItems(counters);
    InsertUniqueIff(t, items);
    InsertAllAppends(t, items);
    var u := InsertAll(t, items);
    forall i | 0 <= i < |counters|
      ensures u.rows[i].key == Trim(counters[i].cid)
    {
      assert u.rows[0 + i] == Row(t.next + i, items[i].0, items[i].1);
    }
  }

  lemma {:induction false} SomeListed(items: seq<(string, CounterVals)>, k: string,
                                      m: (CounterVals, CounterVals) -> CounterVals)
    ensures Listed(items, k, m).Some? <==> exists n :: 0 <= n < |items| && items[n].0 == k
  {
    if items != [] {
      var n := |items| - 1;
      SomeListed(items[..n], k, m);
      ListedMore(items[..n], m, items[n].0, items[n].1, k);
      assert items[..n] + [items[n]] == items;
      hide Listed;
      assert forall j :: 0 <= j < n ==> items[..n][j] == items[j];
    }
  }

  /** Once the counters are written, the known ones are those with a row. */
  lemma KnownIff(s: State, p: Payload, replace: bool, cid: string)
    requires CountersAfter(Base(s, p, replace).counters, CounterItems(p.counters), replace).Ok?
    ensures CounterRow(CountersAfter(Base(s, p, replace).counters, CounterItems(p.counters), replace).value, cid).Some?
        <==> Known(s, p, replace, cid)
  {
    hide Find, Trim, StoredCounter, InsertUnique, InsertAll, PutAll, Listed, Lawful;
    var items := CounterItems(p.counters);
    assert ListedId(p.counters, cid) <==> exists n :: 0 <= n < |items| && items[n].0 == cid by {
      if ListedId(p.counters, cid) {
        var i :| 0 <= i < |p.counters| && Trim(p.counters[i].cid) == cid;
        assert items[i].0 == cid;
      }
    }
    if replace {
      KnownInserted(Base(s, p, true).counters, p.counters, cid);
    } else {
      MergesLawful();
      PutAllUpserts(s.counters, items, MergeCounter);
      SomeListed(items, cid, MergeCounter);
      KnownMerged(s.counters, items, PutAll(s.counters, items, MergeCounter), cid);
    }
  }

  lemma KnownInserted(t: Counters, counters: seq<ExportCounter>, cid: string)
    requires t.rows == [] && CountersAfter(t, CounterItems(counters), true).Ok?
    ensures CounterRow(CountersAfter(t, CounterItems(counters), true).value, cid).Some? <==> ListedId(counters, cid)
  {
    hide Find, Trim, StoredCounter, InsertUnique, InsertAll, CountersAfter;
    DistinctIff(t, counters);
    var items := CounterItems(counters);
    InsertAllAppends(t, items);
    var u := InsertAll(t, items);
    var at := Find(u.rows, cid);
    if at >= 0 {
      assert u.rows[0 + at] == Row(t.next + at, items[at].0, items[at].1);
    }
    if ListedId(counters, cid) {
      var i :| 0 <= i < |counters| && Trim(counters[i].cid) == cid;
      assert u.rows[0 + i] == Row(t.next + i, items[i].0, items[i].1);
    }
  }

  lemma KnownMerged(t: Counters, items: seq<(string, CounterVals)>, u: Counters, cid: string)
    requires Upserted(t, items, MergeCounter, u)
    ensures CounterRow(u, cid).Some? <==> CounterRow(t, cid).Some? || Listed(items, cid, MergeCounter).Some?
  {
    hide Find, Listed, Taken;
    OldKeys(t, items, MergeCounter, u);
    var at, before := Find(u.rows, cid), Find(t.rows, cid);
    assert before >= 0 ==> u.rows[before].key == cid;
    if at >= |t.rows| {
      assert NewRow(t, items, MergeCounter, u, at);
    }
  }

  lemma {:induction false} ResolvesIff<B, V, W>(counters: Table<string, W>, rules: seq<FlatRule<B>>, stored: B -> V)
    ensures Resolve(counters, rules, stored).Ok?
            <==> forall i :: 0 <= i < |rules| ==> CounterRow(counters, rules[i].cid).Some?
  {
    hide CounterRow;
    if rules != [] {
      ResolvesIff(counters, rules[..|rules| - 1], stored);
    }
  }

  lemma RulesKnownIff<B, V>(s: State, p: Payload, replace: bool, groups: seq<Owned<B>>, rules: seq<FlatRule<B>>,
                            stored: B -> V)
    requires CountersAfter(Base(s, p, replace).counters, CounterItems(p.counters), replace).Ok?
    requires |groups| == |p.counters| && forall i :: 0 <= i < |groups| ==> groups[i].cid == Trim(p.counters[i].cid)
    ensures Resolve(CountersAfter(Base(s, p, replace).counters, CounterItems(p.counters), replace).value,
                    Flatten(groups) + TrimIds(rules), stored).Ok?
        <==> FlatKnown(s, p, replace, rules)
  {
    hide Base, CountersAfter, CounterItems, Known, CounterRow, Resolve, Trim, Flatten;
    var counters := CountersAfter(Base(s, p, replace).counters, CounterItems(p.counters), replace).value;
    var nested, all := Flatten(groups), Flatten(groups) + TrimIds(rules);
    ResolvesIff(counters, all, stored);
    forall i | 0 <= i < |nested|
      ensures CounterRow(counters, all[i].cid).Some?
    {
      assert nested[i] in nested;
      FlattenedFrom(groups, nested[i]);
      NestedKnown(s, p, replace, groups, nested[i].cid);
      KnownIff(s, p, replace, nested[i].cid);
    }
    forall i | 0 <= i < |rules|
      ensures all[|nested| + i].cid == Trim(rules[i].cid)
      ensures CounterRow(counters, Trim(rules[i].cid)).Some? <==> Known(s, p, replace, Trim(rules[i].cid))
    {
      KnownIff(s, p, replace, Trim(rules[i].cid));
    }
    hide FlatKnown;
    FlatIff(s, p, replace, counters, all, |nested|, rules);
  }

  lemma NestedKnown<B>(s: State, p: Payload, replace: bool, groups: seq<Owned<B>>, cid: string)
    requires |groups| == |p.counters| && forall i :: 0 <= i < |groups| ==> groups[i].cid == Trim(p.counters[i].cid)
    requires exists i :: 0 <= i < |groups| && groups[i].cid == cid
    ensures Known(s, p, replace, cid)
  {
    hide Trim;
    var i :| 0 <= i < |groups| && groups[i].cid == cid;
    assert Trim(p.counters[i].cid) == cid;
  }

  lemma FlatIff<B>(s: State, p: Payload, replace: bool, counters: Counters, all: seq<FlatRule<B>>, n: nat,
                   rules: seq<FlatRule<B>>)
    requires |all| == n + |rules|
    requires forall i :: 0 <= i < n ==> CounterRow(counters, all[i].cid).Some?
    requires forall i :: 0 <= i < |rules| ==>
               all[n + i].cid == Trim(rules[i].cid)
               && (CounterRow(counters, Trim(rules[i].cid)).Some? <==> Known(s, p, replace, Trim(rules[i].cid)))
    ensures (forall i :: 0 <= i < |all| ==> CounterRow(counters, all[i].cid).Some?) <==> FlatKnown(s, p, replace, rules)
  {
    hide CounterRow, Known, Trim;
    if FlatKnown(s, p, replace, rules) {
      forall i | 0 <= i < |all|
        ensures CounterRow(counters, all[i].cid).Some?
      {
        assert i >= n ==> all[n + (i - n)].cid == Trim(rules[i - n].cid);
      }
    }
    if forall i :: 0 <= i < |all| ==> CounterRow(counters, all[i].cid).Some? {
      forall i | 0 <= i < |rules|
        ensures Known(s, p, replace, Trim(rules[i].cid))
      {
        assert CounterRow(counters, all[n + i].cid).Some?;
      }
    }
  }

  /** A valid payload is applied exactly when, replacing, no external id repeats among its counters, and
      every flat rule names a counter of the payload or, merging, of the database. */
  lemma AppliedIff(s: State, p: Payload, replace: bool)
    ensures Applied(s, p, replace).Ok? <==>
            && (replace ==> DistinctIds(p.counters))
            && FlatKnown(s, p, replace, p.triggers) && FlatKnown(s, p, replace, p.reports)
  {
    hide CounterItems, Resolve, FlatKnown, DistinctIds, Flatten, TrimIds, InsertUnique, PutAll, RulesAfter,
      ActionsAfter, Trim;
    var base := Base(s, p, replace);
    if replace {
      DistinctIff(base.counters, p.counters);
    }
    if CountersAfter(base.counters, CounterItems(p.counters), replace).Ok? {
      RulesKnownIff(s, p, replace, TriggerGroups(p.counters), p.triggers, StoredTrigger);
      RulesKnownIff(s, p, replace, ReportGroups(p.counters), p.reports, StoredReport);
    }
  }
}
