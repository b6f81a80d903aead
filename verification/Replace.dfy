/** Importing with replacement: what a payload shows after it has been imported and exported again. */
module Replace {
  import opened Text
  import opened Keyed
  import opened RuleTables
  import opened Settings
  import opened Database

  // ---- Counters ----

  lemma UniqueMore<K, V>(rows: seq<Row<K, V>>, x: Row<K, V>)
    ensures UniqueKeys(rows + [x]) <==> UniqueKeys(rows) && Find(rows, x.key) < 0
  {
    hide Find;
    var more := rows + [x];
    if UniqueKeys(more) {
      assert forall j :: 0 <= j < |rows| ==> more[j].key == rows[j].key && more[j].key != more[|rows|].key;
      forall i, j | 0 <= i < j < |rows|
        ensures rows[i].key != rows[j].key
      {
        assert more[i].key != more[j].key;
      }
    }
  }

  /** Plain inserts are accepted exactly when no external id repeats, and then give fresh rows. */
  lemma {:induction false} InsertUniqueIff<V>(t: Table<string, V>, items: seq<(string, V)>)
    requires UniqueKeys(t.rows)
    ensures InsertUnique(t, items).Ok? <==> UniqueKeys(InsertAll(t, items).rows)
    ensures InsertUnique(t, items).Ok? ==> InsertUnique(t, items).value == InsertAll(t, items)
  {
    hide Find, UniqueKeys;
    if items != [] {
      var init, last := items[..|items| - 1], items[|items| - 1];
      InsertUniqueIff(t, init);
      var u := InsertAll(t, init);
      UniqueMore(u.rows, Row(u.next, last.0, last.1));
    }
  }

  ghost predicate DistinctIds(counters: seq<ExportCounter>) {
    forall i, j :: 0 <= i < j < |counters| ==> Trim(counters[i].cid) != Trim(counters[j].cid)
  }

  lemma CountersInserted(t: Counters, counters: seq<ExportCounter>)
    requires t.rows == [] && DistinctIds(counters)
    ensures var r := CountersAfter(t, CounterItems(counters), true);
            && r.Ok? && |r.value.rows| == |counters|
            && forall i :: 0 <= i < |counters| ==>
                 && r.value.rows[i] == Row(t.next + i, Trim(counters[i].cid), StoredCounter(counters[i]))
                 && CounterRow(r.value, Trim(counters[i].cid)) == Some(t.next + i)
  {
    hide Find, Trim, InsertUnique, InsertAll, StoredCounter;
    var items := CounterItems(counters);
    InsertAllAppends(t, items);
    InsertUniqueIff(t, items);
    var u := InsertAll(t, items);
    forall i | 0 <= i < |counters|
      ensures u.rows[i] == Row(t.next + i, Trim(counters[i].cid), StoredCounter(counters[i]))
      ensures CounterRow(u, Trim(counters[i].cid)) == Some(t.next + i)
    {
      assert u.rows[0 + i] == Row(t.next + i, items[i].0, items[i].1);
      forall j | 0 <= j < i
        ensures u.rows[j].key != items[i].0
      {
        assert u.rows[0 + j] == Row(t.next + j, items[j].0, items[j].1);
      }
      FindFirst(u.rows, items[i].0, i);
    }
    assert UniqueKeys(u.rows);
  }

  // ---- Destinations ----

  lemma {:induction false} ActionsInserted(t: Actions, actions: seq<ExportAction>)
    requires forall i :: 0 <= i < |actions| ==> actions[i].destination == ""
    ensures ListedActions(ActionsAfter(t, actions, true).rows) == ListedActions(t.rows) + actions
  {
    if actions != [] {
      var init, last := actions[..|actions| - 1], actions[|actions| - 1];
      ActionsInserted(t, init);
      var u := ActionsAfter(t, init, true);
      var w := Insert(u, AddressOf(last), last.name);
      assert ListedActions(w.rows) == ListedActions(u.rows) + [last];
      assert init + [last] == actions;
    }
  }

  // ---- The whole payload ----

  /** A payload as an export lays it out: only nested rules, trimmed distinct ids, and values that
      storing and listing again do not change. */
  ghost predicate LaidOut(p: Payload) {
    && p.triggers == [] && p.reports == []
    && DistinctIds(p.counters)
    && (forall i :: 0 <= i < |p.counters| ==>
          && Trim(p.counters[i].cid) == p.counters[i].cid
          && Survives(p.counters[i].triggers, StoredTrigger, ListedTrigger)
          && Survives(p.counters[i].reports, StoredReport, ListedReport))
    && (forall i :: 0 <= i < |p.actions| ==> p.actions[i].destination == "")
  }

  /** What a database shows after a payload replaced its settings: the payload, except that the schedule
      and the destinations stay what they were when the payload has none. */
  function Shown(t: State, p: Payload): Payload {
    p.(schedule := OrElse(p.schedule, ScheduleOf(t)),
       actions := if p.actions == [] then ListedActions(t.actions.rows) else p.actions)
  }

  lemma TriggersPlaced(base: State, counters: Counters, p: Payload)
    requires LaidOut(p) && base.triggers.rows == []
    requires Numbered(counters, base.counters.next, TriggerGroups(p.counters))
    ensures var r := Resolve(counters, TriggerRules(p), StoredTrigger);
            && r.Ok?
            && forall i :: 0 <= i < |p.counters| ==>
                 Collected(RulesAfter(base.triggers, r.value, true).rows, base.counters.next + i, ListedTrigger)
                 == p.counters[i].triggers
  {
    hide Numbered, Resolve, Collected, InsertAll, PlaceAll, Flatten, StoredTrigger, ListedTrigger, Trim, Survives,
      DistinctIds;
    var first, groups := base.counters.next, TriggerGroups(p.counters);
    ResolveFlattened(counters, first, groups, StoredTrigger);
    assert TrimIds(p.triggers) == [];
    assert TriggerRules(p) == Flatten(groups);
    forall i | 0 <= i < |p.counters|
      ensures Collected(InsertAll(base.triggers, PlaceAll(first, groups, StoredTrigger)).rows, first + i, ListedTrigger)
           == p.counters[i].triggers
    {
      AllPlacedComeBack(base.triggers, first, groups, i, StoredTrigger, ListedTrigger);
      NothingCollected(first + i, ListedTrigger);
    }
  }

  lemma NothingCollected<B, V>(id: int, listed: V -> B)
    ensures Collected([], id, listed) == []
  {
  }

  lemma ReportsPlaced(base: State, counters: Counters, p: Payload)
    requires LaidOut(p) && base.reports.rows == []
    requires Numbered(counters, base.counters.next, ReportGroups(p.counters))
    ensures var r := Resolve(counters, ReportRules(p), StoredReport);
            && r.Ok?
            && forall i :: 0 <= i < |p.counters| ==>
                 Collected(RulesAfter(base.reports, r.value, true).rows, base.counters.next + i, ListedReport)
                 == p.counters[i].reports
  {
    hide Numbered, Resolve, Collected, InsertAll, PlaceAll, Flatten, StoredReport, ListedReport, Trim, Survives,
      DistinctIds;
    var first, groups := base.counters.next, ReportGroups(p.counters);
    ResolveFlattened(counters, first, groups, StoredReport);
    assert TrimIds(p.reports) == [];
    assert ReportRules(p) == Flatten(groups);
    forall i | 0 <= i < |p.counters|
      ensures Collected(InsertAll(base.reports, PlaceAll(first, groups, StoredReport)).rows, first + i, ListedReport)
           == p.counters[i].reports
    {
      AllPlacedComeBack(base.reports, first, groups, i, StoredReport, ListedReport);
      NothingCollected(first + i, ListedReport);
    }
  }

  /** A laid-out payload always imports with replacement, and is what the database then shows. */
  lemma ReplaceShows(t: State, p: Payload)
    requires LaidOut(p)
    ensures Applied(t, p, true).Ok?
    ensures Exported(Applied(t, p, true).value, 0, true) == Some(Shown(t, p))
  {
    hide CountersAfter, CounterItems, CounterRow, Trim, Resolve, TriggerRules, ReportRules, RulesAfter, Collected,
      ActionsAfter, TriggerGroups, ReportGroups, Survives, ListedActions, DistinctIds;
    var base := Base(t, p, true);
    CountersInserted(base.counters, p.counters);
    var counters := CountersAfter(base.counters, CounterItems(p.counters), true).value;
    AllNumbered(counters, base.counters.next, p.counters);
    TriggersPlaced(base, counters, p);
    ReportsPlaced(base, counters, p);
    ActionsInserted(base.actions, p.actions);
    DestinationsShown(t, p);
    var s := Applied(t, p, true).value;
    CountersShown(s, p.counters, base.counters.next);
  }

  lemma AllNumbered(counters: Counters, first: int, listed: seq<ExportCounter>)
    requires forall i :: 0 <= i < |listed| ==> CounterRow(counters, Trim(listed[i].cid)) == Some(first + i)
    ensures Numbered(counters, first, TriggerGroups(listed)) && Numbered(counters, first, ReportGroups(listed))
  {
    hide CounterRow, Trim;
  }

  lemma DestinationsShown(t: State, p: Payload)
    requires forall i :: 0 <= i < |p.actions| ==> p.actions[i].destination == ""
    ensures ListedActions(ActionsAfter(Base(t, p, true).actions, p.actions, true).rows) == Shown(t, p).actions
  {
    var base := Base(t, p, true);
    ActionsInserted(base.actions, p.actions);
    if p.actions == [] {
      assert ActionsAfter(base.actions, p.actions, true) == t.actions;
    } else {
      hide ActionsAfter;
      assert base.actions.rows == [];
      assert ListedActions(base.actions.rows) == [];
    }
  }

  lemma CountersShown(s: State, counters: seq<ExportCounter>, first: int)
    requires |s.counters.rows| == |counters|
    requires forall i :: 0 <= i < |counters| ==>
               && s.counters.rows[i] == Row(first + i, Trim(counters[i].cid), StoredCounter(counters[i]))
               && Trim(counters[i].cid) == counters[i].cid
               && Collected(s.triggers.rows, first + i, ListedTrigger) == counters[i].triggers
               && Collected(s.reports.rows, first + i, ListedReport) == counters[i].reports
    ensures ListedCounters(s, s.counters.rows, true) == counters
  {
    hide Collected, Trim;
    forall i | 0 <= i < |counters|
      ensures ListedCounter(s, s.counters.rows[i], true) == counters[i]
    {
    }
  }
}
