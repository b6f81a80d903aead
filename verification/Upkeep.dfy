/** What keeps a database in the importer's normal form and its rows in the order of their ids: every import
    and every deletion, and what saving a single row has to bring along. */
module Upkeep {
  import opened Text
  import opened Keyed
  import opened RuleTables
  import opened Settings
  import opened Goals
  import opened Database
  import opened Replace
  import opened Merge
  import opened RoundTrip
  import opened Integrity
  import opened Saving

  // ---- Rules stay normal ----

  /** A rule that passes still passes in the form it is listed in after being stored. */
  ghost predicate Holds<B(!new), V>(test: ExportRule<B> -> bool, stored: B -> V, listed: V -> B) {
    forall name, body :: test(ExportRule(name, body)) ==> test(ExportRule(name, listed(stored(body))))
  }

  ghost predicate FlatPass<B>(rules: seq<FlatRule<B>>, test: ExportRule<B> -> bool) {
    forall i :: 0 <= i < |rules| ==> test(rules[i].rule)
  }

  ghost predicate ItemsPass<B, V>(items: seq<(RuleKey, V)>, listed: V -> B, test: ExportRule<B> -> bool) {
    forall i :: 0 <= i < |items| ==> test(ExportRule(items[i].0.1, listed(items[i].1)))
  }

  lemma {:induction false} ResolvedPass<B(!new), V, W>(counters: Table<string, W>, rules: seq<FlatRule<B>>,
                                                       stored: B -> V, listed: V -> B, test: ExportRule<B> -> bool)
    requires Resolve(counters, rules, stored).Ok? && FlatPass(rules, test) && Holds(test, stored, listed)
    ensures ItemsPass(Resolve(counters, rules, stored).value, listed, test)
  {
    hide CounterRow;
    if rules != [] {
      var n := |rules| - 1;
      ResolvedPass(counters, rules[..n], stored, listed, test);
      assert rules[n].rule == ExportRule(rules[n].rule.name, rules[n].rule.body);
    }
  }

  lemma {:induction false} RulesPass<B, V>(t: RuleTable<V>, items: seq<(RuleKey, V)>, replace: bool, listed: V -> B,
                                           test: ExportRule<B> -> bool)
    requires RowsPass(t.rows, listed, test) && ItemsPass(items, listed, test)
    ensures RowsPass(RulesAfter(t, items, replace).rows, listed, test)
  {
    hide Find;
    if items != [] {
      var n := |items| - 1;
      RulesPass(t, items[..n], replace, listed, test);
      assert items == items[..n] + [items[n]];
      AppliedMore(t, items[..n], items[n].0, items[n].1, replace);
      hide RulesAfter;
    }
  }

  lemma {:induction false} FlattenPass<B>(groups: seq<Owned<B>>, test: ExportRule<B> -> bool)
    requires forall i :: 0 <= i < |groups| ==> All(groups[i].rules, test)
    ensures FlatPass(Flatten(groups), test)
  {
    hide Under;
    if groups != [] {
      var n := |groups| - 1;
      FlattenPass(groups[..n], test);
      UnderPass(groups[n].cid, groups[n].rules, test);
    }
  }

  lemma {:induction false} UnderPass<B>(cid: string, rules: seq<ExportRule<B>>, test: ExportRule<B> -> bool)
    requires All(rules, test)
    ensures FlatPass(Under(cid, rules), test)
  {
    if rules != [] {
      UnderPass(cid, rules[..|rules| - 1], test);
    }
  }

  lemma PayloadRulesPass(p: Payload, checks: Checks)
    requires All(p.counters, OwnTest(checks)) && All(p.triggers, FlatTriggerTest(checks))
             && All(p.reports, FlatReportTest(checks))
    ensures FlatPass(TriggerRules(p), TriggerTest(checks)) && FlatPass(ReportRules(p), ReportTest(checks))
  {
    hide Flatten, Trim, TriggerNormal, ReportNormal;
    forall i | 0 <= i < |p.counters|
      ensures All(p.counters[i].triggers, TriggerTest(checks)) && All(p.counters[i].reports, ReportTest(checks))
    {
      assert OwnTest(checks)(p.counters[i]);
    }
    FlattenPass(TriggerGroups(p.counters), TriggerTest(checks));
    FlattenPass(ReportGroups(p.counters), ReportTest(checks));
    forall i | 0 <= i < |p.triggers|
      ensures TriggerTest(checks)(p.triggers[i].rule)
    {
      assert FlatTriggerTest(checks)(p.triggers[i]);
    }
    forall i | 0 <= i < |p.reports|
      ensures ReportTest(checks)(p.reports[i].rule)
    {
      assert FlatReportTest(checks)(p.reports[i]);
    }
  }

  lemma TestsHold(checks: Checks)
    ensures Holds(TriggerTest(checks), StoredTrigger, ListedTrigger)
    ensures Holds(ReportTest(checks), StoredReport, ListedReport)
  {
    hide Trim, FormatGoals, ParseGoals, FilterNormal;
  }

  // ---- Counters and destinations stay normal ----

  ghost predicate CounterItemsPass(items: seq<(string, CounterVals)>) {
    forall i :: 0 <= i < |items| ==> CounterRowNormal(Row(0, items[i].0, items[i].1))
  }

  lemma CounterItemsNormal(counters: seq<ExportCounter>)
    requires All(counters, HeadTest())
    ensures CounterItemsPass(CounterItems(counters))
  {
    forall i | 0 <= i < |counters|
      ensures CounterRowNormal(Row(0, Trim(counters[i].cid), StoredCounter(counters[i])))
    {
      assert HeadTest()(counters[i]);
      TrimTrims(counters[i].cid);
      hide Trim, ParseInt64, Trimmed;
    }
    hide CounterRowNormal, Trim, StoredCounter;
  }

  lemma {:induction false} MergedPass(t: Counters, items: seq<(string, CounterVals)>)
    requires CountersPass(t.rows) && CounterItemsPass(items)
    ensures CountersPass(PutAll(t, items, MergeCounter).rows)
  {
    hide Find, Trim, ParseInt64;
    if items != [] {
      MergedPass(t, items[..|items| - 1]);
    }
  }

  lemma {:induction false} InsertedPass(t: Counters, items: seq<(string, CounterVals)>)
    requires CountersPass(t.rows) && CounterItemsPass(items)
    ensures CountersPass(InsertAll(t, items).rows)
  {
    hide Trim, ParseInt64;
    if items != [] {
      InsertedPass(t, items[..|items| - 1]);
    }
  }

  lemma CountersStayNormal(t: Counters, items: seq<(string, CounterVals)>, replace: bool)
    requires UniqueKeys(t.rows) && CountersPass(t.rows) && CounterItemsPass(items)
             && CountersAfter(t, items, replace).Ok?
    ensures var u := CountersAfter(t, items, replace).value; UniqueKeys(u.rows) && CountersPass(u.rows)
  {
    hide CountersPass, CounterItemsPass, UniqueKeys, PutAll, InsertAll, InsertUnique, Lawful;
    if replace {
      InsertUniqueIff(t, items);
      InsertedPass(t, items);
    } else {
      MergesLawful();
      UniqueKept(t, items, MergeCounter);
      MergedPass(t, items);
    }
  }

  lemma ActionPass(a: ExportAction, row: Row<Address, string>)
    requires ActionNormal(a)
    ensures row.key == AddressOf(a) && row.val == a.name ==> ActionNormal(ListedAction(row))
    ensures ActionNormal(ListedAction(row)) ==> ActionNormal(ListedAction(row.(val := a.name)))
  {
    hide Plain, ChannelOf, IsWebUrl;
  }

  lemma {:induction false} ActionsStayNormal(t: Actions, actions: seq<ExportAction>, replace: bool)
    requires ActionsPass(t.rows) && All(actions, ActionTest())
    ensures ActionsPass(ActionsAfter(t, actions, replace).rows)
  {
    hide FindDestination, ActionNormal;
    if actions != [] {
      var n := |actions| - 1;
      ActionsStayNormal(t, actions[..n], replace);
      var u, a := ActionsAfter(t, actions[..n], replace), actions[n];
      assert ActionTest()(a);
      var at := if replace then -1 else FindDestination(u.rows, AddressOf(a));
      ActionPass(a, if at < 0 then Row(u.next, AddressOf(a), a.name) else u.rows[at]);
    }
  }

  // ---- The state ----

  lemma NormalScheduleStays(s: State, p: Payload, replace: bool, checks: Checks)
    requires ScheduleNormal(ScheduleOf(s), checks) && ScheduleNormal(p.schedule, checks)
    ensures Applied(s, p, replace).Ok? ==> ScheduleNormal(ScheduleOf(Applied(s, p, replace).value), checks)
  {
    hide CountersAfter, Resolve, ScheduleNormal;
  }

  lemma TableNormal<B(!new), V>(t: RuleTable<V>, counters: Counters, rules: seq<FlatRule<B>>, replace: bool,
                                stored: B -> V, listed: V -> B, test: ExportRule<B> -> bool)
    requires RowsPass(t.rows, listed, test) && FlatPass(rules, test) && Holds(test, stored, listed)
    requires Resolve(counters, rules, stored).Ok?
    ensures RowsPass(RulesAfter(t, Resolve(counters, rules, stored).value, replace).rows, listed, test)
  {
    hide Resolve, RowsPass, FlatPass, Holds, ItemsPass, RulesAfter;
    ResolvedPass(counters, rules, stored, listed, test);
    RulesPass(t, Resolve(counters, rules, stored).value, replace, listed, test);
  }

  /** What an import starts writing from is well-formed too. */
  lemma BaseWellFormed(s: State, p: Payload, replace: bool, checks: Checks)
    requires WellFormed(s, checks)
    ensures WellFormed(Base(s, p, replace), checks)
  {
    hide CounterRowNormal, ActionNormal, TriggerTest, ReportTest, ListedAction, ScheduleNormal;
  }

  /** The parts of the state after an import. */
  lemma AppliedParts(s: State, p: Payload, replace: bool)
    requires Applied(s, p, replace).Ok?
    ensures var base, u := Base(s, p, replace), Applied(s, p, replace).value;
            && CountersAfter(base.counters, CounterItems(p.counters), replace) == Ok(u.counters)
            && Resolve(u.counters, TriggerRules(p), StoredTrigger).Ok?
               && Resolve(u.counters, ReportRules(p), StoredReport).Ok?
            && u.triggers
               == RulesAfter(base.triggers, Resolve(u.counters, TriggerRules(p), StoredTrigger).value, replace)
            && u.reports == RulesAfter(base.reports, Resolve(u.counters, ReportRules(p), StoredReport).value, replace)
            && u.actions == ActionsAfter(base.actions, p.actions, replace)
  {
    hide Base, CountersAfter, CounterItems, Resolve, TriggerRules, ReportRules, RulesAfter, ActionsAfter;
  }

  lemma AppliedWellFormed(s: State, p: Payload, replace: bool, checks: Checks)
    requires WellFormed(s, checks) && PayloadNormal(p, checks)
    ensures Applied(s, p, replace).Ok? ==> WellFormed(Applied(s, p, replace).value, checks)
  {
    if Applied(s, p, replace).Err? {
      return;
    }
    AppliedParts(s, p, replace);
    BaseWellFormed(s, p, replace, checks);
    NormalScheduleStays(s, p, replace, checks);
    CounterItemsNormal(p.counters);
    PayloadRulesPass(p, checks);
    TestsHold(checks);
    hide Applied, Base, CountersAfter, Resolve, TriggerRules, ReportRules, RulesAfter, ActionsAfter, RowsPass,
      CounterItems, UniqueKeys, CountersPass, ActionsPass, CounterItemsPass, ScheduleNormal, ScheduleOf, HeadTest,
      ActionTest, TriggerTest, ReportTest, All, FlatPass, Holds, HasAnySettings;
    var base, u := Base(s, p, replace), Applied(s, p, replace).value;
    CountersStayNormal(base.counters, CounterItems(p.counters), replace);
    TableNormal(base.triggers, u.counters, TriggerRules(p), replace, StoredTrigger, ListedTrigger, TriggerTest(checks));
    TableNormal(base.reports, u.counters, ReportRules(p), replace, StoredReport, ListedReport, ReportTest(checks));
    ActionsStayNormal(base.actions, p.actions, replace);
  }

  /** An import, in either mode, keeps every row in the importer's normal form. */
  lemma ImportWellFormed(s: State, p: Payload, replace: bool, checks: Checks)
    requires WellFormed(s, checks)
    ensures Imported(s, p, replace, checks).Ok? ==> WellFormed(Imported(s, p, replace, checks).value, checks)
  {
    hide WellFormed, Applied, Normalise, PayloadNormal;
    NormaliseSettles(p, checks);
    if Imported(s, p, replace, checks).Ok? {
      AppliedWellFormed(s, Normalise(p, checks).value, replace, checks);
    }
  }

  lemma {:induction false} KeptUnique<K, V>(rows: seq<Row<K, V>>, keep: Row<K, V> -> bool)
    requires UniqueKeys(rows)
    ensures UniqueKeys(Kept(rows, keep))
  {
    if rows != [] {
      var n := |rows| - 1;
      KeptUnique(rows[..n], keep);
      forall x | x in Kept(rows[..n], keep)
        ensures x.key != rows[n].key
      {
        KeptExactly(rows[..n], keep, x);
      }
    }
  }

  lemma {:induction false} KeptPass<B, V>(rows: seq<Row<RuleKey, V>>, keep: Row<RuleKey, V> -> bool, listed: V -> B,
                                          test: ExportRule<B> -> bool)
    requires RowsPass(rows, listed, test)
    ensures RowsPass(Kept(rows, keep), listed, test)
  {
    if rows != [] {
      KeptPass(rows[..|rows| - 1], keep, listed, test);
    }
  }

  lemma {:induction false} KeptCounters(rows: seq<Row<string, CounterVals>>, keep: Row<string, CounterVals> -> bool)
    requires CountersPass(rows)
    ensures CountersPass(Kept(rows, keep))
  {
    hide CounterRowNormal;
    if rows != [] {
      KeptCounters(rows[..|rows| - 1], keep);
    }
  }

  lemma DeleteWellFormed(s: State, id: int, checks: Checks)
    requires WellFormed(s, checks)
    ensures WellFormed(Deleted(s, id), checks)
  {
    hide Kept, UniqueKeys, CountersPass, RowsPass, ActionsPass, ScheduleNormal, HasTrigger;
    KeptUnique(s.counters.rows, CounterNot(id));
    KeptCounters(s.counters.rows, CounterNot(id));
    KeptPass(s.triggers.rows, NotOf(id), ListedTrigger, TriggerTest(checks));
    KeptPass(s.reports.rows, NotOf(id), ListedReport, ReportTest(checks));
  }

  // ---- Ids stay in order ----

  /** In every table ids ascend and none was given out twice, so rows stand in the order of their ids. */
  ghost predicate InOrder(s: State) {
    Ordered(s.counters) && Ordered(s.triggers) && Ordered(s.reports) && Ordered(s.actions)
  }

  lemma {:induction false} InsertUniqueOrdered<V>(t: Table<string, V>, items: seq<(string, V)>)
    requires Ordered(t) && InsertUnique(t, items).Ok?
    ensures Ordered(InsertUnique(t, items).value)
  {
    hide Find;
    if items != [] {
      InsertUniqueOrdered(t, items[..|items| - 1]);
    }
  }

  lemma {:induction false} ActionsOrdered(t: Actions, actions: seq<ExportAction>, replace: bool)
    requires Ordered(t)
    ensures Ordered(ActionsAfter(t, actions, replace))
  {
    hide FindDestination;
    if actions != [] {
      ActionsOrdered(t, actions[..|actions| - 1], replace);
    }
  }

  lemma RulesOrdered<V>(t: RuleTable<V>, items: seq<(RuleKey, V)>, replace: bool)
    requires Ordered(t)
    ensures Ordered(RulesAfter(t, items, replace))
  {
    OrderedKept(t, items, Overwrite);
  }

  lemma CountersOrdered(t: Counters, items: seq<(string, CounterVals)>, replace: bool)
    requires Ordered(t) && CountersAfter(t, items, replace).Ok?
    ensures Ordered(CountersAfter(t, items, replace).value)
  {
    hide Ordered, InsertUnique, PutAll;
    if replace {
      InsertUniqueOrdered(t, items);
    } else {
      OrderedKept(t, items, MergeCounter);
    }
  }

  lemma ImportInOrder(s: State, p: Payload, replace: bool, checks: Checks)
    requires InOrder(s)
    ensures Imported(s, p, replace, checks).Ok? ==> InOrder(Imported(s, p, replace, checks).value)
  {
    hide Normalise, Applied;
    if Imported(s, p, replace, checks).Ok? {
      AppliedInOrder(s, Normalise(p, checks).value, replace);
    }
  }

  lemma AppliedInOrder(s: State, p: Payload, replace: bool)
    requires InOrder(s) && Applied(s, p, replace).Ok?
    ensures InOrder(Applied(s, p, replace).value)
  {
    AppliedParts(s, p, replace);
    BaseInOrder(s, p, replace);
    hide Ordered, Applied, Base, CountersAfter, CounterItems, Resolve, TriggerRules, ReportRules, RulesAfter,
      ActionsAfter;
    var base, u := Base(s, p, replace), Applied(s, p, replace).value;
    CountersOrdered(base.counters, CounterItems(p.counters), replace);
    RulesOrdered(base.triggers, Resolve(u.counters, TriggerRules(p), StoredTrigger).value, replace);
    RulesOrdered(base.reports, Resolve(u.counters, ReportRules(p), StoredReport).value, replace);
    ActionsOrdered(base.actions, p.actions, replace);
  }

  lemma BaseInOrder(s: State, p: Payload, replace: bool)
    requires InOrder(s)
    ensures InOrder(Base(s, p, replace))
  {
  }

  lemma {:induction false} KeptOrdered<K, V>(t: Table<K, V>, keep: Row<K, V> -> bool)
    requires Ordered(t)
    ensures Ordered(t.(rows := Kept(t.rows, keep)))
    decreases |t.rows|
  {
    if t.rows != [] {
      var n := |t.rows| - 1;
      KeptOrdered(t.(rows := t.rows[..n]), keep);
      forall x | x in Kept(t.rows[..n], keep)
        ensures x.id < t.rows[n].id
      {
        KeptExactly(t.rows[..n], keep, x);
      }
    }
  }

  lemma DeleteInOrder(s: State, id: int)
    requires InOrder(s)
    ensures InOrder(Deleted(s, id))
  {
    hide Kept, Ordered, HasTrigger;
    KeptOrdered(s.counters, CounterNot(id));
    KeptOrdered(s.triggers, NotOf(id));
    KeptOrdered(s.reports, NotOf(id));
  }

  // ---- Saving and dropping single rows ----

  /** CreateCounter: the table refuses a second row with the same external id. */
  function SaveCounter(s: State, c: NewCounter): State {
    if Find(s.counters.rows, c.0) >= 0 then s else s.(counters := Insert(s.counters, c.0, c.1))
  }

  function SaveTrigger(s: State, counter: int, t: ExportTrigger): State {
    s.(triggers := Insert(s.triggers, (counter, t.name), StoredTrigger(t.body)))
  }

  function SaveReport(s: State, counter: int, r: ExportReport): State {
    s.(reports := Insert(s.reports, (counter, r.name), StoredReport(r.body)))
  }

  function SaveAction(s: State, a: (Address, string)): State {
    s.(actions := Insert(s.actions, a.0, a.1))
  }

  function IdNot<K, V>(id: int): Row<K, V> -> bool {
    (row: Row<K, V>) => row.id != id
  }

  function Dropped<K, V>(t: Table<K, V>, id: int): Table<K, V> {
    t.(rows := Kept(t.rows, IdNot(id)))
  }

  lemma InsertPass<B, V>(t: RuleTable<V>, k: RuleKey, v: V, listed: V -> B, test: ExportRule<B> -> bool)
    requires RowsPass(t.rows, listed, test)
    ensures RowsPass(Insert(t, k, v).rows, listed, test) <==> test(ExportRule(k.1, listed(v)))
  {
    var rows := Insert(t, k, v).rows;
    assert rows[|t.rows|] == Row(t.next, k, v);
  }

  lemma InsertOrdered<K, V>(t: Table<K, V>, k: K, v: V)
    requires Ordered(t)
    ensures Ordered(Insert(t, k, v))
  {
  }

  /** A saved counter keeps the normal form exactly when its own row is normal, or was already there. */
  lemma SaveCounterIff(s: State, c: NewCounter, checks: Checks)
    requires WellFormed(s, checks)
    ensures WellFormed(SaveCounter(s, c), checks)
            <==> Find(s.counters.rows, c.0) >= 0 || CounterRowNormal(Row(0, c.0, c.1))
  {
    hide RowsPass, ActionsPass, ScheduleNormal, CounterRowNormal, Find;
    if Find(s.counters.rows, c.0) < 0 {
      var rows := SaveCounter(s, c).counters.rows;
      assert rows[|s.counters.rows|] == Row(s.counters.next, c.0, c.1);
      RowNormal(Row(s.counters.next, c.0, c.1), 0);
    }
  }

  lemma RowNormal(row: Row<string, CounterVals>, id: int)
    ensures CounterRowNormal(row) <==> CounterRowNormal(row.(id := id))
  {
    hide Trim, ParseInt64;
  }

  lemma SaveTriggerIff(s: State, counter: int, t: ExportTrigger, checks: Checks)
    requires WellFormed(s, checks)
    ensures WellFormed(SaveTrigger(s, counter, t), checks) <==> TriggerNormal(t, checks)
  {
    hide CountersPass, UniqueKeys, RowsPass, ActionsPass, ScheduleNormal, FilterNormal, Trim;
    InsertPass(s.triggers, (counter, t.name), StoredTrigger(t.body), ListedTrigger, TriggerTest(checks));
  }

  lemma SaveReportIff(s: State, counter: int, r: ExportReport, checks: Checks)
    requires WellFormed(s, checks)
    ensures WellFormed(SaveReport(s, counter, r), checks) <==> ReportNormal(r, checks)
  {
    hide CountersPass, UniqueKeys, RowsPass, ActionsPass, ScheduleNormal, FilterNormal, Trim, ParseGoals, FormatGoals;
    InsertPass(s.reports, (counter, r.name), StoredReport(r.body), ListedReport, ReportTest(checks));
  }

  lemma SaveActionIff(s: State, a: (Address, string), checks: Checks)
    requires WellFormed(s, checks)
    ensures WellFormed(SaveAction(s, a), checks) <==> ActionNormal(ListedAction(Row(0, a.0, a.1)))
  {
    hide CountersPass, UniqueKeys, RowsPass, ScheduleNormal, ActionNormal;
    var rows := SaveAction(s, a).actions.rows;
    assert rows[|s.actions.rows|] == Row(s.actions.next, a.0, a.1);
    assert ListedAction(Row(s.actions.next, a.0, a.1)) == ListedAction(Row(0, a.0, a.1));
  }

  lemma {:induction false} KeptActions(rows: seq<Row<Address, string>>, keep: Row<Address, string> -> bool)
    requires ActionsPass(rows)
    ensures ActionsPass(Kept(rows, keep))
  {
    hide ActionNormal;
    if rows != [] {
      KeptActions(rows[..|rows| - 1], keep);
    }
  }

  lemma DropsWellFormed(s: State, id: int, checks: Checks)
    requires WellFormed(s, checks)
    ensures WellFormed(s.(triggers := Dropped(s.triggers, id)), checks)
    ensures WellFormed(s.(reports := Dropped(s.reports, id)), checks)
    ensures WellFormed(s.(actions := Dropped(s.actions, id)), checks)
  {
    hide Kept, CountersPass, UniqueKeys, RowsPass, ActionsPass, ScheduleNormal;
    KeptPass(s.triggers.rows, IdNot(id), ListedTrigger, TriggerTest(checks));
    KeptPass(s.reports.rows, IdNot(id), ListedReport, ReportTest(checks));
    KeptActions(s.actions.rows, IdNot(id));
  }

  lemma DropsInOrder(s: State, id: int)
    requires InOrder(s)
    ensures InOrder(s.(triggers := Dropped(s.triggers, id)))
    ensures InOrder(s.(reports := Dropped(s.reports, id)))
    ensures InOrder(s.(actions := Dropped(s.actions, id)))
  {
    hide Kept, Ordered;
    KeptOrdered(s.triggers, IdNot(id));
    KeptOrdered(s.reports, IdNot(id));
    KeptOrdered(s.actions, IdNot(id));
  }

  lemma SaveCounterInOrder(s: State, c: NewCounter)
    requires InOrder(s)
    ensures InOrder(SaveCounter(s, c))
  {
    hide Find;
    InsertOrdered(s.counters, c.0, c.1);
    hide Ordered, Insert;
  }

  lemma SaveTriggerInOrder(s: State, counter: int, t: ExportTrigger)
    requires InOrder(s)
    ensures InOrder(SaveTrigger(s, counter, t))
  {
    InsertOrdered(s.triggers, (counter, t.name), StoredTrigger(t.body));
    hide Ordered, Insert;
  }

  lemma SaveReportInOrder(s: State, counter: int, r: ExportReport)
    requires InOrder(s)
    ensures InOrder(SaveReport(s, counter, r))
  {
    InsertOrdered(s.reports, (counter, r.name), StoredReport(r.body));
    hide Ordered, Insert, StoredReport;
  }

  lemma SaveActionInOrder(s: State, a: (Address, string))
    requires InOrder(s)
    ensures InOrder(SaveAction(s, a))
  {
    InsertOrdered(s.actions, a.0, a.1);
    hide Ordered, Insert;
  }

  // ---- References ----

  lemma InsertKeepsIds<K, V>(t: Table<K, V>, k: K, v: V, id: int)
    ensures HasId(t, id) ==> HasId(Insert(t, k, v), id)
  {
    if HasId(t, id) {
      var i :| 0 <= i < |t.rows| && t.rows[i].id == id;
      assert Insert(t, k, v).rows[i].id == id;
    }
  }

  lemma SaveCounterIntegral(s: State, c: NewCounter)
    requires Integral(s)
    ensures Integral(SaveCounter(s, c))
  {
    hide Find, HasId, Insert;
    if Find(s.counters.rows, c.0) < 0 {
      var after := Insert(s.counters, c.0, c.1);
      forall id | HasId(s.counters, id)
        ensures HasId(after, id)
      {
        InsertKeepsIds(s.counters, c.0, c.1, id);
      }
      hide CooldownsPoint;
      StillAnchored(s.triggers, s.counters, after);
      StillAnchored(s.reports, s.counters, after);
    }
  }

  lemma InsertAnchoredIff<V>(t: RuleTable<V>, counters: Counters, k: RuleKey, v: V)
    requires Anchored(t, counters)
    ensures Anchored(Insert(t, k, v), counters) <==> HasId(counters, k.0)
  {
    hide HasId;
    var rows := Insert(t, k, v).rows;
    assert rows[|t.rows|].key == k;
  }

  /** A saved rule has its counter exactly when that is still there: the tables do not enforce it. */
  lemma SaveTriggerIntegralIff(s: State, counter: int, t: ExportTrigger)
    requires Integral(s)
    ensures Integral(SaveTrigger(s, counter, t)) <==> HasId(s.counters, counter)
  {
    hide HasId, Insert, Anchored, StoredTrigger;
    InsertAnchoredIff(s.triggers, s.counters, (counter, t.name), StoredTrigger(t.body));
    forall id
      ensures HasId(s.triggers, id) ==> HasId(Insert(s.triggers, (counter, t.name), StoredTrigger(t.body)), id)
    {
      InsertKeepsIds(s.triggers, (counter, t.name), StoredTrigger(t.body), id);
    }
  }

  lemma SaveReportIntegralIff(s: State, counter: int, r: ExportReport)
    requires Integral(s)
    ensures Integral(SaveReport(s, counter, r)) <==> HasId(s.counters, counter)
  {
    hide HasId, Insert, Anchored, StoredReport;
    InsertAnchoredIff(s.reports, s.counters, (counter, r.name), StoredReport(r.body));
  }

  lemma DroppedRow<K, V>(t: Table<K, V>, id: int, x: int)
    ensures HasId(Dropped(t, id), x) <==> HasId(t, x) && x != id
  {
    var d := Dropped(t, id);
    if HasId(t, x) && x != id {
      var i :| 0 <= i < |t.rows| && t.rows[i].id == x;
      KeptExactly(t.rows, IdNot(id), t.rows[i]);
      hide Kept;
      var j :| 0 <= j < |d.rows| && d.rows[j] == t.rows[i];
      assert d.rows[j].id == x;
    }
    if HasId(d, x) {
      var j :| 0 <= j < |d.rows| && d.rows[j].id == x;
      KeptExactly(t.rows, IdNot(id), d.rows[j]);
      hide Kept;
      var i :| 0 <= i < |t.rows| && t.rows[i] == d.rows[j];
      assert t.rows[i].id == x;
    }
  }

  lemma DroppedAnchored<V>(t: RuleTable<V>, counters: Counters, id: int)
    requires Anchored(t, counters)
    ensures Anchored(Dropped(t, id), counters)
  {
    hide Kept, HasId;
    var d := Dropped(t, id);
    forall i | 0 <= i < |d.rows|
      ensures HasId(counters, d.rows[i].key.0)
    {
      KeptExactly(t.rows, IdNot(id), d.rows[i]);
      assert d.rows[i] in t.rows;
    }
  }

  /** Dropping a single rule leaves its cooldown behind. */
  lemma DropIntegralIff(s: State, id: int)
    requires Integral(s)
    ensures Integral(s.(triggers := Dropped(s.triggers, id))) <==> id !in s.cooldowns
    ensures Integral(s.(reports := Dropped(s.reports, id)))
    ensures Integral(s.(actions := Dropped(s.actions, id)))
  {
    hide HasId, Anchored, Dropped;
    DroppedAnchored(s.triggers, s.counters, id);
    DroppedAnchored(s.reports, s.counters, id);
    forall x
      ensures HasId(Dropped(s.triggers, id), x) <==> HasId(s.triggers, x) && x != id
    {
      DroppedRow(s.triggers, id, x);
    }
  }
}
