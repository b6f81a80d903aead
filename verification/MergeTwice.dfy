/** Merging the same payload twice, and merging a database's own export. */
module MergeTwice {
  import Replace
  import opened Text
  import opened Keyed
  import opened RuleTables
  import opened Settings
  import opened Goals
  import opened Database
  import opened Merge
  import opened RoundTrip

  lemma KnownTypes(actions: seq<ExportAction>)
    requires All(actions, ActionTest())
    ensures forall i :: 0 <= i < |actions| ==> ChannelOf(actions[i].typ) != Unknown
  {
    forall i | 0 <= i < |actions|
      ensures ChannelOf(actions[i].typ) != Unknown
    {
      assert ActionTest()(actions[i]);
    }
  }

  lemma AppliedTwice(s: State, p: Payload)
    requires Applied(s, p, false).Ok?
    requires forall i :: 0 <= i < |p.actions| ==> ChannelOf(p.actions[i].typ) != Unknown
    ensures Applied(Applied(s, p, false).value, p, false) == Applied(s, p, false)
  {
    hide CounterItems, Resolve, TriggerRules, ReportRules, PutAll, ActionsAfter, Lawful, ChannelOf;
    MergesLawful();
    var u := Applied(s, p, false).value;
    PutAllTwice(s.counters, CounterItems(p.counters), MergeCounter);
    PutAllTwice(s.triggers, Resolve(u.counters, TriggerRules(p), StoredTrigger).value, Overwrite);
    PutAllTwice(s.reports, Resolve(u.counters, ReportRules(p), StoredReport).value, Overwrite);
    DestinationsTwice(s.actions, p.actions);
    assert p.schedule != "" ==> u.settings[SCHEDULE := p.schedule] == u.settings;
  }

  /** Merging the same payload a second time leaves the database as the first time left it. */
  lemma MergeIdempotent(s: State, p: Payload, checks: Checks)
    ensures var once := Imported(s, p, false, checks); once.Ok? ==> Imported(once.value, p, false, checks) == once
  {
    hide Normalise, Applied, All;
    NormaliseSettles(p, checks);
    if Imported(s, p, false, checks).Ok? {
      var q := Normalise(p, checks).value;
      KnownTypes(q.actions);
      AppliedTwice(s, q);
    }
  }

  // ---- A database's own export ----

  ghost predicate GoalsCanonical(rows: seq<Row<RuleKey, ReportVals>>) {
    forall i :: 0 <= i < |rows| ==> FormatGoals(ParseGoals(rows[i].val.goals)) == rows[i].val.goals
  }

  /** No two destinations would be taken for one another. */
  ghost predicate DestinationsApart(rows: seq<Row<Address, string>>) {
    forall i :: 0 <= i < |rows| ==> FindDestination(rows, rows[i].key) == i
  }

  /** Storing the listed form of a row gives its value back. */
  ghost predicate StoresBack<B, V>(rows: seq<Row<RuleKey, V>>, stored: B -> V, listed: V -> B) {
    forall i :: 0 <= i < |rows| ==> stored(listed(rows[i].val)) == rows[i].val
  }

  lemma {:induction false} CollectedFrom<B, V>(rows: seq<Row<RuleKey, V>>, id: int, listed: V -> B, x: ExportRule<B>)
    requires x in Collected(rows, id, listed)
    ensures exists i :: 0 <= i < |rows| && rows[i].key == (id, x.name) && listed(rows[i].val) == x.body
  {
    var n := |rows| - 1;
    var last := rows[n];
    if last.key.0 != id || x != ExportRule(last.key.1, listed(last.val)) {
      CollectedFrom(rows[..n], id, listed, x);
      var i :| 0 <= i < n && rows[i].key == (id, x.name) && listed(rows[i].val) == x.body;
    }
  }

  lemma {:induction false} FlattenedFrom<B>(groups: seq<Owned<B>>, x: FlatRule<B>)
    requires x in Flatten(groups)
    ensures exists i :: 0 <= i < |groups| && groups[i].cid == x.cid && x.rule in groups[i].rules
  {
    var n := |groups| - 1;
    if x in Under(groups[n].cid, groups[n].rules) {
      UnderFrom(groups[n].cid, groups[n].rules, x);
    } else {
      FlattenedFrom(groups[..n], x);
      var i :| 0 <= i < n && groups[i].cid == x.cid && x.rule in groups[i].rules;
    }
  }

  lemma {:induction false} UnderFrom<B>(cid: string, rules: seq<ExportRule<B>>, x: FlatRule<B>)
    requires x in Under(cid, rules)
    ensures x.cid == cid && x.rule in rules
  {
    var n := |rules| - 1;
    if x != FlatRule(cid, rules[n]) {
      UnderFrom(cid, rules[..n], x);
    }
  }

  lemma {:induction false} ResolvedFrom<B, V, W>(counters: Table<string, W>, rules: seq<FlatRule<B>>, stored: B -> V)
    requires forall i :: 0 <= i < |rules| ==> CounterRow(counters, rules[i].cid).Some?
    ensures Resolve(counters, rules, stored).Ok?
    ensures var items := Resolve(counters, rules, stored).value;
            |items| == |rules| && forall i :: 0 <= i < |items| ==>
              items[i] == ((CounterRow(counters, rules[i].cid).value, rules[i].rule.name), stored(rules[i].rule.body))
  {
    hide CounterRow;
    if rules != [] {
      ResolvedFrom(counters, rules[..|rules| - 1], stored);
    }
  }

  /** One group per counter row: its external id, and the rules its row id owns. */
  ghost predicate OwnGroups<B, V, W>(counters: Table<string, W>, rows: seq<Row<RuleKey, V>>, groups: seq<Owned<B>>,
                                     listed: V -> B) {
    |groups| == |counters.rows| && forall i :: 0 <= i < |groups| ==>
      groups[i] == Owned(counters.rows[i].key, Collected(rows, counters.rows[i].id, listed))
  }

  lemma OwnRule<B, V, W>(counters: Table<string, W>, t: RuleTable<V>, groups: seq<Owned<B>>, x: FlatRule<B>,
                         stored: B -> V, listed: V -> B)
    requires UniqueKeys(counters.rows) && UniqueKeys(t.rows) && OwnGroups(counters, t.rows, groups, listed)
    requires StoresBack(t.rows, stored, listed) && x in Flatten(groups)
    ensures var id := CounterRow(counters, x.cid);
            && id.Some?
            && var at := Find(t.rows, (id.value, x.rule.name)); at >= 0 && t.rows[at].val == stored(x.rule.body)
  {
    hide Find, Flatten, Collected;
    FlattenedFrom(groups, x);
    var g :| 0 <= g < |groups| && groups[g].cid == x.cid && x.rule in groups[g].rules;
    var id := counters.rows[g].id;
    FindFirst(counters.rows, x.cid, g);
    CollectedFrom(t.rows, id, listed, x.rule);
    var i :| 0 <= i < |t.rows| && t.rows[i].key == (id, x.rule.name) && listed(t.rows[i].val) == x.rule.body;
    FindFirst(t.rows, (id, x.rule.name), i);
  }

  lemma OwnRulesStay<B, V(!new), W>(counters: Table<string, W>, t: RuleTable<V>, groups: seq<Owned<B>>, stored: B -> V,
                                    listed: V -> B)
    requires UniqueKeys(counters.rows) && UniqueKeys(t.rows) && OwnGroups(counters, t.rows, groups, listed)
    requires StoresBack(t.rows, stored, listed)
    ensures var r := Resolve(counters, Flatten(groups), stored); r.Ok? && RulesAfter(t, r.value, false) == t
  {
    hide Find, Flatten, CounterRow, Resolve, PutAll, UniqueKeys, OwnGroups, StoresBack;
    var rules := Flatten(groups);
    forall i | 0 <= i < |rules|
      ensures var id := CounterRow(counters, rules[i].cid);
              && id.Some?
              && var at := Find(t.rows, (id.value, rules[i].rule.name));
                 at >= 0 && t.rows[at].val == stored(rules[i].rule.body)
    {
      OwnRule(counters, t, groups, rules[i], stored, listed);
    }
    ResolvedFrom(counters, rules, stored);
    PutAllStored(t, Resolve(counters, rules, stored).value, Overwrite);
  }

  lemma OwnCountersStay(s: State, tokens: bool)
    requires UniqueKeys(s.counters.rows) && CountersPass(s.counters.rows)
    ensures PutAll(s.counters, CounterItems(ListedCounters(s, s.counters.rows, tokens)), MergeCounter) == s.counters
  {
    hide Find, PutAll, Collected, Trim, ParseInt64;
    var rows, items := s.counters.rows, CounterItems(ListedCounters(s, s.counters.rows, tokens));
    forall n | 0 <= n < |items|
      ensures Find(rows, items[n].0) == n && MergeCounter(rows[n].val, items[n].1) == rows[n].val
    {
      assert CounterRowNormal(rows[n]);
      FindFirst(rows, rows[n].key, n);
    }
    PutAllStored(s.counters, items, MergeCounter);
  }

  lemma {:induction false} OwnActionsStay(t: Actions, k: nat)
    requires k <= |t.rows| && DestinationsApart(t.rows)
    ensures ActionsAfter(t, ListedActions(t.rows[..k]), false) == t
  {
    hide FindDestination;
    if k > 0 {
      OwnActionsStay(t, k - 1);
      var listed := ListedActions(t.rows[..k]);
      assert listed[..k - 1] == ListedActions(t.rows[..k - 1]);
      assert t.rows[k - 1 := t.rows[k - 1]] == t.rows;
      assert listed[k - 1] == ListedAction(t.rows[k - 1]);
    }
  }

  /** The groups an import reads from a database's own export. */
  lemma OwnGroupsRead(s: State, tokens: bool)
    requires CountersPass(s.counters.rows)
    ensures var counters := ListedCounters(s, s.counters.rows, tokens);
            && OwnGroups(s.counters, s.triggers.rows, TriggerGroups(counters), ListedTrigger)
            && OwnGroups(s.counters, s.reports.rows, ReportGroups(counters), ListedReport)
  {
    hide Collected, Trim, ParseInt64;
    assert forall i :: 0 <= i < |s.counters.rows| ==> CounterRowNormal(s.counters.rows[i]);
  }

  lemma OwnTriggersStay(s: State, p: Payload)
    requires UniqueKeys(s.counters.rows) && UniqueKeys(s.triggers.rows) && p.triggers == []
    requires OwnGroups(s.counters, s.triggers.rows, TriggerGroups(p.counters), ListedTrigger)
    ensures var r := Resolve(s.counters, TriggerRules(p), StoredTrigger);
            r.Ok? && RulesAfter(s.triggers, r.value, false) == s.triggers
  {
    hide Flatten, Resolve, PutAll, OwnGroups, UniqueKeys, Trim;
    assert TrimIds(p.triggers) == [];
    assert TriggerRules(p) == Flatten(TriggerGroups(p.counters));
    OwnRulesStay(s.counters, s.triggers, TriggerGroups(p.counters), StoredTrigger, ListedTrigger);
  }

  lemma OwnReportsStay(s: State, p: Payload)
    requires UniqueKeys(s.counters.rows) && UniqueKeys(s.reports.rows) && p.reports == []
             && GoalsCanonical(s.reports.rows)
    requires OwnGroups(s.counters, s.reports.rows, ReportGroups(p.counters), ListedReport)
    ensures var r := Resolve(s.counters, ReportRules(p), StoredReport);
            r.Ok? && RulesAfter(s.reports, r.value, false) == s.reports
  {
    hide Flatten, Resolve, PutAll, OwnGroups, UniqueKeys, Trim, FormatGoals, ParseGoals;
    assert TrimIds(p.reports) == [];
    assert ReportRules(p) == Flatten(ReportGroups(p.counters));
    OwnRulesStay(s.counters, s.reports, ReportGroups(p.counters), StoredReport, ListedReport);
  }

  /** Merging its own export, with or without tokens, leaves a well-formed database with unique rule
      names and destinations as it is: cursors, tokens and history included. */
  lemma OwnExportMergesToNothing(s: State, tokens: bool, checks: Checks)
    requires WellFormed(s, checks) && HasAnySettings(Exported(s, 0, tokens).value)
    requires UniqueKeys(s.triggers.rows) && UniqueKeys(s.reports.rows)
    requires GoalsCanonical(s.reports.rows) && DestinationsApart(s.actions.rows)
    ensures Imported(s, Exported(s, 0, tokens).value, false, checks) == Ok(s)
  {
    hide UniqueKeys, CountersPass, RowsPass, ActionsPass, GoalsCanonical, DestinationsApart, OwnGroups, Resolve,
      TriggerRules, ReportRules, RulesAfter, ActionsAfter, PutAll, CounterItems, ListedCounters, TriggerGroups,
      ReportGroups, Normalise, PayloadNormal, HasAnySettings, ListedActions, Replace.LaidOut;
    var p := Exported(s, 0, tokens).value;
    ExportedNormal(s, 0, tokens, checks);
    NormaliseSettles(p, checks);
    OwnCountersStay(s, tokens);
    OwnGroupsRead(s, tokens);
    OwnTriggersStay(s, p);
    OwnReportsStay(s, p);
    OwnActionsStay(s.actions, |s.actions.rows|);
    assert s.actions.rows[..|s.actions.rows|] == s.actions.rows;
    assert p.schedule != "" ==> s.settings[SCHEDULE := p.schedule] == s.settings;
  }
}
