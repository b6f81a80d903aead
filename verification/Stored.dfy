/** What an import leaves in the tables, row by row, in terms of the payload's own fields
    (internal/model/export.go). */
module Stored {
  import opened Text
  import opened Keyed
  import opened RuleTables
  import opened Settings
  import opened Goals
  import opened Database
  import opened Replace
  import opened Merge
  import opened Upkeep

  // ---- Everything a payload lists ----

  function Tagged<B>(cid: string, rules: seq<ExportRule<B>>): seq<(string, ExportRule<B>)> {
    seq(|rules|, i requires 0 <= i < |rules| => (Trim(cid), rules[i]))
  }

  function FlatTagged<B>(rules: seq<FlatRule<B>>): seq<(string, ExportRule<B>)> {
    seq(|rules|, i requires 0 <= i < |rules| => (Trim(rules[i].cid), rules[i].rule))
  }

  function NestedTriggers(counters: seq<ExportCounter>): seq<(string, ExportTrigger)> {
    if counters == [] then []
    else Tagged(counters[0].cid, counters[0].triggers) + NestedTriggers(counters[1..])
  }

  function NestedReports(counters: seq<ExportCounter>): seq<(string, ExportReport)> {
    if counters == [] then []
    else Tagged(counters[0].cid, counters[0].reports) + NestedReports(counters[1..])
  }

  /** Every trigger a payload lists, with the external id of its counter: first those of its counters. */
  function AllTriggers(p: Payload): seq<(string, ExportTrigger)> {
    NestedTriggers(p.counters) + FlatTagged(p.triggers)
  }

  function AllReports(p: Payload): seq<(string, ExportReport)> {
    NestedReports(p.counters) + FlatTagged(p.reports)
  }

  /** No later one has the same counter and name. */
  ghost predicate LastOf<B>(all: seq<(string, ExportRule<B>)>, n: nat) {
    n < |all| && forall m :: n < m < |all| ==> all[m].0 != all[n].0 || all[m].1.name != all[n].1.name
  }

  /** The columns of a trigger that a payload lists, with the defaults for what it leaves out. */
  predicate TriggerStored(v: TriggerVals, b: TriggerBody) {
    && v.metric == b.metric && v.deviation == b.deviation && v.minBaseline == b.minBaseline
    && v.direction == (if b.direction == "" then "drop" else Lower(b.direction))
    && v.weeks == (if b.weeks == 0 then 4 else b.weeks)
    && v.cooldown == (if b.cooldown <= 0 then 180 else b.cooldown)
    && v.urlFilter == b.urlFilter
    && v.urlMatch == (if b.urlFilter != "" && b.urlMatch == "" then "contains" else b.urlMatch)
    && (v.enabled <==> b.enabled != Some(false))
  }

  predicate ReportStored(v: ReportVals, b: ReportBody) {
    && v.urlFilter == b.urlFilter
    && v.urlMatch == (if b.urlFilter != "" && b.urlMatch == "" then "contains" else b.urlMatch)
    && ((forall i :: 0 <= i < |b.goals| ==> IsInt64(b.goals[i])) ==> ParseGoals(v.goals) == Positive(b.goals))
    && v.groupBy == b.groupBy && v.period == b.period
    && (v.enabled <==> b.enabled != Some(false))
  }

  // ---- The lists are what the import works through ----

  /** Both lists name the same counters, and one has the checked form of each rule of the other. */
  ghost predicate Checked<B>(all: seq<(string, ExportRule<B>)>, rules: seq<FlatRule<B>>, check: Check<ExportRule<B>>) {
    && |all| == |rules|
    && forall n :: 0 <= n < |all| ==> rules[n].cid == all[n].0 && check(all[n].1) == Ok(rules[n].rule)
  }

  lemma CheckedAppend<B>(a: seq<(string, ExportRule<B>)>, x: seq<FlatRule<B>>, b: seq<(string, ExportRule<B>)>,
                         y: seq<FlatRule<B>>, check: Check<ExportRule<B>>)
    requires Checked(a, x, check) && Checked(b, y, check)
    ensures Checked(a + b, x + y, check)
  {
  }

  lemma {:induction false} FlattenFirst<B>(groups: seq<Owned<B>>)
    requires groups != []
    ensures Flatten(groups) == Under(groups[0].cid, groups[0].rules) + Flatten(groups[1..])
  {
    hide Under, Flatten;
    var n := |groups| - 1;
    var init, tail := groups[..n], groups[1..];
    if n == 0 {
      FlattenOne(groups);
    } else {
      FlattenFirst(init);
      assert init[1..] == tail[..n - 1] && tail[n - 1] == groups[n];
      FlattenLast(groups);
      FlattenLast(tail);
      ThreeJoined(Under(groups[0].cid, groups[0].rules), Flatten(tail[..n - 1]), Under(groups[n].cid, groups[n].rules));
    }
  }

  lemma FlattenOne<B>(groups: seq<Owned<B>>)
    requires |groups| == 1
    ensures Flatten(groups) == Under(groups[0].cid, groups[0].rules) + Flatten(groups[1..])
  {
    hide Under;
    assert groups[..0] == [] && groups[1..] == [];
    var under := Under(groups[0].cid, groups[0].rules);
    assert [] + under == under == under + [];
  }

  lemma FlattenLast<B>(groups: seq<Owned<B>>)
    requires groups != []
    ensures var n := |groups| - 1; Flatten(groups) == Flatten(groups[..n]) + Under(groups[n].cid, groups[n].rules)
  {
  }

  lemma ThreeJoined<T>(a: seq<T>, b: seq<T>, c: seq<T>)
    ensures (a + b) + c == a + (b + c)
  {
  }

  lemma {:induction false} UnderChecked<B>(cid: string, listed: seq<ExportRule<B>>, rules: seq<ExportRule<B>>,
                                           check: Check<ExportRule<B>>)
    requires |listed| == |rules| && forall i :: 0 <= i < |rules| ==> check(listed[i]) == Ok(rules[i])
    ensures Checked(Tagged(cid, listed), Under(Trim(cid), rules), check)
  {
    hide Trim;
    if rules != [] {
      var n := |rules| - 1;
      UnderChecked(cid, listed[..n], rules[..n], check);
      assert forall i :: 0 <= i < n ==> Tagged(cid, listed)[i] == Tagged(cid, listed[..n])[i];
    }
  }

  lemma Rounds(p: Payload, checks: Checks)
    requires Normalise(p, checks).Ok?
    ensures var q, heads := Normalise(p, checks).value, Each(p.counters, HeadCheck());
            && heads.Ok? && Each(heads.value, OwnCheck(checks)) == Ok(q.counters) && q.schedule == p.schedule
            && Each(p.triggers, FlatTriggerCheck(checks)) == Ok(q.triggers)
            && Each(p.reports, FlatReportCheck(checks)) == Ok(q.reports)
            && Each(p.actions, ActionCheck()) == Ok(q.actions)
  {
    hide Each, HasAnySettings, HeadCheck, OwnCheck, FlatTriggerCheck, FlatReportCheck, ActionCheck;
  }

  /** What validation makes of a payload, item by item. */
  lemma NormalisedParts(p: Payload, checks: Checks)
    requires Normalise(p, checks).Ok?
    ensures var q := Normalise(p, checks).value;
            && |q.counters| == |p.counters| && q.schedule == p.schedule
            && (forall i :: 0 <= i < |p.counters| ==> CounterNormalised(p.counters[i], q.counters[i], checks))
            && Each(p.triggers, FlatTriggerCheck(checks)) == Ok(q.triggers)
            && Each(p.reports, FlatReportCheck(checks)) == Ok(q.reports)
            && Each(p.actions, ActionCheck()) == Ok(q.actions)
  {
    hide Each, Normalise, NormaliseHead, NormaliseOwn, CounterNormalised, FlatTriggerCheck, FlatReportCheck,
      ActionCheck;
    Rounds(p, checks);
    CountersNormalised(p.counters, Normalise(p, checks).value.counters, checks);
  }

  lemma CountersNormalised(c: seq<ExportCounter>, d: seq<ExportCounter>, checks: Checks)
    requires Each(c, HeadCheck()).Ok? && Each(Each(c, HeadCheck()).value, OwnCheck(checks)) == Ok(d)
    ensures |d| == |c| && forall i :: 0 <= i < |c| ==> CounterNormalised(c[i], d[i], checks)
  {
    hide Each, NormaliseHead, NormaliseOwn, CounterNormalised;
    EachItem(c, HeadCheck());
    var heads := Each(c, HeadCheck()).value;
    EachItem(heads, OwnCheck(checks));
    forall i | 0 <= i < |c|
      ensures CounterNormalised(c[i], d[i], checks)
    {
      assert HeadCheck()(c[i]) == Ok(heads[i]) && OwnCheck(checks)(heads[i]) == Ok(d[i]);
      OneNormalised(c[i], heads[i], d[i], checks);
    }
  }

  ghost predicate CounterNormalised(c: ExportCounter, d: ExportCounter, checks: Checks) {
    && d.cid == c.cid && d.token == c.token
    && d.name == (if c.name == "" then Trim(c.cid) else c.name)
    && d.poll == (if c.poll <= 0 then 60 else c.poll)
    && Each(c.triggers, TriggerCheck(checks)) == Ok(d.triggers)
    && Each(c.reports, ReportCheck(checks)) == Ok(d.reports)
  }

  lemma OneNormalised(c: ExportCounter, head: ExportCounter, d: ExportCounter, checks: Checks)
    requires NormaliseHead(c) == Ok(head) && NormaliseOwn(head, checks) == Ok(d)
    ensures CounterNormalised(c, d, checks)
  {
    hide Each, Trim, ParseInt64, TriggerCheck, ReportCheck;
  }

  lemma {:induction false} NestedTriggersChecked(c: seq<ExportCounter>, d: seq<ExportCounter>, checks: Checks)
    requires |d| == |c| && forall i :: 0 <= i < |c| ==> CounterNormalised(c[i], d[i], checks)
    ensures Checked(NestedTriggers(c), Flatten(TriggerGroups(d)), TriggerCheck(checks))
  {
    hide Each, Trim, Under, TriggerCheck, Checked;
    var groups := TriggerGroups(d);
    if c == [] {
      NothingChecked(TriggerCheck(checks));
      assert groups == [];
    } else {
      FlattenFirst(groups);
      assert groups[1..] == TriggerGroups(d[1..]);
      NestedTriggersChecked(c[1..], d[1..], checks);
      EachChecked(c[0].cid, c[0].triggers, d[0].triggers, TriggerCheck(checks));
      CheckedAppend(Tagged(c[0].cid, c[0].triggers), Under(groups[0].cid, groups[0].rules),
        NestedTriggers(c[1..]), Flatten(groups[1..]), TriggerCheck(checks));
    }
  }

  lemma {:induction false} NestedReportsChecked(c: seq<ExportCounter>, d: seq<ExportCounter>, checks: Checks)
    requires |d| == |c| && forall i :: 0 <= i < |c| ==> CounterNormalised(c[i], d[i], checks)
    ensures Checked(NestedReports(c), Flatten(ReportGroups(d)), ReportCheck(checks))
  {
    hide Each, Trim, Under, ReportCheck, Checked;
    var groups := ReportGroups(d);
    if c == [] {
      NothingChecked(ReportCheck(checks));
      assert groups == [];
    } else {
      FlattenFirst(groups);
      assert groups[1..] == ReportGroups(d[1..]);
      NestedReportsChecked(c[1..], d[1..], checks);
      EachChecked(c[0].cid, c[0].reports, d[0].reports, ReportCheck(checks));
      CheckedAppend(Tagged(c[0].cid, c[0].reports), Under(groups[0].cid, groups[0].rules),
        NestedReports(c[1..]), Flatten(groups[1..]), ReportCheck(checks));
    }
  }

  lemma NothingChecked<B>(check: Check<ExportRule<B>>)
    ensures Checked([], [], check)
  {
  }

  lemma EachChecked<B>(cid: string, listed: seq<ExportRule<B>>, rules: seq<ExportRule<B>>, check: Check<ExportRule<B>>)
    requires Each(listed, check) == Ok(rules)
    ensures Checked(Tagged(cid, listed), Under(Trim(cid), rules), check)
  {
    hide Each, Trim, Under, Checked;
    EachItem(listed, check);
    UnderChecked(cid, listed, rules, check);
  }

  lemma FlatTriggersChecked(listed: seq<FlatRule<TriggerBody>>, rules: seq<FlatRule<TriggerBody>>, checks: Checks)
    requires Each(listed, FlatTriggerCheck(checks)) == Ok(rules)
    ensures Checked(FlatTagged(listed), TrimIds(rules), TriggerCheck(checks))
  {
    hide Each, Trim, NormaliseTrigger;
    EachItem(listed, FlatTriggerCheck(checks));
    forall n | 0 <= n < |listed|
      ensures rules[n].cid == listed[n].cid && NormaliseTrigger(listed[n].rule, checks) == Ok(rules[n].rule)
    {
      assert FlatTriggerCheck(checks)(listed[n]) == Ok(rules[n]);
    }
  }

  lemma FlatReportsChecked(listed: seq<FlatRule<ReportBody>>, rules: seq<FlatRule<ReportBody>>, checks: Checks)
    requires Each(listed, FlatReportCheck(checks)) == Ok(rules)
    ensures Checked(FlatTagged(listed), TrimIds(rules), ReportCheck(checks))
  {
    hide Each, Trim, NormaliseReport;
    EachItem(listed, FlatReportCheck(checks));
    forall n | 0 <= n < |listed|
      ensures rules[n].cid == listed[n].cid && NormaliseReport(listed[n].rule, checks) == Ok(rules[n].rule)
    {
      assert FlatReportCheck(checks)(listed[n]) == Ok(rules[n]);
    }
  }

  lemma AllChecked(p: Payload, checks: Checks)
    requires Normalise(p, checks).Ok?
    ensures var q := Normalise(p, checks).value;
            && Checked(AllTriggers(p), TriggerRules(q), TriggerCheck(checks))
            && Checked(AllReports(p), ReportRules(q), ReportCheck(checks))
  {
    NormalisedParts(p, checks);
    hide Each, Normalise, Checked, CounterNormalised, Flatten, TrimIds, TriggerCheck, ReportCheck, FlatTriggerCheck,
      FlatReportCheck, NestedTriggers, NestedReports, FlatTagged, TriggerGroups, ReportGroups;
    var q := Normalise(p, checks).value;
    NestedTriggersChecked(p.counters, q.counters, checks);
    NestedReportsChecked(p.counters, q.counters, checks);
    FlatTriggersChecked(p.triggers, q.triggers, checks);
    FlatReportsChecked(p.reports, q.reports, checks);
    CheckedAppend(NestedTriggers(p.counters), Flatten(TriggerGroups(q.counters)), FlatTagged(p.triggers),
      TrimIds(q.triggers), TriggerCheck(checks));
    CheckedAppend(NestedReports(p.counters), Flatten(ReportGroups(q.counters)), FlatTagged(p.reports),
      TrimIds(q.reports), ReportCheck(checks));
  }

  // ---- One row for each rule ----

  lemma {:induction false} ResolvedAt<B, V, W>(counters: Table<string, W>, rules: seq<FlatRule<B>>, stored: B -> V)
    requires Resolve(counters, rules, stored).Ok?
    ensures var items := Resolve(counters, rules, stored).value;
            && |items| == |rules|
            && forall n :: 0 <= n < |rules| ==>
                 && CounterRow(counters, rules[n].cid).Some?
                 && items[n]
                    == ((CounterRow(counters, rules[n].cid).value, rules[n].rule.name), stored(rules[n].rule.body))
  {
    hide CounterRow;
    if rules != [] {
      var n := |rules| - 1;
      ResolvedAt(counters, rules[..n], stored);
    }
  }

  lemma SameRow<W>(counters: Table<string, W>, a: string, b: string)
    requires Ordered(counters) && CounterRow(counters, a).Some? && CounterRow(counters, a) == CounterRow(counters, b)
    ensures a == b
  {
    hide Find;
    var i, j := Find(counters.rows, a), Find(counters.rows, b);
    assert counters.rows[i].id == counters.rows[j].id;
  }

  /** In the table after the import there is a row for the n-th rule under the row of its counter: when
      replacing, the n-th one. */
  ghost predicate HasRow<V(!new), W>(counters: Table<string, W>, t: RuleTable<V>, cid: string, name: string, n: nat,
                                     replace: bool, as_: V -> bool) {
    exists i, k :: 0 <= i < |counters.rows| && 0 <= k < |t.rows| && (replace ==> k == n)
      && counters.rows[i].key == cid && t.rows[k].key == (counters.rows[i].id, name) && as_(t.rows[k].val)
  }

  lemma RowStored<B, V(!new), W>(t: RuleTable<V>, counters: Table<string, W>, all: seq<(string, ExportRule<B>)>,
                                 rules: seq<FlatRule<B>>, check: Check<ExportRule<B>>, stored: B -> V, replace: bool,
                                 n: nat, as_: V -> bool)
    requires Ordered(counters) && Resolve(counters, rules, stored).Ok? && Checked(all, rules, check)
    requires n < |all| && (!replace ==> LastOf(all, n)) && (replace ==> t.rows == [])
    requires forall m :: 0 <= m < |all| ==> rules[m].rule.name == all[m].1.name
    requires as_(stored(rules[n].rule.body))
    ensures HasRow(counters, RulesAfter(t, Resolve(counters, rules, stored).value, replace), all[n].0, all[n].1.name, n,
                   replace, as_)
  {
    hide Resolve, Find, PutAll, InsertAll, CounterRow, Lawful, Upserted;
    ResolvedAt(counters, rules, stored);
    var items := Resolve(counters, rules, stored).value;
    var u := RulesAfter(t, items, replace);
    var at := RowOf(counters, rules[n].cid);
    var k: int;
    if replace {
      InsertAllAppends(t, items);
      k := n;
      assert u.rows[|t.rows| + n] == Row(t.next + n, items[n].0, items[n].1);
    } else {
      forall m | n < m < |items|
        ensures items[m].0 != items[n].0
      {
        if items[m].0 == items[n].0 {
          SameRow(counters, rules[m].cid, rules[n].cid);
        }
      }
      assert LastFor(items, n);
      OverwritesLawful<V>();
      PutAllUpserts(t, items, Overwrite);
      LastWins(t, items, u, n);
      k := Find(u.rows, items[n].0);
    }
    assert counters.rows[at].key == all[n].0 && u.rows[k].key == (counters.rows[at].id, all[n].1.name)
           && as_(u.rows[k].val);
  }

  lemma OverwritesLawful<V(!new)>()
    ensures Lawful<V>(Overwrite)
  {
  }

  lemma RowOf<W>(counters: Table<string, W>, cid: string) returns (at: int)
    requires CounterRow(counters, cid).Some?
    ensures 0 <= at < |counters.rows| && counters.rows[at].key == cid
            && CounterRow(counters, cid) == Some(counters.rows[at].id)
  {
    at := Find(counters.rows, cid);
  }

  function StoresTrigger(b: TriggerBody): TriggerVals -> bool {
    (v: TriggerVals) => TriggerStored(v, b)
  }

  function StoresReport(b: ReportBody): ReportVals -> bool {
    (v: ReportVals) => ReportStored(v, b)
  }

  lemma TriggerColumns(t: ExportTrigger, checks: Checks)
    requires NormaliseTrigger(t, checks).Ok?
    ensures NormaliseTrigger(t, checks).value.name == t.name
    ensures TriggerStored(StoredTrigger(NormaliseTrigger(t, checks).value.body), t.body)
  {
    TriggerAcceptedIff(t, checks);
    hide Trim, Lower, NormaliseTrigger;
  }

  lemma ReportColumns(r: ExportReport, checks: Checks)
    requires NormaliseReport(r, checks).Ok?
    ensures NormaliseReport(r, checks).value.name == r.name
    ensures ReportStored(StoredReport(NormaliseReport(r, checks).value.body), r.body)
  {
    hide Trim, ParseGoals, FormatGoals, IsInt64, Positive;
    if forall i :: 0 <= i < |r.body.goals| ==> IsInt64(r.body.goals[i]) {
      GoalsRoundTrip(r.body.goals);
    }
  }

  lemma CountersInOrder(s: State, p: Payload, replace: bool, checks: Checks)
    requires Ordered(s.counters) && Imported(s, p, replace, checks).Ok?
    ensures Ordered(Imported(s, p, replace, checks).value.counters)
  {
    hide Normalise, Applied, Ordered;
    var q := Normalise(p, checks).value;
    AppliedParts(s, q, replace);
    hide CountersAfter, CounterItems;
    BaseOrdered(s, q, replace);
    CountersOrdered(Base(s, q, replace).counters, CounterItems(q.counters), replace);
  }

  lemma BaseOrdered(s: State, p: Payload, replace: bool)
    requires Ordered(s.counters)
    ensures Ordered(Base(s, p, replace).counters)
    ensures replace ==> Base(s, p, replace).triggers.rows == [] && Base(s, p, replace).reports.rows == []
  {
  }

  /** After an import, in either mode, each trigger the payload lists has a row under the row of its counter,
      with the payload's columns: when replacing, every one in its order; when merging, the one listed last
      under its counter and name. */
  lemma TriggersStored(s: State, p: Payload, replace: bool, checks: Checks, n: nat)
    requires Ordered(s.counters) && Imported(s, p, replace, checks).Ok?
    requires n < |AllTriggers(p)| && (!replace ==> LastOf(AllTriggers(p), n))
    ensures var u, (cid, t) := Imported(s, p, replace, checks).value, AllTriggers(p)[n];
            HasRow(u.counters, u.triggers, cid, t.name, n, replace, StoresTrigger(t.body))
    ensures replace ==> |Imported(s, p, replace, checks).value.triggers.rows| == |AllTriggers(p)|
  {
    var q := Normalise(p, checks).value;
    hide *;
    AllChecked(p, checks);
    ImportedIs(s, p, replace, checks);
    CountersInOrder(s, p, replace, checks);
    AppliedParts(s, q, replace);
    BaseOrdered(s, q, replace);
    TriggerRows(Imported(s, p, replace, checks).value, Base(s, q, replace).triggers, AllTriggers(p), TriggerRules(q),
      replace, checks, n);
  }

  lemma ImportedIs(s: State, p: Payload, replace: bool, checks: Checks)
    requires Imported(s, p, replace, checks).Ok?
    ensures Normalise(p, checks).Ok?
    ensures Applied(s, Normalise(p, checks).value, replace) == Imported(s, p, replace, checks)
  {
    hide Normalise, Applied;
  }

  lemma TriggerRows(u: State, before: RuleTable<TriggerVals>, all: seq<(string, ExportTrigger)>,
                    rules: seq<FlatRule<TriggerBody>>, replace: bool, checks: Checks, n: nat)
    requires Ordered(u.counters) && Checked(all, rules, TriggerCheck(checks))
    requires Resolve(u.counters, rules, StoredTrigger).Ok?
    requires u.triggers == RulesAfter(before, Resolve(u.counters, rules, StoredTrigger).value, replace)
    requires n < |all| && (!replace ==> LastOf(all, n)) && (replace ==> before.rows == [])
    ensures HasRow(u.counters, u.triggers, all[n].0, all[n].1.name, n, replace, StoresTrigger(all[n].1.body))
    ensures replace ==> |u.triggers.rows| == |all|
  {
    hide Resolve, RulesAfter, NormaliseTrigger, StoredTrigger, TriggerStored, Ordered, HasRow, LastOf;
    forall m | 0 <= m < |all|
      ensures rules[m].rule.name == all[m].1.name
      ensures StoresTrigger(all[m].1.body)(StoredTrigger(rules[m].rule.body))
    {
      TriggerColumns(all[m].1, checks);
    }
    RowStored(before, u.counters, all, rules, TriggerCheck(checks), StoredTrigger, replace, n,
      StoresTrigger(all[n].1.body));
    RowCount(before, u.counters, rules, StoredTrigger, replace);
  }

  lemma RowCount<B, V, W>(t: RuleTable<V>, counters: Table<string, W>, rules: seq<FlatRule<B>>, stored: B -> V,
                          replace: bool)
    requires Resolve(counters, rules, stored).Ok?
    ensures replace ==> |RulesAfter(t, Resolve(counters, rules, stored).value, replace).rows| == |t.rows| + |rules|
  {
    ResolvedAt(counters, rules, stored);
    hide Resolve, PutAll, InsertAll;
    InsertAllAppends(t, Resolve(counters, rules, stored).value);
  }

  /** And each report likewise; the goals stored are those it lists that are positive. */
  lemma ReportsStored(s: State, p: Payload, replace: bool, checks: Checks, n: nat)
    requires Ordered(s.counters) && Imported(s, p, replace, checks).Ok?
    requires n < |AllReports(p)| && (!replace ==> LastOf(AllReports(p), n))
    ensures var u, (cid, r) := Imported(s, p, replace, checks).value, AllReports(p)[n];
            HasRow(u.counters, u.reports, cid, r.name, n, replace, StoresReport(r.body))
    ensures replace ==> |Imported(s, p, replace, checks).value.reports.rows| == |AllReports(p)|
  {
    var q := Normalise(p, checks).value;
    hide *;
    AllChecked(p, checks);
    ImportedIs(s, p, replace, checks);
    CountersInOrder(s, p, replace, checks);
    AppliedParts(s, q, replace);
    BaseOrdered(s, q, replace);
    ReportRows(Imported(s, p, replace, checks).value, Base(s, q, replace).reports, AllReports(p), ReportRules(q),
      replace, checks, n);
  }

  lemma ReportRows(u: State, before: RuleTable<ReportVals>, all: seq<(string, ExportReport)>,
                   rules: seq<FlatRule<ReportBody>>, replace: bool, checks: Checks, n: nat)
    requires Ordered(u.counters) && Checked(all, rules, ReportCheck(checks))
    requires Resolve(u.counters, rules, StoredReport).Ok?
    requires u.reports == RulesAfter(before, Resolve(u.counters, rules, StoredReport).value, replace)
    requires n < |all| && (!replace ==> LastOf(all, n)) && (replace ==> before.rows == [])
    ensures HasRow(u.counters, u.reports, all[n].0, all[n].1.name, n, replace, StoresReport(all[n].1.body))
    ensures replace ==> |u.reports.rows| == |all|
  {
    hide Resolve, RulesAfter, NormaliseReport, StoredReport, ReportStored, Ordered, HasRow, LastOf;
    forall m | 0 <= m < |all|
      ensures rules[m].rule.name == all[m].1.name
      ensures StoresReport(all[m].1.body)(StoredReport(rules[m].rule.body))
    {
      ReportColumns(all[m].1, checks);
    }
    RowStored(before, u.counters, all, rules, ReportCheck(checks), StoredReport, replace, n,
      StoresReport(all[n].1.body));
    RowCount(before, u.counters, rules, StoredReport, replace);
  }

  // ---- One row for each counter ----

  ghost predicate LastCounter(p: Payload, n: nat) {
    n < |p.counters| && forall m :: n < m < |p.counters| ==> Trim(p.counters[m].cid) != Trim(p.counters[n].cid)
  }

  /** The row of a counter that a payload lists, with the defaults for what it leaves out: it takes a token that
      is not empty, and when replacing any. */
  ghost predicate CounterStored(row: Row<string, CounterVals>, c: ExportCounter, replace: bool) {
    && row.key == Trim(c.cid)
    && row.val.name == (if c.name == "" then Trim(c.cid) else c.name)
    && row.val.poll == (if c.poll <= 0 then 60 else c.poll)
    && (replace || c.token != "" ==> row.val.token == c.token)
    && (replace ==> row.val.cursor == None)
  }

  /** A row that was there keeps its place, its id and its cursor. */
  ghost predicate CounterKept(before: Counters, after: Counters, at: int)
    requires 0 <= at < |after.rows|
  {
    var was := Find(before.rows, after.rows[at].key);
    was >= 0 ==> at == was && after.rows[at].id == before.rows[was].id
                 && after.rows[at].val.cursor == before.rows[was].val.cursor
  }

  /** After an import, in either mode, the counter listed last under an id has a row with the payload's values:
      when replacing, in its place; when merging, the row it had, with its cursor. */
  lemma CountersStored(s: State, p: Payload, replace: bool, checks: Checks, n: nat)
    requires Imported(s, p, replace, checks).Ok? && LastCounter(p, n)
    ensures var u := Imported(s, p, replace, checks).value.counters;
            exists at :: 0 <= at < |u.rows| && CounterStored(u.rows[at], p.counters[n], replace)
              && if replace then at == n else CounterKept(s.counters, u, at)
  {
    var q := Normalise(p, checks).value;
    hide *;
    ImportedIs(s, p, replace, checks);
    NormalisedParts(p, checks);
    AppliedParts(s, q, replace);
    ListedAgain(p, q, checks, n);
    var u := Imported(s, p, replace, checks).value.counters;
    var at := CounterAt(s, q, u, replace, n);
    StoredAs(u.rows[at], p.counters[n], q.counters[n], checks, replace);
  }

  lemma ListedAgain(p: Payload, q: Payload, checks: Checks, n: nat)
    requires LastCounter(p, n) && |q.counters| == |p.counters|
    requires forall i :: 0 <= i < |p.counters| ==> CounterNormalised(p.counters[i], q.counters[i], checks)
    ensures LastCounter(q, n) && CounterNormalised(p.counters[n], q.counters[n], checks)
  {
    hide Trim, Each, TriggerCheck, ReportCheck;
  }

  /** The row of a checked counter. */
  ghost predicate RowTakes(row: Row<string, CounterVals>, d: ExportCounter, replace: bool) {
    && row.key == Trim(d.cid) && row.val.name == d.name && row.val.poll == d.poll
    && (replace || d.token != "" ==> row.val.token == d.token)
    && (replace ==> row.val.cursor == None)
  }

  lemma StoredAs(row: Row<string, CounterVals>, c: ExportCounter, d: ExportCounter, checks: Checks, replace: bool)
    requires CounterNormalised(c, d, checks) && RowTakes(row, d, replace)
    ensures CounterStored(row, c, replace)
  {
    hide Trim, Each, TriggerCheck, ReportCheck;
  }

  lemma CounterAt(s: State, q: Payload, u: Counters, replace: bool, n: nat) returns (at: int)
    requires LastCounter(q, n)
             && CountersAfter(Base(s, q, replace).counters, CounterItems(q.counters), replace) == Ok(u)
    ensures 0 <= at < |u.rows| && RowTakes(u.rows[at], q.counters[n], replace)
    ensures if replace then at == n else CounterKept(s.counters, u, at)
  {
    hide Find, Trim, InsertUnique, InsertAll, PutAll, Listed, Lawful, Upserted;
    var items := CounterItems(q.counters);
    if replace {
      var base := Base(s, q, true).counters;
      InsertUniqueIff(base, items);
      InsertAllAppends(base, items);
      at := n;
      assert u.rows[|base.rows| + n] == Row(base.next + n, items[n].0, items[n].1);
    } else {
      assert LastFor(items, n);
      at := MergedCounter(s.counters, items, u, n);
    }
  }

  lemma MergedCounter(t: Counters, items: seq<(string, CounterVals)>, u: Counters, n: int) returns (at: int)
    requires LastFor(items, n) && u == PutAll(t, items, MergeCounter)
    ensures 0 <= at < |u.rows| && u.rows[at].key == items[n].0
    ensures var v := u.rows[at].val;
            v.name == items[n].1.name && v.poll == items[n].1.poll
              && (items[n].1.token != "" ==> v.token == items[n].1.token)
    ensures CounterKept(t, u, at)
  {
    hide Find, PutAll, Lawful, Listed;
    MergesLawful();
    PutAllUpserts(t, items, MergeCounter);
    SomeValue(items, n);
    var k := items[n].0;
    at := Find(u.rows, k);
    OldKeys(t, items, MergeCounter, u);
    var was := Find(t.rows, k);
    var listed := Listed(items, k, MergeCounter).value;
    if was >= 0 {
      FindFirst(u.rows, k, was);
      assert OldRow(t, items, MergeCounter, u, was);
      assert u.rows[was].val == MergeCounter(t.rows[was].val, listed);
    } else {
      assert at >= |t.rows|;
      assert NewRow(t, items, MergeCounter, u, at);
    }
  }

  /** What a list says about the key of its last item. */
  lemma {:induction false} SomeValue(items: seq<(string, CounterVals)>, n: int)
    requires LastFor(items, n)
    ensures var listed := Listed(items, items[n].0, MergeCounter);
            && listed.Some? && listed.value.name == items[n].1.name && listed.value.poll == items[n].1.poll
            && (items[n].1.token != "" ==> listed.value.token == items[n].1.token)
  {
    var l := |items| - 1;
    ListedMore(items[..l], MergeCounter, items[l].0, items[l].1, items[n].0);
    assert items[..l] + [items[l]] == items;
    hide Listed;
    if n < l {
      assert LastFor(items[..l], n);
      SomeValue(items[..l], n);
    }
  }
}
