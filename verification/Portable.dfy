/** Exactly when the export of a database is accepted again, for every database. */
module Portable {
  import opened Text
  import opened Keyed
  import opened RuleTables
  import opened Settings
  import opened Database
  import opened Replace
  import opened Integrity
  import opened Accepted
  import opened Saving
  import opened Upkeep
  import opened Runs

  /** Every rule of a counter would be accepted. */
  ghost predicate RowsAccepted<B, V>(rows: seq<Row<RuleKey, V>>, id: int, listed: V -> B, check: Check<ExportRule<B>>) {
    forall i :: 0 <= i < |rows| && rows[i].key.0 == id ==> check(ExportRule(rows[i].key.1, listed(rows[i].val))).Ok?
  }

  ghost predicate Passes<T>(items: seq<T>, check: Check<T>) {
    forall i :: 0 <= i < |items| ==> check(items[i]).Ok?
  }

  lemma EachPasses<T>(items: seq<T>, check: Check<T>)
    ensures Each(items, check).Ok? <==> Passes(items, check)
  {
    EachItem(items, check);
    hide Each;
  }

  lemma {:induction false} CollectedAccepted<B, V>(rows: seq<Row<RuleKey, V>>, id: int, listed: V -> B,
                                                   check: Check<ExportRule<B>>)
    ensures Passes(Collected(rows, id, listed), check) <==> RowsAccepted(rows, id, listed, check)
  {
    if rows != [] {
      var n := |rows| - 1;
      CollectedAccepted(rows[..n], id, listed, check);
      assert forall i :: 0 <= i < n ==> rows[..n][i] == rows[i];
      var before, all := Collected(rows[..n], id, listed), Collected(rows, id, listed);
      if rows[n].key.0 == id {
        assert all == before + [ExportRule(rows[n].key.1, listed(rows[n].val))];
        PassesMore(before, all[|before|], check);
      }
    }
  }

  lemma PassesMore<T>(items: seq<T>, x: T, check: Check<T>)
    ensures Passes(items + [x], check) <==> Passes(items, check) && check(x).Ok?
  {
    var all := items + [x];
    assert all[|items|] == x;
    assert forall i :: 0 <= i < |items| ==> all[i] == items[i];
  }

  /** A counter's id reads as a number, and all its rules would be accepted. */
  ghost predicate CounterAccepted(s: State, row: Row<string, CounterVals>, checks: Checks) {
    && ParseInt64(Trim(row.key)).Some?
    && RowsAccepted(s.triggers.rows, row.id, ListedTrigger, TriggerCheck(checks))
    && RowsAccepted(s.reports.rows, row.id, ListedReport, ReportCheck(checks))
  }

  ghost predicate CountersAccepted(s: State, checks: Checks) {
    forall i :: 0 <= i < |s.counters.rows| ==> CounterAccepted(s, s.counters.rows[i], checks)
  }

  /** No two ids differ only in the white space around them. */
  ghost predicate IdsApart(s: State) {
    forall i, j :: 0 <= i < j < |s.counters.rows| ==> Trim(s.counters.rows[i].key) != Trim(s.counters.rows[j].key)
  }

  ghost predicate ActionsAccepted(s: State) {
    forall i :: 0 <= i < |s.actions.rows| ==> NormaliseAction(ListedAction(s.actions.rows[i])).Ok?
  }

  lemma CounterAcceptedIff(s: State, row: Row<string, CounterVals>, tokens: bool, checks: Checks)
    ensures var head := NormaliseHead(ListedCounter(s, row, tokens));
            CounterAccepted(s, row, checks) <==> head.Ok? && NormaliseOwn(head.value, checks).Ok?
  {
    hide Collected, Trim, RowsAccepted;
    var triggers, reports := Collected(s.triggers.rows, row.id, ListedTrigger),
      Collected(s.reports.rows, row.id, ListedReport);
    CollectedAccepted(s.triggers.rows, row.id, ListedTrigger, TriggerCheck(checks));
    CollectedAccepted(s.reports.rows, row.id, ListedReport, ReportCheck(checks));
    EachPasses(triggers, TriggerCheck(checks));
    EachPasses(reports, ReportCheck(checks));
    hide Each, Passes, TriggerCheck, ReportCheck;
  }

  /** Checking a counter keeps its id. */
  lemma IdKept(s: State, row: Row<string, CounterVals>, tokens: bool, checks: Checks)
    ensures var c := ListedCounter(s, row, tokens);
            && c.cid == row.key
            && (NormaliseHead(c).Ok? ==>
                  && NormaliseHead(c).value.cid == row.key
                  && (NormaliseOwn(NormaliseHead(c).value, checks).Ok? ==>
                        NormaliseOwn(NormaliseHead(c).value, checks).value.cid == row.key))
  {
    hide Collected, Trim, ParseInt64, Each;
  }

  /** The two rounds over the counters pass exactly when every counter is accepted, and keep the ids. */
  lemma CountersPassIff(s: State, tokens: bool, checks: Checks)
    ensures var counters := ListedCounters(s, s.counters.rows, tokens);
            var heads := Each(counters, HeadCheck());
            && (CountersAccepted(s, checks) <==> heads.Ok? && Each(heads.value, OwnCheck(checks)).Ok?)
            && (heads.Ok? && Each(heads.value, OwnCheck(checks)).Ok? ==>
                  (IdsApart(s) <==> DistinctIds(Each(heads.value, OwnCheck(checks)).value)))
  {
    hide NormaliseHead, NormaliseOwn, CounterAccepted, ListedCounter, Each, Trim, IdsApart, DistinctIds;
    var rows, counters := s.counters.rows, ListedCounters(s, s.counters.rows, tokens);
    var heads := Each(counters, HeadCheck());
    EachItem(counters, HeadCheck());
    EachPasses(counters, HeadCheck());
    forall i | 0 <= i < |counters|
      ensures CounterAccepted(s, rows[i], checks) <==>
              NormaliseHead(counters[i]).Ok? && NormaliseOwn(NormaliseHead(counters[i]).value, checks).Ok?
    {
      CounterAcceptedIff(s, rows[i], tokens, checks);
    }
    if heads.Ok? {
      EachItem(heads.value, OwnCheck(checks));
      EachPasses(heads.value, OwnCheck(checks));
      forall i | 0 <= i < |counters|
        ensures NormaliseHead(counters[i]) == Ok(heads.value[i])
      {
        assert HeadCheck()(counters[i]) == Ok(heads.value[i]);
      }
      var owns := Each(heads.value, OwnCheck(checks));
      if owns.Ok? {
        forall i | 0 <= i < |counters|
          ensures owns.value[i].cid == rows[i].key
        {
          assert OwnCheck(checks)(heads.value[i]) == Ok(owns.value[i]);
          IdKept(s, rows[i], tokens, checks);
        }
        SameIds(s, owns.value);
      }
    }
  }

  lemma SameIds(s: State, counters: seq<ExportCounter>)
    requires |counters| == |s.counters.rows|
    requires forall i :: 0 <= i < |counters| ==> counters[i].cid == s.counters.rows[i].key
    ensures IdsApart(s) <==> DistinctIds(counters)
  {
    hide Trim;
  }

  lemma ActionsPassIff(s: State)
    ensures Each(ListedActions(s.actions.rows), ActionCheck()).Ok? <==> ActionsAccepted(s)
  {
    hide NormaliseAction, ListedAction, Each;
    var rows, actions := s.actions.rows, ListedActions(s.actions.rows);
    EachPasses(actions, ActionCheck());
    forall i | 0 <= i < |rows|
      ensures ActionCheck()(actions[i]) == NormaliseAction(ListedAction(rows[i]))
    {
      assert actions[i] == ListedAction(rows[i]);
    }
  }

  lemma NothingListed<T>(check: Check<T>)
    ensures Each([], check) == Ok([])
  {
  }

  /** The checks pass an export exactly when it has settings and each of its parts is accepted; then only
      its ids decide whether it is applied. */
  lemma ExportNormalised(s: State, tokens: bool, checks: Checks)
    ensures var p := Exported(s, 0, tokens).value;
            && (Normalise(p, checks).Ok? <==>
                  && HasAnySettings(p) && CountersAccepted(s, checks) && ActionsAccepted(s)
                  && ScheduleNormal(ScheduleOf(s), checks))
            && (Normalise(p, checks).Ok? ==>
                  var q := Normalise(p, checks).value;
                  q.triggers == [] && q.reports == [] && (IdsApart(s) <==> DistinctIds(q.counters)))
  {
    CountersPassIff(s, tokens, checks);
    ActionsPassIff(s);
    NothingListed(FlatTriggerCheck(checks));
    NothingListed(FlatReportCheck(checks));
    hide Each, HeadCheck, OwnCheck, FlatTriggerCheck, FlatReportCheck, ActionCheck, HasAnySettings, CountersAccepted,
      ActionsAccepted, IdsApart, DistinctIds, ListedCounters, ListedActions, ScheduleOf;
  }

  /** For every database and every target: the export is accepted, with replacement, exactly when there is
      anything in it, every counter's id reads as a number, no two ids differ only in white space, every rule
      of a counter, every destination and the schedule would pass the checks. */
  lemma ExportAcceptedIff(s: State, tokens: bool, target: State, checks: Checks)
    ensures var p := Exported(s, 0, tokens).value;
            Imported(target, p, true, checks).Ok? <==>
            && HasAnySettings(p) && CountersAccepted(s, checks) && IdsApart(s) && ActionsAccepted(s)
            && ScheduleNormal(ScheduleOf(s), checks)
  {
    var p := Exported(s, 0, tokens).value;
    ExportNormalised(s, tokens, checks);
    hide Exported, HasAnySettings, CountersAccepted, ActionsAccepted, IdsApart, DistinctIds, ScheduleNormal, ScheduleOf,
      Normalise, Applied;
    if Normalise(p, checks).Ok? {
      AppliedIff(target, Normalise(p, checks).value, true);
    }
  }

  // ---- A rule that blocks the export ----

  const SHOP := ApiCounterStep("shop", "1", "token", 0)
  const LONG_BASELINE := RuleRequest("deep", "visits", "", 50, None, 13, "", "", 0)

  /** A counter and a rule with a baseline of thirteen weeks, both saved over REST: no import accepts the
      export. */
  lemma RestRuleBlocksExport(tokens: bool, target: State, app: App)
    requires Consistent(app) && app.metric("visits")
    ensures ApiRule(1, LONG_BASELINE, app).Ok?
    ensures Imported(target, Exported(Run(EMPTY, [SHOP, ApiRuleStep(1, LONG_BASELINE)], app), 0, tokens).value, true,
            ChecksOf(app)).Err?
  {
    RequestTaken(app);
    ApiRuleNormalIff(1, LONG_BASELINE, app);
    ShopRun(app);
    assert !RuleFits(LONG_BASELINE);
    hide *;
    var s := Run(EMPTY, [SHOP, ApiRuleStep(1, LONG_BASELINE)], app);
    RuleBlocks(s, ApiRule(1, LONG_BASELINE, app).value, ChecksOf(app));
    ExportAcceptedIff(s, tokens, target, ChecksOf(app));
  }

  lemma RuleBlocks(s: State, rule: ExportTrigger, checks: Checks)
    requires |s.counters.rows| == 1 && s.counters.rows[0].id == 1
    requires s.triggers.rows == [Row(1, (1, rule.name), StoredTrigger(rule.body))]
    requires ListedTrigger(StoredTrigger(rule.body)) == rule.body && NormaliseTrigger(rule, checks).Err?
    ensures !CountersAccepted(s, checks)
  {
    hide NormaliseTrigger, StoredTrigger, ListedTrigger, Trim, ParseInt64;
    assert s.triggers.rows[0].key.0 == 1;
    assert rule == ExportRule(rule.name, rule.body);
    assert !RowsAccepted(s.triggers.rows, 1, ListedTrigger, TriggerCheck(checks));
    assert !CounterAccepted(s, s.counters.rows[0], checks);
  }

  lemma RequestTaken(app: App)
    requires app.metric("visits")
    ensures ApiRule(1, LONG_BASELINE, app).Ok?
  {
    TrimKeeps("");
  }

  lemma ShopRun(app: App)
    requires ApiRule(1, LONG_BASELINE, app).Ok?
    ensures var rule := ApiRule(1, LONG_BASELINE, app).value;
            var s := Run(EMPTY, [SHOP, ApiRuleStep(1, LONG_BASELINE)], app);
            && s.counters.rows == [Row(1, "1", CounterVals("shop", "token", 60, None))]
            && s.triggers.rows == [Row(1, (1, rule.name), StoredTrigger(rule.body))]
            && ListedTrigger(StoredTrigger(rule.body)) == rule.body
  {
    SavedAsTaken(app);
    hide ApiRule;
    var both := [SHOP, ApiRuleStep(1, LONG_BASELINE)];
    assert both[..1] == [SHOP] && [SHOP][..0] == [];
    var s1 := After(EMPTY, SHOP, app);
    assert Run(EMPTY, [], app) == EMPTY && Run(EMPTY, [SHOP], app) == s1
           && Run(EMPTY, both, app) == After(s1, both[1], app);
    hide Run;
    assert s1.counters.rows == [Row(1, "1", CounterVals("shop", "token", 60, None))] && s1.triggers.rows == [];
    hide StoredTrigger, ListedTrigger;
  }

  lemma SavedAsTaken(app: App)
    requires ApiRule(1, LONG_BASELINE, app).Ok?
    ensures var body := ApiRule(1, LONG_BASELINE, app).value.body; ListedTrigger(StoredTrigger(body)) == body
  {
    hide Trim, Lower;
  }

  // ---- References the tables do not enforce ----

  /** A counter is deleted, and then the rule that was being written for it is saved. */
  lemma RuleOrphaned(app: App)
    requires app.metric("visits")
    ensures !Integral(Run(EMPTY, [SHOP, DeleteStep(1), ApiRuleStep(1, LONG_BASELINE)], app))
  {
    RequestTaken(app);
    EmptyIntegral();
    var three := [SHOP, DeleteStep(1), ApiRuleStep(1, LONG_BASELINE)];
    RunThree(EMPTY, three, app);
    hide *;
    var s1 := After(EMPTY, SHOP, app);
    var s2 := After(s1, DeleteStep(1), app);
    StepIntegralIff(EMPTY, SHOP, app);
    assert Tidy(EMPTY, SHOP, app) by { ShopTidy(app); }
    CounterGone(s1, app);
    StepIntegralIff(s2, ApiRuleStep(1, LONG_BASELINE), app);
  }

  lemma EmptyIntegral()
    ensures Integral(EMPTY)
  {
  }

  lemma ShopTidy(app: App)
    ensures Tidy(EMPTY, SHOP, app)
  {
  }

  lemma CounterGone(s: State, app: App)
    requires Integral(s) && ApiRule(1, LONG_BASELINE, app).Ok?
    ensures Integral(After(s, DeleteStep(1), app))
    ensures !Tidy(After(s, DeleteStep(1), app), ApiRuleStep(1, LONG_BASELINE), app)
  {
    hide Integral, Deleted, HasId, ApiRule;
    DeleteIntegral(s, 1);
  }

  lemma RunThree(s: State, steps: seq<Step>, app: App)
    requires |steps| == 3
    ensures Run(s, steps, app) == After(After(After(s, steps[0], app), steps[1], app), steps[2], app)
  {
    hide After;
    var two, one := steps[..2], steps[..1];
    assert two[..1] == one && one[..0] == [];
    assert Run(s, [], app) == s;
    assert Run(s, one, app) == After(s, steps[0], app);
    assert Run(s, two, app) == After(Run(s, one, app), steps[1], app);
  }

  /** A rule that has alerted is dropped. */
  lemma CooldownOrphaned(s: State, rule: int, at: int, app: App)
    ensures !Integral(After(After(s, AlertRecorded(rule, at), app), DropRule(rule), app))
  {
    hide Dropped, HasId;
    var s1 := After(s, AlertRecorded(rule, at), app);
    DroppedRow(s1.triggers, rule, rule);
    assert rule in After(s1, DropRule(rule), app).cooldowns;
  }
}
