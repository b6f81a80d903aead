/** Exporting a database and importing the result with replacement. */
module RoundTrip {
  import opened Text
  import opened Keyed
  import opened RuleTables
  import opened Settings
  import opened Goals
  import opened Database
  import opened Replace

  // ---- Databases in the importer's normal form ----

  /** Every stored rule would pass the check of its listed form. */
  ghost predicate RowsPass<B, V>(rows: seq<Row<RuleKey, V>>, listed: V -> B, test: ExportRule<B> -> bool) {
    forall i :: 0 <= i < |rows| ==> test(ExportRule(rows[i].key.1, listed(rows[i].val)))
  }

  predicate CounterRowNormal(row: Row<string, CounterVals>) {
    && Trim(row.key) == row.key && row.key != "" && ParseInt64(row.key).Some?
    && row.val.name != "" && row.val.poll > 0
  }

  ghost predicate CountersPass(rows: seq<Row<string, CounterVals>>) {
    forall i :: 0 <= i < |rows| ==> CounterRowNormal(rows[i])
  }

  ghost predicate ActionsPass(rows: seq<Row<Address, string>>) {
    forall i :: 0 <= i < |rows| ==> ActionNormal(ListedAction(rows[i]))
  }

  ghost predicate WellFormed(s: State, checks: Checks) {
    && UniqueKeys(s.counters.rows) && CountersPass(s.counters.rows)
    && RowsPass(s.triggers.rows, ListedTrigger, TriggerTest(checks))
    && RowsPass(s.reports.rows, ListedReport, ReportTest(checks))
    && ActionsPass(s.actions.rows)
    && ScheduleNormal(ScheduleOf(s), checks)
  }

  // ---- Their exports are normal and laid out as the importer keeps them ----

  lemma {:induction false} CollectedPass<B, V>(rows: seq<Row<RuleKey, V>>, id: int, listed: V -> B,
                                               test: ExportRule<B> -> bool)
    requires RowsPass(rows, listed, test)
    ensures All(Collected(rows, id, listed), test)
  {
    if rows != [] {
      CollectedPass(rows[..|rows| - 1], id, listed, test);
    }
  }

  lemma {:induction false} CollectedSurvive<B, V(!new)>(rows: seq<Row<RuleKey, V>>, id: int, stored: B -> V,
                                                        listed: V -> B)
    requires forall v :: listed(stored(listed(v))) == listed(v)
    ensures Survives(Collected(rows, id, listed), stored, listed)
  {
    if rows != [] {
      CollectedSurvive(rows[..|rows| - 1], id, stored, listed);
    }
  }

  lemma ListedSurvives()
    ensures forall v :: ListedTrigger(StoredTrigger(ListedTrigger(v))) == ListedTrigger(v)
    ensures forall v :: ListedReport(StoredReport(ListedReport(v))) == ListedReport(v)
  {
    hide ParseGoals, FormatGoals;
    forall v: ReportVals
      ensures ListedReport(StoredReport(ListedReport(v))) == ListedReport(v)
    {
      ReadGoalsSurvive(v.goals);
    }
  }

  lemma CounterExported(s: State, row: Row<string, CounterVals>, tokens: bool, checks: Checks)
    requires WellFormed(s, checks) && row in s.counters.rows
    ensures var c := ListedCounter(s, row, tokens);
            && c.cid == row.key && Trim(c.cid) == c.cid
            && HeadNormal(c) && OwnNormal(c, checks)
            && Survives(c.triggers, StoredTrigger, ListedTrigger) && Survives(c.reports, StoredReport, ListedReport)
  {
    CollectedPass(s.triggers.rows, row.id, ListedTrigger, TriggerTest(checks));
    CollectedPass(s.reports.rows, row.id, ListedReport, ReportTest(checks));
    ListedSurvives();
    hide Survives;
    CollectedSurvive(s.triggers.rows, row.id, StoredTrigger, ListedTrigger);
    CollectedSurvive(s.reports.rows, row.id, StoredReport, ListedReport);
    hide Collected, RowsPass, Trim, ParseInt64, UniqueKeys, ActionsPass, ScheduleNormal, TriggerNormal, ReportNormal;
  }

  lemma ActionsExported(rows: seq<Row<Address, string>>)
    requires ActionsPass(rows)
    ensures All(ListedActions(rows), ActionTest())
    ensures forall i :: 0 <= i < |rows| ==> ListedActions(rows)[i].destination == ""
  {
    hide ActionNormal;
  }

  lemma ChosenRows(s: State, id: int)
    requires UniqueKeys(s.counters.rows) && Chosen(s, id).Some?
    ensures var rows := Chosen(s, id).value;
            && UniqueKeys(rows)
            && forall i :: 0 <= i < |rows| ==> rows[i] in s.counters.rows
  {
    hide FindId;
    if id > 0 {
      assert Chosen(s, id).value == [s.counters.rows[FindId(s.counters.rows, id)]];
    }
  }

  lemma CountersExported(s: State, rows: seq<Row<string, CounterVals>>, tokens: bool, checks: Checks)
    requires WellFormed(s, checks) && UniqueKeys(rows)
    requires forall i :: 0 <= i < |rows| ==> rows[i] in s.counters.rows
    ensures var counters := ListedCounters(s, rows, tokens);
            && All(counters, HeadTest()) && All(counters, OwnTest(checks)) && DistinctIds(counters)
            && forall i :: 0 <= i < |counters| ==>
                 && Trim(counters[i].cid) == counters[i].cid
                 && Survives(counters[i].triggers, StoredTrigger, ListedTrigger)
                 && Survives(counters[i].reports, StoredReport, ListedReport)
  {
    hide WellFormed, HeadNormal, OwnNormal, Survives, Trim, Collected;
    forall i | 0 <= i < |rows|
      ensures var c := ListedCounter(s, rows[i], tokens);
              && c.cid == rows[i].key && Trim(c.cid) == c.cid
              && HeadNormal(c) && OwnNormal(c, checks)
              && Survives(c.triggers, StoredTrigger, ListedTrigger) && Survives(c.reports, StoredReport, ListedReport)
    {
      CounterExported(s, rows[i], tokens, checks);
    }
    hide ListedCounter;
  }

  lemma ExportedNormal(s: State, id: int, tokens: bool, checks: Checks)
    requires WellFormed(s, checks) && Exported(s, id, tokens).Some?
    requires HasAnySettings(Exported(s, id, tokens).value)
    ensures PayloadNormal(Exported(s, id, tokens).value, checks) && LaidOut(Exported(s, id, tokens).value)
  {
    ChosenRows(s, id);
    CountersExported(s, Chosen(s, id).value, tokens, checks);
    ActionsExported(s.actions.rows);
    hide UniqueKeys, CountersPass, RowsPass, ListedCounters, ListedActions, ActionTest, HeadTest, OwnTest, DistinctIds,
      Trim, Survives, Chosen, HasAnySettings;
  }

  /** Exporting a well-formed database and importing the result, with replacement, into any database
      gives one whose own export is the same: the same counters, triggers and reports in the same order,
      and the same destinations and schedule; where the exported one has none, those of the target
      stay. */
  lemma ReplaceRoundTrip(s: State, id: int, tokens: bool, target: State, checks: Checks)
    requires WellFormed(s, checks) && Exported(s, id, tokens).Some?
    requires HasAnySettings(Exported(s, id, tokens).value)
    ensures var p := Exported(s, id, tokens).value;
            && Imported(target, p, true, checks).Ok?
            && Exported(Imported(target, p, true, checks).value, 0, true) == Some(Shown(target, p))
  {
    hide WellFormed, Exported, HasAnySettings, PayloadNormal, LaidOut, Normalise, Applied, Shown;
    var p := Exported(s, id, tokens).value;
    ExportedNormal(s, id, tokens, checks);
    NormaliseSettles(p, checks);
    ReplaceShows(target, p);
  }

  /** The export comes back identical exactly when the exported database, or else not the target, has a
      schedule, and likewise destinations: what the target had before leaves no other trace. */
  lemma SameExportIff(s: State, id: int, tokens: bool, target: State, checks: Checks)
    requires WellFormed(s, checks) && Exported(s, id, tokens).Some?
    requires HasAnySettings(Exported(s, id, tokens).value)
    ensures var p := Exported(s, id, tokens).value;
            && Imported(target, p, true, checks).Ok?
            && (Exported(Imported(target, p, true, checks).value, 0, true) == Some(p) <==>
                  && (p.schedule != "" || ScheduleOf(target) == "")
                  && (p.actions != [] || target.actions.rows == []))
  {
    hide WellFormed, Exported, HasAnySettings, Imported;
    ReplaceRoundTrip(s, id, tokens, target, checks);
    assert |ListedActions(target.actions.rows)| == |target.actions.rows|;
    hide ListedAction, ScheduleOf;
  }
}
