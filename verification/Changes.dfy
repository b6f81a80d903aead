/** What one change made by hand does to the settings that an export shows: saved items come last in their
    list, dropped rows go, and nothing else moves. */
module Changes {
  import opened Text
  import opened Keyed
  import opened RuleTables
  import opened Settings
  import opened Goals
  import opened Database
  import opened Saving
  import opened Upkeep
  import opened Runs
  import opened Integrity
  import PipeFields
  import UrlFilter

  /** The export of everything. */
  function Everything(s: State, tokens: bool): Payload {
    Exported(s, 0, tokens).value
  }

  /** The two exports differ in nothing but the counters. */
  predicate OnlyCounters(p: Payload, q: Payload) {
    q == p.(counters := q.counters)
  }

  lemma CollectedMore<B, V>(rows: seq<Row<RuleKey, V>>, row: Row<RuleKey, V>, id: int, listed: V -> B)
    ensures Collected(rows + [row], id, listed)
         == Collected(rows, id, listed) + if row.key.0 == id then [ExportRule(row.key.1, listed(row.val))] else []
  {
    var more := rows + [row];
    assert more[..|more| - 1] == rows && more[|more| - 1] == row;
    assert Collected(rows, id, listed) + [] == Collected(rows, id, listed);
  }

  lemma TriggerBack(b: TriggerBody)
    requires b.enabled == Some(true)
    ensures ListedTrigger(StoredTrigger(b)) == b
  {
  }

  /** What a step saves, if it is a rule. */
  function RuleOfStep(step: Step, app: App): Result<ExportTrigger, SaveError>
    requires step.BotRuleStep? || step.ApiRuleStep?
  {
    if step.BotRuleStep? then BotRule(step.text, app) else ApiRule(step.counter, step.request, app)
  }

  lemma RuleStep(s: State, step: Step, app: App)
    requires step.BotRuleStep? || step.ApiRuleStep?
    ensures var rule := RuleOfStep(step, app);
            After(s, step, app) == if rule.Ok? then SaveTrigger(s, step.counter, rule.value) else s
  {
    hide BotRule, ApiRule, SaveTrigger;
  }

  /** The counters shown are the same but for one rule more under one of them. */
  ghost predicate OneMoreTrigger(p: Payload, q: Payload, s: State, counter: int, t: ExportTrigger) {
    && OnlyCounters(p, q) && |p.counters| == |q.counters| == |s.counters.rows|
    && forall i :: 0 <= i < |s.counters.rows| ==>
         q.counters[i] == p.counters[i].(triggers := p.counters[i].triggers
           + if s.counters.rows[i].id == counter then [t] else [])
  }

  lemma TriggerInserted(s: State, counter: int, t: ExportTrigger, tokens: bool)
    requires t.body.enabled == Some(true)
    ensures OneMoreTrigger(Everything(s, tokens), Everything(SaveTrigger(s, counter, t), tokens), s, counter, t)
  {
    hide Collected, ListedTrigger, StoredTrigger;
    TriggerBack(t.body);
    var row := Row(s.triggers.next, (counter, t.name), StoredTrigger(t.body));
    forall i | 0 <= i < |s.counters.rows|
      ensures Collected(SaveTrigger(s, counter, t).triggers.rows, s.counters.rows[i].id, ListedTrigger)
           == Collected(s.triggers.rows, s.counters.rows[i].id, ListedTrigger)
              + if s.counters.rows[i].id == counter then [t] else []
    {
      CollectedMore(s.triggers.rows, row, s.counters.rows[i].id, ListedTrigger);
    }
  }

  /** A rule saved from the chat or over REST is shown last among the rules of its counter, just as it was
      saved; where it is refused, nothing changes. */
  lemma SavedRuleShown(s: State, step: Step, app: App, tokens: bool)
    requires step.BotRuleStep? || step.ApiRuleStep?
    ensures var u, rule := After(s, step, app), RuleOfStep(step, app);
            && (rule.Err? ==> u == s)
            && (rule.Ok? ==>
                  OneMoreTrigger(Everything(s, tokens), Everything(u, tokens), s, step.counter, rule.value))
  {
    hide *;
    RuleStep(s, step, app);
    EnabledSaved(step, app);
    if RuleOfStep(step, app).Ok? {
      TriggerInserted(s, step.counter, RuleOfStep(step, app).value, tokens);
    }
  }

  lemma EnabledSaved(step: Step, app: App)
    requires step.BotRuleStep? || step.ApiRuleStep?
    ensures RuleOfStep(step, app).Ok? ==> RuleOfStep(step, app).value.body.enabled == Some(true)
  {
    hide PipeFields.UrlScopeOf, PipeFields.Raw, PipeFields.TrimAll, Trim, Lower, ParseInt64, UrlFilter.Build, NumberOr;
  }

  /** A report saved from the chat likewise. */
  lemma SavedReportShown(s: State, counter: int, text: string, app: App, tokens: bool)
    requires Consistent(app)
    ensures var u, report := After(s, BotReportStep(counter, text), app), BotReport(text, app);
            var p, q := Everything(s, tokens), Everything(u, tokens);
            && (report.Err? ==> u == s)
            && (report.Ok? ==>
                  && OnlyCounters(p, q) && |p.counters| == |q.counters| == |s.counters.rows|
                  && forall i :: 0 <= i < |s.counters.rows| ==>
                       q.counters[i] == p.counters[i].(reports := p.counters[i].reports
                         + if s.counters.rows[i].id == counter then [report.value] else []))
  {
    hide BotReport, Collected, ListedReport, StoredReport, Consistent;
    BotReportNormal(text, app);
    if BotReport(text, app).Ok? {
      var r := BotReport(text, app).value;
      var row := Row(s.reports.next, (counter, r.name), StoredReport(r.body));
      forall i | 0 <= i < |s.counters.rows|
        ensures Collected(After(s, BotReportStep(counter, text), app).reports.rows, s.counters.rows[i].id, ListedReport)
             == Collected(s.reports.rows, s.counters.rows[i].id, ListedReport)
                + if s.counters.rows[i].id == counter then [r] else []
      {
        CollectedMore(s.reports.rows, row, s.counters.rows[i].id, ListedReport);
      }
    }
  }

  /** The id is no counter's and no rule or report is under it. */
  ghost predicate Unused(s: State, id: int) {
    && (forall i :: 0 <= i < |s.counters.rows| ==> s.counters.rows[i].id != id)
    && (forall i :: 0 <= i < |s.triggers.rows| ==> s.triggers.rows[i].key.0 != id)
    && (forall i :: 0 <= i < |s.reports.rows| ==> s.reports.rows[i].key.0 != id)
  }

  lemma {:induction false} NoneCollected<B, V>(rows: seq<Row<RuleKey, V>>, id: int, listed: V -> B)
    requires forall i :: 0 <= i < |rows| ==> rows[i].key.0 != id
    ensures Collected(rows, id, listed) == []
  {
    if rows != [] {
      NoneCollected(rows[..|rows| - 1], id, listed);
    }
  }

  /** In an ordered database whose rules and reports have their counters, the next id is unused. */
  lemma NextUnused(s: State)
    requires InOrder(s) && Integral(s)
    ensures Unused(s, s.counters.next)
  {
    hide AlertsPoint, SnapshotsPoint, CooldownsPoint;
    forall i | 0 <= i < |s.triggers.rows|
      ensures s.triggers.rows[i].key.0 != s.counters.next
    {
      assert HasId(s.counters, s.triggers.rows[i].key.0);
    }
    forall i | 0 <= i < |s.reports.rows|
      ensures s.reports.rows[i].key.0 != s.counters.next
    {
      assert HasId(s.counters, s.reports.rows[i].key.0);
    }
  }

  /** What a step saves, if it is a counter. */
  function CounterOfStep(step: Step): Result<NewCounter, SaveError>
    requires step.BotCounterStep? || step.ApiCounterStep?
  {
    if step.BotCounterStep? then BotCounter(step.text) else ApiCounter(step.name, step.cid, step.token, step.minutes)
  }

  ghost predicate Taken(s: State, cid: string) {
    exists i :: 0 <= i < |s.counters.rows| && s.counters.rows[i].key == cid
  }

  lemma CounterStep(s: State, step: Step, app: App)
    requires step.BotCounterStep? || step.ApiCounterStep?
    ensures var c := CounterOfStep(step);
            After(s, step, app)
            == if c.Ok? && !Taken(s, c.value.0) then s.(counters := Insert(s.counters, c.value.0, c.value.1)) else s
  {
    hide BotCounter, ApiCounter, Insert;
    var c := CounterOfStep(step);
    if c.Ok? {
      var i := Find(s.counters.rows, c.value.0);
      hide Find;
    }
  }

  lemma CounterInserted(s: State, cid: string, v: CounterVals, tokens: bool)
    requires Unused(s, s.counters.next)
    ensures var p, q := Everything(s, tokens), Everything(s.(counters := Insert(s.counters, cid, v)), tokens);
            && OnlyCounters(p, q)
            && q.counters == p.counters + [ExportCounter(v.name, cid, if tokens then v.token else "", v.poll, [], [])]
  {
    hide Collected, Unused;
    NothingUnder(s, s.counters.next);
    var u := s.(counters := Insert(s.counters, cid, v));
    assert forall i :: 0 <= i < |s.counters.rows| ==> u.counters.rows[i] == s.counters.rows[i];
  }

  /** A counter saved from the chat or over REST is shown last, with its token only where tokens are asked
      for, and without rules; it is refused exactly when it does not read or its external id is taken, and
      then nothing changes. */
  lemma SavedCounterShown(s: State, step: Step, app: App, tokens: bool)
    requires step.BotCounterStep? || step.ApiCounterStep?
    requires InOrder(s) && Integral(s)
    ensures var u, c := After(s, step, app), CounterOfStep(step);
            var p, q := Everything(s, tokens), Everything(u, tokens);
            && (c.Err? || Taken(s, c.value.0) ==> u == s)
            && (c.Ok? && !Taken(s, c.value.0) ==>
                  && OnlyCounters(p, q)
                  && q.counters == p.counters + [ExportCounter(c.value.1.name, c.value.0,
                                                               if tokens then c.value.1.token else "",
                                                               c.value.1.poll, [], [])])
  {
    hide *;
    NextUnused(s);
    CounterStep(s, step, app);
    var c := CounterOfStep(step);
    if c.Ok? {
      CounterInserted(s, c.value.0, c.value.1, tokens);
    }
  }

  lemma NothingUnder(s: State, id: int)
    requires Unused(s, id)
    ensures Collected(s.triggers.rows, id, ListedTrigger) == [] && Collected(s.reports.rows, id, ListedReport) == []
  {
    NoneCollected(s.triggers.rows, id, ListedTrigger);
    NoneCollected(s.reports.rows, id, ListedReport);
  }

  /** A destination saved from the chat is shown last. */
  lemma SavedDestinationShown(s: State, text: string, app: App, tokens: bool)
    ensures var u, d := After(s, BotDestinationStep(text), app), BotDestination(text);
            var p, q := Everything(s, tokens), Everything(u, tokens);
            && (d.Err? ==> u == s)
            && (d.Ok? ==>
                  q == p.(actions := p.actions + [ExportAction(d.value.1, d.value.0.typ, d.value.0.chat,
                                                               d.value.0.target, d.value.0.url, "")]))
  {
    hide BotDestination, Collected;
    if BotDestination(text).Ok? {
      var u := After(s, BotDestinationStep(text), app);
      assert ListedCounters(u, u.counters.rows, tokens) == ListedCounters(s, s.counters.rows, tokens);
      assert ListedActions(u.actions.rows)
          == ListedActions(s.actions.rows) + [ListedAction(u.actions.rows[|s.actions.rows|])];
    }
  }

  // ---- Dropping ----

  /** The rows but the one with the id, in their order. */
  ghost predicate Without<K(!new), V(!new)>(t: Table<K, V>, u: Table<K, V>, id: int) {
    && u.next == t.next
    && (forall x :: x in u.rows <==> x in t.rows && x.id != id)
    && (forall i, j :: 0 <= i < j < |u.rows| ==> u.rows[i].id < u.rows[j].id)
  }

  lemma DroppedWithout<K(!new), V(!new)>(t: Table<K, V>, id: int)
    requires Ordered(t)
    ensures Without(t, Dropped(t, id), id)
  {
    KeptOrdered(t, IdNot(id));
    hide Kept;
    forall x
      ensures x in Dropped(t, id).rows <==> x in t.rows && x.id != id
    {
      KeptExactly(t.rows, IdNot(id), x);
    }
  }

  /** Dropping a rule, a report or a destination removes the row with that id from its table and touches
      nothing else. */
  lemma DropsExactly(s: State, id: int, app: App)
    requires InOrder(s)
    ensures var u := After(s, DropRule(id), app); Without(s.triggers, u.triggers, id) && u == s.(triggers := u.triggers)
    ensures var u := After(s, DropReport(id), app); Without(s.reports, u.reports, id) && u == s.(reports := u.reports)
    ensures var u := After(s, DropDestination(id), app);
            Without(s.actions, u.actions, id) && u == s.(actions := u.actions)
  {
    hide Without, Dropped, Ordered;
    DroppedWithout(s.triggers, id);
    DroppedWithout(s.reports, id);
    DroppedWithout(s.actions, id);
  }

  /** The schedule shown is the one set last that reads. */
  lemma ScheduleShown(s: State, schedule: string, app: App, tokens: bool)
    ensures var p, q := Everything(s, tokens), Everything(After(s, ScheduleStep(schedule), app), tokens);
            q == p.(schedule := if app.schedule(schedule) then schedule else p.schedule)
  {
    hide Collected;
    var u := After(s, ScheduleStep(schedule), app);
    assert ListedCounters(u, u.counters.rows, tokens) == ListedCounters(s, s.counters.rows, tokens);
  }

  /** A recorded alert sets the moment of its rule's cooldown and no other's. */
  lemma AlertRemembered(s: State, trigger: int, at: int, app: App)
    ensures var u := After(s, AlertRecorded(trigger, at), app);
            && trigger in u.cooldowns && u.cooldowns[trigger] == at
            && (forall t :: t != trigger ==> (t in u.cooldowns <==> t in s.cooldowns))
            && (forall t :: t in s.cooldowns && t != trigger ==> u.cooldowns[t] == s.cooldowns[t])
            && u == s.(cooldowns := u.cooldowns)
  {
  }
}
