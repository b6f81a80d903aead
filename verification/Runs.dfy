/** Runs of all that changes the settings: imports, deletions, what is saved from the chat and over REST,
    and recorded alerts. When every database they reach can be exported and imported again, and when nothing
    in it is left without its owner. */
module Runs {
  import opened Text
  import opened Keyed
  import opened RuleTables
  import opened Settings
  import opened Database
  import opened Replace
  import opened RoundTrip
  import opened Integrity
  import opened Saving
  import opened Upkeep

  datatype Step =
    | ImportStep(payload: Payload, replace: bool)
    | DeleteStep(id: int)
    | BotCounterStep(text: string)
    | ApiCounterStep(name: string, cid: string, token: string, minutes: int)
    | BotRuleStep(counter: int, text: string)
    | ApiRuleStep(counter: int, request: RuleRequest)
    | BotReportStep(counter: int, text: string)
    | BotDestinationStep(text: string)
    | DropRule(id: int)
    | DropReport(id: int)
    | DropDestination(id: int)
    | ScheduleStep(schedule: string)
    | AlertRecorded(trigger: int, at: int)

  /** What a step does; one that is refused changes nothing. */
  function After(s: State, step: Step, app: App): State {
    match step
    case ImportStep(p, replace) =>
      (match Imported(s, p, replace, ChecksOf(app))
       case Ok(u) => u
       case Err(_) => s)
    case DeleteStep(id) => Deleted(s, id)
    case BotCounterStep(text) =>
      var r := BotCounter(text);
      if r.Ok? then SaveCounter(s, r.value) else s
    case ApiCounterStep(name, cid, token, minutes) =>
      var r := ApiCounter(name, cid, token, minutes);
      if r.Ok? then SaveCounter(s, r.value) else s
    case BotRuleStep(counter, text) =>
      var r := BotRule(text, app);
      if r.Ok? then SaveTrigger(s, counter, r.value) else s
    case ApiRuleStep(counter, request) =>
      var r := ApiRule(counter, request, app);
      if r.Ok? then SaveTrigger(s, counter, r.value) else s
    case BotReportStep(counter, text) =>
      var r := BotReport(text, app);
      if r.Ok? then SaveReport(s, counter, r.value) else s
    case BotDestinationStep(text) =>
      var r := BotDestination(text);
      if r.Ok? then SaveAction(s, r.value) else s
    case DropRule(id) => s.(triggers := Dropped(s.triggers, id))
    case DropReport(id) => s.(reports := Dropped(s.reports, id))
    case DropDestination(id) => s.(actions := Dropped(s.actions, id))
    case ScheduleStep(schedule) =>
      if app.schedule(schedule) then s.(settings := s.settings[SCHEDULE := schedule]) else s
    case AlertRecorded(trigger, at) => s.(cooldowns := s.cooldowns[trigger := at])
  }

  function Run(s: State, steps: seq<Step>, app: App): State {
    if steps == [] then s else After(Run(s, steps[..|steps| - 1], app), steps[|steps| - 1], app)
  }

  const EMPTY := State(Table([], 1), Table([], 1), Table([], 1), Table([], 1), map[], map[], [], [])

  /** What is saved over REST has to meet the import's terms by itself; everything else does. */
  predicate Fits(s: State, step: Step, app: App) {
    match step
    case ApiCounterStep(name, cid, token, minutes) =>
      ApiCounter(name, cid, token, minutes).Ok? && Find(s.counters.rows, cid) < 0 ==> IdFits(cid)
    case ApiRuleStep(counter, request) =>
      ApiRule(counter, request, app).Ok? ==> RuleFits(request)
    case _ => true
  }

  /** Rules and reports are saved for a counter that is still there, a dropped rule has no cooldown, and an
      alert is recorded for a rule that is still there. */
  predicate Tidy(s: State, step: Step, app: App) {
    match step
    case BotRuleStep(counter, text) => BotRule(text, app).Ok? ==> HasId(s.counters, counter)
    case ApiRuleStep(counter, request) => ApiRule(counter, request, app).Ok? ==> HasId(s.counters, counter)
    case BotReportStep(counter, text) => BotReport(text, app).Ok? ==> HasId(s.counters, counter)
    case DropRule(id) => id !in s.cooldowns
    case AlertRecorded(trigger, at) => HasId(s.triggers, trigger)
    case _ => true
  }

  lemma ScheduleKept(s: State, schedule: string, app: App)
    requires WellFormed(s, ChecksOf(app)) && app.schedule(schedule)
    ensures WellFormed(s.(settings := s.settings[SCHEDULE := schedule]), ChecksOf(app))
  {
    hide UniqueKeys, CountersPass, RowsPass, ActionsPass;
  }

  lemma AlertKept(s: State, trigger: int, at: int, app: App)
    requires WellFormed(s, ChecksOf(app))
    ensures WellFormed(s.(cooldowns := s.cooldowns[trigger := at]), ChecksOf(app))
  {
    hide UniqueKeys, CountersPass, RowsPass, ActionsPass;
  }

  /** A step leaves every row in normal form exactly when it fits. */
  lemma StepWellFormedIff(s: State, step: Step, app: App)
    requires Consistent(app) && WellFormed(s, ChecksOf(app))
    ensures WellFormed(After(s, step, app), ChecksOf(app)) <==> Fits(s, step, app)
  {
    hide WellFormed, Imported, Deleted, Dropped, SaveCounter, SaveTrigger, SaveReport, SaveAction, ChecksOf, BotCounter,
      BotRule, BotReport, BotDestination, ApiRule, TriggerNormal, ReportNormal, ActionNormal, CounterRowNormal, IdFits,
      RuleFits, Find, Consistent;
    var checks := ChecksOf(app);
    match step
    case ImportStep(p, replace) => ImportWellFormed(s, p, replace, checks);
    case DeleteStep(id) => DeleteWellFormed(s, id, checks);
    case BotCounterStep(text) =>
      BotCounterNormal(text, 0);
      if BotCounter(text).Ok? {
        SaveCounterIff(s, BotCounter(text).value, checks);
      }
    case ApiCounterStep(name, cid, token, minutes) =>
      ApiCounterNormalIff(name, cid, token, minutes, 0);
      if ApiCounter(name, cid, token, minutes).Ok? {
        SaveCounterIff(s, ApiCounter(name, cid, token, minutes).value, checks);
      }
    case BotRuleStep(counter, text) =>
      BotRuleNormal(text, app);
      if BotRule(text, app).Ok? {
        SaveTriggerIff(s, counter, BotRule(text, app).value, checks);
      }
    case ApiRuleStep(counter, request) =>
      ApiRuleNormalIff(counter, request, app);
      if ApiRule(counter, request, app).Ok? {
        SaveTriggerIff(s, counter, ApiRule(counter, request, app).value, checks);
      }
    case BotReportStep(counter, text) =>
      BotReportNormal(text, app);
      if BotReport(text, app).Ok? {
        SaveReportIff(s, counter, BotReport(text, app).value, checks);
      }
    case BotDestinationStep(text) =>
      BotDestinationNormal(text, 0);
      if BotDestination(text).Ok? {
        SaveActionIff(s, BotDestination(text).value, checks);
      }
    case DropRule(id) => DropsWellFormed(s, id, checks);
    case DropReport(id) => DropsWellFormed(s, id, checks);
    case DropDestination(id) => DropsWellFormed(s, id, checks);
    case ScheduleStep(schedule) =>
      if app.schedule(schedule) {
        ScheduleKept(s, schedule, app);
      }
    case AlertRecorded(trigger, at) => AlertKept(s, trigger, at, app);
  }

  /** And leaves every reference with its owner exactly when it is tidy. */
  lemma StepIntegralIff(s: State, step: Step, app: App)
    requires Integral(s)
    ensures Integral(After(s, step, app)) <==> Tidy(s, step, app)
  {
    hide Integral, Imported, Deleted, Dropped, SaveCounter, SaveTrigger, SaveReport, SaveAction, ChecksOf, BotCounter,
      BotRule, BotReport, BotDestination, ApiRule, ApiCounter, HasId;
    match step
    case ImportStep(p, replace) => ImportIntegral(s, p, replace, ChecksOf(app));
    case DeleteStep(id) => DeleteIntegral(s, id);
    case BotCounterStep(text) =>
      if BotCounter(text).Ok? {
        SaveCounterIntegral(s, BotCounter(text).value);
      }
    case ApiCounterStep(name, cid, token, minutes) =>
      if ApiCounter(name, cid, token, minutes).Ok? {
        SaveCounterIntegral(s, ApiCounter(name, cid, token, minutes).value);
      }
    case BotRuleStep(counter, text) =>
      if BotRule(text, app).Ok? {
        SaveTriggerIntegralIff(s, counter, BotRule(text, app).value);
      }
    case ApiRuleStep(counter, request) =>
      if ApiRule(counter, request, app).Ok? {
        SaveTriggerIntegralIff(s, counter, ApiRule(counter, request, app).value);
      }
    case BotReportStep(counter, text) =>
      if BotReport(text, app).Ok? {
        SaveReportIntegralIff(s, counter, BotReport(text, app).value);
      }
    case BotDestinationStep(text) => OthersIntegral(s, text, "", 0, 0);
    case DropRule(id) => DropIntegralIff(s, id);
    case DropReport(id) => DropIntegralIff(s, id);
    case DropDestination(id) => DropIntegralIff(s, id);
    case ScheduleStep(schedule) => OthersIntegral(s, "", schedule, 0, 0);
    case AlertRecorded(trigger, at) => OthersIntegral(s, "", "", trigger, at);
  }

  lemma OthersIntegral(s: State, text: string, schedule: string, trigger: int, at: int)
    requires Integral(s)
    ensures BotDestination(text).Ok? ==> Integral(SaveAction(s, BotDestination(text).value))
    ensures Integral(s.(settings := s.settings[SCHEDULE := schedule]))
    ensures Integral(s.(cooldowns := s.cooldowns[trigger := at])) <==> HasId(s.triggers, trigger)
  {
    hide HasId, Anchored, BotDestination, Insert;
    var after := s.(cooldowns := s.cooldowns[trigger := at]);
    assert trigger in after.cooldowns;
    forall t
      ensures t in after.cooldowns <==> t in s.cooldowns || t == trigger
    {
    }
  }

  lemma StepInOrder(s: State, step: Step, app: App)
    requires InOrder(s)
    ensures InOrder(After(s, step, app))
  {
    hide InOrder, Imported, Deleted, Dropped, SaveCounter, SaveTrigger, SaveReport, SaveAction, ChecksOf, BotCounter,
      BotRule, BotReport, BotDestination, ApiRule, ApiCounter;
    match step
    case ImportStep(p, replace) => ImportInOrder(s, p, replace, ChecksOf(app));
    case DeleteStep(id) => DeleteInOrder(s, id);
    case DropRule(id) => DropsInOrder(s, id);
    case DropReport(id) => DropsInOrder(s, id);
    case DropDestination(id) => DropsInOrder(s, id);
    case _ => RestInOrder(s, step, app);
  }

  lemma RestInOrder(s: State, step: Step, app: App)
    requires InOrder(s)
    ensures !step.ImportStep? && !step.DeleteStep? && !step.DropRule? && !step.DropReport? && !step.DropDestination? ==>
              InOrder(After(s, step, app))
  {
    hide Ordered, Imported, Deleted, Dropped, SaveCounter, SaveTrigger, SaveReport, SaveAction, BotCounter, BotRule,
      BotReport, BotDestination, ApiRule, ApiCounter;
    forall c: NewCounter
      ensures InOrder(SaveCounter(s, c))
    {
      SaveCounterInOrder(s, c);
    }
    forall a: (Address, string)
      ensures InOrder(SaveAction(s, a))
    {
      SaveActionInOrder(s, a);
    }
    forall counter, t
      ensures InOrder(SaveTrigger(s, counter, t))
    {
      SaveTriggerInOrder(s, counter, t);
    }
    forall counter, r
      ensures InOrder(SaveReport(s, counter, r))
    {
      SaveReportInOrder(s, counter, r);
    }
  }

  // ---- Whole runs ----

  /** Every step fits the database it meets. */
  ghost predicate AllFit(steps: seq<Step>, app: App) {
    forall i :: 0 <= i < |steps| ==> Fits(Run(EMPTY, steps[..i], app), steps[i], app)
  }

  ghost predicate AllTidy(steps: seq<Step>, app: App) {
    forall i :: 0 <= i < |steps| ==> Tidy(Run(EMPTY, steps[..i], app), steps[i], app)
  }

  lemma FewerSteps(steps: seq<Step>, app: App)
    requires steps != []
    ensures var n := |steps| - 1;
            && (AllFit(steps, app) <==> AllFit(steps[..n], app) && Fits(Run(EMPTY, steps[..n], app), steps[n], app))
            && (AllTidy(steps, app) <==> AllTidy(steps[..n], app) && Tidy(Run(EMPTY, steps[..n], app), steps[n], app))
  {
    hide Fits, Tidy, Run;
    var n := |steps| - 1;
    assert forall i :: 0 <= i < n ==> steps[..n][..i] == steps[..i] && steps[..n][i] == steps[i];
  }

  /** Whatever is imported, merged, refused, saved, dropped or deleted, starting from a fresh database: rows
      are in the order of their ids; they are in normal form if every step fitted; and every reference has
      its owner if every step was tidy. */
  lemma {:induction false} RunsSound(steps: seq<Step>, app: App)
    requires Consistent(app)
    ensures InOrder(Run(EMPTY, steps, app))
    ensures AllFit(steps, app) ==> WellFormed(Run(EMPTY, steps, app), ChecksOf(app))
    ensures AllTidy(steps, app) ==> Integral(Run(EMPTY, steps, app))
  {
    if steps == [] {
      EmptySound(app);
      hide WellFormed, Integral, InOrder, AllFit, AllTidy;
    } else {
      hide WellFormed, Integral, InOrder, After, AllFit, AllTidy, Fits, Tidy, Consistent;
      var n := |steps| - 1;
      RunsSound(steps[..n], app);
      FewerSteps(steps, app);
      var s := Run(EMPTY, steps[..n], app);
      StepInOrder(s, steps[n], app);
      if WellFormed(s, ChecksOf(app)) {
        StepWellFormedIff(s, steps[n], app);
      }
      if Integral(s) {
        StepIntegralIff(s, steps[n], app);
      }
    }
  }

  lemma EmptySound(app: App)
    ensures InOrder(EMPTY) && WellFormed(EMPTY, ChecksOf(app)) && Integral(EMPTY)
  {
  }

  /** So the export of any database that a run of fitting steps reaches is accepted by any other, with
      replacement, and is what that one then exports. Runs without REST requests always fit. */
  lemma RunsRoundTrip(steps: seq<Step>, tokens: bool, target: State, app: App)
    requires Consistent(app) && AllFit(steps, app)
    requires HasAnySettings(Exported(Run(EMPTY, steps, app), 0, tokens).value)
    ensures var p := Exported(Run(EMPTY, steps, app), 0, tokens).value;
            && Imported(target, p, true, ChecksOf(app)).Ok?
            && Exported(Imported(target, p, true, ChecksOf(app)).value, 0, true) == Some(Shown(target, p))
  {
    hide WellFormed, Integral, InOrder, Run, Imported, HasAnySettings, Shown, AllFit, AllTidy, Consistent, ChecksOf;
    RunsSound(steps, app);
    ReplaceRoundTrip(Run(EMPTY, steps, app), 0, tokens, target, ChecksOf(app));
  }
}
