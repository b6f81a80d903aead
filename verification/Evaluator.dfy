/** Judging a window and sending alerts, with a cooldown for each rule (internal/engine/evaluator.go,
    internal/model/repo.go). The clock runs in nanoseconds, windows in minutes. */
module Evaluator {
  import opened Text
  import opened Clock
  import opened Series
  import opened Baseline
  import opened Scopes
  import opened Batching

  const MINUTE: int := 60 * SECOND

  /** An alert that was sent: whose rule, when, and for which window. */
  datatype Alert = Alert(trigger: int, at: int, end: int)

  /** The rule's last recorded fire is less than its cooldown ago. */
  predicate CoolingDown(firedAt: map<int, int>, t: Trigger, now: int) {
    t.id in firedAt && now - firedAt[t.id] < t.cooldown * MINUTE
  }

  ghost predicate Fires(env: Env, enabled: seq<Trigger>, t: Trigger, end: int)
    requires Answers(env)
  {
    var o := OutcomeIn(env, enabled, t, end);
    o.Judged? && o.verdict.fired
  }

  /** Alerts of one rule lie at least its cooldown apart, up to the second that storing drops. */
  ghost predicate Spaced(alerts: seq<Alert>, cooldown: int -> int) {
    forall i, j :: 0 <= i < j < |alerts| && alerts[i].trigger == alerts[j].trigger
      ==> alerts[j].at - alerts[i].at > cooldown(alerts[i].trigger) * (60 * SECOND) - SECOND
  }

  /** Each rule that alerted has a fire record not older than its last alert, to the second. */
  ghost predicate Recorded(alerts: seq<Alert>, firedAt: map<int, int>) {
    forall i :: 0 <= i < |alerts| ==>
      alerts[i].trigger in firedAt && firedAt[alerts[i].trigger] > alerts[i].at - SECOND
  }

  ghost predicate Past(alerts: seq<Alert>, now: int) {
    forall i :: 0 <= i < |alerts| ==> alerts[i].at <= now
  }

  /** No stored fire is later than the clock. */
  ghost predicate Elapsed(firedAt: map<int, int>, now: int) {
    forall id :: id in firedAt ==> firedAt[id] <= now
  }

  /** Between the two logs an alert of this rule was sent for this window. */
  ghost predicate AlertedIn(before: seq<Alert>, after: seq<Alert>, id: int, end: int) {
    && before <= after
    && exists k :: |before| <= k < |after| && after[k].trigger == id && after[k].end == end
  }

  class Evaluator {
    /** The cooldown of each rule, by id; it does not change while the engine runs. */
    const cooldown: int -> int
    var clock: int
    /** When each rule last fired, as stored. */
    var firedAt: map<int, int>
    var alerts: seq<Alert>

    ghost predicate Valid()
      reads this
    {
      Spaced(alerts, cooldown) && Recorded(alerts, firedAt) && Past(alerts, clock) && Elapsed(firedAt, clock)
    }

    /** Starts with the fire records that an earlier process left. */
    constructor (cooldown: int -> int, clock: int, firedAt: map<int, int>)
      requires Elapsed(firedAt, clock)
      ensures Valid() && alerts == [] && this.firedAt == firedAt && this.clock == clock && this.cooldown == cooldown
    {
      this.cooldown := cooldown;
      this.clock, this.firedAt, alerts := clock, firedAt, [];
    }

    /** Reads the clock, which never runs backwards. */
    method Now() returns (t: int)
      requires Valid()
      modifies this`clock
      ensures Valid() && t == clock >= old(clock)
    {
      var passed: int := *;
      if passed > 0 {
        clock := clock + passed;
      }
      t := clock;
    }

    /** Sends an alert and then records the fire, to the whole second. */
    method Deliver(t: Trigger, end: int)
      requires Valid() && t.cooldown == cooldown(t.id) && !CoolingDown(firedAt, t, clock)
      modifies this`clock, this`firedAt, this`alerts
      ensures Valid() && clock >= old(clock)
      ensures |alerts| == |old(alerts)| + 1 && alerts[..|old(alerts)|] == old(alerts)
      ensures var a := alerts[|old(alerts)|]; a.trigger == t.id && a.end == end && old(clock) <= a.at <= clock
      ensures t.id in firedAt && firedAt == old(firedAt)[t.id := firedAt[t.id]]
      ensures alerts[|old(alerts)|].at - SECOND < firedAt[t.id] <= clock && firedAt[t.id] % SECOND == 0
    {
      hide Spaced, Recorded, WholeSeconds;
      var at := Now();
      var stored := Now();
      StaysSpaced(alerts, firedAt, cooldown, Alert(t.id, at, end), stored);
      StoredWithin(stored);
      alerts := alerts + [Alert(t.id, at, end)];
      firedAt := firedAt[t.id := WholeSeconds(stored)];
    }

    /** Judges one rule on the series of its scope. An alert goes out exactly when the verdict fires
        and the rule is not cooling down; the fire is then recorded. */
    method EvaluateTrigger(env: Env, t: Trigger, series: TimeSeries, ghost metrics: seq<string>,
                           index: map<string, nat>, end: int)
        returns (delivered: bool)
      requires Valid() && series.Valid() && Indexes(metrics, index)
      requires t.cooldown == cooldown(t.id)
      modifies this`clock, this`firedAt, this`alerts, series`index
      ensures Valid() && series.Valid() && clock >= old(clock)
      ensures delivered ==>
                && FiresOn(env, series.grid, metrics, t, end) && !CoolingDown(old(firedAt), t, clock)
                && |alerts| == |old(alerts)| + 1 && alerts[..|old(alerts)|] == old(alerts)
                && alerts[|old(alerts)|].trigger == t.id && alerts[|old(alerts)|].end == end
                && old(clock) <= alerts[|old(alerts)|].at <= clock
                && t.id in firedAt && firedAt == old(firedAt)[t.id := firedAt[t.id]]
                && alerts[|old(alerts)|].at - SECOND < firedAt[t.id] <= clock && firedAt[t.id] % SECOND == 0
      ensures !delivered ==>
                && alerts == old(alerts) && firedAt == old(firedAt)
                && (FiresOn(env, series.grid, metrics, t, end) ==> CoolingDown(firedAt, t, old(clock)))
      ensures Elapsed(firedAt, clock)
      ensures FiresOn(env, series.grid, metrics, t, end)
              && (t.id in old(firedAt) ==> old(clock) - old(firedAt)[t.id] >= t.cooldown * (60 * SECOND))
              ==> delivered
      ensures delivered && t.id in old(firedAt) ==> clock - old(firedAt)[t.id] >= t.cooldown * (60 * SECOND)
    {
      hide Spaced, Recorded, Past, WindowTotal, BaselineOf, Judge;
      var apiMetric := env.resolve(t.metric);
      if apiMetric == None || apiMetric.value !in index {
        return false;
      }
      var metricIdx := index[apiMetric.value];
      assert apiMetric.value in metrics && metricIdx == Position(metrics, apiMetric.value);
      var window := env.cfg.Window();
      var current := WindowSum(series, metricIdx, end, window);
      if current == None {
        return false;
      }
      var baseline := BuildBaseline(series, metricIdx, end, window, t.weeks);
      var verdict := Judge(current.value, baseline, t.direction, t.deviationPct, t.minBaseline, MIN_SAMPLES);
      if !verdict.fired {
        return false;
      }
      var now := Now();
      if t.id in firedAt && now - firedAt[t.id] < t.cooldown * MINUTE {
        return false;
      }
      Deliver(t, end);
      return true;
    }

    function Snapshot(): Log
      reads this
    {
      Log(alerts, firedAt, clock)
    }

    /** Judges the rules of one scope on its shared series. A refused request leaves them unjudged. */
    method EvaluateScope(env: Env, ghost enabled: seq<Trigger>, scope: Scope, end: int, ghost start: Log,
                         ghost handled: set<Trigger>)
        returns (fired: nat, refused: bool)
      requires Valid() && Answers(env)
      requires scope.triggers == GroupOf(env, enabled, scope.filter)
      requires forall t :: t in enabled ==> t.cooldown == cooldown(t.id)
      requires Accounts(env, enabled, end, start, Snapshot(), handled)
      modifies this`clock, this`firedAt, this`alerts
      ensures Valid()
      ensures refused == Request(env, scope.triggers, end, scope.filter).Err?
      ensures Accounts(env, enabled, end, start, Snapshot(), handled + Rules(scope.triggers))
      ensures |alerts| == |old(alerts)| + fired
      ensures refused ==> fired == 0
    {
      hide Spaced, Recorded, Request, GroupOf, Accounts, FiresOn, CoolingDown, FilterOf;
      fired := 0;
      var fetched := FetchSeries(env, scope.triggers, end, scope.filter);
      if fetched.Err? {
        RefusedScope(env, enabled, end, start, Snapshot(), handled, scope.filter);
        return 0, true;
      }
      var (series, index) := fetched.value;
      ghost var metrics := Request(env, scope.triggers, end, scope.filter).value.1;
      NoneYet(scope.triggers, handled);
      refused := false;
      for i := 0 to |scope.triggers|
        invariant Valid() && series.Valid() && |alerts| == |old(alerts)| + fired
        invariant Accounts(env, enabled, end, start, Snapshot(), handled + Rules(scope.triggers[..i]))
      {
        var t := scope.triggers[i];
        GroupMembers(env, enabled, scope.filter, t);
        FiresInScope(env, enabled, scope.filter, t, end);
        ghost var before := Snapshot();
        var delivered := EvaluateTrigger(env, t, series, metrics, index, end);
        AccountsStep(env, enabled, end, start, before, Snapshot(), handled + Rules(scope.triggers[..i]), t, delivered);
        OneMoreRule(scope.triggers, i, handled);
        if delivered {
          fired := fired + 1;
        }
      }
      assert scope.triggers[..|scope.triggers|] == scope.triggers;
    }

    /** Judges every enabled rule of a counter for one window. Each alert is explained by a rule that
        fires; each rule that fires alerts unless it is cooling down. The window counts as failed,
        and is tried again, exactly when something could not be judged and no alert went out. By the
        fire records at the start: it passes when it would at the clock of the start, and when it
        passes it would at the clock of the end. */
    method EvaluateWindow(env: Env, triggers: seq<Trigger>, end: int) returns (fired: nat, failed: bool)
      requires Valid() && Answers(env)
      requires forall t :: t in triggers ==> t.cooldown == cooldown(t.id)
      modifies this`clock, this`firedAt, this`alerts
      ensures Valid()
      ensures |alerts| == |old(alerts)| + fired
      ensures Accounts(env, Enabled(triggers), end, old(Snapshot()), Snapshot(), Rules(Enabled(triggers)))
      ensures failed <==> fired == 0 && Unjudged(env, Enabled(triggers), end)
      ensures failed ==> alerts == old(alerts)
      ensures !failed ==> Passes(View(env, triggers, old(firedAt), clock), end)
      ensures Passes(View(env, triggers, old(firedAt), old(clock)), end) ==> !failed
      ensures Elapsed(firedAt, clock)
      ensures DueAlerted(env, triggers, end, old(Snapshot()), alerts)
    {
      hide Spaced, Recorded, Past, Elapsed, DueAlerted, Request, GroupOf, Accounts, Filters, FilterOf, FiresOut;
      fired := 0;
      ghost var start := Snapshot();
      var enabled: seq<Trigger> := [];
      for i := 0 to |triggers|
        invariant enabled == Enabled(triggers[..i])
      {
        assert triggers[..i + 1][..i] == triggers[..i] && triggers[..i + 1][i] == triggers[i];
        if triggers[i].enabled {
          enabled := enabled + [triggers[i]];
        }
      }
      assert triggers[..|triggers|] == triggers;
      EnabledMembers(triggers);
      AccountsStart(env, enabled, end, start);
      if |enabled| == 0 {
        assert Rules(enabled) == {};
        AccountsAlert(env, triggers, end, start, Snapshot());
        AccountsPass(env, triggers, end, start, Snapshot());
        return 0, false;
      }
      var groups := GroupByScope(env, enabled);
      if groups == None {
        NothingUsable(env, enabled, end, start);
        AccountsAlert(env, triggers, end, start, Snapshot());
        AccountsPass(env, triggers, end, start, Snapshot());
        return 0, true;
      }
      var someRefused := false;
      ghost var handled: set<Trigger> := {};
      var filters := Filters(env, enabled);
      for i := 0 to |groups.value|
        invariant Valid() && |alerts| == |old(alerts)| + fired
        invariant Accounts(env, enabled, end, start, Snapshot(), handled)
        invariant forall k, t :: 0 <= k < i && t in GroupOf(env, enabled, filters[k]) ==> t in handled
        invariant someRefused <==> exists k :: 0 <= k < i && RefusedGroup(env, enabled, filters[k], end)
      {
        var scope := groups.value[i];
        var n, refused := EvaluateScope(env, enabled, scope, end, start, handled);
        handled := handled + Rules(scope.triggers);
        assert refused == RefusedGroup(env, enabled, filters[i], end);
        if refused {
          someRefused := true;
        }
        fired := fired + n;
      }
      AllAccounted(env, enabled, end, start, Snapshot(), handled);
      assert someRefused == Unjudged(env, enabled, end);
      AccountsAlert(env, triggers, end, start, Snapshot());
      AccountsPass(env, triggers, end, start, Snapshot());
      AccountsPrefix(env, enabled, end, start, Snapshot(), Rules(enabled));
      if fired == 0 && someRefused {
        return 0, true;
      }
      return fired, false;
    }

    /** Judges windows in order and stops at the first that fails, which has sent nothing; `logs` holds
        the moments between the windows. Over the whole batch no rule alerts twice unless the batch
        outlasts its cooldown, less a second. */
    method CatchUp(env: Env, triggers: seq<Trigger>, ends: seq<int>) returns (done: nat, ghost logs: seq<Log>)
      requires Valid() && Answers(env)
      requires forall t :: t in triggers ==> t.cooldown == cooldown(t.id)
      modifies this`clock, this`firedAt, this`alerts
      ensures Valid() && done <= |ends| && |logs| == done + 1 && logs[0] == old(Snapshot())
      ensures forall i :: 0 <= i < done ==> Passed(env, triggers, ends[i], logs[i], logs[i + 1])
      ensures forall i :: 0 <= i <= done ==> logs[i].alerts <= alerts
      ensures done < |ends| ==> !Passes(View(env, triggers, logs[done].firedAt, logs[done].clock), ends[done])
      ensures done < |ends| ==> DueAlerted(env, triggers, ends[done], logs[done], logs[done].alerts)
      ensures alerts == logs[done].alerts && old(alerts) <= alerts && old(clock) <= clock
      ensures forall k :: |old(alerts)| <= k < |alerts| ==> alerts[k].end in ends[..done]
      ensures OncePerRule(alerts, |old(alerts)|, cooldown, old(clock), clock)
    {
      hide Spaced, Recorded, Past, Elapsed, Accounts, Unjudged, Passes, Passed, DueAlerted, Enabled, Answers, Rules;
      done, logs := |ends|, [Snapshot()];
      for i := 0 to |ends|
        invariant Valid() && old(clock) <= clock && old(alerts) <= alerts
        invariant |logs| == i + 1 && logs[0] == old(Snapshot()) && logs[i] == Snapshot()
        invariant forall k :: 0 <= k < i ==> Passed(env, triggers, ends[k], logs[k], logs[k + 1])
        invariant forall k :: |old(alerts)| <= k < |alerts|
                    ==> old(clock) <= alerts[k].at <= clock && alerts[k].end in ends[..i]
      {
        ghost var start := Snapshot();
        var fired, failed := EvaluateWindow(env, triggers, ends[i]);
        NewAlerts(env, Enabled(triggers), ends[i], start, Snapshot());
        assert ends[..i + 1] == ends[..i] + [ends[i]];
        if failed {
          done := i;
          break;
        }
        ItPassed(env, triggers, ends[i], start, Snapshot());
        logs := logs + [Snapshot()];
      }
      assert ends[..|ends|] == ends;
      LogsGrow(env, triggers, ends, logs, done);
      SpacedOnce(alerts, |old(alerts)|, cooldown, old(clock), clock);
    }
  }

  /** The rule is enabled and fires, and has no fire record or one that is at least its cooldown old. */
  ghost predicate Due(env: Env, triggers: seq<Trigger>, end: int, at: Log, t: Trigger)
    requires Answers(env)
  {
    && t in triggers && t.enabled && Fires(env, Enabled(triggers), t, end)
    && (t.id in at.firedAt ==> at.clock - at.firedAt[t.id] >= t.cooldown * (60 * SECOND))
  }

  /** Every rule that is due for the window has been alerted for it. */
  ghost predicate DueAlerted(env: Env, triggers: seq<Trigger>, end: int, at: Log, alerts: seq<Alert>)
    requires Answers(env)
  {
    forall t :: Due(env, triggers, end, at, t) ==> AlertedIn(at.alerts, alerts, t.id, end)
  }

  function Enabled(triggers: seq<Trigger>): seq<Trigger> {
    if triggers == [] then []
    else
      Enabled(triggers[..|triggers| - 1]) + if triggers[|triggers| - 1].enabled then [triggers[|triggers| - 1]] else []
  }

  lemma {:induction false} EnabledMembers(triggers: seq<Trigger>)
    ensures forall t :: t in Enabled(triggers) <==> t in triggers && t.enabled
  {
    if triggers != [] {
      EnabledMembers(triggers[..|triggers| - 1]);
      assert triggers == triggers[..|triggers| - 1] + [triggers[|triggers| - 1]];
    }
  }

  function Rules(triggers: seq<Trigger>): set<Trigger> {
    set t | t in triggers
  }

  /** The alerts, fire records and clock at a moment. */
  datatype Log = Log(alerts: seq<Alert>, firedAt: map<int, int>, clock: int)

  /** No rule of the list alerts twice from position `from` on, unless its cooldown (less a second)
      passed between `since` and `until`. */
  ghost predicate OncePerRule(alerts: seq<Alert>, from: nat, cooldown: int -> int, since: int, until: int) {
    forall i, j :: from <= i < j < |alerts| && alerts[i].trigger == alerts[j].trigger
      ==> until - since > cooldown(alerts[i].trigger) * MINUTE - SECOND
  }

  lemma SpacedOnce(alerts: seq<Alert>, from: nat, cooldown: int -> int, since: int, until: int)
    requires Spaced(alerts, cooldown)
    requires forall i :: from <= i < |alerts| ==> since <= alerts[i].at <= until
    ensures OncePerRule(alerts, from, cooldown, since, until)
  {
    forall i, j | from <= i < j < |alerts| && alerts[i].trigger == alerts[j].trigger
      ensures until - since > cooldown(alerts[i].trigger) * MINUTE - SECOND
    {
      assert alerts[j].at - alerts[i].at > cooldown(alerts[i].trigger) * MINUTE - SECOND;
    }
  }

  ghost predicate RefusedGroup(env: Env, enabled: seq<Trigger>, filter: string, end: int)
    requires Answers(env)
  {
    Request(env, GroupOf(env, enabled, filter), end, filter).Err?
  }

  /** There are enabled rules and either none has a usable filter or the request of some scope is
      refused. */
  ghost predicate Unjudged(env: Env, enabled: seq<Trigger>, end: int)
    requires Answers(env)
  {
    && enabled != []
    && (|| Filters(env, enabled) == []
        || exists k :: 0 <= k < |Filters(env, enabled)| && RefusedGroup(env, enabled, Filters(env, enabled)[k], end))
  }

  /** Some rule fires that is not cooling down. */
  ghost predicate FiresOut(env: Env, enabled: seq<Trigger>, end: int, firedAt: map<int, int>, clock: int)
    requires Answers(env)
  {
    exists t :: t in enabled && Fires(env, enabled, t, end) && !CoolingDown(firedAt, t, clock)
  }

  /** What an evaluation runs against: the API, the counter's rules, the fire records and the clock. */
  datatype View = View(env: Env, triggers: seq<Trigger>, firedAt: map<int, int>, clock: int)

  /** A window passes when everything can be judged, or when some rule fires out of its cooldown. */
  ghost predicate Passes(v: View, end: int)
    requires Answers(v.env)
  {
    || !Unjudged(v.env, Enabled(v.triggers), end)
    || FiresOut(v.env, Enabled(v.triggers), end, v.firedAt, v.clock)
  }

  ghost predicate Explained(env: Env, enabled: seq<Trigger>, end: int, a: Alert)
    requires Answers(env)
  {
    && a.end == end
    && exists t :: t in enabled && t.id == a.trigger && Fires(env, enabled, t, end)
  }

  ghost predicate Sent(alerts: seq<Alert>, from: nat, id: int) {
    exists k :: from <= k < |alerts| && alerts[k].trigger == id
  }

  /** Between two moments: alerts were only added, each for a rule that fires; records changed only for
      rules that alerted; each handled rule that fires alerted or was cooling down at the start; and if
      any alert was added, some rule fires that was not cooling down any more. */
  ghost predicate Accounts(env: Env, enabled: seq<Trigger>, end: int, start: Log, now: Log, handled: set<Trigger>)
    requires Answers(env)
  {
    && start.clock <= now.clock && start.alerts <= now.alerts
    && (forall k :: |start.alerts| <= k < |now.alerts| ==>
          start.clock <= now.alerts[k].at <= now.clock && Explained(env, enabled, end, now.alerts[k]))
    && (forall id :: Sent(now.alerts, |start.alerts|, id)
                     || ((id in now.firedAt <==> id in start.firedAt)
                         && (id in now.firedAt ==> now.firedAt[id] == start.firedAt[id])))
    && (forall t :: t in handled && Fires(env, enabled, t, end)
          ==> Sent(now.alerts, |start.alerts|, t.id) || CoolingDown(start.firedAt, t, start.clock))
    && (|start.alerts| < |now.alerts| ==> FiresOut(env, enabled, end, start.firedAt, now.clock))
  }

  lemma AccountsStart(env: Env, enabled: seq<Trigger>, end: int, start: Log)
    requires Answers(env)
    ensures Accounts(env, enabled, end, start, start, {})
  {
    hide Fires;
  }

  lemma NewAlerts(env: Env, enabled: seq<Trigger>, end: int, start: Log, now: Log)
    requires Answers(env) && Accounts(env, enabled, end, start, now, Rules(enabled))
    ensures start.clock <= now.clock && start.alerts <= now.alerts
    ensures forall k :: |start.alerts| <= k < |now.alerts|
              ==> start.clock <= now.alerts[k].at <= now.clock && now.alerts[k].end == end
  {
    hide Fires;
  }

  lemma AccountsPrefix(env: Env, enabled: seq<Trigger>, end: int, start: Log, now: Log, handled: set<Trigger>)
    requires Answers(env) && Accounts(env, enabled, end, start, now, handled)
    ensures |now.alerts| == |start.alerts| ==> now.alerts == start.alerts
  {
    hide Fires;
  }

  lemma AccountsStep(env: Env, enabled: seq<Trigger>, end: int, start: Log, before: Log, now: Log,
                     handled: set<Trigger>,
                     t: Trigger, delivered: bool)
    requires Answers(env) && Accounts(env, enabled, end, start, before, handled) && t in enabled
    requires before.clock <= now.clock
    requires delivered ==>
               && Fires(env, enabled, t, end)
               && |now.alerts| == |before.alerts| + 1 && now.alerts[..|before.alerts|] == before.alerts
               && now.alerts[|before.alerts|].trigger == t.id && now.alerts[|before.alerts|].end == end
               && before.clock <= now.alerts[|before.alerts|].at <= now.clock
               && t.id in now.firedAt && now.firedAt == before.firedAt[t.id := now.firedAt[t.id]]
               && !CoolingDown(before.firedAt, t, now.clock)
    requires !delivered ==>
               && now.alerts == before.alerts && now.firedAt == before.firedAt
               && (Fires(env, enabled, t, end) ==> CoolingDown(now.firedAt, t, before.clock))
    ensures Accounts(env, enabled, end, start, now, handled + {t})
  {
    hide Fires;
    forall id | Sent(before.alerts, |start.alerts|, id)
      ensures Sent(now.alerts, |start.alerts|, id)
    {
      var k :| |start.alerts| <= k < |before.alerts| && before.alerts[k].trigger == id;
      assert now.alerts[k] == before.alerts[k];
    }
    StillFiresOut(env, enabled, end, start.firedAt, before.clock, now.clock);
    if delivered {
      if |before.alerts| == |start.alerts| {
        assert !Sent(before.alerts, |start.alerts|, t.id);
        assert !CoolingDown(start.firedAt, t, now.clock);
      }
      assert Sent(now.alerts, |start.alerts|, t.id);
      assert Explained(env, enabled, end, now.alerts[|before.alerts|]);
    }
    forall k | |start.alerts| <= k < |now.alerts|
      ensures start.clock <= now.alerts[k].at <= now.clock && Explained(env, enabled, end, now.alerts[k])
    {
      if k < |before.alerts| {
        assert now.alerts[k] == before.alerts[k];
      }
    }
  }

  lemma StillFiresOut(env: Env, enabled: seq<Trigger>, end: int, firedAt: map<int, int>, clock: int, later: int)
    requires Answers(env) && clock <= later
    ensures FiresOut(env, enabled, end, firedAt, clock) ==> FiresOut(env, enabled, end, firedAt, later)
  {
    hide Fires;
    if FiresOut(env, enabled, end, firedAt, clock) {
      var t :| t in enabled && Fires(env, enabled, t, end) && !CoolingDown(firedAt, t, clock);
      assert !CoolingDown(firedAt, t, later);
    }
  }

  /** What the account of a window says about its passing, from the fire records at its start. */
  lemma AccountsPass(env: Env, triggers: seq<Trigger>, end: int, start: Log, now: Log)
    requires Answers(env) && Accounts(env, Enabled(triggers), end, start, now, Rules(Enabled(triggers)))
    ensures |now.alerts| > |start.alerts| || !Unjudged(env, Enabled(triggers), end)
            ==> Passes(View(env, triggers, start.firedAt, now.clock), end)
    ensures |now.alerts| == |start.alerts| ==> !FiresOut(env, Enabled(triggers), end, start.firedAt, start.clock)
  {
    hide Fires, Unjudged, CoolingDown, Enabled;
  }

  /** The account tells of an alert for every rule that is due. */
  lemma AccountsAlert(env: Env, triggers: seq<Trigger>, end: int, start: Log, now: Log)
    requires Answers(env) && Accounts(env, Enabled(triggers), end, start, now, Rules(Enabled(triggers)))
    ensures DueAlerted(env, triggers, end, start, now.alerts)
  {
    hide Fires, Enabled, FiresOut;
    EnabledMembers(triggers);
    forall t | Due(env, triggers, end, start, t)
      ensures AlertedIn(start.alerts, now.alerts, t.id, end)
    {
      assert t in Rules(Enabled(triggers)) && Sent(now.alerts, |start.alerts|, t.id);
      var k :| |start.alerts| <= k < |now.alerts| && now.alerts[k].trigger == t.id;
      assert Explained(env, Enabled(triggers), end, now.alerts[k]);
    }
  }

  /** A window passed between two moments: it is accounted for, and every rule that was due alerted. */
  ghost predicate Passed(env: Env, triggers: seq<Trigger>, end: int, before: Log, after: Log)
    requires Answers(env)
  {
    && Accounts(env, Enabled(triggers), end, before, after, Rules(Enabled(triggers)))
    && Passes(View(env, triggers, before.firedAt, after.clock), end)
    && DueAlerted(env, triggers, end, before, after.alerts)
  }

  lemma ItPassed(env: Env, triggers: seq<Trigger>, end: int, before: Log, after: Log)
    requires Answers(env) && Accounts(env, Enabled(triggers), end, before, after, Rules(Enabled(triggers)))
    requires Passes(View(env, triggers, before.firedAt, after.clock), end)
    requires DueAlerted(env, triggers, end, before, after.alerts)
    ensures Passed(env, triggers, end, before, after)
  {
  }

  /** Alerts are never taken back. */
  lemma {:induction false} LogsGrow(env: Env, triggers: seq<Trigger>, ends: seq<int>, logs: seq<Log>, done: nat)
    requires Answers(env) && done <= |ends| && done < |logs|
    requires forall i :: 0 <= i < done ==> Passed(env, triggers, ends[i], logs[i], logs[i + 1])
    ensures forall i :: 0 <= i <= done ==> logs[i].alerts <= logs[done].alerts
  {
    hide *;
    if done > 0 {
      LogsGrow(env, triggers, ends, logs, done - 1);
      PassedGrows(env, triggers, ends[done - 1], logs[done - 1], logs[done]);
    }
  }

  lemma PassedGrows(env: Env, triggers: seq<Trigger>, end: int, before: Log, after: Log)
    requires Answers(env) && Passed(env, triggers, end, before, after)
    ensures before.alerts <= after.alerts
  {
    NewAlerts(env, Enabled(triggers), end, before, after);
    hide Accounts, Passes, DueAlerted;
  }

  /** In its own scope a rule fires exactly when the shared series says so. */
  lemma FiresInScope(env: Env, enabled: seq<Trigger>, filter: string, t: Trigger, end: int)
    requires Answers(env) && FilterOf(env, t) == Ok(filter)
    requires Request(env, GroupOf(env, enabled, filter), end, filter).Ok?
    ensures var (g, metrics) := Request(env, GroupOf(env, enabled, filter), end, filter).value;
            Fires(env, enabled, t, end) <==> FiresOn(env, g, metrics, t, end)
  {
    hide Request, GroupOf, FilterOf, OutcomeOn;
  }

  /** The rules of a refused scope do not fire. */
  lemma RefusedScope(env: Env, enabled: seq<Trigger>, end: int, start: Log, now: Log, handled: set<Trigger>,
                     filter: string)
    requires Answers(env) && Accounts(env, enabled, end, start, now, handled)
    requires Request(env, GroupOf(env, enabled, filter), end, filter).Err?
    ensures Accounts(env, enabled, end, start, now, handled + Rules(GroupOf(env, enabled, filter)))
  {
    hide Request, GroupOf, FilterOf, OutcomeOn, Explained;
    forall t | t in GroupOf(env, enabled, filter)
      ensures !Fires(env, enabled, t, end)
    {
      GroupMembers(env, enabled, filter, t);
    }
  }

  lemma NothingUsable(env: Env, enabled: seq<Trigger>, end: int, start: Log)
    requires Answers(env) && Filters(env, enabled) == []
    ensures Accounts(env, enabled, end, start, start, Rules(enabled))
  {
    hide Filters, FilterOf, Request, GroupOf;
    AccountsStart(env, enabled, end, start);
    FiltersAscend(env, enabled);
    forall t | t in enabled
      ensures !Fires(env, enabled, t, end)
    {
      assert forall f :: FilterOf(env, t) == Ok(f) ==> f in Filters(env, enabled);
    }
  }

  /** Rules outside the handled groups have no usable filter, so they do not fire. */
  lemma AllAccounted(env: Env, enabled: seq<Trigger>, end: int, start: Log, now: Log, handled: set<Trigger>)
    requires Answers(env) && Accounts(env, enabled, end, start, now, handled)
    requires forall k, t :: 0 <= k < |Filters(env, enabled)| && t in GroupOf(env, enabled, Filters(env, enabled)[k])
               ==> t in handled
    ensures Accounts(env, enabled, end, start, now, Rules(enabled))
  {
    hide Filters, FilterOf, Request, GroupOf, Explained, OutcomeOn;
    FiltersAscend(env, enabled);
    forall t | t in enabled && Fires(env, enabled, t, end)
      ensures t in handled
    {
      var f := FilterOf(env, t).value;
      assert f in Filters(env, enabled);
      GroupMembers(env, enabled, f, t);
      var k :| 0 <= k < |Filters(env, enabled)| && Filters(env, enabled)[k] == f;
    }
  }

  lemma NoneYet(triggers: seq<Trigger>, handled: set<Trigger>)
    ensures handled + Rules(triggers[..0]) == handled
  {
  }

  lemma OneMoreRule(triggers: seq<Trigger>, i: nat, handled: set<Trigger>)
    requires i < |triggers|
    ensures handled + Rules(triggers[..i]) + {triggers[i]} == handled + Rules(triggers[..i + 1])
  {
    assert triggers[..i + 1] == triggers[..i] + [triggers[i]];
  }

  ghost predicate FiresOn(env: Env, g: Grid, metrics: seq<string>, t: Trigger, end: int) {
    var o := OutcomeOn(env, g, metrics, t, end);
    o.Judged? && o.verdict.fired
  }

  /** An alert sent when the rule was not cooling down keeps the log spaced and recorded. */
  lemma StaysSpaced(alerts: seq<Alert>, firedAt: map<int, int>, cooldown: int -> int, a: Alert, stored: int)
    requires Spaced(alerts, cooldown) && Recorded(alerts, firedAt) && Past(alerts, a.at)
    requires a.trigger in firedAt ==> a.at - firedAt[a.trigger] >= cooldown(a.trigger) * MINUTE
    requires stored >= a.at
    ensures Spaced(alerts + [a], cooldown) && Recorded(alerts + [a], firedAt[a.trigger := WholeSeconds(stored)])
    ensures Past(alerts + [a], a.at)
  {
    assert WholeSeconds(stored) > a.at - SECOND;
    var more := alerts + [a];
    forall i, j | 0 <= i < j < |more| && more[i].trigger == more[j].trigger
      ensures more[j].at - more[i].at > cooldown(more[i].trigger) * MINUTE - SECOND
    {
      if j < |alerts| {
        assert more[i] == alerts[i] && more[j] == alerts[j];
      } else {
        assert more[i] == alerts[i];
      }
    }
  }
}
