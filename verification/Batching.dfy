/** Sharing one request among the rules of a scope gives each rule the decision it would get from a
    request of its own (internal/engine/evaluator.go, internal/engine/baseline.go). */
module Batching {
  import opened Text
  import opened Series
  import opened Baseline
  import opened Scopes
  import Poller

  const MIN_SAMPLES := 2

  /** What a rule comes to: no verdict, because it has none to offer (a bad filter or metric, a refused
      request, a window the series does not cover), or the verdict of Judge. */
  datatype Outcome = NoVerdict | Judged(verdict: Verdict)

  /** The verdict of a rule on a series whose `k`-th metric is its own. */
  function OutcomeAt(env: Env, g: Grid, k: nat, t: Trigger, end: int): Outcome {
    match WindowTotal(g, k, end, env.cfg.Window())
    case None => NoVerdict
    case Some(current) =>
      var baseline := BaselineOf(g, k, end, env.cfg.Window(), t.weeks);
      Judged(Judge(current, baseline, t.direction, t.deviationPct, t.minBaseline, MIN_SAMPLES))
  }

  function OutcomeOn(env: Env, g: Grid, metrics: seq<string>, t: Trigger, end: int): Outcome {
    var m := env.resolve(t.metric);
    if m == None || m.value !in metrics then NoVerdict else OutcomeAt(env, g, Position(metrics, m.value), t, end)
  }

  /** What a rule comes to among the enabled rules of its counter. */
  function OutcomeIn(env: Env, triggers: seq<Trigger>, t: Trigger, end: int): Outcome
    requires Answers(env)
  {
    match FilterOf(env, t)
    case Err(_) => NoVerdict
    case Ok(filter) =>
      match Request(env, GroupOf(env, triggers, filter), end, filter)
      case Err(_) => NoVerdict
      case Ok((g, metrics)) => OutcomeOn(env, g, metrics, t, end)
  }

  // ---- Metrics and weeks of a group ----

  lemma {:induction false} MetricsOf(env: Env, triggers: seq<Trigger>, t: Trigger)
    requires t in triggers && env.resolve(t.metric).Some?
    ensures env.resolve(t.metric).value in Metrics(env, triggers)
    ensures t.weeks <= Weeks(env, triggers)
  {
    var init, last := triggers[..|triggers| - 1], triggers[|triggers| - 1];
    assert triggers == init + [last];
    if t in init {
      MetricsOf(env, init, t);
    }
  }

  lemma AloneRequest(env: Env, t: Trigger)
    ensures Metrics(env, [t]) == match env.resolve(t.metric) case None => [] case Some(m) => [m]
    ensures env.resolve(t.metric).Some? ==> Weeks(env, [t]) == if t.weeks > 1 then t.weeks else 1
  {
    assert [t][..0] == [];
  }

  // ---- What an answer reads at a moment ----

  /** The figure at a moment the API was asked for; None outside the asked range or off its grid. */
  function Reading(env: Env, filter: string, metric: string, start: int, stop: int, step: int, at: int): Option<real>
    requires step > 0
  {
    if start <= at < stop && at % step == 0 then Some(env.figure(filter, metric, at)) else None
  }

  lemma EndOfAnswer(step: int, weeks: int)
    requires step > 0 && weeks >= 1 && 1440 % step == 0
    ensures step * (1440 * (7 * weeks + 2) / step) == 1440 * (7 * weeks + 2)
    ensures 1440 * (7 * weeks + 2) / step >= 2
  {
    var perDay, days := 1440 / step, 7 * weeks + 2;
    assert 1440 == step * perDay;
    assert 1440 * days == step * (perDay * days) + 0;
    Poller.DivModUnique(1440 * days, step, perDay * days, 0);
    assert perDay >= 1;
    Poller.TimesMonotonic(perDay, 2, days);
  }

  lemma FromAligned(end: int, weeks: int, step: int)
    requires step > 0 && 1440 % step == 0
    ensures From(end, weeks) % step == 0 && From(end, weeks) % 1440 == 0
  {
    var from := From(end, weeks);
    assert from == 1440 * (end / 1440 - 7 * weeks - 1);
    Poller.MultipleMod(1440, end / 1440 - 7 * weeks - 1);
    Poller.GridIsMultiples(from, step);
    assert (from % 1440) % step == from % step;
  }

  lemma EvenlySpaced(env: Env, filter: string, metrics: seq<string>, weeks: int, end: int)
    requires SaneApi(env) && weeks >= 1
    ensures var g := Answer(env, filter, metrics, weeks, end);
            && Evenly(g.intervals, env.spacing(weeks)) && |g.intervals| >= 2 && g.Step() == env.spacing(weeks)
  {
    hide From;
    var g := Answer(env, filter, metrics, weeks, end);
    var step := env.spacing(weeks);
    EndOfAnswer(step, weeks);
    forall i | 0 <= i < |g.intervals| - 1
      ensures g.intervals[i + 1] == g.intervals[i] + step
    {
      assert step * (i + 1) == step * i + step;
    }
  }

  /** Reading the answer through its index gives the oracle's figure. */
  lemma AnswerReads(env: Env, filter: string, metrics: seq<string>, weeks: int, end: int, k: nat, at: int)
    requires SaneApi(env) && weeks >= 1 && k < |metrics|
    ensures var g := Answer(env, filter, metrics, weeks, end);
            g.At(k, Search(g.intervals, at)) == Reading(env, filter, metrics[k], From(end, weeks),
                                                        DayStart(end) + 1440, env.spacing(weeks), at)
  {
    hide Search, From, SaneApi;
    var step := env.spacing(weeks);
    assert step > 0 && 1440 % step == 0 by { SpacingOf(env, weeks); }
    var g := Answer(env, filter, metrics, weeks, end);
    var start, count := From(end, weeks), |g.intervals|;
    EndOfAnswer(step, weeks);
    assert start + step * count == DayStart(end) + 1440 by { FromIs(end, weeks); }
    FromAligned(end, weeks, step);
    if start <= at < start + step * count && at % step == 0 {
      var q := OnStep(start, step, at);
      Poller.TimesMonotonic(step, count, q);
      Poller.TimesMonotonic(step, q, -1);
      assert g.intervals[q] == at;
    }
    var i := Search(g.intervals, at);
    if i >= 0 {
      assert at == start + step * i;
      Poller.ModAddMultiple(start, step, i);
      Poller.TimesMonotonic(step, i + 1, count);
      Poller.TimesMonotonic(step, 0, i);
      assert step * (i + 1) == step * i + step;
    }
  }

  lemma FromIs(end: int, weeks: int)
    ensures From(end, weeks) + 1440 * (7 * weeks + 2) == DayStart(end) + 1440
  {
  }

  lemma SpacingOf(env: Env, weeks: int)
    requires SaneApi(env) && weeks >= 1
    ensures env.spacing(weeks) > 0 && 1440 % env.spacing(weeks) == 0
  {
  }

  lemma OnStep(start: int, step: int, at: int) returns (q: int)
    requires step > 0 && start % step == 0 && at % step == 0
    ensures at == start + step * q
  {
    q := at / step - start / step;
    assert at == step * (at / step) && start == step * (start / step);
    assert step * q == step * (at / step) - step * (start / step);
  }

  // ---- Longer answers change nothing for a rule ----

  /** Both series give the same figure at every moment from `start` on. */
  ghost predicate SameFrom(g: Grid, k: nat, g': Grid, k': nat, start: int) {
    && g.Step() == g'.Step()
    && forall at :: at >= start ==> g.At(k, Search(g.intervals, at)) == g'.At(k', Search(g'.intervals, at))
  }

  lemma {:induction false} SumSame(g: Grid, k: nat, g': Grid, k': nat, start: int, at: int, end: int)
    requires SameFrom(g, k, g', k', start) && g.Step() > 0 && at >= start
    ensures SumFrom(g, k, at, end) == SumFrom(g', k', at, end)
    decreases end - at
  {
    hide Search;
    if at < end {
      SumSame(g, k, g', k', start, at + g.Step(), end);
    }
  }

  lemma TotalSame(g: Grid, k: nat, g': Grid, k': nat, start: int, end: int, window: int)
    requires SameFrom(g, k, g', k', start) && end - window >= start
    ensures WindowTotal(g, k, end, window) == WindowTotal(g', k', end, window)
  {
    hide SumFrom;
    assert g.Step() == g'.Step();
    if g.Step() > 0 {
      SumSame(g, k, g', k', start, end - window, end);
    }
  }

  lemma {:induction false} SamplesSame(g: Grid, k: nat, g': Grid, k': nat, start: int, end: int, window: int, week: int,
                                       weeks: int)
    requires SameFrom(g, k, g', k', start) && end - WEEK * weeks - window >= start
    ensures Samples(g, k, end, window, week, weeks) == Samples(g', k', end, window, week, weeks)
    decreases weeks - week
  {
    hide SameFrom, WindowTotal, SlotOf;
    if week <= weeks {
      SamplesSame(g, k, g', k', start, end, window, week + 1, weeks);
      TotalSame(g, k, g', k', start, end - WEEK * week, window);
    }
  }

  /** The window so many weeks ago is at most a day longer than the part of the day that is over and the
      weeks between it and the oldest asked for. */
  predicate ReachesBack(env: Env, end: int, weeks: int, week: int) {
    env.cfg.Window() <= 1440 + end % 1440 + WEEK * (weeks - week)
  }

  /** The range requested for so many weeks reaches back over a window exactly then; so over every window
      that the baseline reads, for windows of up to a day. */
  lemma RangeCovers(env: Env, end: int, weeks: int, week: int)
    ensures end - WEEK * week - env.cfg.Window() >= From(end, weeks) <==> ReachesBack(env, end, weeks, week)
    ensures env.cfg.Window() <= 1440 && week <= weeks ==> ReachesBack(env, end, weeks, week)
  {
  }

  /** How many weeks of the baseline a request for the rule alone is made for. */
  function RuleWeeks(t: Trigger): int {
    if t.weeks > 1 then t.weeks else 1
  }

  /** How many weeks ago the oldest window ends that the rule is judged by. */
  function Oldest(t: Trigger): int {
    if t.weeks > 0 then t.weeks else 0
  }

  lemma OutcomeSame(env: Env, g: Grid, k: nat, g': Grid, k': nat, t: Trigger, end: int, start: int)
    requires start <= end - WEEK * Oldest(t) - env.cfg.Window() && SameFrom(g, k, g', k', start)
    ensures OutcomeAt(env, g, k, t, end) == OutcomeAt(env, g', k', t, end)
  {
    hide SameFrom, WindowTotal, Judge, Median;
    var window := env.cfg.Window();
    TotalSame(g, k, g', k', start, end, window);
    if t.weeks >= 1 {
      SamplesSame(g, k, g', k', start, end, window, 1, t.weeks);
    }
  }

  lemma LongerAnswerSame(env: Env, filter: string, metrics: seq<string>, k: nat, weeks: int, metrics': seq<string>,
                         k': nat, weeks': int, end: int)
    requires SaneApi(env) && 1 <= weeks' <= weeks && env.spacing(weeks) == env.spacing(weeks')
    requires k < |metrics| && k' < |metrics'| && metrics[k] == metrics'[k']
    ensures var g, g' := Answer(env, filter, metrics, weeks, end), Answer(env, filter, metrics', weeks', end);
            SameFrom(g, k, g', k', From(end, weeks'))
              && (weeks == weeks' ==> forall start :: SameFrom(g, k, g', k', start))
  {
    hide Search, Answer, SaneApi;
    SpacingOf(env, weeks);
    SpacingOf(env, weeks');
    EvenlySpaced(env, filter, metrics, weeks, end);
    EvenlySpaced(env, filter, metrics', weeks', end);
    var g, g' := Answer(env, filter, metrics, weeks, end), Answer(env, filter, metrics', weeks', end);
    forall at | at >= From(end, weeks') || weeks == weeks'
      ensures g.At(k, Search(g.intervals, at)) == g'.At(k', Search(g'.intervals, at))
    {
      AnswerReads(env, filter, metrics, weeks, end, k, at);
      AnswerReads(env, filter, metrics', weeks', end, k', at);
    }
  }

  // ---- What an answer holds ----

  /** The window starts where an interval of the configured step starts. */
  predicate OnInterval(env: Env, end: int) {
    (end - env.cfg.Window()) % env.cfg.Step() == 0
  }

  /** The answer for so many weeks holds the whole window. */
  predicate Covers(env: Env, weeks: int, end: int) {
    ReachesBack(env, end, weeks, 0) && OnInterval(env, end)
  }

  /** The sum up to a moment the answer reaches exists exactly when it starts on an interval of the answer. */
  lemma {:induction false} SumHeld(env: Env, filter: string, metrics: seq<string>, k: nat, weeks: int, end: int,
                                   at: int, stop: int)
    requires SaneApi(env) && weeks >= 1 && k < |metrics| && at < stop <= DayStart(end) + 1440
    ensures var g := Answer(env, filter, metrics, weeks, end);
            && g.Step() == env.spacing(weeks) > 0
            && (SumFrom(g, k, at, stop).Some? <==> From(end, weeks) <= at && at % env.spacing(weeks) == 0)
    decreases stop - at
  {
    SpacingOf(env, weeks);
    EvenlySpaced(env, filter, metrics, weeks, end);
    AnswerReads(env, filter, metrics, weeks, end, k, at);
    var step := env.spacing(weeks);
    Poller.ModAddStep(at, step);
    hide Answer, Search, SaneApi, From, DayStart;
    if at + step < stop {
      SumHeld(env, filter, metrics, k, weeks, end, at + step, stop);
    }
  }

  /** So the answer has the window of some weeks ago exactly when it reaches back over it. */
  lemma WindowHeld(env: Env, filter: string, metrics: seq<string>, k: nat, weeks: int, end: int, week: nat)
    requires SaneApi(env) && weeks >= 1 && k < |metrics| && env.spacing(weeks) == env.cfg.Step()
    ensures WindowTotal(Answer(env, filter, metrics, weeks, end), k, end - WEEK * week, env.cfg.Window()).Some?
            <==> ReachesBack(env, end, weeks, week) && OnInterval(env, end)
  {
    SpacingOf(env, weeks);
    var step, window := env.cfg.Step(), env.cfg.Window();
    var past := end - WEEK * week;
    assert past <= end < DayStart(end) + 1440;
    SumHeld(env, filter, metrics, k, weeks, end, past - window, past);
    RangeCovers(env, end, weeks, week);
    WeeksOnGrid(end - window, step, week);
    hide Answer, SumFrom, From, SaneApi;
  }

  lemma WeeksOnGrid(at: int, step: int, week: int)
    requires step > 0 && 1440 % step == 0
    ensures (at - WEEK * week) % step == at % step
  {
    var perDay := 1440 / step;
    assert 1440 == step * perDay;
    assert WEEK * week == step * perDay * 7 * week == step * (perDay * 7 * week);
    assert at - WEEK * week == at + step * -(perDay * 7 * week);
    Poller.ModAddMultiple(at, step, -(perDay * 7 * week));
  }

  // ---- Batching preserves meaning ----

  /** The group's request is refused: too many metrics for one request, no answer, or intervals wider
      than the configured step. */
  predicate Refused(env: Env, group: seq<Trigger>, filter: string) {
    || |Metrics(env, group)| > MAX_METRICS
    || !env.answers(filter)
    || env.spacing(Weeks(env, group)) != env.cfg.Step()
  }

  lemma RequestIs(env: Env, group: seq<Trigger>, end: int, filter: string)
    requires SaneApi(env)
    ensures Metrics(env, group) != [] ==>
              Request(env, group, end, filter).Ok? == !Refused(env, group, filter)
    ensures Request(env, group, end, filter).Ok? ==>
              Request(env, group, end, filter).value
              == (Answer(env, filter, Metrics(env, group), Weeks(env, group), end), Metrics(env, group))
  {
    hide Answer, SaneApi;
    SpacingOf(env, Weeks(env, group));
    EvenlySpaced(env, filter, Metrics(env, group), Weeks(env, group), end);
  }

  /** A request for the group offers the rule a verdict. */
  predicate Offers(env: Env, group: seq<Trigger>, filter: string, t: Trigger, end: int) {
    !Refused(env, group, filter) && env.resolve(t.metric).Some? && Covers(env, Weeks(env, group), end)
  }

  /** What the rule comes to is what the answer to its group's request says about its metric. */
  lemma OutcomeIs(env: Env, triggers: seq<Trigger>, t: Trigger, end: int)
    requires SaneApi(env) && t in triggers && FilterOf(env, t).Ok?
    ensures var filter := FilterOf(env, t).value;
            var group := GroupOf(env, triggers, filter);
            var ms, weeks := Metrics(env, group), Weeks(env, group);
            && Answers(env)
            && (Refused(env, group, filter) || env.resolve(t.metric) == None ==>
                  OutcomeIn(env, triggers, t, end) == NoVerdict)
            && (!Refused(env, group, filter) && env.resolve(t.metric).Some? ==>
                  && t.weeks <= weeks && env.resolve(t.metric).value in ms && env.spacing(weeks) == env.cfg.Step()
                  && OutcomeIn(env, triggers, t, end)
                     == OutcomeAt(env, Answer(env, filter, ms, weeks, end),
                                  Position(ms, env.resolve(t.metric).value), t, end))
  {
    Spacings(env);
    var filter := FilterOf(env, t).value;
    var group := GroupOf(env, triggers, filter);
    GroupMembers(env, triggers, filter, t);
    RequestIs(env, group, end, filter);
    hide Request, FilterOf, GroupOf, Metrics, Weeks, Answer, OutcomeAt, SaneApi;
    if env.resolve(t.metric).Some? {
      MetricsOf(env, group, t);
    }
  }

  /** A rule is judged exactly when its group's request offers it a verdict. */
  lemma JudgedIff(env: Env, triggers: seq<Trigger>, t: Trigger, end: int)
    requires SaneApi(env) && t in triggers && FilterOf(env, t).Ok?
    ensures var filter := FilterOf(env, t).value;
            && Answers(env)
            && (OutcomeIn(env, triggers, t, end).Judged?
               <==> Offers(env, GroupOf(env, triggers, filter), filter, t, end))
  {
    OutcomeIs(env, triggers, t, end);
    var filter := FilterOf(env, t).value;
    var group := GroupOf(env, triggers, filter);
    hide FilterOf, GroupOf, Metrics, Weeks, Answer, OutcomeIn, SaneApi, WindowTotal, Refused, ReachesBack, OnInterval,
      Samples, Judge;
    if !Refused(env, group, filter) && env.resolve(t.metric).Some? {
      var ms := Metrics(env, group);
      assert end - WEEK * 0 == end;
      WindowHeld(env, filter, ms, Position(ms, env.resolve(t.metric).value), Weeks(env, group), end, 0);
    }
  }

  /** The request for the rule alone reaches back over everything the rule is judged by. */
  predicate Reaches(env: Env, t: Trigger, end: int) {
    ReachesBack(env, end, RuleWeeks(t), Oldest(t))
  }

  /** The rest of its scope makes no difference to the rule: both requests offer it a verdict or neither
      does; and when both do, its own reaches back over everything it is judged by, or no rule of the
      scope asks for more weeks. */
  predicate Undisturbed(env: Env, group: seq<Trigger>, filter: string, t: Trigger, end: int) {
    && (Offers(env, group, filter, t, end) <==> Offers(env, [t], filter, t, end))
    && (Offers(env, group, filter, t, end) ==> Reaches(env, t, end) || Weeks(env, group) == RuleWeeks(t))
  }

  /** For every set of enabled rules and every API, a rule comes to the same from the shared request as
      from a request made for it alone exactly when the rest of its scope makes no difference to it. */
  lemma BatchingPreservesIff(env: Env, triggers: seq<Trigger>, t: Trigger, end: int)
    requires SaneApi(env) && t in triggers && FilterOf(env, t).Ok?
    ensures Answers(env)
    ensures var filter := FilterOf(env, t).value;
            OutcomeIn(env, triggers, t, end) == OutcomeIn(env, [t], t, end)
            <==> Undisturbed(env, GroupOf(env, triggers, filter), filter, t, end)
  {
    hide FilterOf, GroupOf, Metrics, Weeks, OutcomeIn, SaneApi, Reaches, RuleWeeks;
    var filter := FilterOf(env, t).value;
    var group := GroupOf(env, triggers, filter);
    GroupAlone(env, t, filter);
    JudgedIff(env, triggers, t, end);
    JudgedIff(env, [t], t, end);
    if Offers(env, group, filter, t, end) && Offers(env, [t], filter, t, end) {
      SharedIff(env, triggers, t, end, filter, group);
    }
  }

  /** For a rule of one week or more and a window of up to a day that starts on an interval, only refusals
      make a difference. */
  lemma OnlyRefusals(env: Env, group: seq<Trigger>, filter: string, t: Trigger, end: int)
    requires env.cfg.Window() <= 1440 && OnInterval(env, end) && t.weeks >= 1 && env.resolve(t.metric).Some?
    ensures Undisturbed(env, group, filter, t, end) <==> (Refused(env, group, filter) <==> Refused(env, [t], filter))
  {
    hide Refused, Weeks, OnInterval;
    RangeCovers(env, end, Weeks(env, group), 0);
    RangeCovers(env, end, Weeks(env, [t]), 0);
    RangeCovers(env, end, RuleWeeks(t), Oldest(t));
    hide ReachesBack;
  }

  lemma Spacings(env: Env)
    requires SaneApi(env)
    ensures Answers(env)
  {
  }

  lemma GroupAlone(env: Env, t: Trigger, filter: string)
    requires FilterOf(env, t) == Ok(filter)
    ensures GroupOf(env, [t], filter) == [t]
  {
    hide FilterOf;
    assert [t][..0] == [];
  }

  lemma SharedIff(env: Env, triggers: seq<Trigger>, t: Trigger, end: int, filter: string, group: seq<Trigger>)
    requires SaneApi(env) && Answers(env) && t in triggers && FilterOf(env, t) == Ok(filter)
    requires group == GroupOf(env, triggers, filter)
    requires Offers(env, group, filter, t, end) && Offers(env, [t], filter, t, end)
    ensures OutcomeIn(env, triggers, t, end) == OutcomeIn(env, [t], t, end) <==>
            Reaches(env, t, end) || Weeks(env, group) == RuleWeeks(t)
  {
    OutcomeIs(env, triggers, t, end);
    OutcomeIs(env, [t], t, end);
    GroupAlone(env, t, filter);
    AloneRequest(env, t);
    var m := env.resolve(t.metric).value;
    var ms, ms' := Metrics(env, group), Metrics(env, [t]);
    hide FilterOf, GroupOf, Metrics, Weeks, Answer, OutcomeAt, OutcomeIn, SaneApi, Reaches, Refused, Answers, Covers,
      Position, Oldest;
    if Reaches(env, t, end) || Weeks(env, group) == RuleWeeks(t) {
      SharedSame(env, filter, ms, Position(ms, m), Weeks(env, group), ms', Position(ms', m), t, end);
    } else {
      SharedDiffers(env, filter, ms, Position(ms, m), Weeks(env, group), ms', Position(ms', m), t, end);
    }
  }

  lemma SharedSame(env: Env, filter: string, ms: seq<string>, k: nat, weeks: int, ms': seq<string>, k': nat,
                   t: Trigger, end: int)
    requires SaneApi(env) && 1 <= RuleWeeks(t) <= weeks && env.spacing(weeks) == env.spacing(RuleWeeks(t))
    requires k < |ms| && k' < |ms'| && ms[k] == ms'[k'] && (Reaches(env, t, end) || weeks == RuleWeeks(t))
    ensures env.spacing(weeks) > 0 && env.spacing(RuleWeeks(t)) > 0
    ensures OutcomeAt(env, Answer(env, filter, ms, weeks, end), k, t, end)
         == OutcomeAt(env, Answer(env, filter, ms', RuleWeeks(t), end), k', t, end)
  {
    SpacingOf(env, weeks);
    LongerAnswerSame(env, filter, ms, k, weeks, ms', k', RuleWeeks(t), end);
    RangeCovers(env, end, RuleWeeks(t), Oldest(t));
    hide Answer, OutcomeAt, SaneApi, SameFrom, From, RuleWeeks, Oldest;
    var start := if weeks == RuleWeeks(t) then end - WEEK * Oldest(t) - env.cfg.Window() else From(end, RuleWeeks(t));
    OutcomeSame(env, Answer(env, filter, ms, weeks, end), k, Answer(env, filter, ms', RuleWeeks(t), end), k', t, end,
      start);
  }

  /** The first week whose window the request for the rule alone does not reach. */
  lemma FirstMissed(env: Env, weeks: nat, end: int, week: nat) returns (w: nat)
    requires week < weeks && ReachesBack(env, end, weeks, week) && !ReachesBack(env, end, weeks, weeks)
    ensures week < w <= weeks && !ReachesBack(env, end, weeks, w)
    ensures forall more :: more > weeks ==> ReachesBack(env, end, more, w)
    decreases weeks - week
  {
    if !ReachesBack(env, end, weeks, week + 1) {
      w := week + 1;
    } else {
      w := FirstMissed(env, weeks, end, week + 1);
    }
  }

  /** One series has every sample the other has, and one more. */
  lemma {:induction false} MoreSamples(g: Grid, k: nat, g': Grid, k': nat, end: int, window: int, week: int, weeks: int,
                                       w: int)
    requires forall v :: week <= v <= weeks && WindowTotal(g', k', end - WEEK * v, window).Some? ==>
               WindowTotal(g, k, end - WEEK * v, window).Some?
    requires w <= weeks && WindowTotal(g, k, end - WEEK * w, window).Some?
    requires WindowTotal(g', k', end - WEEK * w, window) == None
    ensures |Samples(g', k', end, window, week, weeks)| + (if week <= w then 1 else 0)
            <= |Samples(g, k, end, window, week, weeks)|
    decreases weeks - week
  {
    hide WindowTotal, SlotOf;
    if week <= weeks {
      SameSlot(end, week);
      MoreSamples(g, k, g', k', end, window, week + 1, weeks, w);
    }
  }

  lemma TellsSamples(env: Env, g: Grid, k: nat, g': Grid, k': nat, t: Trigger, end: int)
    requires |Samples(g', k', end, env.cfg.Window(), 1, t.weeks)| < |Samples(g, k, end, env.cfg.Window(), 1, t.weeks)|
    requires WindowTotal(g, k, end, env.cfg.Window()).Some?
    ensures OutcomeAt(env, g, k, t, end) != OutcomeAt(env, g', k', t, end)
  {
    hide Samples, WindowTotal, Median;
  }

  lemma SharedDiffers(env: Env, filter: string, ms: seq<string>, k: nat, weeks: int, ms': seq<string>, k': nat,
                      t: Trigger, end: int)
    requires SaneApi(env) && 1 <= RuleWeeks(t) < weeks
             && env.spacing(weeks) == env.spacing(RuleWeeks(t)) == env.cfg.Step()
    requires k < |ms| && k' < |ms'| && !Reaches(env, t, end) && Covers(env, RuleWeeks(t), end)
    ensures env.spacing(weeks) > 0 && env.spacing(RuleWeeks(t)) > 0
    ensures OutcomeAt(env, Answer(env, filter, ms, weeks, end), k, t, end)
         != OutcomeAt(env, Answer(env, filter, ms', RuleWeeks(t), end), k', t, end)
  {
    SpacingOf(env, weeks);
    SpacingOf(env, RuleWeeks(t));
    assert t.weeks == RuleWeeks(t) == Oldest(t);
    hide Answer, SaneApi, WindowTotal, OutcomeAt, Samples, ReachesBack, OnInterval;
    var window, g, g' := env.cfg.Window(), Answer(env, filter, ms, weeks, end), Answer(env, filter, ms', t.weeks, end);
    var w := FirstMissed(env, t.weeks, end, 0);
    WindowHeld(env, filter, ms, k, weeks, end, 0);
    WindowHeld(env, filter, ms, k, weeks, end, w);
    WindowHeld(env, filter, ms', k', t.weeks, end, w);
    forall v | 1 <= v <= t.weeks && WindowTotal(g', k', end - WEEK * v, window).Some?
      ensures WindowTotal(g, k, end - WEEK * v, window).Some?
    {
      WindowHeld(env, filter, ms', k', t.weeks, end, v);
      WindowHeld(env, filter, ms, k, weeks, end, v);
      LongerReaches(env, end, t.weeks, weeks, v);
    }
    LongerReaches(env, end, t.weeks, weeks, 0);
    MoreSamples(g, k, g', k', end, window, 1, t.weeks, w);
    assert end - WEEK * 0 == end;
    TellsSamples(env, g, k, g', k', t, end);
  }

  lemma LongerReaches(env: Env, end: int, weeks: int, more: int, week: int)
    requires ReachesBack(env, end, weeks, week) && weeks <= more
    ensures ReachesBack(env, end, more, week)
  {
  }
}
