/** When a rule fires, told by the figures of the API alone (internal/engine/evaluator.go,
    internal/engine/baseline.go). */
module Firing {
  import opened Text
  import opened Series
  import opened Baseline
  import opened Scopes
  import opened Batching
  import opened Evaluator
  import Poller

  /** The sum of a metric's figures from one moment up to another, one for each interval of the step. */
  function FigureSum(env: Env, filter: string, metric: string, at: int, stop: int): real
    decreases stop - at
  {
    if at >= stop then 0.0
    else env.figure(filter, metric, at) + FigureSum(env, filter, metric, at + env.cfg.Step(), stop)
  }

  /** The figures of the window that ended so many weeks before `end`, summed. */
  function WeekTotal(env: Env, filter: string, metric: string, end: int, week: int): real {
    FigureSum(env, filter, metric, end - 7 * 1440 * week - env.cfg.Window(), end - 7 * 1440 * week)
  }

  /** The past weeks the rule looks at that the request, made for `asked` weeks, reaches back over. */
  function PastWeeks(env: Env, t: Trigger, end: int, asked: int): set<int> {
    set w | 1 <= w <= t.weeks && ReachesBack(env, end, asked, w)
  }

  /** Those of them whose total is of a kind. */
  ghost function Such(env: Env, filter: string, metric: string, end: int, weeks: set<int>,
                      kind: real -> bool): set<int> {
    set w | w in weeks && kind(WeekTotal(env, filter, metric, end, w))
  }

  /** In ascending order of the totals, the one with index k is v. */
  ghost predicate RankedTotal(env: Env, filter: string, metric: string, end: int, weeks: set<int>, v: real, k: int) {
    && |Such(env, filter, metric, end, weeks, x => x < v)| <= k
    && k < |Such(env, filter, metric, end, weeks, x => x <= v)|
  }

  /** The total in the middle; with an even number of them, the lower or the upper one of the two. */
  ghost predicate LowerTotal(env: Env, filter: string, metric: string, end: int, weeks: set<int>, v: real) {
    RankedTotal(env, filter, metric, end, weeks, v, (|weeks| - 1) / 2)
  }

  ghost predicate UpperTotal(env: Env, filter: string, metric: string, end: int, weeks: set<int>, v: real) {
    RankedTotal(env, filter, metric, end, weeks, v, |weeks| / 2)
  }

  /** The usual value: the total in the middle, or halfway between the two in the middle. */
  ghost predicate Usual(env: Env, filter: string, metric: string, end: int, weeks: set<int>, value: real) {
    exists lo, hi ::
      && LowerTotal(env, filter, metric, end, weeks, lo) && UpperTotal(env, filter, metric, end, weeks, hi)
      && value == (lo + hi) / 2.0
  }

  /** The figure has moved from the usual value in the rule's direction by its threshold, in percent of that
      value. From zero any move counts. */
  predicate Moved(t: Trigger, current: real, value: real) {
    || (t.direction in ["drop", "both"] && Fell(t.deviationPct, current, value))
    || (t.direction in ["rise", "both"] && Rose(t.deviationPct, current, value))
  }

  predicate Fell(p: int, current: real, value: real) {
    if value > 0.0 then 100.0 * current <= value * (100 - p) as real
    else if value < 0.0 then 100.0 * current >= value * (100 - p) as real
    else current < 0.0
  }

  predicate Rose(p: int, current: real, value: real) {
    if value > 0.0 then 100.0 * current >= value * (100 + p) as real
    else if value < 0.0 then 100.0 * current <= value * (100 + p) as real
    else current > 0.0
  }

  lemma JudgedMoved(t: Trigger, current: real, b: Baseline)
    ensures Judge(current, b, t.direction, t.deviationPct, t.minBaseline, 2).fired
            <==> b.samples >= 2 && b.value >= t.minBaseline as real && Moved(t, current, b.value)
  {
    hide Judge;
    if b.value > 0.0 {
      FiresIff(current, b, t.direction, t.deviationPct, t.minBaseline, 2);
    } else if b.value < 0.0 {
      FiresBelowZero(current, b, t.direction, t.deviationPct, t.minBaseline, 2);
    } else {
      FiresOverZero(current, b, t.direction, t.deviationPct, t.minBaseline, 2);
    }
  }

  // ---- Sums ----

  /** A sum over the answer is the sum of the figures. */
  lemma {:induction false} SumIs(env: Env, filter: string, metrics: seq<string>, k: nat, weeks: int, end: int,
                                 at: int, stop: int)
    requires SaneApi(env) && weeks >= 1 && k < |metrics| && stop <= DayStart(end) + 1440
    requires env.spacing(weeks) == env.cfg.Step()
    requires From(end, weeks) <= at && at % env.cfg.Step() == 0
    ensures var g := Answer(env, filter, metrics, weeks, end);
            g.Step() == env.cfg.Step() && SumFrom(g, k, at, stop) == Some(FigureSum(env, filter, metrics[k], at, stop))
    decreases stop - at
  {
    SpacingOf(env, weeks);
    EvenlySpaced(env, filter, metrics, weeks, end);
    AnswerReads(env, filter, metrics, weeks, end, k, at);
    var step := env.cfg.Step();
    Poller.ModAddStep(at, step);
    hide Answer, Search, SaneApi, From, DayStart;
    if at < stop {
      SumIs(env, filter, metrics, k, weeks, end, at + step, stop);
    }
  }

  /** The window of some weeks ago sums to its figures, where the answer holds it. */
  lemma TotalIs(env: Env, filter: string, metrics: seq<string>, k: nat, weeks: int, end: int, week: nat)
    requires SaneApi(env) && weeks >= 1 && k < |metrics| && env.spacing(weeks) == env.cfg.Step()
    requires OnInterval(env, end)
    ensures WindowTotal(Answer(env, filter, metrics, weeks, end), k, end - WEEK * week, env.cfg.Window())
         == if ReachesBack(env, end, weeks, week) then Some(WeekTotal(env, filter, metrics[k], end, week)) else None
  {
    hide Answer, SumFrom, SaneApi, FigureSum;
    SpacingOf(env, weeks);
    WindowHeld(env, filter, metrics, k, weeks, end, week);
    if ReachesBack(env, end, weeks, week) {
      var past, window := end - WEEK * week, env.cfg.Window();
      RangeCovers(env, end, weeks, week);
      WeeksOnGrid(end - window, env.cfg.Step(), week);
      assert past <= end < DayStart(end) + 1440;
      hide ReachesBack, OnInterval, From, DayStart;
      SumIs(env, filter, metrics, k, weeks, end, past - window, past);
    }
  }

  // ---- The baseline ----

  /** The weeks counted in the answer are the past weeks it reaches, told by their figures. */
  lemma SuchWeeks(env: Env, filter: string, metrics: seq<string>, k: nat, asked: int, t: Trigger, end: int,
                  kind: real -> bool, same: real -> bool)
    requires SaneApi(env) && asked >= 1 && k < |metrics| && env.spacing(asked) == env.cfg.Step()
    requires OnInterval(env, end) && forall x :: kind(x) == same(x)
    ensures WeeksWith(Answer(env, filter, metrics, asked, end), k, end, env.cfg.Window(), t.weeks, kind)
         == Such(env, filter, metrics[k], end, PastWeeks(env, t, end, asked), same)
  {
    var g := Answer(env, filter, metrics, asked, end);
    hide Answer, WindowTotal, ReachesBack, OnInterval, WeekTotal, SaneApi;
    forall w | 1 <= w <= t.weeks
      ensures IsKind(g, k, end, env.cfg.Window(), w, kind)
              <==> ReachesBack(env, end, asked, w) && same(WeekTotal(env, filter, metrics[k], end, w))
    {
      TotalIs(env, filter, metrics, k, asked, end, w);
    }
    hide IsKind;
  }

  lemma SuchAll(env: Env, filter: string, metric: string, end: int, weeks: set<int>)
    ensures Such(env, filter, metric, end, weeks, x => true) == weeks
  {
  }

  lemma RankIs(env: Env, filter: string, metrics: seq<string>, k: nat, asked: int, t: Trigger, end: int, v: real,
               r: int)
    requires SaneApi(env) && asked >= 1 && k < |metrics| && env.spacing(asked) == env.cfg.Step() && OnInterval(env, end)
    ensures Ranks(Answer(env, filter, metrics, asked, end), k, end, env.cfg.Window(), t.weeks, v, r)
            <==> RankedTotal(env, filter, metrics[k], end, PastWeeks(env, t, end, asked), v, r)
  {
    hide Answer, SaneApi, OnInterval, PastWeeks, WeeksWith, Such;
    SuchWeeks(env, filter, metrics, k, asked, t, end, LessThan(v), x => x < v);
    SuchWeeks(env, filter, metrics, k, asked, t, end, AtMostOf(v), x => x <= v);
  }

  /** The baseline counts the past weeks; and with any, it is their usual value and nothing else is. */
  lemma BaselineUsual(env: Env, filter: string, metrics: seq<string>, k: nat, asked: int, t: Trigger, end: int)
    requires SaneApi(env) && asked >= 1 && k < |metrics| && env.spacing(asked) == env.cfg.Step() && OnInterval(env, end)
    ensures var b := BaselineOf(Answer(env, filter, metrics, asked, end), k, end, env.cfg.Window(), t.weeks);
            var weeks := PastWeeks(env, t, end, asked);
            && b.samples == |weeks|
            && (weeks != {} ==> forall v :: Usual(env, filter, metrics[k], end, weeks, v) <==> v == b.value)
  {
    hide Answer, SaneApi, OnInterval, PastWeeks, WeeksWith, Such, BaselineOf, Ranks, RankedTotal, Any;
    var g, window, weeks := Answer(env, filter, metrics, asked, end), env.cfg.Window(), PastWeeks(env, t, end, asked);
    var b := BaselineOf(g, k, end, window, t.weeks);
    BaselineMiddle(g, k, end, window, t.weeks);
    AllWeeks(env, filter, metrics, k, asked, t, end);
    assert b.samples == |weeks|;
    if weeks != {} {
      MiddleIs(env, filter, metrics, k, asked, t, end);
      var lo := RankExists(g, k, end, window, t.weeks, (|weeks| - 1) / 2);
      var hi := RankExists(g, k, end, window, t.weeks, |weeks| / 2);
      assert LowerMiddle(g, k, end, window, t.weeks, lo) && UpperMiddle(g, k, end, window, t.weeks, hi);
    }
  }

  lemma AllWeeks(env: Env, filter: string, metrics: seq<string>, k: nat, asked: int, t: Trigger, end: int)
    requires SaneApi(env) && asked >= 1 && k < |metrics| && env.spacing(asked) == env.cfg.Step() && OnInterval(env, end)
    ensures WeeksWith(Answer(env, filter, metrics, asked, end), k, end, env.cfg.Window(), t.weeks, Any())
         == PastWeeks(env, t, end, asked)
  {
    hide Answer, SaneApi, OnInterval, PastWeeks, WeeksWith, Such;
    SuchWeeks(env, filter, metrics, k, asked, t, end, Any(), x => true);
    SuchAll(env, filter, metrics[k], end, PastWeeks(env, t, end, asked));
  }

  lemma MiddleIs(env: Env, filter: string, metrics: seq<string>, k: nat, asked: int, t: Trigger, end: int)
    requires SaneApi(env) && asked >= 1 && k < |metrics| && env.spacing(asked) == env.cfg.Step() && OnInterval(env, end)
    ensures var g, weeks := Answer(env, filter, metrics, asked, end), PastWeeks(env, t, end, asked);
            && (forall v :: LowerMiddle(g, k, end, env.cfg.Window(), t.weeks, v)
                            <==> LowerTotal(env, filter, metrics[k], end, weeks, v))
            && (forall v :: UpperMiddle(g, k, end, env.cfg.Window(), t.weeks, v)
                            <==> UpperTotal(env, filter, metrics[k], end, weeks, v))
  {
    hide Answer, SaneApi, OnInterval, PastWeeks, WeeksWith, Ranks, RankedTotal, Any;
    var n := |PastWeeks(env, t, end, asked)|;
    AllWeeks(env, filter, metrics, k, asked, t, end);
    forall v: real
      ensures LowerMiddle(Answer(env, filter, metrics, asked, end), k, end, env.cfg.Window(), t.weeks, v)
              <==> LowerTotal(env, filter, metrics[k], end, PastWeeks(env, t, end, asked), v)
      ensures UpperMiddle(Answer(env, filter, metrics, asked, end), k, end, env.cfg.Window(), t.weeks, v)
              <==> UpperTotal(env, filter, metrics[k], end, PastWeeks(env, t, end, asked), v)
    {
      RankIs(env, filter, metrics, k, asked, t, end, v, (n - 1) / 2);
      RankIs(env, filter, metrics, k, asked, t, end, v, n / 2);
    }
  }

  // ---- The verdict ----

  /** A rule among the enabled ones fires exactly when the request for its pages offers it a verdict, that
      request reaches back over at least two of the weeks the rule looks at, the usual value of their totals
      is not below its floor, and the window's own total has moved from it by the threshold in its
      direction. All of it is told by the figures; `asked` is the depth of the shared request. */
  lemma FiresExactly(env: Env, enabled: seq<Trigger>, t: Trigger, end: int)
    requires SaneApi(env) && t in enabled && FilterOf(env, t).Ok? && env.resolve(t.metric).Some?
    ensures var filter, metric := FilterOf(env, t).value, env.resolve(t.metric).value;
            var group := GroupOf(env, enabled, filter);
            var weeks := PastWeeks(env, t, end, Weeks(env, group));
            && Answers(env)
            && (Fires(env, enabled, t, end) <==>
                  && Offers(env, group, filter, t, end) && |weeks| >= 2
                  && exists usual :: Usual(env, filter, metric, end, weeks, usual)
                       && usual >= t.minBaseline as real && Moved(t, WeekTotal(env, filter, metric, end, 0), usual))
  {
    hide Answer, SaneApi, WeeksWith, OnInterval, ReachesBack, PastWeeks, BaselineOf, Judge, Moved, Usual, WeekTotal,
      FilterOf;
    hide GroupOf, Metrics, Weeks, WindowTotal, Refused, OutcomeIn;
    JudgedIff(env, enabled, t, end);
    OutcomeIs(env, enabled, t, end);
    var filter, metric := FilterOf(env, t).value, env.resolve(t.metric).value;
    var group := GroupOf(env, enabled, filter);
    if Offers(env, group, filter, t, end) {
      var ms, asked := Metrics(env, group), Weeks(env, group);
      var k := Position(ms, metric);
      hide Position;
      TotalIs(env, filter, ms, k, asked, end, 0);
      assert end - WEEK * 0 == end;
      BaselineUsual(env, filter, ms, k, asked, t, end);
      var b := BaselineOf(Answer(env, filter, ms, asked, end), k, end, env.cfg.Window(), t.weeks);
      JudgedMoved(t, WeekTotal(env, filter, metric, end, 0), b);
    }
  }
}
