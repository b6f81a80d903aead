/** Which rules a window was judged for when its evaluation counts as passed
    (internal/engine/evaluator.go, internal/engine/poller.go). */
module Judging {
  import opened Text
  import opened Scopes
  import opened Batching
  import opened Evaluator

  /** A refused scope leaves the window unjudged, and its rules without a verdict. */
  lemma RefusedUnjudged(env: Env, enabled: seq<Trigger>, t: Trigger, end: int)
    requires SaneApi(env) && t in enabled && FilterOf(env, t).Ok?
    requires Refused(env, GroupOf(env, enabled, FilterOf(env, t).value), FilterOf(env, t).value)
    ensures Answers(env) && Unjudged(env, enabled, end) && OutcomeIn(env, enabled, t, end) == NoVerdict
  {
    hide Request, Refused, FilterOf, GroupOf, Metrics, Filters, SaneApi;
    Spacings(env);
    var filter := FilterOf(env, t).value;
    var group := GroupOf(env, enabled, filter);
    RequestIs(env, group, end, filter);
    NoMetrics(env, group, end, filter);
    FiltersAscend(env, enabled);
    assert filter in Filters(env, enabled);
    var k :| 0 <= k < |Filters(env, enabled)| && Filters(env, enabled)[k] == filter;
    assert RefusedGroup(env, enabled, Filters(env, enabled)[k], end);
  }

  lemma NoMetrics(env: Env, group: seq<Trigger>, end: int, filter: string)
    requires Answers(env)
    ensures Metrics(env, group) == [] ==> Request(env, group, end, filter).Err?
  {
    hide Answer;
  }

  /** So a window one of whose scopes is refused passes exactly when some rule fires out of its cooldown:
      then the cursor moves on, and the refused scope's rules are never judged for it. */
  lemma LostIff(v: View, t: Trigger, end: int)
    requires SaneApi(v.env) && t in Enabled(v.triggers) && FilterOf(v.env, t).Ok?
    requires Refused(v.env, GroupOf(v.env, Enabled(v.triggers), FilterOf(v.env, t).value), FilterOf(v.env, t).value)
    ensures Answers(v.env) && OutcomeIn(v.env, Enabled(v.triggers), t, end) == NoVerdict
    ensures Passes(v, end) <==> FiresOut(v.env, Enabled(v.triggers), end, v.firedAt, v.clock)
  {
    hide Refused, FilterOf, GroupOf, FiresOut, Unjudged, OutcomeIn, Enabled, SaneApi;
    RefusedUnjudged(v.env, Enabled(v.triggers), t, end);
  }

  /** In a window that has nothing unjudged each rule with a usable filter is judged exactly when its metric
      is known and its scope's answer holds the window, and comes to what it would come to alone exactly
      when the rest of the scope makes no difference to it. */
  lemma WholeJudged(env: Env, enabled: seq<Trigger>, t: Trigger, end: int)
    requires SaneApi(env) && Answers(env) && t in enabled && FilterOf(env, t).Ok? && !Unjudged(env, enabled, end)
    ensures WholeFor(env, enabled, t, end)
  {
    hide Refused, FilterOf, GroupOf, Unjudged, OutcomeIn, SaneApi, Covers, Undisturbed, Weeks;
    JudgedIff(env, enabled, t, end);
    BatchingPreservesIff(env, enabled, t, end);
    if Refused(env, GroupOf(env, enabled, FilterOf(env, t).value), FilterOf(env, t).value) {
      RefusedUnjudged(env, enabled, t, end);
    }
  }

  ghost predicate WholeFor(env: Env, enabled: seq<Trigger>, t: Trigger, end: int)
    requires Answers(env) && FilterOf(env, t).Ok?
  {
    var filter := FilterOf(env, t).value;
    var group := GroupOf(env, enabled, filter);
    && (OutcomeIn(env, enabled, t, end).Judged? <==> env.resolve(t.metric).Some? && Covers(env, Weeks(env, group), end))
    && (OutcomeIn(env, enabled, t, end) == OutcomeIn(env, [t], t, end) <==> Undisturbed(env, group, filter, t, end))
  }

  /** When the API never spaces its intervals by the configured step, nothing of a counter with rules is
      ever judged: every scope is refused, no rule has a verdict, and no window passes. */
  lemma StepMismatch(v: View, end: int)
    requires SaneApi(v.env) && Enabled(v.triggers) != []
    requires forall w :: w >= 1 ==> v.env.spacing(w) != v.env.cfg.Step()
    ensures Answers(v.env) && !Passes(v, end)
    ensures forall t :: t in Enabled(v.triggers) ==> OutcomeIn(v.env, Enabled(v.triggers), t, end) == NoVerdict
  {
    hide FilterOf, GroupOf, Filters, Metrics, Request, Enabled, SaneApi, CoolingDown;
    var env, enabled := v.env, Enabled(v.triggers);
    Spacings(env);
    forall group: seq<Trigger>, filter
      ensures Request(env, group, end, filter).Err?
    {
      RequestIs(env, group, end, filter);
      NoMetrics(env, group, end, filter);
      assert Refused(env, group, filter);
    }
    FiltersAscend(env, enabled);
    if Filters(env, enabled) != [] {
      assert RefusedGroup(env, enabled, Filters(env, enabled)[0], end);
    }
  }

  /** Intervals tile the day, so a step that does not divide the day is never their spacing. */
  lemma NoDivisor(env: Env)
    requires SaneApi(env) && 1440 % env.cfg.Step() != 0
    ensures forall w :: w >= 1 ==> env.spacing(w) != env.cfg.Step()
  {
    forall w | w >= 1
      ensures env.spacing(w) != env.cfg.Step()
    {
      assert 1440 % env.spacing(w) == 0;
    }
  }
}
