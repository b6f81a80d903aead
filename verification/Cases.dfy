/** Concrete situations in which a shared or refused request costs a rule its verdict. */
module Cases {
  import opened Text
  import opened Series
  import opened Baseline
  import opened Scopes
  import opened Batching
  import opened Evaluator
  import opened Judging
  import Poller
  import UrlFilter

  /** Windows of one ten-minute interval. */
  const SETTINGS := Poller.Config(20, 10, 10, 6)

  /** An API on which every figure was 1 until the moment 0 and is 0 since; it answers requests for the
      whole counter, and, if `pages`, those for some pages too. */
  function Outage(pages: bool): Env {
    Env(SETTINGS, m => Some(m), _ => true, filter => pages || filter == "", _ => 10,
        (_, _, at) => if at >= 0 then 0.0 else 1.0)
  }

  /** The rule that watches a metric for a drop by half against two weeks. */
  function Watch(id: int, metric: string, pages: string): Trigger {
    Trigger(id, metric, "drop", 50, 1, 2, pages, "", 180, true)
  }

  /** The window in which the outage shows. */
  const END := 10

  lemma OutageSane(pages: bool)
    ensures SaneApi(Outage(pages)) && Answers(Outage(pages))
            && Outage(pages).cfg.Window() == Outage(pages).cfg.Step() == 10
    ensures forall w :: Outage(pages).spacing(w) == 10
  {
  }

  lemma OutageReads(pages: bool, filter: string, metric: string, at: int)
    requires From(END, 2) <= at <= 0 && at % 10 == 0
    ensures var g := Answer(Outage(pages), filter, [metric], 2, END);
            g.Step() == 10 && SumFrom(g, 0, at, at + 10) == Some(if at >= 0 then 0.0 else 1.0)
  {
    var env := Outage(pages);
    OutageSane(pages);
    var g := Answer(env, filter, [metric], 2, END);
    EvenlySpaced(env, filter, [metric], 2, END);
    AnswerReads(env, filter, [metric], 2, END, 0, at);
    assert env.figure(filter, metric, at) == if at >= 0 then 0.0 else 1.0;
    hide Answer, Outage;
    assert SumFrom(g, 0, at + 10, at + 10) == Some(0.0);
  }

  lemma OutageSamples(pages: bool, filter: string, metric: string)
    ensures var g := Answer(Outage(pages), filter, [metric], 2, END);
            WindowTotal(g, 0, END, 10) == Some(0.0) && Samples(g, 0, END, 10, 1, 2) == [1.0, 1.0]
  {
    OutageReads(pages, filter, metric, 0);
    OutageReads(pages, filter, metric, -10080);
    OutageReads(pages, filter, metric, -20160);
    var g := Answer(Outage(pages), filter, [metric], 2, END);
    hide Answer, Outage, SumFrom;
    SameSlot(END, 1);
    SameSlot(END, 2);
    assert WindowTotal(g, 0, END - WEEK * 1, 10) == Some(1.0);
    assert WindowTotal(g, 0, END - WEEK * 2, 10) == Some(1.0);
    hide SlotOf, WindowTotal;
    assert Samples(g, 0, END, 10, 3, 2) == [];
    assert Samples(g, 0, END, 10, 2, 2) == [1.0];
  }

  lemma MedianOfOnes()
    ensures Median([1.0, 1.0]) == 1.0
  {
    MedianRobust([1.0, 1.0], 1.0, 1.0);
  }

  /** A rule whose pages the API answers for is judged on its own series. */
  lemma AloneOutcome(pages: bool, t: Trigger, filter: string)
    requires t == Watch(t.id, t.metric, t.urlFilter)
    requires FilterOf(Outage(pages), t) == Ok(filter) && (pages || filter == "")
    ensures Answers(Outage(pages)) && !Refused(Outage(pages), [t], filter)
    ensures OutcomeIn(Outage(pages), [t], t, END)
            == OutcomeAt(Outage(pages), Answer(Outage(pages), filter, [t.metric], 2, END), 0, t, END)
  {
    var env := Outage(pages);
    OutageSane(pages);
    assert env.answers(filter) && env.resolve(t.metric) == Some(t.metric);
    hide Answer, OutcomeAt, Request, GroupOf, FilterOf, Outage, Metrics, Weeks;
    AloneRequest(env, t);
    RequestIs(env, [t], END, filter);
    GroupAlone(env, t, filter);
  }

  lemma AloneFires(pages: bool, t: Trigger, filter: string)
    requires t == Watch(t.id, t.metric, t.urlFilter)
    requires FilterOf(Outage(pages), t) == Ok(filter) && (pages || filter == "")
    ensures Answers(Outage(pages)) && Fires(Outage(pages), [t], t, END) && !Refused(Outage(pages), [t], filter)
  {
    OutageSane(pages);
    hide Answer, OutcomeAt, Outage, OutcomeIn, Samples, WindowTotal, Median, FilterOf, SaneApi;
    AloneOutcome(pages, t, filter);
    OutageSamples(pages, filter, t.metric);
    MedianOfOnes();
    FiresAt(Outage(pages), Answer(Outage(pages), filter, [t.metric], 2, END), t);
  }

  lemma FiresAt(env: Env, g: Grid, t: Trigger)
    requires env.cfg.Window() == 10 && t.weeks == 2 && t.direction == "drop" && t.deviationPct == 50
             && t.minBaseline == 1
    requires WindowTotal(g, 0, END, 10) == Some(0.0) && Samples(g, 0, END, 10, 1, 2) == [1.0, 1.0]
             && Median([1.0, 1.0]) == 1.0
    ensures OutcomeAt(env, g, 0, t, END).Judged? && OutcomeAt(env, g, 0, t, END).verdict.fired
  {
    hide WindowTotal, Samples, Median;
    FiresIff(0.0, Baseline(1.0, 2), "drop", 50, 1, MIN_SAMPLES);
  }

  // ---- A refused scope beside a rule that fires ----

  const WHOLE_COUNTER := Watch(1, "ym:s:visits", "")
  const ONE_PAGE := Watch(2, "ym:s:visits", PAGE)

  /** The API answers for the whole counter and not for the page. The rule on the whole counter fires, so
      the window passes; the rule on the page has no verdict and the window is not tried again. */
  lemma RefusedScopePasses()
    ensures var v := View(Outage(false), [WHOLE_COUNTER, ONE_PAGE], map[], 0);
            && SaneApi(v.env) && Answers(v.env)
            && Unjudged(v.env, Enabled(v.triggers), END) && Passes(v, END)
            && OutcomeIn(v.env, Enabled(v.triggers), ONE_PAGE, END) == NoVerdict
            && OutcomeIn(Outage(true), [ONE_PAGE], ONE_PAGE, END).Judged?
  {
    var env := Outage(false);
    var v := View(env, [WHOLE_COUNTER, ONE_PAGE], map[], 0);
    OutageSane(false);
    BothEnabled();
    PageFilter(false);
    var f := FilterOf(env, ONE_PAGE).value;
    assert !env.answers(f);
    WholeStillFires();
    PageAnswered();
    hide Outage, FilterOf, GroupOf, Metrics, OutcomeIn, Unjudged, SaneApi, Enabled, Request;
    LostIff(v, ONE_PAGE, END);
    RefusedUnjudged(env, Enabled(v.triggers), ONE_PAGE, END);
    assert WHOLE_COUNTER in Enabled(v.triggers) && !CoolingDown(v.firedAt, WHOLE_COUNTER, v.clock);
  }

  lemma WholeStillFires()
    ensures Answers(Outage(false)) && Fires(Outage(false), [WHOLE_COUNTER, ONE_PAGE], WHOLE_COUNTER, END)
  {
    var env, both := Outage(false), [WHOLE_COUNTER, ONE_PAGE];
    OutageSane(false);
    PageFilter(false);
    AloneFires(false, WHOLE_COUNTER, "");
    assert both[..1] == [WHOLE_COUNTER] && [WHOLE_COUNTER][..0] == [];
    hide Outage, FilterOf, OutcomeIn, SaneApi, Refused;
    assert GroupOf(env, [WHOLE_COUNTER], "") == [WHOLE_COUNTER];
    assert GroupOf(env, both, "") == [WHOLE_COUNTER];
    OutcomeIs(env, both, WHOLE_COUNTER, END);
    OutcomeIs(env, [WHOLE_COUNTER], WHOLE_COUNTER, END);
  }

  lemma PageAnswered()
    ensures Answers(Outage(true)) && OutcomeIn(Outage(true), [ONE_PAGE], ONE_PAGE, END).Judged?
  {
    OutageSane(true);
    PageFilter(true);
    hide Outage, FilterOf, OutcomeIn;
    AloneFires(true, ONE_PAGE, FilterOf(Outage(true), ONE_PAGE).value);
  }

  lemma BothEnabled()
    ensures Enabled([WHOLE_COUNTER, ONE_PAGE]) == [WHOLE_COUNTER, ONE_PAGE]
  {
    var one, both := [WHOLE_COUNTER], [WHOLE_COUNTER, ONE_PAGE];
    assert both[..1] == one && one[..0] == [];
    assert Enabled(one) == [WHOLE_COUNTER];
    assert [WHOLE_COUNTER] + [ONE_PAGE] == both;
  }

  const PAGE := "/pay"

  lemma PageFilter(pages: bool)
    ensures FilterOf(Outage(pages), ONE_PAGE).Ok? && FilterOf(Outage(pages), ONE_PAGE).value != ""
    ensures FilterOf(Outage(pages), WHOLE_COUNTER) == Ok("")
  {
    PageAccepted(Outage(pages).compiles);
    assert FilterOf(Outage(pages), ONE_PAGE) == UrlFilter.Build(PAGE, "", Outage(pages).compiles);
    assert FilterOf(Outage(pages), WHOLE_COUNTER) == UrlFilter.Build("", "", Outage(pages).compiles);
    hide UrlFilter.Build;
    BlankFilter(Outage(pages).compiles);
  }

  lemma BlankFilter(compiles: string -> bool)
    ensures UrlFilter.Build("", "", compiles) == Ok("")
  {
  }

  lemma PageAccepted(compiles: string -> bool)
    ensures UrlFilter.Build(PAGE, "", compiles).Ok? && UrlFilter.Build(PAGE, "", compiles).value != ""
  {
    hide UrlFilter.Build, UrlFilter.Utf8Len, UrlFilter.Reserved, Trim;
    PageCounts();
    UrlFilter.AcceptedIff(PAGE, "", compiles);
    UrlFilter.FilterDecodes(PAGE, "", compiles);
  }

  lemma PageCounts()
    ensures Trim(PAGE) == PAGE != "" && UrlFilter.Utf8Len(PAGE) == 4 && UrlFilter.Reserved(PAGE) == 0
  {
    TrimKeeps(PAGE);
    hide Trim, UrlFilter.Utf8Len, UrlFilter.Reserved;
    UrlFilter.AsciiLength(PAGE);
    NoneReserved(PAGE);
  }

  lemma {:induction false} NoneReserved(v: string)
    requires '\\' !in v && '\'' !in v
    ensures UrlFilter.Reserved(v) == 0
  {
    if v != "" {
      NoneReserved(v[1..]);
    }
  }

  // ---- Twenty-one metrics in one scope ----

  function Goal(n: nat): Trigger {
    Watch(n, "goal:" + FormatNat(n), "")
  }

  function GoalRules(n: nat): seq<Trigger> {
    if n == 0 then [] else GoalRules(n - 1) + [Goal(n)]
  }

  lemma GoalsDiffer(k: nat, n: nat)
    requires k != n
    ensures "goal:" + FormatNat(k) != "goal:" + FormatNat(n)
  {
    ParseFormatNat(k);
    ParseFormatNat(n);
    hide FormatNat;
    assert ("goal:" + FormatNat(k))[5..] == FormatNat(k) && ("goal:" + FormatNat(n))[5..] == FormatNat(n);
  }

  function GoalMetrics(n: nat): (ms: seq<string>)
    ensures |ms| == n
  {
    if n == 0 then [] else GoalMetrics(n - 1) + ["goal:" + FormatNat(n)]
  }

  lemma {:induction false} NotYetAsked(n: nat, j: nat)
    requires j < n
    ensures "goal:" + FormatNat(n) !in GoalMetrics(j)
  {
    if j > 0 {
      hide FormatNat;
      NotYetAsked(n, j - 1);
      GoalsDiffer(j, n);
    }
  }

  /** Each goal is one more metric of the request. */
  lemma {:induction false} GoalsAsked(n: nat)
    ensures Metrics(Outage(true), GoalRules(n)) == GoalMetrics(n)
    ensures Weeks(Outage(true), GoalRules(n)) == if n == 0 then 1 else 2
  {
    if n > 0 {
      hide FormatNat;
      GoalsAsked(n - 1);
      NotYetAsked(n, n - 1);
      var all := GoalRules(n);
      assert all[..|all| - 1] == GoalRules(n - 1) && all[|all| - 1] == Goal(n);
      assert Outage(true).resolve(Goal(n).metric) == Some("goal:" + FormatNat(n));
    }
  }

  lemma GoalFilter(n: nat)
    ensures FilterOf(Outage(true), Goal(n)) == Ok("")
  {
    BlankFilter(Outage(true).compiles);
  }

  lemma GroupMore(env: Env, rules: seq<Trigger>, t: Trigger, filter: string)
    requires FilterOf(env, t) == Ok(filter)
    ensures GroupOf(env, rules + [t], filter) == GroupOf(env, rules, filter) + [t]
  {
    hide FilterOf;
    assert (rules + [t])[..|rules|] == rules;
  }

  /** And all are in one scope. */
  lemma {:induction false} GoalsGrouped(n: nat, k: nat)
    ensures GroupOf(Outage(true), GoalRules(n), "") == GoalRules(n)
    ensures 1 <= k <= n ==> Goal(k) in GoalRules(n)
  {
    hide FilterOf, Goal, Outage;
    if n > 0 {
      hide GroupOf;
      GoalsGrouped(n - 1, k);
      GoalFilter(n);
      GroupMore(Outage(true), GoalRules(n - 1), Goal(n), "");
    }
  }

  lemma GoalsRefusedIff(n: nat)
    ensures Refused(Outage(true), GoalRules(n), "") <==> n > 20
  {
    GoalsAsked(n);
    OutageSane(true);
    assert Outage(true).answers("");
    hide Outage, Metrics, Weeks, GoalRules, GoalMetrics;
  }

  /** Twenty rules on goals of their own share a request and each is judged; with one more rule none is,
      though each of them alone is judged and fires. */
  lemma OneGoalTooMany(k: nat)
    requires 1 <= k <= 20
    ensures Answers(Outage(true)) && Fires(Outage(true), [Goal(k)], Goal(k), END)
    ensures OutcomeIn(Outage(true), GoalRules(20), Goal(k), END).Judged?
    ensures OutcomeIn(Outage(true), GoalRules(21), Goal(k), END) == NoVerdict
  {
    assert Goal(k) == Watch(Goal(k).id, Goal(k).metric, Goal(k).urlFilter);
    hide *;
    GoalFilter(k);
    AloneFires(true, Goal(k), "");
    GoalJudgedIff(20, k);
    GoalJudgedIff(21, k);
  }

  lemma GoalJudgedIff(n: nat, k: nat)
    requires 1 <= k <= n
    ensures Answers(Outage(true))
    ensures OutcomeIn(Outage(true), GoalRules(n), Goal(k), END).Judged? <==> n <= 20
    ensures OutcomeIn(Outage(true), GoalRules(n), Goal(k), END) == NoVerdict <==> n > 20
  {
    hide *;
    OutageSane(true);
    GoalsGrouped(n, k);
    GoalFilter(k);
    GoalOffered(n, k);
    JudgedIff(Outage(true), GoalRules(n), Goal(k), END);
  }

  lemma GoalOffered(n: nat, k: nat)
    ensures Offers(Outage(true), GoalRules(n), "", Goal(k), END) <==> n <= 20
  {
    OutageSane(true);
    GoalsRefusedIff(n);
    assert Outage(true).resolve(Goal(k).metric).Some?;
    hide Outage, Refused, Weeks, Goal, GoalRules, SaneApi, Answers;
  }

  // ---- A window longer than a request reaches back ----

  /** Windows of two days. */
  const LONG := Poller.Config(20, 2880, 10, 6)

  /** Every figure was 1 until the window that ends at END began, and is 0 since. */
  function Slump(): Env {
    Env(LONG, m => Some(m), _ => true, _ => true, _ => 10, (_, _, at) => if at >= END - 2880 then 0.0 else 1.0)
  }

  function Deep(weeks: int): Trigger {
    Trigger(weeks, "ym:s:visits", "drop", 50, 1, weeks, "", "", 180, true)
  }

  lemma SlumpSane()
    ensures SaneApi(Slump()) && Answers(Slump()) && Slump().cfg.Window() == 2880 && Slump().cfg.Step() == 10
    ensures forall w :: Slump().spacing(w) == 10
  {
  }

  ghost predicate Figure(g: Grid, at: int, c: real) {
    g.At(0, Search(g.intervals, at)) == Some(c)
  }

  lemma SumFirst(g: Grid, at: int, end: int, c: real)
    requires g.Step() == 10 && at < end && Figure(g, at, c)
    ensures SumFrom(g, 0, at, end)
         == match SumFrom(g, 0, at + 10, end) case None => None case Some(rest) => Some(c + rest)
  {
    hide Search;
  }

  /** n intervals from a moment on all have this figure. */
  ghost predicate Flat(g: Grid, at: int, n: nat, c: real)
    decreases n
  {
    n == 0 || (Figure(g, at, c) && Flat(g, at + 10, n - 1, c))
  }

  function Times(n: nat, c: real): real {
    if n == 0 then 0.0 else c + Times(n - 1, c)
  }

  lemma {:induction false} TimesOne(n: nat)
    ensures Times(n, 0.0) == 0.0 && Times(n, 1.0) == n as real
  {
    if n > 0 {
      TimesOne(n - 1);
    }
  }

  lemma SumNothing(g: Grid, at: int)
    requires g.Step() > 0
    ensures SumFrom(g, 0, at, at) == Some(0.0)
  {
    hide Search;
  }

  lemma {:induction false} FlatSum(g: Grid, at: int, n: nat, c: real, end: int)
    requires g.Step() == 10 && Flat(g, at, n, c) && end == at + 10 * n
    ensures SumFrom(g, 0, at, end) == Some(Times(n, c))
    decreases n
  {
    hide SumFrom, Figure;
    if n == 0 {
      SumNothing(g, at);
    } else {
      FlatSum(g, at + 10, n - 1, c, end);
      SumFirst(g, at, end, c);
    }
  }

  lemma SlumpReads(weeks: int, at: int)
    requires weeks >= 1 && at % 10 == 0 && at < 1440
    ensures Answers(Slump())
    ensures var g := Answer(Slump(), "", ["ym:s:visits"], weeks, END);
            && g.Step() == 10
            && g.At(0, Search(g.intervals, at))
               == if at < From(END, weeks) then None else Some(if at >= END - 2880 then 0.0 else 1.0)
  {
    SlumpSane();
    EvenlySpaced(Slump(), "", ["ym:s:visits"], weeks, END);
    AnswerReads(Slump(), "", ["ym:s:visits"], weeks, END, 0, at);
    assert Slump().figure("", "ym:s:visits", at) == if at >= END - 2880 then 0.0 else 1.0;
    hide Answer, Slump, Search, SaneApi;
  }

  lemma {:induction false} SlumpFlat(weeks: int, at: int, n: nat, c: real)
    requires weeks >= 1 && at % 10 == 0 && From(END, weeks) <= at && at + 10 * n <= 1440
    requires (c == 0.0 && at >= END - 2880) || (c == 1.0 && at + 10 * n <= END - 2880)
    requires Answers(Slump())
    ensures Flat(Answer(Slump(), "", ["ym:s:visits"], weeks, END), at, n, c)
    decreases n
  {
    hide Answer, Slump, From, Search, Answers;
    if n > 0 {
      SlumpReads(weeks, at);
      SlumpFlat(weeks, at + 10, n - 1, c);
    }
  }

  /** The two days from `start` on: lost when the request does not reach back to it. */
  lemma SlumpTotal(weeks: int, start: int, c: real)
    requires weeks >= 1 && start % 10 == 0 && start + 2880 <= 1440
    requires (c == 0.0 && start >= END - 2880) || (c == 1.0 && start + 2880 <= END - 2880)
    ensures Answers(Slump())
    ensures WindowTotal(Answer(Slump(), "", ["ym:s:visits"], weeks, END), 0, start + 2880, 2880)
         == if start < From(END, weeks) then None else Some(Times(288, c))
  {
    SlumpSane();
    hide *;
    var g := Answer(Slump(), "", ["ym:s:visits"], weeks, END);
    SlumpReads(weeks, start);
    if start < From(END, weeks) {
      FirstMissing(g, start, start + 2880);
    } else {
      SlumpFlat(weeks, start, 288, c);
      FlatSum(g, start, 288, c, start + 2880);
    }
    TotalIsSum(g, start, start + 2880);
  }

  lemma TotalIsSum(g: Grid, start: int, end: int)
    requires g.Step() > 0
    ensures WindowTotal(g, 0, end, end - start) == SumFrom(g, 0, start, end)
  {
    hide SumFrom;
  }

  lemma FirstMissing(g: Grid, at: int, end: int)
    requires g.Step() == 10 && at < end && g.At(0, Search(g.intervals, at)) == None
    ensures SumFrom(g, 0, at, end) == None
  {
    hide Search;
  }

  lemma SlumpOutcome(weeks: int)
    requires 2 <= weeks <= 3
    ensures var o := OutcomeAt(Slump(), Answer(Slump(), "", ["ym:s:visits"], weeks, END), 0, Deep(2), END);
            o.Judged? && o.verdict.fired == (weeks == 3)
  {
    SlumpTotal(weeks, -2870, 0.0);
    SlumpTotal(weeks, -12950, 1.0);
    SlumpTotal(weeks, -23030, 1.0);
    TimesOne(288);
    SlumpSane();
    SameSlot(END, 1);
    SameSlot(END, 2);
    assert From(END, 2) == -21600 && From(END, 3) == -31680;
    hide Answer, WindowTotal, SlotOf, SaneApi, From, Slump, Times;
    var env, g := Slump(), Answer(Slump(), "", ["ym:s:visits"], weeks, END);
    assert Samples(g, 0, END, 2880, 3, 2) == [];
    assert Samples(g, 0, END, 2880, 2, 2) == if weeks == 3 then [288.0] else [];
    assert Samples(g, 0, END, 2880, 1, 2) == if weeks == 3 then [288.0, 288.0] else [288.0];
    hide Samples;
    if weeks == 3 {
      MedianRobust([288.0, 288.0], 288.0, 288.0);
      hide Median;
      FiresIff(0.0, Baseline(288.0, 2), "drop", 50, 1, MIN_SAMPLES);
    }
  }

  /** With two-day windows a rule over two weeks has one sample when it is alone, which is too few, and two
      when a rule over three weeks shares its request: then it fires. */
  lemma NeighbourDecides()
    ensures Answers(Slump()) && !Fires(Slump(), [Deep(2)], Deep(2), END)
            && Fires(Slump(), [Deep(2), Deep(3)], Deep(2), END)
  {
    SlumpSane();
    SlumpMetric();
    DeepRules(Slump());
    hide *;
    SlumpRequests();
    SlumpOutcome(2);
    SlumpOutcome(3);
    SeriesDecides(Slump(), [Deep(2)], Deep(2), Answer(Slump(), "", ["ym:s:visits"], 2, END));
    SeriesDecides(Slump(), [Deep(2), Deep(3)], Deep(2), Answer(Slump(), "", ["ym:s:visits"], 3, END));
  }

  lemma SlumpMetric()
    ensures Slump().resolve(Deep(2).metric) == Slump().resolve("ym:s:visits") == Some("ym:s:visits")
  {
  }

  lemma SeriesDecides(env: Env, rules: seq<Trigger>, t: Trigger, g: Grid)
    requires Answers(env) && FilterOf(env, t) == Ok("") && env.resolve(t.metric) == Some("ym:s:visits")
    requires Request(env, GroupOf(env, rules, ""), END, "") == Ok((g, ["ym:s:visits"]))
    requires OutcomeAt(env, g, 0, t, END).Judged?
    ensures Fires(env, rules, t, END) <==> OutcomeAt(env, g, 0, t, END).verdict.fired
  {
    hide FilterOf, GroupOf, Request, OutcomeAt;
  }

  /** A rule over two weeks, alone and beside one over three. */
  lemma DeepRules(env: Env)
    requires env.resolve("ym:s:visits") == Some("ym:s:visits")
    ensures FilterOf(env, Deep(2)) == Ok("")
    ensures GroupOf(env, [Deep(2)], "") == [Deep(2)] && GroupOf(env, [Deep(2), Deep(3)], "") == [Deep(2), Deep(3)]
    ensures Metrics(env, [Deep(2)]) == Metrics(env, [Deep(2), Deep(3)]) == ["ym:s:visits"]
    ensures Weeks(env, [Deep(2)]) == 2 && Weeks(env, [Deep(2), Deep(3)]) == 3
  {
    var one, two := [Deep(2)], [Deep(2), Deep(3)];
    BlankFilter(env.compiles);
    assert FilterOf(env, Deep(2)) == Ok("") && FilterOf(env, Deep(3)) == Ok("");
    assert forall w :: Deep(w).metric == "ym:s:visits" && Deep(w).weeks == w;
    assert two[..1] == one && one[..0] == [];
    assert one + [Deep(3)] == two;
    hide FilterOf, Deep;
    GroupAlone(env, Deep(2), "");
    GroupMore(env, one, Deep(3), "");
    AloneRequest(env, Deep(2));
    assert Metrics(env, two) == ["ym:s:visits"] && Weeks(env, two) == 3;
  }

  lemma SlumpRequests()
    ensures Answers(Slump())
    ensures var env, one, two := Slump(), [Deep(2)], [Deep(2), Deep(3)];
            && Request(env, GroupOf(env, one, ""), END, "")
               == Ok((Answer(env, "", ["ym:s:visits"], 2, END), ["ym:s:visits"]))
            && Request(env, GroupOf(env, two, ""), END, "")
               == Ok((Answer(env, "", ["ym:s:visits"], 3, END), ["ym:s:visits"]))
  {
    var env := Slump();
    SlumpSane();
    DeepRules(env);
    assert env.answers("");
    hide Answer, Request, SaneApi, Slump, GroupOf, Metrics, Weeks, Deep;
    RequestIs(env, [Deep(2)], END, "");
    RequestIs(env, [Deep(2), Deep(3)], END, "");
  }

  // ---- An API that widens its intervals for longer ranges ----

  /** Windows of one step, against an API that spaces its intervals by ten minutes up to two weeks and by an
      hour beyond. */
  function Widening(step: int): Env {
    Env(Poller.Config(20, step, step, 6), m => Some(m), _ => true, _ => true, w => if w <= 2 then 10 else 60,
        (_, _, _) => 1.0)
  }

  /** A neighbour with a deeper baseline costs a rule its verdict when the API then widens the intervals
      beyond the configured step; and when only the widened ones have that step, the neighbour is what gives
      the rule its verdict. */
  lemma NeighbourWidens(step: int)
    requires step == 10 || step == 60
    ensures SaneApi(Widening(step)) && Answers(Widening(step))
    ensures OutcomeIn(Widening(step), [Deep(2)], Deep(2), step).Judged? <==> step == 10
    ensures OutcomeIn(Widening(step), [Deep(2), Deep(3)], Deep(2), step).Judged? <==> step == 60
  {
    var env, one, two := Widening(step), [Deep(2)], [Deep(2), Deep(3)];
    WideningSane(step);
    hide *;
    DeepRules(env);
    WidenedOffer(step, one, 2);
    WidenedOffer(step, two, 3);
    JudgedIff(env, one, Deep(2), step);
    JudgedIff(env, two, Deep(2), step);
  }

  lemma WideningSane(step: int)
    ensures SaneApi(Widening(step)) && Answers(Widening(step))
    ensures Widening(step).resolve("ym:s:visits") == Some("ym:s:visits")
  {
  }

  lemma WidenedOffer(step: int, group: seq<Trigger>, weeks: int)
    requires (step == 10 || step == 60) && (weeks == 2 || weeks == 3)
    requires |Metrics(Widening(step), group)| == 1 && Weeks(Widening(step), group) == weeks
    ensures Offers(Widening(step), group, "", Deep(2), step) <==> (step == 10 <==> weeks == 2)
  {
    var env := Widening(step);
    assert env.answers("") && env.spacing(2) == 10 && env.spacing(3) == 60
           && env.cfg.Step() == env.cfg.Window() == step;
    assert env.resolve(Deep(2).metric).Some?;
    hide Widening, Metrics, Weeks, Deep;
  }
}
