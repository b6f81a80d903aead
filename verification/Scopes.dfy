/** Rules grouped by the pages they watch, one request per group
    (internal/engine/evaluator.go, groupByScope and fetchSeries). */
module Scopes {
  import opened Text
  import opened Series
  import UrlFilter
  import Poller

  datatype Trigger = Trigger(id: int, metric: string, direction: string, deviationPct: int, minBaseline: int,
                             weeks: int, urlFilter: string, urlMatch: string, cooldown: int, enabled: bool)

  /** What the engine runs against: how metric names resolve, which patterns compile, whether the API
      answers requests with a filter, how far apart the intervals are that it returns for a number
      of weeks, and the figure of each filter, metric and interval start. */
  datatype Env = Env(cfg: Poller.Config, resolve: string -> Option<string>, compiles: string -> bool,
                     answers: string -> bool, spacing: int -> int, figure: (string, string, int) -> real)

  function FilterOf(env: Env, t: Trigger): Result<string, UrlFilter.FilterError> {
    UrlFilter.Build(t.urlFilter, t.urlMatch, env.compiles)
  }

  // ---- Grouping ----

  datatype Scope = Scope(filter: string, triggers: seq<Trigger>)

  /** The triggers that need exactly this filter, in their order. */
  function GroupOf(env: Env, triggers: seq<Trigger>, filter: string): seq<Trigger> {
    if triggers == [] then []
    else
      var init, last := triggers[..|triggers| - 1], triggers[|triggers| - 1];
      GroupOf(env, init, filter) + if FilterOf(env, last) == Ok(filter) then [last] else []
  }

  /** A trigger is in a group exactly when it is among the triggers and needs that filter. */
  lemma {:induction false} GroupMembers(env: Env, triggers: seq<Trigger>, filter: string, t: Trigger)
    ensures t in GroupOf(env, triggers, filter) <==> t in triggers && FilterOf(env, t) == Ok(filter)
  {
    hide FilterOf;
    if triggers != [] {
      GroupMembers(env, triggers[..|triggers| - 1], filter, t);
      assert triggers == triggers[..|triggers| - 1] + [triggers[|triggers| - 1]];
    }
  }

  /** A group has its rules in the order they are given in, as often as they are. */
  lemma {:induction false} GroupInOrder(env: Env, a: seq<Trigger>, b: seq<Trigger>, filter: string)
    ensures GroupOf(env, a + b, filter) == GroupOf(env, a, filter) + GroupOf(env, b, filter)
  {
    hide FilterOf;
    if b == [] {
      assert a + b == a;
    } else {
      var n := |b| - 1;
      GroupInOrder(env, a, b[..n], filter);
      assert (a + b)[..|a + b| - 1] == a + b[..n];
    }
  }

  /** Two usable triggers are in one group exactly when they watch the same pages in the same way: their
      trimmed values agree and, unless those are blank, their operators. */
  lemma SameScopeIff(env: Env, triggers: seq<Trigger>, t: Trigger, u: Trigger)
    requires t in triggers && u in triggers && FilterOf(env, t).Ok? && FilterOf(env, u).Ok?
    ensures (exists filter :: t in GroupOf(env, triggers, filter) && u in GroupOf(env, triggers, filter)) <==>
            && Trim(t.urlFilter) == Trim(u.urlFilter)
            && (Trim(t.urlFilter) == "" || (t.urlMatch == "regexp" <==> u.urlMatch == "regexp"))
  {
    UrlFilter.SameFilterIff(t.urlFilter, t.urlMatch, u.urlFilter, u.urlMatch, env.compiles);
    assert FilterOf(env, t) == UrlFilter.Build(t.urlFilter, t.urlMatch, env.compiles);
    assert FilterOf(env, u) == UrlFilter.Build(u.urlFilter, u.urlMatch, env.compiles);
    hide *;
    forall filter
      ensures t in GroupOf(env, triggers, filter) <==> FilterOf(env, t) == Ok(filter)
      ensures u in GroupOf(env, triggers, filter) <==> FilterOf(env, u) == Ok(filter)
    {
      GroupMembers(env, triggers, filter, t);
      GroupMembers(env, triggers, filter, u);
    }
    var filter := FilterOf(env, t).value;
    assert t in GroupOf(env, triggers, filter);
    assert FilterOf(env, t) == FilterOf(env, u) ==> u in GroupOf(env, triggers, filter);
    assert (exists x :: t in GroupOf(env, triggers, x) && u in GroupOf(env, triggers, x))
           <==> FilterOf(env, t) == FilterOf(env, u);
  }

  /** Order of strings rune by rune; for UTF-8 this is also the order byte by byte. */
  predicate Before(a: string, b: string) {
    b != "" && (a == "" || a[0] < b[0] || (a[0] == b[0] && Before(a[1..], b[1..])))
  }

  lemma {:induction false} BeforeTrichotomy(a: string, b: string)
    ensures a != b ==> Before(a, b) || Before(b, a)
    ensures !(Before(a, b) && Before(b, a)) && !Before(a, a)
  {
    if a != "" && b != "" {
      BeforeTrichotomy(a[1..], b[1..]);
      if a[0] == b[0] {
        assert a == [a[0]] + a[1..] && b == [b[0]] + b[1..];
      }
      BeforeTrichotomy(a[1..], a[1..]);
    } else if a != "" {
      BeforeTrichotomy(a[1..], a[1..]);
    }
  }

  lemma {:induction false} BeforeTransitive(a: string, b: string, c: string)
    requires Before(a, b) && Before(b, c)
    ensures Before(a, c)
  {
    if a != "" && a[0] == b[0] && b[0] == c[0] {
      BeforeTransitive(a[1..], b[1..], c[1..]);
    }
  }

  ghost predicate Ascending(s: seq<string>) {
    forall i, j :: 0 <= i < j < |s| ==> Before(s[i], s[j])
  }

  function InsertString(x: string, s: seq<string>): seq<string> {
    if s == [] || x == s[0] then if s == [] then [x] else s
    else if Before(x, s[0]) then [x] + s
    else [s[0]] + InsertString(x, s[1..])
  }

  /** The distinct strings of a list in order: sort.Strings on the keys of a map. */
  function SortStrings(s: seq<string>): seq<string> {
    if s == [] then [] else InsertString(s[0], SortStrings(s[1..]))
  }

  lemma {:induction false} InsertStringAscends(x: string, s: seq<string>)
    requires Ascending(s)
    ensures Ascending(InsertString(x, s))
    ensures forall y :: y in InsertString(x, s) <==> y == x || y in s
  {
    hide Before;
    if s != [] && x != s[0] {
      var tail := s[1..];
      assert s == [s[0]] + tail;
      BeforeTrichotomy(x, s[0]);
      if Before(x, s[0]) {
        forall j | 0 <= j < |s|
          ensures Before(x, s[j])
        {
          if j > 0 { BeforeTransitive(x, s[0], s[j]); }
        }
      } else {
        InsertStringAscends(x, tail);
        var out := InsertString(x, tail);
        forall j | 0 <= j < |out|
          ensures Before(s[0], out[j])
        {
          assert out[j] in out;
          if out[j] != x {
            var k :| 0 <= k < |tail| && tail[k] == out[j];
            assert s[k + 1] == tail[k];
          }
        }
      }
    }
  }

  lemma {:induction false} SortStringsAscends(s: seq<string>)
    ensures Ascending(SortStrings(s))
    ensures forall y :: y in SortStrings(s) <==> y in s
  {
    if s != [] {
      SortStringsAscends(s[1..]);
      InsertStringAscends(s[0], SortStrings(s[1..]));
    }
  }

  /** Sorting depends only on which strings there are, not on the order a map yields its keys in. */
  lemma {:induction false} AscendingUnique(a: seq<string>, b: seq<string>)
    requires Ascending(a) && Ascending(b)
    requires forall y :: y in a <==> y in b
    ensures a == b
  {
    hide Before;
    assert a != [] ==> a[0] in b;
    assert b != [] ==> b[0] in a;
    if a != [] && b != [] {
      FirstsEqual(a, b);
      var ta, tb := a[1..], b[1..];
      assert a == [a[0]] + ta && b == [b[0]] + tb;
      forall y
        ensures y in ta <==> y in tb
      {
        FirstNotInTail(a, y);
        FirstNotInTail(b, y);
      }
      assert Ascending(ta) && Ascending(tb);
      AscendingUnique(ta, tb);
    }
  }

  lemma FirstsEqual(a: seq<string>, b: seq<string>)
    requires Ascending(a) && Ascending(b) && a != [] && b != [] && a[0] in b && b[0] in a
    ensures a[0] == b[0]
  {
    hide Before;
    var i :| 0 <= i < |b| && b[i] == a[0];
    var j :| 0 <= j < |a| && a[j] == b[0];
    BeforeTrichotomy(a[0], b[0]);
  }

  lemma FirstNotInTail(a: seq<string>, y: string)
    requires Ascending(a) && a != []
    ensures a[0] !in a[1..]
    ensures y in a <==> y == a[0] || y in a[1..]
  {
    hide Before;
    forall k | 0 <= k < |a| - 1
      ensures a[1..][k] != a[0]
    {
      assert Before(a[0], a[k + 1]);
      BeforeTrichotomy(a[0], a[0]);
    }
    assert a == [a[0]] + a[1..];
  }

  /** The filters the triggers need, sorted. */
  function Filters(env: Env, triggers: seq<Trigger>): seq<string> {
    if triggers == [] then []
    else
      var filters := Filters(env, triggers[..|triggers| - 1]);
      match FilterOf(env, triggers[|triggers| - 1])
      case Err(_) => filters
      case Ok(f) => InsertString(f, filters)
  }

  lemma {:induction false} FiltersAscend(env: Env, triggers: seq<Trigger>)
    ensures Ascending(Filters(env, triggers))
    ensures forall f :: f in Filters(env, triggers) <==> exists t :: t in triggers && FilterOf(env, t) == Ok(f)
  {
    hide FilterOf, Before;
    if triggers != [] {
      var init, last := triggers[..|triggers| - 1], triggers[|triggers| - 1];
      assert triggers == init + [last];
      FiltersAscend(env, init);
      if FilterOf(env, last).Ok? {
        InsertStringAscends(FilterOf(env, last).value, Filters(env, init));
      }
      forall f
        ensures f in Filters(env, triggers) <==> exists t :: t in triggers && FilterOf(env, t) == Ok(f)
      {
        if f in Filters(env, triggers) && FilterOf(env, last) != Ok(f) {
          var t :| t in init && FilterOf(env, t) == Ok(f);
          assert t in triggers;
        }
      }
    }
  }

  function ScopesFor(env: Env, triggers: seq<Trigger>, filters: seq<string>): (scopes: seq<Scope>)
    ensures |scopes| == |filters|
    ensures forall i :: 0 <= i < |filters| ==> scopes[i] == Scope(filters[i], GroupOf(env, triggers, filters[i]))
  {
    seq(|filters|, i requires 0 <= i < |filters| => Scope(filters[i], GroupOf(env, triggers, filters[i])))
  }

  /** The map filled so far holds exactly the groups of the triggers read so far. */
  ghost predicate HoldsGroups(env: Env, triggers: seq<Trigger>, byFilter: map<string, seq<Trigger>>) {
    && (forall f :: f in byFilter <==> f in Filters(env, triggers))
    && (forall f :: f in byFilter ==> byFilter[f] == GroupOf(env, triggers, f))
  }

  lemma GroupOfAbsent(env: Env, triggers: seq<Trigger>, f: string)
    requires f !in Filters(env, triggers)
    ensures GroupOf(env, triggers, f) == []
  {
    hide FilterOf, Filters;
    FiltersAscend(env, triggers);
    var g := GroupOf(env, triggers, f);
    if g != [] {
      GroupMembers(env, triggers, f, g[0]);
    }
  }

  lemma OneMoreTrigger(env: Env, triggers: seq<Trigger>, t: Trigger, before: map<string, seq<Trigger>>)
    requires HoldsGroups(env, triggers, before)
    ensures FilterOf(env, t).Err? ==> HoldsGroups(env, triggers + [t], before)
    ensures FilterOf(env, t).Ok? ==>
              var f := FilterOf(env, t).value;
              HoldsGroups(env, triggers + [t], before[f := (if f in before then before[f] else []) + [t]])
  {
    hide FilterOf, Before;
    var more := triggers + [t];
    assert more[..|more| - 1] == triggers && more[|more| - 1] == t;
    FiltersAscend(env, triggers);
    if FilterOf(env, t).Ok? {
      var f := FilterOf(env, t).value;
      InsertStringAscends(f, Filters(env, triggers));
      if f !in before {
        GroupOfAbsent(env, triggers, f);
      }
    }
  }

  lemma NoKeys(s: set<string>)
    requires forall f: string | true :: f !in s
    ensures s == {}
  {
    assert forall f :: f in s ==> f in {};
  }

  lemma HasKey(s: set<string>)
    requires s != {}
    ensures exists f :: f in s
  {
    if !exists f :: f in s {
      NoKeys(s);
    }
  }

  /** Groups the usable triggers by filter, in a stable order. A trigger whose filter cannot be built
      is left out; when none is usable there is an error. */
  method GroupByScope(env: Env, triggers: seq<Trigger>) returns (r: Option<seq<Scope>>)
    ensures r == if Filters(env, triggers) == [] then None
                 else Some(ScopesFor(env, triggers, Filters(env, triggers)))
  {
    hide FilterOf, Filters, GroupOf, Ascending, SortStrings;
    var byFilter: map<string, seq<Trigger>> := map[];
    assert HoldsGroups(env, triggers[..0], byFilter) by { NoGroups(env); assert triggers[..0] == []; }
    for i := 0 to |triggers|
      invariant HoldsGroups(env, triggers[..i], byFilter)
    {
      var t := triggers[i];
      assert triggers[..i + 1] == triggers[..i] + [t];
      OneMoreTrigger(env, triggers[..i], t, byFilter);
      var filter := FilterOf(env, t);
      if filter.Err? {
        continue;
      }
      byFilter := byFilter[filter.value := (if filter.value in byFilter then byFilter[filter.value] else []) + [t]];
    }
    assert triggers[..|triggers|] == triggers;
    var keys := ListKeys(byFilter);
    SortStringsAscends(keys);
    FiltersAscend(env, triggers);
    AscendingUnique(SortStrings(keys), Filters(env, triggers));
    if keys == [] {
      SortNothing();
      return None;
    }
    var filters := SortStrings(keys);
    assert keys[0] in filters;
    var out: seq<Scope> := [];
    for i := 0 to |filters|
      invariant |out| == i
      invariant forall k :: 0 <= k < i ==> out[k] == Scope(filters[k], GroupOf(env, triggers, filters[k]))
    {
      out := out + [Scope(filters[i], byFilter[filters[i]])];
    }
    assert out == ScopesFor(env, triggers, filters);
    return Some(out);
  }

  lemma NoGroups(env: Env)
    ensures HoldsGroups(env, [], map[])
  {
  }

  lemma SortNothing()
    ensures SortStrings([]) == []
  {
  }

  /** The keys of a map, in whatever order it yields them. */
  method ListKeys(m: map<string, seq<Trigger>>) returns (keys: seq<string>)
    ensures forall f :: f in keys <==> f in m
  {
    keys := [];
    var rest := m.Keys;
    while rest != {}
      invariant forall f :: f in m <==> f in keys || f in rest
      decreases |rest|
    {
      HasKey(rest);
      var f :| f in rest;
      keys := keys + [f];
      rest := rest - {f};
    }
  }

  // ---- One request for a group ----

  const MAX_METRICS := 20

  /** The distinct API metrics of the triggers, in order of first use. */
  function Metrics(env: Env, triggers: seq<Trigger>): seq<string> {
    if triggers == [] then []
    else
      var metrics := Metrics(env, triggers[..|triggers| - 1]);
      match env.resolve(triggers[|triggers| - 1].metric)
      case None => metrics
      case Some(m) => if m in metrics then metrics else metrics + [m]
  }

  /** The deepest baseline any usable trigger asks for, and at least one week. */
  function Weeks(env: Env, triggers: seq<Trigger>): (weeks: int)
    ensures weeks >= 1
  {
    if triggers == [] then 1
    else
      var weeks, t := Weeks(env, triggers[..|triggers| - 1]), triggers[|triggers| - 1];
      if env.resolve(t.metric).Some? && t.weeks > weeks then t.weeks else weeks
  }

  /** The request asks for exactly the metrics its rules resolve to, each once, and for the most weeks that
      any rule with a metric wants, at least one. */
  lemma {:induction false} RequestedFor(env: Env, triggers: seq<Trigger>)
    ensures forall m :: m in Metrics(env, triggers) <==> exists t :: t in triggers && env.resolve(t.metric) == Some(m)
    ensures forall i, j :: 0 <= i < j < |Metrics(env, triggers)|
              ==> Metrics(env, triggers)[i] != Metrics(env, triggers)[j]
    ensures forall t :: t in triggers && env.resolve(t.metric).Some? ==> t.weeks <= Weeks(env, triggers)
    ensures Weeks(env, triggers) > 1 ==>
              exists t :: t in triggers && env.resolve(t.metric).Some? && t.weeks == Weeks(env, triggers)
  {
    if triggers != [] {
      var init, last := triggers[..|triggers| - 1], triggers[|triggers| - 1];
      RequestedFor(env, init);
      assert triggers == init + [last];
      forall m | m in Metrics(env, triggers)
        ensures exists t :: t in triggers && env.resolve(t.metric) == Some(m)
      {
        if m in Metrics(env, init) {
          var t :| t in init && env.resolve(t.metric) == Some(m);
          assert t in triggers;
        } else {
          assert last in triggers;
        }
      }
      if Weeks(env, triggers) > 1 {
        if Weeks(env, triggers) == Weeks(env, init) {
          var t :| t in init && env.resolve(t.metric).Some? && t.weeks == Weeks(env, init);
          assert t in triggers;
        } else {
          assert last in triggers;
        }
      }
    }
  }

  function Position(metrics: seq<string>, m: string): (k: nat)
    requires m in metrics
    ensures k < |metrics| && metrics[k] == m
  {
    if metrics[0] == m then 0 else 1 + Position(metrics[1..], m)
  }

  lemma {:induction false} PositionAppend(metrics: seq<string>, m: string, x: string)
    ensures m in metrics ==> m in metrics + [x] && Position(metrics + [x], m) == Position(metrics, m)
    ensures m !in metrics ==> m in metrics + [m] && Position(metrics + [m], m) == |metrics|
  {
    if metrics != [] {
      PositionAppend(metrics[1..], m, x);
      assert (metrics + [x])[1..] == metrics[1..] + [x] && (metrics + [m])[1..] == metrics[1..] + [m];
    }
  }

  /** Where each metric stands in the request. */
  ghost predicate Indexes(metrics: seq<string>, index: map<string, nat>) {
    && (forall m :: m in index <==> m in metrics)
    && (forall m :: m in metrics ==> index[m] == Position(metrics, m))
  }

  lemma IndexesAppend(metrics: seq<string>, index: map<string, nat>, x: string)
    requires Indexes(metrics, index) && x !in metrics
    ensures Indexes(metrics + [x], index[x := |metrics|])
  {
    hide Position;
    forall m | m in metrics + [x]
      ensures index[x := |metrics|][m] == Position(metrics + [x], m)
    {
      PositionAppend(metrics, m, x);
    }
  }

  datatype FetchError = NoUsableMetric | TooManyMetrics | NotAnswered | Coarsened

  function DayStart(t: int): int {
    t - t % 1440
  }

  /** The first minute of the requested dates: one day before the oldest week. */
  function From(end: int, weeks: int): int {
    DayStart(end) - 1440 * (7 * weeks + 1)
  }

  /** The API's intervals have a width. */
  ghost predicate Answers(env: Env) {
    forall w :: w >= 1 ==> env.spacing(w) > 0
  }

  /** What the API returns for whole days up to the one that holds `end`. */
  function Answer(env: Env, filter: string, metrics: seq<string>, weeks: int, end: int): Grid
    requires env.spacing(weeks) > 0 && weeks >= 1
  {
    var start, step := From(end, weeks), env.spacing(weeks);
    var count := 1440 * (7 * weeks + 2) / step;
    Grid(seq(count, i requires 0 <= i < count => start + step * i),
         seq(|metrics|, k requires 0 <= k < |metrics| =>
           seq(count, i requires 0 <= i < count => env.figure(filter, metrics[k], start + step * i))))
  }

  /** The API's intervals tile a day, whatever the range. */
  ghost predicate SaneApi(env: Env) {
    forall w :: w >= 1 ==> env.spacing(w) > 0 && 1440 % env.spacing(w) == 0
  }

  function Request(env: Env, triggers: seq<Trigger>, end: int, filter: string): Result<(Grid, seq<string>), FetchError>
    requires Answers(env)
  {
    var metrics, weeks := Metrics(env, triggers), Weeks(env, triggers);
    if metrics == [] then Err(NoUsableMetric)
    else if |metrics| > MAX_METRICS then Err(TooManyMetrics)
    else if !env.answers(filter) then Err(NotAnswered)
    else
      var grid := Answer(env, filter, metrics, weeks, end);
      if grid.Step() != 0 && grid.Step() != env.cfg.Step() then Err(Coarsened) else Ok((grid, metrics))
  }

  /** A request is answered exactly when some rule has a metric, there are at most twenty metrics, the API
      answers for the pages, and it spaces its intervals by the step, or returns fewer than two of them. */
  lemma AnsweredIff(env: Env, triggers: seq<Trigger>, end: int, filter: string)
    requires Answers(env)
    ensures var n, weeks := |Metrics(env, triggers)|, Weeks(env, triggers);
            Request(env, triggers, end, filter).Ok? <==>
              && 1 <= n <= 20 && env.answers(filter)
              && (env.spacing(weeks) == env.cfg.Step() || 1440 * (7 * weeks + 2) / env.spacing(weeks) < 2)
  {
    hide Metrics, Weeks, From;
    assert env.spacing(Weeks(env, triggers)) > 0;
  }

  method FetchSeries(env: Env, triggers: seq<Trigger>, end: int, filter: string)
      returns (r: Result<(TimeSeries, map<string, nat>), FetchError>)
    requires Answers(env)
    ensures match r
            case Err(e) => Request(env, triggers, end, filter) == Err(e)
            case Ok(out) =>
              && fresh(out.0) && out.0.Valid()
              && Request(env, triggers, end, filter).Ok?
              && var (grid, metrics) := Request(env, triggers, end, filter).value;
                 out.0.grid == grid && Indexes(metrics, out.1)
  {
    hide Answer, Position;
    var index: map<string, nat> := map[];
    var metrics: seq<string> := [];
    var weeks := 1;
    for i := 0 to |triggers|
      invariant metrics == Metrics(env, triggers[..i]) && weeks == Weeks(env, triggers[..i])
      invariant Indexes(metrics, index)
    {
      var t := triggers[i];
      assert triggers[..i + 1][..i] == triggers[..i] && triggers[..i + 1][i] == t;
      var apiMetric := env.resolve(t.metric);
      if apiMetric == None {
        continue;
      }
      if apiMetric.value !in index {
        IndexesAppend(metrics, index, apiMetric.value);
        index := index[apiMetric.value := |metrics|];
        metrics := metrics + [apiMetric.value];
      }
      if t.weeks > weeks {
        weeks := t.weeks;
      }
    }
    assert triggers[..|triggers|] == triggers;
    if |metrics| == 0 {
      return Err(NoUsableMetric);
    }
    if |metrics| > MAX_METRICS {
      return Err(TooManyMetrics);
    }
    if !env.answers(filter) {
      return Err(NotAnswered);
    }
    var grid := Answer(env, filter, metrics, weeks, end);
    if grid.Step() != 0 && grid.Step() != env.cfg.Step() {
      return Err(Coarsened);
    }
    var series := new TimeSeries(grid);
    return Ok((series, index));
  }
}
