/** Counters, rules, reports and destinations saved one at a time, from a chat message
    (internal/bot/pending.go) or a REST request (internal/api/server.go). */
module Saving {
  import opened Text
  import opened Keyed
  import opened RuleTables
  import opened Settings
  import opened Goals
  import opened Database
  import opened PipeFields
  import UrlFilter
  import RoundTrip

  /** What the application knows: which metric names resolve, what a period's name stands for, which
      schedules read, and which patterns compile. */
  datatype App = App(metric: string -> bool, period: string -> Option<string>, schedule: string -> bool,
                     compiles: string -> bool)

  /** A blank metric does not resolve, case makes no difference to one, and what a period's name stands for
      is a period's name. */
  ghost predicate Consistent(app: App) {
    && (forall m :: app.metric(m) ==> Trim(m) != "" && app.metric(Lower(m)))
    && (forall p :: app.period(p).Some? ==> app.period(app.period(p).value).Some?)
  }

  /** The checks an import makes, with the application as its validator. */
  function ChecksOf(app: App): Checks {
    Checks(Some(Validator(app.metric, app.schedule, p => app.period(p).Some?)), app.compiles)
  }

  const DEFAULT_MIN_BASELINE := 10
  const DEFAULT_WEEKS := 4
  const MAX_WEEKS := 12
  const DEFAULT_COOLDOWN := 180

  datatype SaveError =
    | BadShape | BadScope(error: ScopeError) | NoName | BadMetric | UnknownDirection | BadThreshold
    | BadFloor | BadWeekCount | TooManyFields | UnknownField | BadGoals | UnknownGrouping | UnknownPeriod
    | BadId | BadInterval | BadFilterExpression | UnknownMatchWord | BadChat | BadAddress | UnknownKind

  predicate ValidDirection(d: string) {
    d in ["drop", "rise", "both"]
  }

  // ---- A rule typed into the chat ----

  function TrimSuffix(s: string, c: char): string {
    if s != "" && s[|s| - 1] == c then s[..|s| - 1] else s
  }

  /** An optional number: absent or blank means the default. */
  function NumberOr(fields: seq<string>, k: nat, default: int): Option<int> {
    if k < |fields| && fields[k] != "" then ParseInt64(fields[k]) else Some(default)
  }

  function BotRule(text: string, app: App): Result<ExportTrigger, SaveError> {
    RuleOf(TrimAll(TrimAll(Raw(text))), app)
  }

  function RuleOf(fields: seq<string>, app: App): Result<ExportTrigger, SaveError> {
    if |fields| < 4 || |fields| > 7 then Err(BadShape)
    else
      match UrlScopeOf(fields[4..], app.compiles)
      case Err(e) => Err(BadScope(e))
      case Ok(scope) =>
        var metric, direction := Lower(fields[1]), Lower(fields[2]);
        var deviation := ParseInt64(TrimSuffix(fields[3], '%'));
        var minBaseline := NumberOr(scope.rest, 0, DEFAULT_MIN_BASELINE);
        var weeks := NumberOr(scope.rest, 1, DEFAULT_WEEKS);
        if fields[0] == "" then Err(NoName)
        else if !app.metric(metric) then Err(BadMetric)
        else if !ValidDirection(direction) then Err(UnknownDirection)
        else if deviation == None || deviation.value <= 0 || deviation.value > 100 then Err(BadThreshold)
        else if minBaseline == None || minBaseline.value < 0 then Err(BadFloor)
        else if weeks == None || weeks.value < 1 || weeks.value > MAX_WEEKS then Err(BadWeekCount)
        else if |scope.rest| > 2 then Err(TooManyFields)
        else
          Ok(ExportRule(fields[0], TriggerBody(metric, direction, deviation.value, minBaseline.value, weeks.value,
                                               scope.filter, scope.match_, DEFAULT_COOLDOWN, Some(true))))
  }

  lemma TrimmedFields(fields: seq<string>)
    ensures AllTrimmed(TrimAll(fields))
  {
    hide Trim, Trimmed;
    forall i | 0 <= i < |fields|
      ensures Trimmed(TrimAll(fields)[i])
    {
      TrimTrims(fields[i]);
    }
  }

  /** The scope taken from trimmed fields is trimmed, and has a match word exactly when it has a filter. */
  lemma {:induction false} TakenTrimmed(taken: Scope, fields: seq<string>)
    requires AllTrimmed(fields) && Trimmed(taken.filter)
    requires taken.filter != "" ==> taken.match_ in [UrlFilter.CONTAINS, UrlFilter.REGEXP]
    ensures var r := TakeFrom(taken, fields);
            r.Ok? ==> Trimmed(r.value.filter)
                      && (r.value.filter != "" ==> r.value.match_ in [UrlFilter.CONTAINS, UrlFilter.REGEXP])
    decreases |fields|
  {
    hide Trim, IsKnownReportKeyword, IsSpace;
    if fields != [] {
      var field, later := fields[0], fields[1..];
      assert AllTrimmed(later);
      JoinedTrimmed(taken.filter, field);
      match ParseUrlScope(field)
      case None =>
        if taken.filter != "" {
          TakenTrimmed(taken.(filter := taken.filter + "|" + field), later);
        }
        TakenTrimmed(taken.(rest := taken.rest + [field]), later);
      case Some(scope) =>
        TrimTrims(field[4..]);
        TakenTrimmed(Scope(scope.value, if scope.isRegexp then UrlFilter.REGEXP else UrlFilter.CONTAINS, taken.rest),
          later);
    }
  }

  lemma JoinedTrimmed(filter: string, field: string)
    requires Trimmed(filter) && Trimmed(field)
    ensures filter != "" ==> Trimmed(filter + "|" + field)
  {
    var x := filter + "|" + field;
    assert !IsSpace('|');
    if filter != "" {
      assert x[0] == filter[0];
      assert x[|x| - 1] == if field == "" then '|' else field[|field| - 1];
    }
  }

  /** A filter that was accepted in its trimmed form passes the import's check. */
  lemma AcceptedFilter(filter: string, match_: string, app: App)
    requires Trimmed(filter) && UrlFilter.Build(filter, match_, app.compiles).Ok?
    requires filter != "" ==> match_ in [UrlFilter.CONTAINS, UrlFilter.REGEXP]
    ensures FilterNormal(filter, match_, ChecksOf(app))
  {
    TrimKeeps(filter);
    hide Trim, Trimmed, UrlFilter.Expression, UrlFilter.Utf8Len;
  }

  lemma ScopeNormal(fields: seq<string>, app: App)
    requires AllTrimmed(fields) && UrlScopeOf(fields, app.compiles).Ok?
    ensures var scope := UrlScopeOf(fields, app.compiles).value; FilterNormal(scope.filter, scope.match_, ChecksOf(app))
  {
    TakenTrimmed(Scope("", "", []), fields);
    hide TakeFrom, UrlFilter.Build, Trimmed;
    var scope := UrlScopeOf(fields, app.compiles).value;
    if scope.filter != "" {
      AcceptedFilter(scope.filter, scope.match_, app);
    }
  }

  /** A rule saved from the chat passes the import's checks as it is stored. */
  lemma BotRuleNormal(text: string, app: App)
    requires Consistent(app)
    ensures BotRule(text, app).Ok? ==> TriggerNormal(BotRule(text, app).value, ChecksOf(app))
  {
    hide RuleOf, Raw, TrimAll, Trimmed, TriggerNormal, Consistent;
    TrimmedFields(TrimAll(Raw(text)));
    RuleOfNormal(TrimAll(TrimAll(Raw(text))), app);
  }

  lemma RuleOfNormal(fields: seq<string>, app: App)
    requires Consistent(app) && AllTrimmed(fields)
    ensures RuleOf(fields, app).Ok? ==> TriggerNormal(RuleOf(fields, app).value, ChecksOf(app))
  {
    hide UrlScopeOf, Trim, Trimmed, Lower, ParseInt64, FilterNormal, TrimSuffix, NumberOr;
    if RuleOf(fields, app).Ok? {
      ScopeNormal(fields[4..], app);
      TrimKeeps(fields[0]);
    }
  }

  // ---- A rule sent to the REST interface ----

  datatype RuleRequest = RuleRequest(name: string, metric: string, direction: string, deviation: int,
                                     minBaseline: Option<int>, weeks: int, urlFilter: string, urlMatch: string,
                                     cooldown: int)

  function ApiRule(counter: int, r: RuleRequest, app: App): Result<ExportTrigger, SaveError> {
    if r.name == "" || counter <= 0 then Err(NoName)
    else if !app.metric(r.metric) then Err(BadMetric)
    else
      var direction := if r.direction == "" then "drop" else r.direction;
      if !ValidDirection(direction) then Err(UnknownDirection)
      else if r.deviation <= 0 || r.deviation > 100 then Err(BadThreshold)
      else
        var match_ := MatchOrDefault(r.urlFilter, r.urlMatch);
        if match_ !in ["", UrlFilter.CONTAINS, UrlFilter.REGEXP] then Err(UnknownMatchWord)
        else if UrlFilter.Build(r.urlFilter, match_, app.compiles).Err? then Err(BadFilterExpression)
        else
          Ok(ExportRule(r.name, TriggerBody(Lower(r.metric), direction, r.deviation,
                                            if r.minBaseline == None then DEFAULT_MIN_BASELINE else r.minBaseline.value,
                                            if r.weeks <= 0 then DEFAULT_WEEKS else r.weeks,
                                            Trim(r.urlFilter), match_,
                                            if r.cooldown <= 0 then DEFAULT_COOLDOWN else r.cooldown, Some(true))))
  }

  /** What the REST interface does not check and the import does. */
  predicate RuleFits(r: RuleRequest) {
    Trim(r.name) != "" && (r.minBaseline == None || r.minBaseline.value >= 0) && r.weeks <= MAX_WEEKS
  }

  lemma TrimmedBuild(filter: string, match_: string, compiles: string -> bool)
    ensures UrlFilter.Build(Trim(filter), match_, compiles) == UrlFilter.Build(filter, match_, compiles)
  {
    TrimTrims(filter);
    hide Trim;
  }

  lemma LowerMetric(m: string, app: App)
    requires Consistent(app) && app.metric(m)
    ensures app.metric(Lower(m)) && Trim(Lower(m)) != ""
  {
    hide Trim, Lower;
  }

  /** A rule saved over the REST interface passes the import's checks, as it is stored or corrected, exactly
      when its name is not blank, its floor not negative and its baseline at most twelve weeks deep. */
  lemma ApiRuleNormalIff(counter: int, r: RuleRequest, app: App)
    requires Consistent(app)
    ensures ApiRule(counter, r, app).Ok? ==>
              var rule := ApiRule(counter, r, app).value;
              && (TriggerNormal(rule, ChecksOf(app)) <==> RuleFits(r))
              && (NormaliseTrigger(rule, ChecksOf(app)).Ok? <==> RuleFits(r))
  {
    if ApiRule(counter, r, app).Ok? {
      var rule := ApiRule(counter, r, app).value;
      LowerMetric(r.metric, app);
      TrimTrims(r.urlFilter);
      TrimmedBuild(r.urlFilter, rule.body.urlMatch, app.compiles);
      hide UrlFilter.Build, Trimmed;
      AcceptedFilter(rule.body.urlFilter, rule.body.urlMatch, app);
      TriggerNormalIff(rule, ChecksOf(app));
      TriggerAcceptedIff(rule, ChecksOf(app));
      LowerDirections();
      hide Trim, Lower, NormaliseTrigger, FilterNormal, FilterUsable;
    }
  }

  // ---- A report typed into the chat ----

  /** What a report's labelled fields say. */
  datatype Options = Options(goals: seq<int>, groupBy: string, period: string)

  /** One goal of a list, with or without its label; nothing for a blank part, and no list when it does not
      read as a positive number. */
  function GoalOf(part: string): Option<seq<int>> {
    var trimmed := Trim(part);
    var id := Trim(if "goal:" <= trimmed then trimmed[5..] else trimmed);
    if id == "" then Some([])
    else
      var n := ParseInt64(id);
      if n == None || n.value <= 0 then None else Some([n.value])
  }

  function GoalsFrom(ids: seq<int>, parts: seq<string>): Option<seq<int>>
    decreases |parts|
  {
    if parts == [] then (if ids == [] then None else Some(ids))
    else
      match GoalOf(parts[0])
      case None => None
      case Some(more) => GoalsFrom(ids + more, parts[1..])
  }

  method ParseGoalList(s: string) returns (r: Option<seq<int>>)
    ensures r == GoalsFrom([], SplitOn(s, ','))
  {
    hide SplitOn, Trim, ParseInt64;
    var parts := SplitOn(s, ',');
    var ids: seq<int> := [];
    for i := 0 to |parts|
      invariant GoalsFrom(ids, parts[i..]) == GoalsFrom([], parts)
    {
      assert parts[i..][0] == parts[i] && parts[i..][1..] == parts[i + 1..];
      var part := Trim(parts[i]);
      if "goal:" <= part {
        part := part[5..];
      }
      part := Trim(part);
      if part == "" {
        assert ids + [] == ids;
        continue;
      }
      var id := ParseInt64(part);
      if id == None || id.value <= 0 {
        return None;
      }
      ids := ids + [id.value];
    }
    assert parts[|parts|..] == [];
    return if |ids| == 0 then None else Some(ids);
  }

  function GroupingOf(value: string, o: Options): Result<Options, SaveError> {
    if Lower(Trim(value)) == "url" then Ok(o.(groupBy := "url")) else Err(UnknownGrouping)
  }

  function PeriodOf(value: string, o: Options, app: App): Result<Options, SaveError> {
    match app.period(value)
    case None => Err(UnknownPeriod)
    case Some(name) => Ok(o.(period := name))
  }

  function OptionOf(field: string, o: Options, app: App): Result<Options, SaveError> {
    if field == "" then Ok(o)
    else if "goals=" <= field then
      match GoalsFrom([], SplitOn(field[6..], ','))
      case None => Err(BadGoals)
      case Some(goals) => Ok(o.(goals := goals))
    else if "group=" <= field then GroupingOf(field[6..], o)
    else if "group_by=" <= field then GroupingOf(field[9..], o)
    else if "by=" <= field then GroupingOf(field[3..], o)
    else if "period=" <= field then PeriodOf(field[7..], o, app)
    else if "период=" <= field then PeriodOf(field[7..], o, app)
    else Err(UnknownField)
  }

  function OptionsFrom(o: Options, fields: seq<string>, app: App): Result<Options, SaveError>
    decreases |fields|
  {
    if fields == [] then Ok(o)
    else
      match OptionOf(Trim(fields[0]), o, app)
      case Err(e) => Err(e)
      case Ok(more) => OptionsFrom(more, fields[1..], app)
  }

  method ReadOptions(rest: seq<string>, app: App) returns (r: Result<Options, SaveError>)
    ensures r == OptionsFrom(Options([], "", ""), rest, app)
  {
    hide Trim, SplitOn, GroupingOf, PeriodOf;
    var o := Options([], "", "");
    for i := 0 to |rest|
      invariant OptionsFrom(o, rest[i..], app) == OptionsFrom(Options([], "", ""), rest, app)
    {
      assert rest[i..][0] == rest[i] && rest[i..][1..] == rest[i + 1..];
      var field := Trim(rest[i]);
      if "goals=" <= field {
        var goals := ParseGoalList(field[6..]);
        if goals == None {
          return Err(BadGoals);
        }
        o := o.(goals := goals.value);
      } else {
        hide GoalsFrom;
        var option := OptionOf(field, o, app);
        if option.Err? {
          return Err(option.error);
        }
        o := option.value;
      }
    }
    assert rest[|rest|..] == [];
    return Ok(o);
  }

  function BotReport(text: string, app: App): Result<ExportReport, SaveError> {
    var fields := TrimAll(TrimAll(Raw(text)));
    if fields[0] == "" then Err(NoName)
    else
      match UrlScopeOf(fields[1..], app.compiles)
      case Err(e) => Err(BadScope(e))
      case Ok(scope) =>
        match OptionsFrom(Options([], "", ""), scope.rest, app)
        case Err(e) => Err(e)
        case Ok(o) =>
          Ok(ExportRule(fields[0], ReportBody(scope.filter, scope.match_, o.goals, o.groupBy, o.period, Some(true))))
  }

  ghost predicate Storable(ids: seq<int>) {
    forall i :: 0 <= i < |ids| ==> IsInt64(ids[i]) && ids[i] > 0
  }

  ghost predicate Usable(o: Options, app: App) {
    && Storable(o.goals) && o.groupBy in ["", "url"]
    && (o.period != "" ==> app.period(o.period).Some?)
  }

  lemma {:induction false} GoalsStorable(ids: seq<int>, parts: seq<string>)
    requires Storable(ids)
    ensures GoalsFrom(ids, parts).Some? ==> Storable(GoalsFrom(ids, parts).value)
    decreases |parts|
  {
    if parts != [] && GoalOf(parts[0]).Some? {
      assert Storable(GoalOf(parts[0]).value);
      hide GoalOf, IsInt64;
      GoalsStorable(ids + GoalOf(parts[0]).value, parts[1..]);
    }
  }

  lemma OptionUsable(field: string, o: Options, app: App)
    requires Consistent(app) && Usable(o, app)
    ensures OptionOf(field, o, app).Ok? ==> Usable(OptionOf(field, o, app).value, app)
  {
    if "goals=" <= field {
      GoalsStorable([], SplitOn(field[6..], ','));
    }
    hide GoalsFrom, SplitOn, Storable, Trim, Lower;
  }

  lemma {:induction false} OptionsUsable(o: Options, fields: seq<string>, app: App)
    requires Consistent(app) && Usable(o, app)
    ensures OptionsFrom(o, fields, app).Ok? ==> Usable(OptionsFrom(o, fields, app).value, app)
    decreases |fields|
  {
    hide OptionOf, Usable, Trim, Consistent;
    if fields != [] {
      OptionUsable(Trim(fields[0]), o, app);
      if OptionOf(Trim(fields[0]), o, app).Ok? {
        OptionsUsable(OptionOf(Trim(fields[0]), o, app).value, fields[1..], app);
      }
    }
  }

  /** A report saved from the chat passes the import's checks as it is stored, and is listed as it was
      saved. */
  lemma BotReportNormal(text: string, app: App)
    requires Consistent(app)
    ensures BotReport(text, app).Ok? ==>
              var report := BotReport(text, app).value;
              ReportNormal(report, ChecksOf(app)) && ListedReport(StoredReport(report.body)) == report.body
  {
    var fields := TrimAll(TrimAll(Raw(text)));
    if BotReport(text, app).Ok? {
      TrimmedFields(TrimAll(Raw(text)));
      assert AllTrimmed(fields[1..]);
      ScopeNormal(fields[1..], app);
      TrimKeeps(fields[0]);
      var scope := UrlScopeOf(fields[1..], app.compiles).value;
      OptionsUsable(Options([], "", ""), scope.rest, app);
      var o := OptionsFrom(Options([], "", ""), scope.rest, app).value;
      hide Raw, TrimAll, UrlScopeOf, OptionsFrom, Trim, Trimmed, FilterNormal, ParseGoals, FormatGoals, IsInt64;
      GoalsKeptIff(o.goals);
    }
  }

  // ---- Counters ----

  function WordLength(s: string): (n: nat)
    ensures n <= |s| && forall i :: 0 <= i < n ==> !IsSpace(s[i])
    ensures s != "" && !IsSpace(s[0]) ==> n > 0
  {
    if s == "" || IsSpace(s[0]) then 0 else 1 + WordLength(s[1..])
  }

  /** strings.Fields. */
  function Words(s: string): seq<string>
    decreases |s|
  {
    if s == "" then []
    else if IsSpace(s[0]) then Words(s[1..])
    else [s[..WordLength(s)]] + Words(s[WordLength(s)..])
  }

  lemma {:induction false} WordsPlain(s: string)
    ensures forall i :: 0 <= i < |Words(s)| ==> Plain(Words(s)[i])
    decreases |s|
  {
    hide IsSpace, Trim, Plain;
    if s != "" {
      if IsSpace(s[0]) {
        WordsPlain(s[1..]);
      } else {
        WordsPlain(s[WordLength(s)..]);
        NoSpacePlain(s[..WordLength(s)]);
      }
    }
  }

  lemma NoSpacePlain(s: string)
    requires s != "" && forall i :: 0 <= i < |s| ==> !IsSpace(s[i])
    ensures Plain(s)
  {
    TrimKeeps(s);
  }

  /** A counter's external id and row. */
  type NewCounter = (string, CounterVals)

  function BotCounter(text: string): Result<NewCounter, SaveError> {
    var parts := Words(text);
    if |parts| < 3 then Err(BadShape)
    else if ParseInt64(parts[1]) == None then Err(BadId)
    else
      var interval := if |parts| >= 4 then ParseInt64(parts[3]) else Some(60);
      if interval == None || interval.value <= 0 then Err(BadInterval)
      else Ok((parts[1], CounterVals(parts[0], parts[2], interval.value, None)))
  }

  function ApiCounter(name: string, cid: string, token: string, minutes: int): Result<NewCounter, SaveError> {
    if name == "" || cid == "" || token == "" then Err(BadShape)
    else Ok((cid, CounterVals(name, token, if minutes <= 0 then 60 else minutes, None)))
  }

  lemma BotCounterNormal(text: string, id: int)
    ensures BotCounter(text).Ok? ==>
              RoundTrip.CounterRowNormal(Row(id, BotCounter(text).value.0, BotCounter(text).value.1))
  {
    WordsPlain(text);
    var parts := Words(text);
    assert |parts| >= 3 ==> Plain(parts[0]) && Plain(parts[1]);
    hide Words, ParseInt64, Trim;
  }

  /** What the REST interface does not check of a counter. */
  predicate IdFits(cid: string) {
    Trim(cid) == cid && ParseInt64(cid).Some?
  }

  lemma ApiCounterNormalIff(name: string, cid: string, token: string, minutes: int, id: int)
    ensures var r := ApiCounter(name, cid, token, minutes);
            r.Ok? ==> (RoundTrip.CounterRowNormal(Row(id, r.value.0, r.value.1)) <==> IdFits(cid))
  {
    hide Trim, ParseInt64;
  }

  // ---- Destinations ----

  function BotDestination(text: string): Result<(Address, string), SaveError> {
    var parts := Words(text);
    if |parts| != 2 then Err(BadShape)
    else
      var kind, target := Lower(parts[0]), parts[1];
      match ChannelOf(kind)
      case Telegram =>
        var chat := ParseInt64(target);
        if chat == None then Err(BadChat) else Ok((Address(kind, chat, target, ""), "telegram-" + target))
      case VkTeams => Ok((Address(kind, None, target, ""), "vkteams-" + target))
      case Webhook =>
        if IsWebUrl(target) then Ok((Address(kind, None, "", target), "webhook-" + target)) else Err(BadAddress)
      case Unknown => Err(UnknownKind)
  }

  lemma BotDestinationNormal(text: string, id: int)
    ensures BotDestination(text).Ok? ==>
              ActionNormal(ListedAction(Row(id, BotDestination(text).value.0, BotDestination(text).value.1)))
  {
    WordsPlain(text);
    var parts := Words(text);
    assert |parts| == 2 ==> Plain(parts[1]);
    hide Words, Plain, ParseInt64, Lower, IsWebUrl;
  }
}
