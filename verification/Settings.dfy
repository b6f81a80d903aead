/** The portable settings payload, and the validation an import runs over it before touching the
    database: every item is checked and filled in with defaults. */
module Settings {
  import opened Text
  import opened RuleTables

  /** A trigger as exported; an absent `enabled` means true. */
  datatype TriggerBody = TriggerBody(metric: string, direction: string, deviation: int, minBaseline: int,
                                     weeks: int, urlFilter: string, urlMatch: string, cooldown: int,
                                     enabled: Option<bool>)

  datatype ReportBody = ReportBody(urlFilter: string, urlMatch: string, goals: seq<int>, groupBy: string,
                                   period: string, enabled: Option<bool>)

  type ExportTrigger = ExportRule<TriggerBody>
  type ExportReport = ExportRule<ReportBody>

  datatype ExportCounter = ExportCounter(name: string, cid: string, token: string, poll: int,
                                         triggers: seq<ExportTrigger>, reports: seq<ExportReport>)

  datatype ExportAction = ExportAction(name: string, typ: string, chat: Option<int>, target: string,
                                       url: string, destination: string)

  datatype Payload = Payload(schedule: string, counters: seq<ExportCounter>,
                             triggers: seq<FlatRule<TriggerBody>>, reports: seq<FlatRule<ReportBody>>,
                             actions: seq<ExportAction>)

  /** What the application can add to the validation. */
  datatype Validator = Validator(metric: string -> bool, schedule: string -> bool, period: string -> bool)

  /** The optional validator, and which regular expressions compile. */
  datatype Checks = Checks(validator: Option<Validator>, compiles: string -> bool)

  datatype Refusal =
    | NoSettings
    | CounterIdMissing(counter: string) | CounterIdNotNumber(counter: string, cid: string)
    | Unnamed
    | MetricMissing(rule: string) | MetricRefused(rule: string) | BadDirection(rule: string)
    | BadDeviation(rule: string) | BadMinBaseline(rule: string) | BadWeeks(rule: string)
    | BadMatch(rule: string) | BadPattern(rule: string) | BadGrouping(rule: string) | BadPeriod(rule: string)
    | ChatMissing | ChatNotNumber(target: string) | TargetMissing | UrlMissing | UrlScheme | UnknownType(typ: string)
    | BadSchedule
    | CounterExists(cid: string) | CounterUnknown(cid: string)

  predicate HasAnySettings(p: Payload) {
    p.counters != [] || p.triggers != [] || p.reports != [] || p.actions != [] || Trim(p.schedule) != ""
  }

  /** Lower case, as far as it can produce ASCII letters: besides A to Z, dotted capital I and the Kelvin
      sign have lower forms among them. */
  function LowerRune(c: char): char {
    if 'A' <= c <= 'Z' then c + 32 as char
    else if c == '\U{0130}' then 'i'
    else if c == '\U{212A}' then 'k'
    else c
  }

  function Lower(s: string): string {
    seq(|s|, i requires 0 <= i < |s| => LowerRune(s[i]))
  }

  // ---- Counters ----

  function NormaliseHead(c: ExportCounter): Result<ExportCounter, Refusal> {
    var cid := Trim(c.cid);
    if cid == "" then Err(CounterIdMissing(c.name))
    else if ParseInt64(cid) == None then Err(CounterIdNotNumber(c.name, cid))
    else Ok(c.(name := if c.name == "" then cid else c.name, poll := if c.poll <= 0 then 60 else c.poll))
  }

  predicate HeadNormal(c: ExportCounter) {
    Trim(c.cid) != "" && ParseInt64(Trim(c.cid)).Some? && c.name != "" && c.poll > 0
  }

  lemma HeadNormalIff(c: ExportCounter)
    ensures HeadNormal(c) <==> NormaliseHead(c) == Ok(c)
    ensures NormaliseHead(c).Ok? ==> HeadNormal(NormaliseHead(c).value)
  {
    hide Trim, ParseInt64;
  }

  // ---- Rules ----

  function MatchOrDefault(filter: string, match_: string): string {
    if filter != "" && match_ == "" then "contains" else match_
  }

  function CheckFilter(rule: string, filter: string, match_: string, checks: Checks): Result<string, Refusal> {
    var op := MatchOrDefault(filter, match_);
    if filter == "" then Ok(op)
    else if op != "contains" && op != "regexp" then Err(BadMatch(rule))
    else if op == "regexp" && !checks.compiles(filter) then Err(BadPattern(rule))
    else Ok(op)
  }

  predicate FilterNormal(filter: string, match_: string, checks: Checks) {
    filter != "" ==> match_ == "contains" || (match_ == "regexp" && checks.compiles(filter))
  }

  function NormaliseTrigger(t: ExportTrigger, checks: Checks): Result<ExportTrigger, Refusal> {
    var b := t.body;
    if Trim(t.name) == "" then Err(Unnamed)
    else if Trim(b.metric) == "" then Err(MetricMissing(t.name))
    else if checks.validator.Some? && !checks.validator.value.metric(b.metric) then Err(MetricRefused(t.name))
    else
      var direction := Lower(if b.direction == "" then "drop" else b.direction);
      if direction != "drop" && direction != "rise" && direction != "both" then Err(BadDirection(t.name))
      else if b.deviation <= 0 || b.deviation > 100 then Err(BadDeviation(t.name))
      else if b.minBaseline < 0 then Err(BadMinBaseline(t.name))
      else if b.weeks < 0 || b.weeks > 12 then Err(BadWeeks(t.name))
      else
        var op :- CheckFilter(t.name, b.urlFilter, b.urlMatch, checks);
        Ok(t.(body := b.(direction := direction, weeks := if b.weeks == 0 then 4 else b.weeks,
                         cooldown := if b.cooldown <= 0 then 180 else b.cooldown, urlMatch := op)))
  }

  predicate TriggerNormal(t: ExportTrigger, checks: Checks) {
    var b := t.body;
    && Trim(t.name) != "" && Trim(b.metric) != ""
    && (checks.validator.Some? ==> checks.validator.value.metric(b.metric))
    && b.direction in ["drop", "rise", "both"]
    && 1 <= b.deviation <= 100 && b.minBaseline >= 0 && 1 <= b.weeks <= 12 && b.cooldown > 0
    && FilterNormal(b.urlFilter, b.urlMatch, checks)
  }

  lemma LowerDirections()
    ensures Lower("drop") == "drop" && Lower("rise") == "rise" && Lower("both") == "both"
    ensures Lower("DROP") == "drop" && Lower("Rise") == "rise" && Lower("Both") == "both"
  {
  }

  lemma TriggerNormalIff(t: ExportTrigger, checks: Checks)
    ensures TriggerNormal(t, checks) <==> NormaliseTrigger(t, checks) == Ok(t)
    ensures NormaliseTrigger(t, checks).Ok? ==> TriggerNormal(NormaliseTrigger(t, checks).value, checks)
  {
    LowerDirections();
    hide Trim, Lower;
  }

  predicate FilterUsable(filter: string, match_: string, checks: Checks) {
    filter == "" || match_ in ["", "contains"] || (match_ == "regexp" && checks.compiles(filter))
  }

  /** It has a name and a known metric, its numbers are in range and its filter is usable. */
  predicate TriggerFits(t: ExportTrigger, checks: Checks) {
    var b := t.body;
    && Trim(t.name) != "" && Trim(b.metric) != ""
    && (checks.validator.Some? ==> checks.validator.value.metric(b.metric))
    && (b.direction == "" || Lower(b.direction) in ["drop", "rise", "both"])
    && 1 <= b.deviation <= 100 && b.minBaseline >= 0 && 0 <= b.weeks <= 12
    && FilterUsable(b.urlFilter, b.urlMatch, checks)
  }

  /** A trigger is accepted exactly when it fits; then values in range stay and the others become the defaults. */
  lemma TriggerAcceptedIff(t: ExportTrigger, checks: Checks)
    ensures var b, r := t.body, NormaliseTrigger(t, checks);
            && (r.Ok? <==> TriggerFits(t, checks))
            && (r.Ok? ==>
                  var c := r.value.body;
                  && r.value.name == t.name && c.metric == b.metric && c.urlFilter == b.urlFilter
                     && c.enabled == b.enabled
                  && c.deviation == b.deviation && c.minBaseline == b.minBaseline
                  && c.weeks == (if 1 <= b.weeks <= 12 then b.weeks else 4)
                  && c.cooldown == (if b.cooldown > 0 then b.cooldown else 180)
                  && c.direction == (if b.direction == "" then "drop" else Lower(b.direction))
                  && c.urlMatch == (if b.urlFilter != "" && b.urlMatch == "" then "contains" else b.urlMatch))
  {
    LowerDirections();
    hide Trim, Lower;
  }

  function NormaliseReport(r: ExportReport, checks: Checks): Result<ExportReport, Refusal> {
    var b := r.body;
    if Trim(r.name) == "" then Err(Unnamed)
    else
      var op :- CheckFilter(r.name, b.urlFilter, b.urlMatch, checks);
      if b.groupBy != "" && b.groupBy != "url" then Err(BadGrouping(r.name))
      else if checks.validator.Some? && b.period != ""
        && !checks.validator.value.period(b.period) then Err(BadPeriod(r.name))
      else Ok(r.(body := b.(urlMatch := op)))
  }

  predicate ReportNormal(r: ExportReport, checks: Checks) {
    var b := r.body;
    && Trim(r.name) != ""
    && FilterNormal(b.urlFilter, b.urlMatch, checks)
    && b.groupBy in ["", "url"]
    && (checks.validator.Some? && b.period != "" ==> checks.validator.value.period(b.period))
  }

  lemma ReportNormalIff(r: ExportReport, checks: Checks)
    ensures ReportNormal(r, checks) <==> NormaliseReport(r, checks) == Ok(r)
    ensures NormaliseReport(r, checks).Ok? ==> ReportNormal(NormaliseReport(r, checks).value, checks)
  {
    hide Trim;
  }

  // ---- Alert destinations ----

  predicate IsWebUrl(s: string) {
    "http://" <= s || "https://" <= s
  }

  function TargetOf(a: ExportAction): string {
    var target := Trim(a.target);
    if target == "" then Trim(a.destination) else target
  }

  function UrlOf(a: ExportAction): string {
    var url := Trim(a.url);
    if url == "" && IsWebUrl(a.destination) then Trim(a.destination) else url
  }

  function OrElse(s: string, default: string): string {
    if s == "" then default else s
  }

  datatype Channel = Telegram | VkTeams | Webhook | Unknown

  function ChannelOf(typ: string): Channel {
    if typ == "telegram" then Telegram
    else if typ == "vkteams" then VkTeams
    else if typ == "webhook" then Webhook
    else Unknown
  }

  function NormaliseAction(a: ExportAction): Result<ExportAction, Refusal> {
    var typ := Lower(Trim(a.typ));
    match ChannelOf(typ)
    case Telegram => NormaliseTelegram(a.(typ := typ), TargetOf(a))
    case VkTeams => NormaliseVkTeams(a.(typ := typ), TargetOf(a))
    case Webhook => NormaliseWebhook(a.(typ := typ), UrlOf(a))
    case Unknown => Err(UnknownType(typ))
  }

  /** A chat may be given by its number, or by a target that reads as one; the target defaults to the
      chat's number. */
  function NormaliseTelegram(a: ExportAction, target: string): Result<ExportAction, Refusal> {
    var chat := if a.chat.Some? then a.chat else ParseInt64(target);
    if a.chat == None && target == "" then Err(ChatMissing)
    else if chat == None then Err(ChatNotNumber(target))
    else
      var named := OrElse(target, FormatInt(chat.value));
      Ok(a.(chat := chat, target := named, name := OrElse(a.name, "telegram-" + named)))
  }

  function NormaliseVkTeams(a: ExportAction, target: string): Result<ExportAction, Refusal> {
    if target == "" then Err(TargetMissing)
    else Ok(a.(target := target, name := OrElse(a.name, "vkteams-" + target)))
  }

  function NormaliseWebhook(a: ExportAction, url: string): Result<ExportAction, Refusal> {
    if url == "" then Err(UrlMissing)
    else if !IsWebUrl(url) then Err(UrlScheme)
    else Ok(a.(url := url, name := OrElse(a.name, "webhook-" + url)))
  }

  predicate Plain(s: string) {
    s != "" && Trim(s) == s
  }

  predicate ActionNormal(a: ExportAction) {
    && a.name != ""
    && match ChannelOf(a.typ)
       case Telegram => a.chat.Some? && Plain(a.target)
       case VkTeams => Plain(a.target)
       case Webhook => Plain(a.url) && IsWebUrl(a.url)
       case Unknown => false
  }

  lemma LowerCaseStays(s: string)
    requires forall i :: 0 <= i < |s| ==> 'a' <= s[i] <= 'z'
    ensures Lower(Trim(s)) == s
  {
    TrimKeeps(s);
    hide Trim;
  }

  lemma TypesStay(typ: string)
    ensures ChannelOf(typ) != Unknown ==> Lower(Trim(typ)) == typ
  {
    hide Trim, Lower;
    if ChannelOf(typ) != Unknown {
      LowerCaseStays(typ);
    }
  }

  lemma PrintedPlain(n: int)
    ensures Plain(FormatInt(n))
  {
    var s, digits := FormatInt(n), FormatNat(if n < 0 then -n else n);
    assert AllDigits(digits);
    assert IsDigit(digits[0]) && IsDigit(digits[|digits| - 1]);
    assert s == digits || s == "-" + digits;
    TrimKeeps(s);
  }

  /** The target and the address an action resolves to are trimmed, and are its own when those are. */
  lemma ResolvedPlain(a: ExportAction)
    ensures TargetOf(a) != "" ==> Plain(TargetOf(a))
    ensures UrlOf(a) != "" ==> Plain(UrlOf(a))
    ensures Plain(a.target) ==> TargetOf(a) == a.target
    ensures Plain(a.url) ==> UrlOf(a) == a.url
  {
    TrimTrims(a.target);
    TrimTrims(a.url);
    TrimTrims(a.destination);
    hide Trim, Trimmed, IsWebUrl;
  }

  lemma PlainNotEmpty(s: string)
    ensures Plain(s) ==> s != ""
  {
  }

  lemma TelegramNormal(a: ExportAction)
    requires ChannelOf(a.typ) == Telegram
    ensures var r := NormaliseTelegram(a, TargetOf(a));
            && (r.Ok? ==> ActionNormal(r.value))
            && (ActionNormal(a) <==> r == Ok(a))
  {
    ResolvedPlain(a);
    var chat := if a.chat.Some? then a.chat else ParseInt64(TargetOf(a));
    if chat.Some? {
      PrintedPlain(chat.value);
    }
    PlainNotEmpty(a.target);
    hide ChannelOf, ParseInt64, FormatInt, TargetOf, Plain;
  }

  lemma VkTeamsNormal(a: ExportAction)
    requires ChannelOf(a.typ) == VkTeams
    ensures var r := NormaliseVkTeams(a, TargetOf(a));
            && (r.Ok? ==> ActionNormal(r.value))
            && (ActionNormal(a) <==> r == Ok(a))
  {
    ResolvedPlain(a);
    PlainNotEmpty(a.target);
    hide ChannelOf, TargetOf, Plain;
  }

  lemma WebhookNormal(a: ExportAction)
    requires ChannelOf(a.typ) == Webhook
    ensures var r := NormaliseWebhook(a, UrlOf(a));
            && (r.Ok? ==> ActionNormal(r.value))
            && (ActionNormal(a) <==> r == Ok(a))
  {
    ResolvedPlain(a);
    PlainNotEmpty(a.url);
    hide ChannelOf, UrlOf, Plain, IsWebUrl;
  }

  lemma TypeApart(a: ExportAction, typ: string)
    ensures TargetOf(a.(typ := typ)) == TargetOf(a) && UrlOf(a.(typ := typ)) == UrlOf(a)
  {
    hide Trim, IsWebUrl;
  }

  lemma ActionNormalIff(a: ExportAction)
    ensures ActionNormal(a) <==> NormaliseAction(a) == Ok(a)
    ensures NormaliseAction(a).Ok? ==> ActionNormal(NormaliseAction(a).value)
  {
    var typ := Lower(Trim(a.typ));
    var b := a.(typ := typ);
    TypesStay(a.typ);
    TypeApart(a, typ);
    assert b.typ == a.typ ==> b == a;
    hide ChannelOf, Lower, Trim, TargetOf, UrlOf, Plain, OrElse, ParseInt64, FormatInt, IsWebUrl;
    match ChannelOf(typ)
    case Telegram => TelegramNormal(b);
    case VkTeams => VkTeamsNormal(b);
    case Webhook => WebhookNormal(b);
    case Unknown =>
  }

  // ---- The whole payload ----

  type Check<!T> = T -> Result<T, Refusal>

  /** Checks a list in order; the first refusal wins. */
  function Each<T>(items: seq<T>, check: Check<T>): Result<seq<T>, Refusal> {
    if items == [] then Ok([])
    else
      var before :- Each(items[..|items| - 1], check);
      var last :- check(items[|items| - 1]);
      Ok(before + [last])
  }

  lemma {:induction false} EachItem<T>(items: seq<T>, check: Check<T>)
    ensures match Each(items, check)
            case Ok(out) => |out| == |items| && forall i :: 0 <= i < |items| ==> check(items[i]) == Ok(out[i])
            case Err(e) => exists i :: 0 <= i < |items| && check(items[i]) == Err(e)
                                       && forall j :: 0 <= j < i ==> check(items[j]).Ok?
  {
    if items != [] {
      var init := items[..|items| - 1];
      EachItem(init, check);
      if Each(init, check).Err? {
        var i :| 0 <= i < |init| && check(init[i]) == Err(Each(init, check).error)
          && forall j :: 0 <= j < i ==> check(init[j]).Ok?;
        assert check(items[i]) == Err(Each(init, check).error);
        assert forall j :: 0 <= j < i ==> init[j] == items[j];
      } else if check(items[|init|]).Err? {
        assert Each(items, check) == Err(check(items[|init|]).error);
      }
    }
  }

  lemma EachSame<T>(items: seq<T>, check: Check<T>)
    ensures Each(items, check) == Ok(items) <==> forall i :: 0 <= i < |items| ==> check(items[i]) == Ok(items[i])
  {
    EachItem(items, check);
    hide Each;
    var r := Each(items, check);
    if r.Ok? && forall i :: 0 <= i < |items| ==> check(items[i]) == Ok(items[i]) {
      assert r.value == items;
    }
  }

  /** Rewrites the items in place, one by one, and stops at the first refusal. */
  method NormaliseEach<T>(items: seq<T>, check: Check<T>) returns (r: Result<seq<T>, Refusal>)
    ensures r == Each(items, check)
  {
    var out := items;
    var i := 0;
    while i < |items|
      invariant 0 <= i <= |items| == |out|
      invariant Each(items[..i], check) == Ok(out[..i])
      invariant out[i..] == items[i..]
    {
      var x := out[i];
      EachMore(items, check, i);
      var v := check(x);
      if v.Err? {
        return Err(v.error);
      }
      ghost var done := out[..i];
      out := out[i := v.value];
      i := i + 1;
      assert out[..i] == done + [v.value];
    }
    assert items[..|items|] == items && out[..|items|] == out;
    return Ok(out);
  }

  lemma {:induction false} EachMore<T>(items: seq<T>, check: Check<T>, i: nat)
    requires i < |items| && Each(items[..i], check).Ok?
    ensures var before, x := Each(items[..i], check).value, check(items[i]);
            && (x.Ok? ==> Each(items[..i + 1], check) == Ok(before + [x.value]))
            && (x.Err? ==> Each(items, check) == Err(x.error))
    decreases |items|
  {
    var init := items[..|items| - 1];
    assert items[..i + 1][..i] == items[..i];
    if i < |init| {
      assert init[..i] == items[..i];
      EachMore(init, check, i);
    } else {
      assert init == items[..i];
    }
  }

  function HeadCheck(): Check<ExportCounter> {
    c => NormaliseHead(c)
  }

  function TriggerCheck(checks: Checks): Check<ExportTrigger> {
    t => NormaliseTrigger(t, checks)
  }

  function ReportCheck(checks: Checks): Check<ExportReport> {
    r => NormaliseReport(r, checks)
  }

  function ActionCheck(): Check<ExportAction> {
    a => NormaliseAction(a)
  }

  /** A counter's own rules: its triggers, then its reports. */
  function NormaliseOwn(c: ExportCounter, checks: Checks): Result<ExportCounter, Refusal> {
    var triggers :- Each(c.triggers, TriggerCheck(checks));
    var reports :- Each(c.reports, ReportCheck(checks));
    Ok(c.(triggers := triggers, reports := reports))
  }

  function OwnCheck(checks: Checks): Check<ExportCounter> {
    c => NormaliseOwn(c, checks)
  }

  function NormaliseFlatTrigger(t: FlatRule<TriggerBody>, checks: Checks): Result<FlatRule<TriggerBody>, Refusal> {
    var rule :- NormaliseTrigger(t.rule, checks);
    Ok(t.(rule := rule))
  }

  function NormaliseFlatReport(r: FlatRule<ReportBody>, checks: Checks): Result<FlatRule<ReportBody>, Refusal> {
    var rule :- NormaliseReport(r.rule, checks);
    Ok(r.(rule := rule))
  }

  function FlatTriggerCheck(checks: Checks): Check<FlatRule<TriggerBody>> {
    t => NormaliseFlatTrigger(t, checks)
  }

  function FlatReportCheck(checks: Checks): Check<FlatRule<ReportBody>> {
    r => NormaliseFlatReport(r, checks)
  }

  function CheckSchedule(p: Payload, checks: Checks): Result<Payload, Refusal> {
    if p.schedule != "" && checks.validator.Some? && !checks.validator.value.schedule(p.schedule) then Err(BadSchedule)
    else Ok(p)
  }

  /** The checks in their order: counter ids, each counter's rules, flat triggers, flat reports,
      destinations, schedule. */
  function Normalise(p: Payload, checks: Checks): Result<Payload, Refusal> {
    if !HasAnySettings(p) then Err(NoSettings)
    else
      var heads :- Each(p.counters, HeadCheck());
      var counters :- Each(heads, OwnCheck(checks));
      var triggers :- Each(p.triggers, FlatTriggerCheck(checks));
      var reports :- Each(p.reports, FlatReportCheck(checks));
      var actions :- Each(p.actions, ActionCheck());
      CheckSchedule(p.(counters := counters, triggers := triggers, reports := reports, actions := actions), checks)
  }

  method Validate(p: Payload, checks: Checks) returns (r: Result<Payload, Refusal>)
    ensures r == Normalise(p, checks)
  {
    hide Each, HeadCheck, OwnCheck, FlatTriggerCheck, FlatReportCheck, ActionCheck, CheckSchedule, HasAnySettings;
    if !HasAnySettings(p) {
      return Err(NoSettings);
    }
    var q := p;
    var heads := NormaliseEach(q.counters, HeadCheck());
    if heads.Err? {
      return Err(heads.error);
    }
    q := q.(counters := heads.value);
    var counters := NormaliseEach(q.counters, OwnCheck(checks));
    if counters.Err? {
      return Err(counters.error);
    }
    q := q.(counters := counters.value);
    var triggers := NormaliseEach(q.triggers, FlatTriggerCheck(checks));
    if triggers.Err? {
      return Err(triggers.error);
    }
    q := q.(triggers := triggers.value);
    var reports := NormaliseEach(q.reports, FlatReportCheck(checks));
    if reports.Err? {
      return Err(reports.error);
    }
    q := q.(reports := reports.value);
    var actions := NormaliseEach(q.actions, ActionCheck());
    if actions.Err? {
      return Err(actions.error);
    }
    q := q.(actions := actions.value);
    r := CheckSchedule(q, checks);
  }

  // ---- Normal payloads ----

  ghost predicate All<T>(items: seq<T>, normal: T -> bool) {
    forall i :: 0 <= i < |items| ==> normal(items[i])
  }

  /** What a check passes is normal, and it leaves exactly the normal values alone. */
  ghost predicate Settles<T(!new)>(check: Check<T>, normal: T -> bool) {
    && (forall x :: normal(x) <==> check(x) == Ok(x))
    && (forall x :: check(x).Ok? ==> normal(check(x).value))
  }

  lemma EachSettles<T(!new)>(items: seq<T>, check: Check<T>, normal: T -> bool)
    requires Settles(check, normal)
    ensures Each(items, check) == Ok(items) <==> All(items, normal)
    ensures Each(items, check).Ok? ==> All(Each(items, check).value, normal)
  {
    EachSame(items, check);
    EachItem(items, check);
    hide Each;
  }

  function TriggerTest(checks: Checks): ExportTrigger -> bool {
    t => TriggerNormal(t, checks)
  }

  function ReportTest(checks: Checks): ExportReport -> bool {
    r => ReportNormal(r, checks)
  }

  lemma RulesSettle(checks: Checks)
    ensures Settles(TriggerCheck(checks), TriggerTest(checks))
    ensures Settles(ReportCheck(checks), ReportTest(checks))
  {
    forall t
      ensures TriggerNormal(t, checks) <==> NormaliseTrigger(t, checks) == Ok(t)
      ensures NormaliseTrigger(t, checks).Ok? ==> TriggerNormal(NormaliseTrigger(t, checks).value, checks)
    {
      TriggerNormalIff(t, checks);
    }
    forall r
      ensures ReportNormal(r, checks) <==> NormaliseReport(r, checks) == Ok(r)
      ensures NormaliseReport(r, checks).Ok? ==> ReportNormal(NormaliseReport(r, checks).value, checks)
    {
      ReportNormalIff(r, checks);
    }
    hide TriggerNormal, NormaliseTrigger, ReportNormal, NormaliseReport;
  }

  predicate OwnNormal(c: ExportCounter, checks: Checks) {
    && (forall i :: 0 <= i < |c.triggers| ==> TriggerNormal(c.triggers[i], checks))
    && (forall i :: 0 <= i < |c.reports| ==> ReportNormal(c.reports[i], checks))
  }

  lemma OwnNormalIff(c: ExportCounter, checks: Checks)
    ensures OwnNormal(c, checks) <==> NormaliseOwn(c, checks) == Ok(c)
    ensures NormaliseOwn(c, checks).Ok? ==> OwnNormal(NormaliseOwn(c, checks).value, checks)
  {
    RulesSettle(checks);
    EachSettles(c.triggers, TriggerCheck(checks), TriggerTest(checks));
    EachSettles(c.reports, ReportCheck(checks), ReportTest(checks));
    hide Settles, Each, TriggerNormal, ReportNormal, TriggerCheck, ReportCheck;
  }

  function HeadTest(): ExportCounter -> bool {
    c => HeadNormal(c)
  }

  function OwnTest(checks: Checks): ExportCounter -> bool {
    c => OwnNormal(c, checks)
  }

  function FlatTriggerTest(checks: Checks): FlatRule<TriggerBody> -> bool {
    (t: FlatRule<TriggerBody>) => TriggerNormal(t.rule, checks)
  }

  function FlatReportTest(checks: Checks): FlatRule<ReportBody> -> bool {
    (r: FlatRule<ReportBody>) => ReportNormal(r.rule, checks)
  }

  function ActionTest(): ExportAction -> bool {
    a => ActionNormal(a)
  }

  lemma CountersSettle(checks: Checks)
    ensures Settles(HeadCheck(), HeadTest())
    ensures Settles(OwnCheck(checks), OwnTest(checks))
  {
    forall c
      ensures HeadNormal(c) <==> NormaliseHead(c) == Ok(c)
      ensures NormaliseHead(c).Ok? ==> HeadNormal(NormaliseHead(c).value)
    {
      HeadNormalIff(c);
    }
    forall c
      ensures OwnNormal(c, checks) <==> NormaliseOwn(c, checks) == Ok(c)
      ensures NormaliseOwn(c, checks).Ok? ==> OwnNormal(NormaliseOwn(c, checks).value, checks)
    {
      OwnNormalIff(c, checks);
    }
    hide HeadNormal, NormaliseHead, OwnNormal, NormaliseOwn;
  }

  lemma FlatSettle(checks: Checks)
    ensures Settles(FlatTriggerCheck(checks), FlatTriggerTest(checks))
    ensures Settles(FlatReportCheck(checks), FlatReportTest(checks))
  {
    forall t
      ensures TriggerNormal(t, checks) <==> NormaliseTrigger(t, checks) == Ok(t)
      ensures NormaliseTrigger(t, checks).Ok? ==> TriggerNormal(NormaliseTrigger(t, checks).value, checks)
    {
      TriggerNormalIff(t, checks);
    }
    forall r
      ensures ReportNormal(r, checks) <==> NormaliseReport(r, checks) == Ok(r)
      ensures NormaliseReport(r, checks).Ok? ==> ReportNormal(NormaliseReport(r, checks).value, checks)
    {
      ReportNormalIff(r, checks);
    }
    hide TriggerNormal, NormaliseTrigger, ReportNormal, NormaliseReport;
  }

  lemma ActionsSettle()
    ensures Settles(ActionCheck(), ActionTest())
  {
    forall a
      ensures ActionNormal(a) <==> NormaliseAction(a) == Ok(a)
      ensures NormaliseAction(a).Ok? ==> ActionNormal(NormaliseAction(a).value)
    {
      ActionNormalIff(a);
    }
    hide ActionNormal, NormaliseAction;
  }

  predicate ScheduleNormal(schedule: string, checks: Checks) {
    schedule == "" || checks.validator == None || checks.validator.value.schedule(schedule)
  }

  /** A payload the import would accept as it is. */
  ghost predicate PayloadNormal(p: Payload, checks: Checks) {
    && HasAnySettings(p)
    && All(p.counters, HeadTest()) && All(p.counters, OwnTest(checks))
    && All(p.triggers, FlatTriggerTest(checks)) && All(p.reports, FlatReportTest(checks))
    && All(p.actions, ActionTest())
    && ScheduleNormal(p.schedule, checks)
  }

  lemma HeadsStay(heads: seq<ExportCounter>, checks: Checks)
    requires All(heads, HeadTest()) && Each(heads, OwnCheck(checks)).Ok?
    ensures All(Each(heads, OwnCheck(checks)).value, HeadTest())
  {
    EachItem(heads, OwnCheck(checks));
    hide Each;
    var out := Each(heads, OwnCheck(checks)).value;
    forall i | 0 <= i < |out|
      ensures HeadNormal(out[i])
    {
      HeadStays(heads[i], checks);
      assert HeadTest()(heads[i]);
      assert OwnCheck(checks)(heads[i]) == Ok(out[i]);
    }
  }

  lemma HeadStays(c: ExportCounter, checks: Checks)
    ensures HeadNormal(c) && NormaliseOwn(c, checks).Ok? ==> HeadNormal(NormaliseOwn(c, checks).value)
  {
    hide Each, Trim, ParseInt64;
  }

  lemma CountersNormal(counters: seq<ExportCounter>, checks: Checks)
    ensures var heads := Each(counters, HeadCheck());
            && (heads.Ok? && Each(heads.value, OwnCheck(checks)).Ok? ==>
                  var out := Each(heads.value, OwnCheck(checks)).value;
                  All(out, HeadTest()) && All(out, OwnTest(checks)) && |out| == |counters|)
            && (All(counters, HeadTest()) && All(counters, OwnTest(checks)) ==>
                  heads == Ok(counters) && Each(counters, OwnCheck(checks)) == Ok(counters))
  {
    CountersSettle(checks);
    EachSettles(counters, HeadCheck(), HeadTest());
    EachItem(counters, HeadCheck());
    var heads := Each(counters, HeadCheck());
    if heads.Ok? {
      EachSettles(heads.value, OwnCheck(checks), OwnTest(checks));
      EachItem(heads.value, OwnCheck(checks));
      if Each(heads.value, OwnCheck(checks)).Ok? {
        HeadsStay(heads.value, checks);
      }
    }
    hide Each, Settles, All, HeadTest, OwnTest, HeadCheck, OwnCheck;
  }

  lemma RestNormal(p: Payload, checks: Checks)
    ensures var triggers, reports, actions := Each(p.triggers, FlatTriggerCheck(checks)),
            Each(p.reports, FlatReportCheck(checks)), Each(p.actions, ActionCheck());
            && (triggers.Ok? ==> All(triggers.value, FlatTriggerTest(checks)) && |triggers.value| == |p.triggers|)
            && (All(p.triggers, FlatTriggerTest(checks)) <==> triggers == Ok(p.triggers))
            && (reports.Ok? ==> All(reports.value, FlatReportTest(checks)) && |reports.value| == |p.reports|)
            && (All(p.reports, FlatReportTest(checks)) <==> reports == Ok(p.reports))
            && (actions.Ok? ==> All(actions.value, ActionTest()) && |actions.value| == |p.actions|)
            && (All(p.actions, ActionTest()) <==> actions == Ok(p.actions))
  {
    FlatSettle(checks);
    ActionsSettle();
    EachSettles(p.triggers, FlatTriggerCheck(checks), FlatTriggerTest(checks));
    EachSettles(p.reports, FlatReportCheck(checks), FlatReportTest(checks));
    EachSettles(p.actions, ActionCheck(), ActionTest());
    EachItem(p.triggers, FlatTriggerCheck(checks));
    EachItem(p.reports, FlatReportCheck(checks));
    EachItem(p.actions, ActionCheck());
    hide *;
  }

  /** Validation leaves normal payloads alone, and everything it passes is normal: so validating what
      passed once passes again, unchanged. */
  lemma NormaliseSettles(p: Payload, checks: Checks)
    ensures PayloadNormal(p, checks) <==> Normalise(p, checks) == Ok(p)
    ensures Normalise(p, checks).Ok? ==> PayloadNormal(Normalise(p, checks).value, checks)
  {
    CountersNormal(p.counters, checks);
    RestNormal(p, checks);
    hide Each, All, HeadTest, OwnTest, HeadCheck, OwnCheck, FlatTriggerTest, FlatReportTest, ActionTest,
      FlatTriggerCheck, FlatReportCheck, ActionCheck, Trim;
  }
}
