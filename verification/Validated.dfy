/** Which payloads an import accepts, field by field (internal/model/export.go). */
module Validated {
  import opened Text
  import opened RuleTables
  import opened Settings

  /** The external id reads as a number. */
  predicate HeadFits(c: ExportCounter) {
    ParseInt64(Trim(c.cid)).Some?
  }

  predicate ReportFits(r: ExportReport, checks: Checks) {
    var b := r.body;
    && Trim(r.name) != "" && FilterUsable(b.urlFilter, b.urlMatch, checks)
    && (b.groupBy == "" || b.groupBy == "url")
    && (checks.validator.Some? && b.period != "" ==> checks.validator.value.period(b.period))
  }

  /** What a destination of each type is given: the general field stands in for a blank target or address. */
  function GivenTarget(a: ExportAction): string {
    if Trim(a.target) != "" then Trim(a.target) else Trim(a.destination)
  }

  function GivenUrl(a: ExportAction): string {
    if Trim(a.url) == "" && ("http://" <= a.destination || "https://" <= a.destination) then Trim(a.destination)
    else Trim(a.url)
  }

  /** Of the type's kind of address something is given, if need be in the general field. */
  predicate ActionFits(a: ExportAction) {
    var typ := Lower(Trim(a.typ));
    || (typ == "telegram" && (a.chat.Some? || ParseInt64(GivenTarget(a)).Some?))
    || (typ == "vkteams" && GivenTarget(a) != "")
    || (typ == "webhook" && ("http://" <= GivenUrl(a) || "https://" <= GivenUrl(a)))
  }

  predicate ScheduleFits(schedule: string, checks: Checks) {
    schedule != "" && checks.validator.Some? ==> checks.validator.value.schedule(schedule)
  }

  ghost predicate CounterFits(c: ExportCounter, checks: Checks) {
    && HeadFits(c)
    && (forall j :: 0 <= j < |c.triggers| ==> TriggerFits(c.triggers[j], checks))
    && (forall j :: 0 <= j < |c.reports| ==> ReportFits(c.reports[j], checks))
  }

  /** A counter's head is accepted exactly when its id reads as a number; a blank name becomes the id and a
      missing interval an hour, and the rest stays. */
  lemma HeadAcceptedIff(c: ExportCounter)
    ensures var r := NormaliseHead(c);
            && (r.Ok? <==> HeadFits(c))
            && (r.Ok? ==> r.value == c.(name := if c.name == "" then Trim(c.cid) else c.name,
                                        poll := if c.poll <= 0 then 60 else c.poll))
  {
    assert ParseInt64("") == None;
    hide Trim, ParseInt64;
  }

  /** A report is accepted exactly when it has a name, a usable filter, no grouping or the one by pages, and a
      period the application knows; a filter without a match word becomes a substring, and the rest stays. */
  lemma ReportAcceptedIff(r: ExportReport, checks: Checks)
    ensures var out := NormaliseReport(r, checks);
            && (out.Ok? <==> ReportFits(r, checks))
            && (out.Ok? ==>
                  out.value == r.(body := r.body.(urlMatch :=
                    if r.body.urlFilter != "" && r.body.urlMatch == "" then "contains" else r.body.urlMatch)))
  {
    hide Trim;
  }

  lemma TriggerFitsIff(t: ExportTrigger, checks: Checks)
    ensures NormaliseTrigger(t, checks).Ok? <==> TriggerFits(t, checks)
  {
    TriggerAcceptedIff(t, checks);
    hide Trim, Lower, NormaliseTrigger;
  }

  lemma Given(a: ExportAction)
    ensures TargetOf(a) == GivenTarget(a) && UrlOf(a) == GivenUrl(a)
  {
    hide Trim;
  }

  lemma TelegramAccepted(a: ExportAction, target: string)
    ensures var r := NormaliseTelegram(a, target);
            && (r.Ok? <==> a.chat.Some? || ParseInt64(target).Some?)
            && (r.Ok? ==>
                  var chat := if a.chat == None then ParseInt64(target) else a.chat;
                  var named := if target != "" then target else FormatInt(chat.value);
                  r.value == a.(chat := chat, target := named,
                                name := if a.name != "" then a.name else "telegram-" + named))
  {
    assert ParseInt64("") == None;
    hide ParseInt64, FormatInt;
  }

  lemma VkTeamsAccepted(a: ExportAction, target: string)
    ensures var r := NormaliseVkTeams(a, target);
            && (r.Ok? <==> target != "")
            && (r.Ok? ==> r.value == a.(target := target, name := if a.name != "" then a.name else "vkteams-" + target))
  {
  }

  lemma WebhookAccepted(a: ExportAction, url: string)
    ensures var r := NormaliseWebhook(a, url);
            && (r.Ok? <==> "http://" <= url || "https://" <= url)
            && (r.Ok? ==> r.value == a.(url := url, name := if a.name != "" then a.name else "webhook-" + url))
  {
  }

  /** A missing chat or target is filled in from the other, a missing name from the target or address, and
      the rest stays. */
  predicate Filled(a: ExportAction, d: ExportAction) {
    && d.typ == Lower(Trim(a.typ)) && d.destination == a.destination
    && d.chat == (if d.typ == "telegram" && a.chat == None then ParseInt64(GivenTarget(a)) else a.chat)
    && (d.typ == "telegram" && GivenTarget(a) == "" ==> a.chat.Some? && d.target == FormatInt(a.chat.value))
    && (d.typ != "webhook" && GivenTarget(a) != "" ==> d.target == GivenTarget(a))
    && (d.typ == "webhook" ==> d.target == a.target)
    && d.url == (if d.typ == "webhook" then GivenUrl(a) else a.url)
    && (a.name != "" ==> d.name == a.name)
    && (a.name == "" ==> d.name == d.typ + "-" + if d.typ == "webhook" then d.url else d.target)
  }

  lemma TelegramCase(a: ExportAction)
    requires Lower(Trim(a.typ)) == "telegram"
    ensures NormaliseAction(a).Ok? <==> ActionFits(a)
    ensures NormaliseAction(a).Ok? ==> Filled(a, NormaliseAction(a).value)
  {
    hide Trim, Lower, ParseInt64, FormatInt, TargetOf, UrlOf, GivenTarget, GivenUrl, NormaliseTelegram;
    Given(a);
    assert ParseInt64("") == None by { NothingRead(); }
    TelegramAccepted(a.(typ := "telegram"), GivenTarget(a));
    assert "telegram" + "-" == "telegram-";
  }

  lemma NothingRead()
    ensures ParseInt64("") == None
  {
  }

  lemma VkTeamsCase(a: ExportAction)
    requires Lower(Trim(a.typ)) == "vkteams"
    ensures NormaliseAction(a).Ok? <==> ActionFits(a)
    ensures NormaliseAction(a).Ok? ==> Filled(a, NormaliseAction(a).value)
  {
    hide Trim, Lower, ParseInt64, TargetOf, UrlOf, GivenTarget, GivenUrl, NormaliseVkTeams;
    Given(a);
    VkTeamsAccepted(a.(typ := "vkteams"), GivenTarget(a));
    assert "vkteams" + "-" == "vkteams-";
  }

  lemma WebhookCase(a: ExportAction)
    requires Lower(Trim(a.typ)) == "webhook"
    ensures NormaliseAction(a).Ok? <==> ActionFits(a)
    ensures NormaliseAction(a).Ok? ==> Filled(a, NormaliseAction(a).value)
  {
    hide Trim, Lower, ParseInt64, TargetOf, UrlOf, GivenTarget, GivenUrl, NormaliseWebhook;
    Given(a);
    WebhookAccepted(a.(typ := "webhook"), GivenUrl(a));
    assert "webhook" + "-" == "webhook-";
  }

  /** A destination is accepted exactly when its type, in any case, is telegram and it names a chat by its
      number or a target that reads as one, or vkteams and it names a target, or webhook and it names a web
      address; and then what is missing is filled in. */
  lemma ActionAcceptedIff(a: ExportAction)
    ensures NormaliseAction(a).Ok? <==> ActionFits(a)
    ensures NormaliseAction(a).Ok? ==> Filled(a, NormaliseAction(a).value)
  {
    var typ := Lower(Trim(a.typ));
    hide Trim, Lower, ParseInt64, TargetOf, UrlOf, GivenTarget, GivenUrl, Filled;
    if typ == "telegram" {
      TelegramCase(a);
    } else if typ == "vkteams" {
      VkTeamsCase(a);
    } else if typ == "webhook" {
      WebhookCase(a);
    }
  }

  /** A list passes exactly when each item does. */
  lemma EachPasses<T>(items: seq<T>, check: Check<T>)
    ensures Each(items, check).Ok? <==> forall i :: 0 <= i < |items| ==> check(items[i]).Ok?
  {
    EachItem(items, check);
    hide Each;
  }

  lemma TriggersFit(triggers: seq<ExportTrigger>, checks: Checks)
    ensures Each(triggers, TriggerCheck(checks)).Ok?
            <==> forall j :: 0 <= j < |triggers| ==> TriggerFits(triggers[j], checks)
  {
    EachPasses(triggers, TriggerCheck(checks));
    hide Each, NormaliseTrigger, TriggerFits;
    forall j | 0 <= j < |triggers|
      ensures TriggerCheck(checks)(triggers[j]).Ok? <==> TriggerFits(triggers[j], checks)
    {
      TriggerFitsIff(triggers[j], checks);
    }
  }

  lemma ReportsFit(reports: seq<ExportReport>, checks: Checks)
    ensures Each(reports, ReportCheck(checks)).Ok?
            <==> forall j :: 0 <= j < |reports| ==> ReportFits(reports[j], checks)
  {
    EachPasses(reports, ReportCheck(checks));
    hide Each, NormaliseReport, ReportFits;
    forall j | 0 <= j < |reports|
      ensures ReportCheck(checks)(reports[j]).Ok? <==> ReportFits(reports[j], checks)
    {
      ReportAcceptedIff(reports[j], checks);
    }
  }

  /** The two rounds over the counters pass exactly when each counter fits. */
  lemma CountersFit(counters: seq<ExportCounter>, checks: Checks)
    ensures var heads := Each(counters, HeadCheck());
            heads.Ok? && Each(heads.value, OwnCheck(checks)).Ok?
            <==> forall i :: 0 <= i < |counters| ==> CounterFits(counters[i], checks)
  {
    EachItem(counters, HeadCheck());
    EachPasses(counters, HeadCheck());
    var heads := Each(counters, HeadCheck());
    hide Each, NormaliseHead, NormaliseOwn, CounterFits, HeadFits;
    forall i | 0 <= i < |counters|
      ensures HeadCheck()(counters[i]).Ok? <==> HeadFits(counters[i])
    {
      HeadAcceptedIff(counters[i]);
    }
    if heads.Ok? {
      EachPasses(heads.value, OwnCheck(checks));
      forall i | 0 <= i < |counters|
        ensures OwnCheck(checks)(heads.value[i]).Ok? <==> CounterFits(counters[i], checks)
      {
        assert HeadCheck()(counters[i]) == Ok(heads.value[i]);
        OwnFits(counters[i], heads.value[i], checks);
      }
    } else {
      var i :| 0 <= i < |counters| && !HeadFits(counters[i]);
      FitsHead(counters[i], checks);
    }
  }

  lemma FitsHead(c: ExportCounter, checks: Checks)
    ensures CounterFits(c, checks) ==> HeadFits(c)
  {
  }

  lemma OwnFits(c: ExportCounter, head: ExportCounter, checks: Checks)
    requires NormaliseHead(c) == Ok(head)
    ensures NormaliseOwn(head, checks).Ok? <==> CounterFits(c, checks)
  {
    hide Each, TriggerFits, ReportFits, HeadFits, NormaliseHead;
    HeadAcceptedIff(c);
    TriggersFit(c.triggers, checks);
    ReportsFit(c.reports, checks);
  }

  lemma FlatTriggersFit(rules: seq<FlatRule<TriggerBody>>, checks: Checks)
    ensures Each(rules, FlatTriggerCheck(checks)).Ok?
            <==> forall j :: 0 <= j < |rules| ==> TriggerFits(rules[j].rule, checks)
  {
    EachPasses(rules, FlatTriggerCheck(checks));
    hide Each, NormaliseTrigger, TriggerFits;
    forall j | 0 <= j < |rules|
      ensures FlatTriggerCheck(checks)(rules[j]).Ok? <==> TriggerFits(rules[j].rule, checks)
    {
      TriggerFitsIff(rules[j].rule, checks);
    }
  }

  lemma FlatReportsFit(rules: seq<FlatRule<ReportBody>>, checks: Checks)
    ensures Each(rules, FlatReportCheck(checks)).Ok?
            <==> forall j :: 0 <= j < |rules| ==> ReportFits(rules[j].rule, checks)
  {
    EachPasses(rules, FlatReportCheck(checks));
    hide Each, NormaliseReport, ReportFits;
    forall j | 0 <= j < |rules|
      ensures FlatReportCheck(checks)(rules[j]).Ok? <==> ReportFits(rules[j].rule, checks)
    {
      ReportAcceptedIff(rules[j].rule, checks);
    }
  }

  lemma ActionsFit(actions: seq<ExportAction>)
    ensures Each(actions, ActionCheck()).Ok? <==> forall j :: 0 <= j < |actions| ==> ActionFits(actions[j])
  {
    EachPasses(actions, ActionCheck());
    hide Each, NormaliseAction, ActionFits;
    forall j | 0 <= j < |actions|
      ensures ActionCheck()(actions[j]).Ok? <==> ActionFits(actions[j])
    {
      ActionAcceptedIff(actions[j]);
    }
  }

  /** A payload is accepted exactly when it lists something or names a schedule, and every counter, rule,
      report and destination in it fits, and the schedule reads. */
  lemma PayloadAcceptedIff(p: Payload, checks: Checks)
    ensures Normalise(p, checks).Ok? <==>
            && (p.counters != [] || p.triggers != [] || p.reports != [] || p.actions != [] || Trim(p.schedule) != "")
            && (forall i :: 0 <= i < |p.counters| ==> CounterFits(p.counters[i], checks))
            && (forall i :: 0 <= i < |p.triggers| ==> TriggerFits(p.triggers[i].rule, checks))
            && (forall i :: 0 <= i < |p.reports| ==> ReportFits(p.reports[i].rule, checks))
            && (forall i :: 0 <= i < |p.actions| ==> ActionFits(p.actions[i]))
            && ScheduleFits(p.schedule, checks)
  {
    CountersFit(p.counters, checks);
    FlatTriggersFit(p.triggers, checks);
    FlatReportsFit(p.reports, checks);
    ActionsFit(p.actions);
    hide Each, Trim, HeadCheck, OwnCheck, FlatTriggerCheck, FlatReportCheck, ActionCheck, CounterFits, TriggerFits,
      ReportFits, ActionFits;
  }
}
