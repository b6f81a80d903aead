/** What is typed is what is saved: a rule, a report, a counter or a destination written out in its
    documented form and saved again (internal/bot/pending.go, internal/api/server.go). */
module Typed {
  import opened Text
  import opened Keyed
  import opened RuleTables
  import opened Settings
  import opened Goals
  import opened Database
  import opened PipeFields
  import opened RuleText
  import opened Saving
  import UrlFilter

  // ---- Numbers ----

  lemma PrintedShape(n: int)
    ensures FormatInt(n) != "" && Plain(FormatInt(n))
    ensures FormatInt(n)[0] == '-' || IsDigit(FormatInt(n)[0])
    ensures IsDigit(FormatInt(n)[|FormatInt(n)| - 1])
  {
    var digits := FormatNat(if n < 0 then -n else n);
    assert IsDigit(digits[0]) && IsDigit(digits[|digits| - 1]);
    hide Plain, FormatNat;
    PrintedPlain(n);
  }

  /** A percentage is typed with or without its sign. */
  function Percentage(n: int, sign: bool): string {
    FormatInt(n) + if sign then "%" else ""
  }

  lemma PercentageReads(n: int, sign: bool)
    ensures ParseInt64(TrimSuffix(Percentage(n, sign), '%')) == if IsInt64(n) then Some(n) else None
  {
    PrintedShape(n);
    ParseFormatInt(n);
    hide FormatInt, ParseInt64, Plain;
    var s := FormatInt(n);
    assert (s + "%")[..|s + "%"| - 1] == s && s + "" == s;
  }

  /** A number, or a blank in its place. */
  function Number(n: Option<int>): string {
    if n == None then "" else FormatInt(n.value)
  }

  function Numbers(numbers: seq<Option<int>>): seq<string> {
    seq(|numbers|, i requires 0 <= i < |numbers| => Number(numbers[i]))
  }

  /** The value of the k-th number: a blank or absent one has the default. */
  function ValueOf(numbers: seq<Option<int>>, k: nat, default: int): int {
    if k < |numbers| && numbers[k].Some? then numbers[k].value else default
  }

  lemma NumberReads(numbers: seq<Option<int>>, k: nat, default: int)
    requires IsInt64(default)
    ensures var n := ValueOf(numbers, k, default);
            NumberOr(Numbers(numbers), k, default) == if IsInt64(n) then Some(n) else None
  {
    if k < |numbers| && numbers[k].Some? {
      PrintedShape(numbers[k].value);
      ParseFormatInt(numbers[k].value);
    }
    hide FormatInt, ParseInt64, Plain;
  }

  // ---- The URL scope ----

  /** At most one scope, as the label it is typed with. */
  function Label(scope: Option<UrlScope>): seq<string> {
    if scope == None then [] else [(if scope.value.isRegexp then "url~" else "url=") + scope.value.value]
  }

  function FilterOf(scope: Option<UrlScope>): string {
    if scope == None then "" else Trim(scope.value.value)
  }

  function MatchOf(scope: Option<UrlScope>): string {
    if scope == None then "" else if scope.value.isRegexp then "regexp" else "contains"
  }

  predicate ScopeUsable(scope: Option<UrlScope>, compiles: string -> bool) {
    scope.Some? ==> FilterOf(scope) != "" && UrlFilter.Build(FilterOf(scope), MatchOf(scope), compiles).Ok?
  }

  /** Fields that are no scopes stay, where no pattern takes them in. */
  lemma {:induction false} TakeOthers(taken: Scope, fields: seq<string>)
    requires AllPositional(fields)
    requires taken.filter != "" && taken.match_ == UrlFilter.REGEXP ==> AllLabelled(fields)
    ensures TakeFrom(taken, fields) == Ok(taken.(rest := taken.rest + fields))
    decreases |fields|
  {
    hide IsKnownReportKeyword, ParseUrlScope;
    if fields == [] {
      assert taken.rest + fields == taken.rest;
    } else {
      assert Positional(fields[0]);
      TakeOthers(taken.(rest := taken.rest + [fields[0]]), fields[1..]);
      assert taken.rest + [fields[0]] + fields[1..] == taken.rest + fields;
    }
  }

  lemma LabelReads(scope: UrlScope)
    ensures Label(Some(scope)) == [Label(Some(scope))[0]]
    ensures ParseUrlScope(Label(Some(scope))[0]) == Some(UrlScope(Trim(scope.value), scope.isRegexp))
  {
    hide Trim;
    var field := Label(Some(scope))[0];
    assert field[4..] == scope.value;
    if !scope.isRegexp {
      assert field[3] == '=' && !("url~" <= field);
    }
  }

  /** Wherever the scope stands among the other fields, it is taken out and they stay in order; after a
      pattern they have to be labelled. */
  lemma ScopeTaken(before: seq<string>, scope: Option<UrlScope>, after: seq<string>, compiles: string -> bool)
    requires AllPositional(before) && AllPositional(after)
    requires scope.Some? && scope.value.isRegexp ==> AllLabelled(after)
    ensures var r := UrlScopeOf(before + (Label(scope) + after), compiles);
            && (r.Ok? <==> ScopeUsable(scope, compiles))
            && (r.Ok? ==> r.value == Scope(FilterOf(scope), MatchOf(scope), before + after))
  {
    hide Trim, IsKnownReportKeyword, ParseUrlScope, TakeFrom, Positional, UrlFilter.Build;
    var start := Scope("", "", []);
    TakePositional(start, before, Label(scope) + after);
    assert [] + before == before;
    if scope == None {
      assert Label(scope) + after == after;
      TakeOthers(start.(rest := before), after);
    } else {
      LabelReads(scope.value);
      TakeLabel(start.(rest := before), scope.value, after);
      if FilterOf(scope) != "" {
        TakeOthers(Scope(FilterOf(scope), MatchOf(scope), before), after);
      }
    }
  }

  lemma TakeLabel(taken: Scope, scope: UrlScope, after: seq<string>)
    requires taken.filter == ""
    ensures TakeFrom(taken, Label(Some(scope)) + after)
         == if Trim(scope.value) == "" then Err(Blank)
            else TakeFrom(Scope(Trim(scope.value), MatchOf(Some(scope)), taken.rest), after)
  {
    hide Trim, IsKnownReportKeyword, ParseUrlScope, Label;
    LabelReads(scope);
    assert (Label(Some(scope)) + after)[1..] == after;
  }

  // ---- Rules ----

  /** A rule as it is typed: name, metric, direction and threshold, then up to two numbers, with a scope
      anywhere among them. */
  function RuleFields(name: string, metric: string, direction: string, deviation: int, sign: bool,
                      before: seq<Option<int>>, scope: Option<UrlScope>, after: seq<Option<int>>): seq<string> {
    [name, metric, direction, Percentage(deviation, sign)] + (Numbers(before) + (Label(scope) + Numbers(after)))
  }

  /** Splitting, with whatever spaces around the fields, gives the fields. */
  lemma FieldsRead(typed: seq<string>, fields: seq<string>)
    requires Splittable(typed) && TrimAll(typed) == fields
    ensures TrimAll(TrimAll(Raw(Join(typed, "|")))) == fields
  {
    SplitsBack(typed);
    TrimmedFields(typed);
    TrimTrimmed(fields);
    hide Raw, Join, Splittable;
  }

  lemma NumbersApart(numbers: seq<Option<int>>)
    ensures AllPositional(Numbers(numbers))
  {
    forall i | 0 <= i < |numbers|
      ensures Positional(Numbers(numbers)[i])
    {
      if numbers[i].Some? {
        PrintedShape(numbers[i].value);
      }
    }
  }

  /** A rule that is typed is saved exactly when its name is not blank, its metric known, its direction one
      of the three, its threshold from 1 to 100, its floor a 64-bit number that is not negative, its
      baseline one to twelve weeks deep, and its scope, if any, usable; and then it is saved with just
      these values, a number left out or blank being 10 for the floor and 4 for the weeks. The scope may
      stand anywhere among the numbers, a pattern after them. */
  lemma TypedRuleIff(typed: seq<string>, name: string, metric: string, direction: string, deviation: int,
                     sign: bool, before: seq<Option<int>>, scope: Option<UrlScope>, after: seq<Option<int>>, app: App)
    requires |before| + |after| <= 2 && (scope.Some? && scope.value.isRegexp ==> after == [])
    requires Splittable(typed)
    requires TrimAll(typed) == RuleFields(name, metric, direction, deviation, sign, before, scope, after)
    ensures var r, floor, weeks := BotRule(Join(typed, "|"), app),
                ValueOf(before + after, 0, 10), ValueOf(before + after, 1, 4);
            && (r.Ok? <==>
                  && name != "" && app.metric(Lower(metric)) && Lower(direction) in ["drop", "rise", "both"]
                  && 1 <= deviation <= 100 && 0 <= floor <= INT64_MAX && 1 <= weeks <= 12
                  && ScopeUsable(scope, app.compiles))
            && (r.Ok? ==>
                  r.value == ExportRule(name, TriggerBody(Lower(metric), Lower(direction), deviation, floor, weeks,
                                                          FilterOf(scope), MatchOf(scope), 180, Some(true))))
  {
    hide *;
    var fields := RuleFields(name, metric, direction, deviation, sign, before, scope, after);
    FieldsRead(typed, fields);
    BotRuleReads(Join(typed, "|"), app);
    RuleParts(name, metric, direction, deviation, sign, before, scope, after, app.compiles);
    RuleSaved(fields, before + after, deviation, scope, sign, app);
  }

  lemma BotRuleReads(text: string, app: App)
    ensures BotRule(text, app) == RuleOf(TrimAll(TrimAll(Raw(text))), app)
  {
    hide RuleOf;
  }

  lemma RuleParts(name: string, metric: string, direction: string, deviation: int, sign: bool,
                  before: seq<Option<int>>, scope: Option<UrlScope>, after: seq<Option<int>>, compiles: string -> bool)
    requires |before| + |after| <= 2 && (scope.Some? && scope.value.isRegexp ==> after == [])
    ensures var fields := RuleFields(name, metric, direction, deviation, sign, before, scope, after);
            && 4 <= |fields| <= 7 && fields[0] == name && fields[1] == metric && fields[2] == direction
            && fields[3] == Percentage(deviation, sign)
            && (UrlScopeOf(fields[4..], compiles).Ok? <==> ScopeUsable(scope, compiles))
            && (UrlScopeOf(fields[4..], compiles).Ok? ==>
                  UrlScopeOf(fields[4..], compiles).value
                  == Scope(FilterOf(scope), MatchOf(scope), Numbers(before + after)))
  {
    hide UrlScopeOf, ScopeUsable, FilterOf, MatchOf, Percentage, AllPositional, Number;
    var fields := RuleFields(name, metric, direction, deviation, sign, before, scope, after);
    NumbersApart(before);
    NumbersApart(after);
    ScopeTaken(Numbers(before), scope, Numbers(after), compiles);
    assert fields[4..] == Numbers(before) + (Label(scope) + Numbers(after));
    assert Numbers(before) + Numbers(after) == Numbers(before + after);
  }

  /** What becomes of the parts of a rule. */
  lemma RuleSaved(fields: seq<string>, numbers: seq<Option<int>>, deviation: int, scope: Option<UrlScope>,
                  sign: bool, app: App)
    requires 4 <= |fields| <= 7 && |numbers| <= 2 && fields[3] == Percentage(deviation, sign)
    requires UrlScopeOf(fields[4..], app.compiles).Ok? <==> ScopeUsable(scope, app.compiles)
    requires UrlScopeOf(fields[4..], app.compiles).Ok? ==>
               UrlScopeOf(fields[4..], app.compiles).value == Scope(FilterOf(scope), MatchOf(scope), Numbers(numbers))
    ensures var r, floor, weeks := RuleOf(fields, app), ValueOf(numbers, 0, 10), ValueOf(numbers, 1, 4);
            && (r.Ok? <==>
                  && fields[0] != "" && app.metric(Lower(fields[1])) && Lower(fields[2]) in ["drop", "rise", "both"]
                  && 1 <= deviation <= 100 && 0 <= floor <= INT64_MAX && 1 <= weeks <= 12
                  && ScopeUsable(scope, app.compiles))
            && (r.Ok? ==>
                  r.value == ExportRule(fields[0],
                                        TriggerBody(Lower(fields[1]), Lower(fields[2]), deviation, floor, weeks,
                                                    FilterOf(scope), MatchOf(scope), 180, Some(true))))
  {
    hide UrlScopeOf, ScopeUsable, FilterOf, MatchOf, Percentage, Number, Lower, ParseInt64, TrimSuffix, NumberOr;
    PercentageReads(deviation, sign);
    NumberReads(numbers, 0, 10);
    NumberReads(numbers, 1, 4);
    hide ValueOf;
  }

  // ---- Reports ----

  /** What is wanted of a report: goals, the grouping by pages with the label it is asked for by, and a period
      with its label. */
  datatype Wish = Wish(goals: seq<int>, grouping: Option<string>, period: Option<(string, string)>) {

    predicate Labelled() {
      && (grouping.Some? ==> grouping.value in ["group=", "group_by=", "by="])
      && (period.Some? ==> period.value.0 in ["period=", "период="])
    }

    function Fields(): seq<string> {
      GoalsField() + (GroupingField() + PeriodField())
    }

    function GoalsField(): seq<string> {
      if goals == [] then [] else ["goals=" + FormatGoals(goals)]
    }

    function GroupingField(): seq<string> {
      if grouping == None then [] else [grouping.value + "url"]
    }

    function PeriodField(): seq<string> {
      if period == None then [] else [period.value.0 + period.value.1]
    }
  }

  /** A report as it is typed: a name, then its scope and what is wanted. */
  function ReportFields(name: string, scope: Option<UrlScope>, wish: Wish): seq<string> {
    [name] + (Label(scope) + wish.Fields())
  }

  lemma WantedLabelled(wish: Wish)
    requires wish.Labelled()
    ensures AllLabelled(wish.Fields())
  {
    hide FormatGoals, Labelled;
    LabelledStart("goals=", FormatGoals(wish.goals));
    LabelledStart(if wish.grouping == None then "by=" else wish.grouping.value, "url");
    LabelledStart(if wish.period == None then "period=" else wish.period.value.0,
      if wish.period == None then "" else wish.period.value.1);
  }

  lemma LabelledStart(word: string, value: string)
    requires word in ["goals=", "group=", "group_by=", "by=", "period=", "период="]
    ensures Labelled(word + value)
  {
    var field := word + value;
    assert KEYWORDS[0] == "goals=" && KEYWORDS[1] == "group=" && KEYWORDS[2] == "group_by=" && KEYWORDS[3] == "by="
           && KEYWORDS[6] == "period=" && KEYWORDS[7] == "период=";
    assert word <= field;
    assert field[0] == word[0];
    assert exists i :: 0 <= i < |KEYWORDS| && KEYWORDS[i] <= field;
  }

  /** A report's field is one with a label it knows exactly when it would not be taken into a pattern before
      it: the two lists of labels agree. */
  lemma LabelsAgree(field: string, o: Options, app: App)
    requires field != ""
    ensures OptionOf(field, o, app) == Err(UnknownField) <==> !Labelled(field)
  {
    hide GoalsFrom, SplitOn, Trim, Lower;
    assert KEYWORDS == ["goals=", "group=", "group_by=", "by=", "url=", "url~", "period=", "период="];
    if OptionOf(field, o, app) != Err(UnknownField) {
      KnownStart(field);
    }
    if IsKnownReportKeyword(field) {
      var i :| 0 <= i < |KEYWORDS| && KEYWORDS[i] <= field;
      assert KEYWORDS[i] in ["goals=", "group=", "group_by=", "by=", "url=", "url~", "period=", "период="];
    }
  }

  lemma KnownStart(field: string)
    requires "goals=" <= field || "group=" <= field || "group_by=" <= field || "by=" <= field || "period=" <= field
             || "период=" <= field
    ensures Labelled(field)
  {
    assert KEYWORDS[0] == "goals=" && KEYWORDS[1] == "group=" && KEYWORDS[2] == "group_by=" && KEYWORDS[3] == "by="
           && KEYWORDS[6] == "period=" && KEYWORDS[7] == "период=";
    assert field[0] != 'u';
  }

  /** The part names a goal by its number, with or without the label, with any spaces. */
  predicate Names(part: string, id: int) {
    Trim(part) == FormatInt(id) || ("goal:" <= Trim(part) && Trim(Trim(part)[5..]) == FormatInt(id))
  }

  /** The parts name the goals, in order, with any number of blank ones between them. */
  predicate Lists(parts: seq<string>, ids: seq<int>)
    decreases |parts|
  {
    if parts == [] then ids == []
    else
      || (Trim(parts[0]) in ["", "goal:"] && Lists(parts[1..], ids))
      || (ids != [] && Names(parts[0], ids[0]) && Lists(parts[1..], ids[1..]))
  }

  /** A list of goals is read as the goals it names, exactly when there are some and all are positive. */
  lemma {:induction false} GoalsRead(taken: seq<int>, parts: seq<string>, ids: seq<int>)
    requires Lists(parts, ids)
    ensures GoalsFrom(taken, parts) == if taken + ids != [] && Storable(ids) then Some(taken + ids) else None
    decreases |parts|
  {
    hide FormatInt, GoalOf, IsInt64, Names, Trim;
    if parts == [] {
      assert taken + ids == taken;
    } else if Trim(parts[0]) in ["", "goal:"] && Lists(parts[1..], ids) {
      BlankGoal(parts[0]);
      assert taken + [] == taken;
      GoalsRead(taken, parts[1..], ids);
    } else {
      GoalReads(parts[0], ids[0]);
      StorableTail(ids);
      if IsInt64(ids[0]) && ids[0] > 0 {
        GoalsRead(taken + [ids[0]], parts[1..], ids[1..]);
        assert taken + [ids[0]] + ids[1..] == taken + ids;
      }
    }
  }

  lemma StorableTail(ids: seq<int>)
    requires ids != []
    ensures Storable(ids) <==> IsInt64(ids[0]) && ids[0] > 0 && Storable(ids[1..])
  {
    hide IsInt64;
    assert forall i :: 1 <= i < |ids| ==> ids[1..][i - 1] == ids[i];
  }

  lemma BlankGoal(part: string)
    requires Trim(part) in ["", "goal:"]
    ensures GoalOf(part) == Some([])
  {
    assert Trim("") == "" && "goal:"[5..] == "";
    hide Trim;
  }

  lemma GoalReads(part: string, id: int)
    requires Names(part, id)
    ensures GoalOf(part) == if IsInt64(id) && id > 0 then Some([id]) else None
  {
    PrintedShape(id);
    ParseFormatInt(id);
    hide FormatInt, ParseInt64, Trim;
  }

  lemma {:induction false} PrintedLists(ids: seq<int>)
    ensures Lists(Printed(ids), ids)
    decreases |ids|
  {
    hide FormatInt;
    if ids != [] {
      PrintedShape(ids[0]);
      assert Printed(ids)[1..] == Printed(ids[1..]);
      hide Trim;
      PrintedLists(ids[1..]);
    }
  }

  /** Blank parts of a report's text are passed over. */
  lemma BlankPart(o: Options, rest: seq<string>, app: App)
    ensures OptionsFrom(o, [""] + rest, app) == OptionsFrom(o, rest, app)
  {
    hide GroupingOf, PeriodOf, GoalsFrom;
    assert ([""] + rest)[1..] == rest;
  }

  lemma GoalFieldReads(ids: seq<int>, o: Options, app: App)
    requires ids != []
    ensures OptionOf("goals=" + FormatGoals(ids), o, app)
            == if Storable(ids) then Ok(o.(goals := ids)) else Err(BadGoals)
  {
    var field := "goals=" + FormatGoals(ids);
    assert field[6..] == FormatGoals(ids);
    forall i | 0 <= i < |ids|
      ensures ',' !in Printed(ids)[i]
    {
      PrintedNoComma(ids[i]);
    }
    hide FormatInt, Storable, GroupingOf, PeriodOf;
    SplitJoin(Printed(ids), ',');
    PrintedLists(ids);
    GoalsRead([], Printed(ids), ids);
    assert [] + ids == ids;
    hide GoalsFrom, SplitOn, Join;
  }

  lemma PrintedNoComma(n: int)
    ensures ',' !in FormatInt(n)
  {
    var digits := FormatNat(if n < 0 then -n else n);
    assert AllDigits(digits);
    hide FormatNat;
  }

  lemma PeriodFieldReads(word: string, period: string, o: Options, app: App)
    requires word in ["period=", "период="]
    ensures OptionOf(word + period, o, app)
         == if app.period(period).Some? then Ok(o.(period := app.period(period).value)) else Err(UnknownPeriod)
  {
    hide GoalsFrom, SplitOn, GroupingOf;
    var field := word + period;
    assert field[0] == word[0] && field[7..] == period && word <= field;
  }

  lemma GroupFieldReads(word: string, o: Options, app: App)
    requires word in ["group=", "group_by=", "by="]
    ensures OptionOf(word + "url", o, app) == Ok(o.(groupBy := "url"))
    ensures Trim(word + "url") == word + "url"
  {
    var field := word + "url";
    assert field[..|word|] == word && field[|word|..] == "url";
    GroupTrimmed(word);
    hide *;
    GroupOption(word, field, o, app);
    UrlGroups(o);
  }

  lemma GroupTrimmed(word: string)
    requires word in ["group=", "group_by=", "by="]
    ensures Trim(word + "url") == word + "url"
  {
    TrimKeeps(word + "url");
    hide Trim;
  }

  lemma GroupOption(word: string, field: string, o: Options, app: App)
    requires word in ["group=", "group_by=", "by="] && |field| >= |word| && field[..|word|] == word
    ensures OptionOf(field, o, app) == GroupingOf(field[|word|..], o)
  {
    hide GoalsFrom, SplitOn, PeriodOf, GroupingOf;
    assert field[0] == word[0] && field[1] == word[1] && word <= field;
    assert word == "group_by=" ==> field[5] == '_';
  }

  lemma UrlGroups(o: Options)
    ensures GroupingOf("url", o) == Ok(o.(groupBy := "url"))
  {
    TrimKeeps("url");
    assert Lower("url") == "url";
  }

  lemma {:induction false} OptionsAppend(o: Options, a: seq<string>, b: seq<string>, app: App)
    ensures OptionsFrom(o, a + b, app)
         == match OptionsFrom(o, a, app) case Err(e) => Err(e) case Ok(more) => OptionsFrom(more, b, app)
    decreases |a|
  {
    hide OptionOf, Trim;
    if a == [] {
      assert a + b == b;
    } else {
      assert (a + b)[0] == a[0] && (a + b)[1..] == a[1..] + b;
      match OptionOf(Trim(a[0]), o, app) {
        case Err(_) =>
        case Ok(more) => OptionsAppend(more, a[1..], b, app);
      }
    }
  }

  lemma OneOption(o: Options, field: string, app: App)
    requires Trim(field) == field
    ensures OptionsFrom(o, [field], app) == OptionOf(field, o, app)
    ensures OptionsFrom(o, [], app) == Ok(o)
  {
    hide OptionOf, Trim;
    assert [field][1..] == [];
  }

  ghost predicate PeriodKnown(wish: Wish, app: App) {
    wish.period.Some? ==> app.period(wish.period.value.1).Some?
  }

  /** What the parts say: the goals as listed, the grouping if asked for, what the period stands for. */
  ghost function Chosen(wish: Wish, app: App): Options
    requires PeriodKnown(wish, app)
  {
    Options(wish.goals, if wish.grouping == None then "" else "url",
            if wish.period == None then "" else app.period(wish.period.value.1).value)
  }

  /** The wanted parts are read exactly when the goals are positive numbers and the period is known. */
  lemma WantedRead(wish: Wish, app: App)
    requires wish.Labelled() && AllTrimmed(wish.Fields())
    ensures var r := OptionsFrom(Options([], "", ""), wish.Fields(), app);
            && (r.Ok? <==> Storable(wish.goals) && PeriodKnown(wish, app))
            && (r.Ok? ==> r.value == Chosen(wish, app))
  {
    hide OptionOf, Trim, Trimmed, FormatGoals, OptionsFrom;
    WantedTrimmed(wish);
    var o := Options([], "", "");
    OptionsAppend(o, wish.GoalsField(), wish.GroupingField() + wish.PeriodField(), app);
    FirstRead(wish.goals, o, app);
    if Storable(wish.goals) {
      var o1 := o.(goals := wish.goals);
      OptionsAppend(o1, wish.GroupingField(), wish.PeriodField(), app);
      SecondRead(wish, o1, app);
      var o2 := o1.(groupBy := if wish.grouping == None then "" else "url");
      LastRead(wish, o2, app);
    }
  }

  lemma WantedTrimmed(wish: Wish)
    requires AllTrimmed(wish.Fields())
    ensures wish.goals != [] ==> Trim("goals=" + FormatGoals(wish.goals)) == "goals=" + FormatGoals(wish.goals)
    ensures wish.period.Some? ==> Trim(wish.PeriodField()[0]) == wish.PeriodField()[0]
  {
    hide Trim, FormatGoals, Trimmed;
    var fields := wish.Fields();
    if wish.goals != [] {
      TrimKeeps(fields[0]);
    }
    if wish.period.Some? {
      assert fields[|fields| - 1] == wish.PeriodField()[0];
      TrimKeeps(fields[|fields| - 1]);
    }
  }

  lemma FirstRead(goals: seq<int>, o: Options, app: App)
    requires o.goals == []
    requires goals != [] ==> Trim("goals=" + FormatGoals(goals)) == "goals=" + FormatGoals(goals)
    ensures OptionsFrom(o, if goals == [] then [] else ["goals=" + FormatGoals(goals)], app)
         == if Storable(goals) then Ok(o.(goals := goals)) else Err(BadGoals)
  {
    hide Trim, FormatGoals, OptionOf, IsInt64;
    if goals == [] {
    } else {
      OneOption(o, "goals=" + FormatGoals(goals), app);
      GoalFieldReads(goals, o, app);
    }
  }

  lemma SecondRead(wish: Wish, o: Options, app: App)
    requires o.groupBy == "" && wish.Labelled()
    ensures OptionsFrom(o, wish.GroupingField(), app)
         == Ok(o.(groupBy := if wish.grouping == None then "" else "url"))
  {
    hide Trim, OptionOf;
    if wish.grouping.Some? {
      GroupFieldReads(wish.grouping.value, o, app);
      OneOption(o, wish.grouping.value + "url", app);
    }
  }

  lemma LastRead(wish: Wish, o: Options, app: App)
    requires o.period == "" && wish.Labelled()
    requires wish.period.Some? ==> Trim(wish.PeriodField()[0]) == wish.PeriodField()[0]
    ensures var r := OptionsFrom(o, wish.PeriodField(), app);
            && (r.Ok? <==> PeriodKnown(wish, app))
            && (r.Ok? ==>
                  r.value == o.(period := if wish.period == None then "" else app.period(wish.period.value.1).value))
  {
    hide Trim, OptionOf;
    if wish.period.Some? {
      OneOption(o, wish.PeriodField()[0], app);
      PeriodFieldReads(wish.period.value.0, wish.period.value.1, o, app);
    }
  }

  /** A report that is typed is saved exactly when its name is not blank, its scope usable, its goals
      positive 64-bit numbers and its period known; and then with just these goals in order, grouped or not
      as typed, over what the period stands for; by whichever of its labels a part is asked for. */
  lemma TypedReportIff(typed: seq<string>, name: string, scope: Option<UrlScope>, wish: Wish, app: App)
    requires Splittable(typed) && TrimAll(typed) == ReportFields(name, scope, wish) && wish.Labelled()
    ensures var r := BotReport(Join(typed, "|"), app);
            && (r.Ok? <==>
                  && name != "" && ScopeUsable(scope, app.compiles)
                  && (forall i :: 0 <= i < |wish.goals| ==> 0 < wish.goals[i] <= INT64_MAX)
                  && (wish.period.Some? ==> app.period(wish.period.value.1).Some?))
            && (r.Ok? ==>
                  r.value == ExportRule(name, ReportBody(FilterOf(scope), MatchOf(scope), wish.goals,
                                                         if wish.grouping == None then "" else "url",
                                                         if wish.period == None then ""
                                                         else app.period(wish.period.value.1).value,
                                                         Some(true))))
  {
    hide *;
    FieldsRead(typed, ReportFields(name, scope, wish));
    ReportParts(typed, name, scope, wish, app.compiles);
    WantedRead(wish, app);
    GoalsInRange(wish.goals);
    PeriodIs(wish, app);
    ReportSaved(Join(typed, "|"), scope, wish.Fields(), app);
  }

  lemma GoalsInRange(goals: seq<int>)
    ensures Storable(goals) <==> forall i :: 0 <= i < |goals| ==> 0 < goals[i] <= INT64_MAX
  {
    if forall i :: 0 <= i < |goals| ==> 0 < goals[i] <= INT64_MAX {
      assert forall i :: 0 <= i < |goals| ==> IsInt64(goals[i]);
    }
  }

  lemma PeriodIs(wish: Wish, app: App)
    ensures PeriodKnown(wish, app) <==> (wish.period.Some? ==> app.period(wish.period.value.1).Some?)
    ensures PeriodKnown(wish, app) ==>
              Chosen(wish, app)
              == Options(wish.goals, if wish.grouping == None then "" else "url",
                         if wish.period == None then "" else app.period(wish.period.value.1).value)
  {
  }

  lemma ReportParts(typed: seq<string>, name: string, scope: Option<UrlScope>, wish: Wish, compiles: string -> bool)
    requires TrimAll(typed) == ReportFields(name, scope, wish) && wish.Labelled()
    ensures var fields, wanted := TrimAll(typed), wish.Fields();
            && fields != [] && fields[0] == name && AllTrimmed(wanted)
            && (UrlScopeOf(fields[1..], compiles).Ok? <==> ScopeUsable(scope, compiles))
            && (UrlScopeOf(fields[1..], compiles).Ok? ==>
                  UrlScopeOf(fields[1..], compiles).value == Scope(FilterOf(scope), MatchOf(scope), wanted))
  {
    hide *;
    WantedLabelled(wish);
    LabelledApart(wish.Fields());
    TrimmedFields(typed);
    WantedApart(TrimAll(typed), name, scope, wish);
    ScopeTaken([], scope, wish.Fields(), compiles);
    assert [] + (Label(scope) + wish.Fields()) == Label(scope) + wish.Fields() && [] + wish.Fields() == wish.Fields();
  }

  lemma LabelledApart(fields: seq<string>)
    ensures AllLabelled(fields) ==> AllPositional(fields)
    ensures AllPositional([])
  {
    hide IsKnownReportKeyword, Positional;
  }

  lemma WantedApart(fields: seq<string>, name: string, scope: Option<UrlScope>, wish: Wish)
    requires fields == ReportFields(name, scope, wish) && AllTrimmed(fields)
    ensures fields != [] && fields[0] == name && fields[1..] == Label(scope) + wish.Fields()
    ensures AllTrimmed(wish.Fields())
  {
    hide Wish.Fields, Trimmed, Label;
    var wanted := wish.Fields();
    forall i | 0 <= i < |wanted|
      ensures Trimmed(wanted[i])
    {
      assert wanted[i] == fields[1 + |Label(scope)| + i];
    }
  }

  lemma ReportSaved(text: string, scope: Option<UrlScope>, wanted: seq<string>, app: App)
    requires var fields := TrimAll(TrimAll(Raw(text)));
             && fields != []
             && (UrlScopeOf(fields[1..], app.compiles).Ok? <==> ScopeUsable(scope, app.compiles))
             && (UrlScopeOf(fields[1..], app.compiles).Ok? ==>
                   UrlScopeOf(fields[1..], app.compiles).value == Scope(FilterOf(scope), MatchOf(scope), wanted))
    ensures var name, o, r := TrimAll(TrimAll(Raw(text)))[0], OptionsFrom(Options([], "", ""), wanted, app),
                              BotReport(text, app);
            && (r.Ok? <==> name != "" && ScopeUsable(scope, app.compiles) && o.Ok?)
            && (r.Ok? ==>
                  r.value == ExportRule(name,
                    ReportBody(FilterOf(scope), MatchOf(scope), o.value.goals, o.value.groupBy,
                                                         o.value.period, Some(true))))
  {
    hide UrlScopeOf, ScopeUsable, FilterOf, MatchOf, TrimAll, Raw, OptionsFrom;
  }

  // ---- Counters and destinations ----

  ghost predicate Word(s: string) {
    s != "" && forall i :: 0 <= i < |s| ==> !IsSpace(s[i])
  }

  lemma {:induction false} WordEnds(w: string, later: string)
    requires (forall i :: 0 <= i < |w| ==> !IsSpace(w[i])) && (later == "" || IsSpace(later[0]))
    ensures WordLength(w + later) == |w|
  {
    hide IsSpace;
    if w == "" {
      assert w + later == later;
    } else {
      assert (w + later)[0] == w[0] && (w + later)[1..] == w[1..] + later;
      WordEnds(w[1..], later);
    }
  }

  /** Words with spaces between them are read one by one. */
  lemma {:induction false} WordsRead(words: seq<string>)
    requires forall i :: 0 <= i < |words| ==> Word(words[i])
    ensures Words(Join(words, " ")) == words
  {
    if words == [] {
    } else if |words| == 1 {
      WordEnds(words[0], "");
      assert words[0] + "" == words[0];
      assert words == [words[0]];
    } else {
      var w, rest := words[0], Join(words[1..], " ");
      WordsRead(words[1..]);
      WordEnds(w, " " + rest);
      assert w + " " + rest == w + (" " + rest);
      var text := w + (" " + rest);
      assert text[..|w|] == w && text[|w|..] == " " + rest && (" " + rest)[1..] == rest;
      assert text[0] == w[0];
    }
  }

  /** A counter that is typed with its interval, or without one, is saved exactly when its id is a number and
      the interval a positive one; and then with this name, id and token, unpolled. */
  lemma TypedCounterIff(name: string, cid: string, token: string, minutes: Option<int>)
    requires Word(name) && Word(cid) && Word(token)
    ensures var words := [name, cid, token] + if minutes == None then [] else [FormatInt(minutes.value)];
            var r := BotCounter(Join(words, " "));
            && (r.Ok? <==> ParseInt64(cid).Some? && (minutes.Some? ==> 0 < minutes.value <= INT64_MAX))
            && (r.Ok? ==>
                  r.value == (cid, CounterVals(name, token, if minutes == None then 60 else minutes.value, None)))
  {
    var words := [name, cid, token] + if minutes == None then [] else [FormatInt(minutes.value)];
    if minutes.Some? {
      PrintedWord(minutes.value);
      ParseFormatInt(minutes.value);
    }
    hide Word, FormatInt, ParseInt64, Words, Join;
    WordsRead(words);
  }

  lemma PrintedWord(n: int)
    ensures Word(FormatInt(n))
  {
    var digits := FormatNat(if n < 0 then -n else n);
    assert forall i :: 0 <= i < |digits| ==> digits[i] in digits && IsDigit(digits[i]);
    hide FormatNat;
  }

  /** A destination that is typed is saved exactly when its type is one of the three, a Telegram chat is a
      number and a web address starts as one; and then under the type's name in small letters, with the
      chat's number and target, the target alone, or the address. */
  lemma TypedDestinationIff(kind: string, target: string)
    requires Word(kind) && Word(target)
    ensures var typ, r := Lower(kind), BotDestination(Join([kind, target], " "));
            && (r.Ok? <==>
                  || (typ == "telegram" && ParseInt64(target).Some?)
                  || typ == "vkteams"
                  || (typ == "webhook" && IsWebUrl(target)))
            && (r.Ok? && typ == "telegram" ==>
                  r.value == (Address(typ, ParseInt64(target), target, ""), "telegram-" + target))
            && (r.Ok? && typ == "vkteams" ==> r.value == (Address(typ, None, target, ""), "vkteams-" + target))
            && (r.Ok? && typ == "webhook" ==> r.value == (Address(typ, None, "", target), "webhook-" + target))
  {
    hide Word, ParseInt64, Words, Join, Lower, IsWebUrl;
    WordsRead([kind, target]);
  }

  // ---- Over REST ----

  /** The request that saves a rule as it is listed. */
  function RequestOf(rule: ExportTrigger): RuleRequest {
    var b := rule.body;
    RuleRequest(rule.name, b.metric, b.direction, b.deviation, Some(b.minBaseline), b.weeks, b.urlFilter, b.urlMatch,
                b.cooldown)
  }

  /** The match word a filter is sent with, where none is given. */
  function WordFor(r: RuleRequest): string {
    if r.urlFilter != "" && r.urlMatch == "" then "contains" else r.urlMatch
  }

  /** A rule sent over REST is saved exactly when it has a name, a counter and a known metric, its direction is
      one of the three or left out, its threshold from 1 to 100 and its filter usable; what is left out is a
      drop, a floor of 10, four weeks and three hours of cooldown, and the rest is as sent. */
  lemma RestRuleIff(counter: int, r: RuleRequest, app: App)
    ensures var out := ApiRule(counter, r, app);
            && (out.Ok? <==>
                  && r.name != "" && counter > 0 && app.metric(r.metric)
                  && r.direction in ["", "drop", "rise", "both"] && 1 <= r.deviation <= 100
                  && WordFor(r) in ["", "contains", "regexp"]
                  && UrlFilter.Build(r.urlFilter, WordFor(r), app.compiles).Ok?)
            && (out.Ok? ==>
                  out.value == ExportRule(r.name,
                                          TriggerBody(Lower(r.metric), if r.direction
                                            == "" then "drop" else r.direction,
                                                      r.deviation,
                                                      if r.minBaseline.Some? then r.minBaseline.value else 10,
                                                      if r.weeks > 0 then r.weeks else 4, Trim(r.urlFilter), WordFor(r),
                                                      if r.cooldown > 0 then r.cooldown else 180, Some(true))))
  {
    hide Lower, Trim, UrlFilter.Build;
  }

  /** A counter sent over REST is saved exactly when name, id and token are given, polled every hour if no
      interval is. */
  lemma RestCounterIff(name: string, cid: string, token: string, minutes: int)
    ensures var out := ApiCounter(name, cid, token, minutes);
            && (out.Ok? <==> name != "" && cid != "" && token != "")
            && (out.Ok? ==> out.value == (cid, CounterVals(name, token, if minutes > 0 then minutes else 60, None)))
  {
  }

  /** Saving a rule of the chat, or any rule in normal form whose metric and filter are written the usual way,
      again over REST gives the same rule, enabled. */
  lemma RestRuleBack(counter: int, rule: ExportTrigger, app: App)
    requires counter > 0 && TriggerNormal(rule, ChecksOf(app))
    requires Lower(rule.body.metric) == rule.body.metric && Trim(rule.body.urlFilter) == rule.body.urlFilter
    requires UrlFilter.Build(rule.body.urlFilter, rule.body.urlMatch, app.compiles).Ok?
    requires rule.body.urlMatch in ["", "contains", "regexp"]
    ensures ApiRule(counter, RequestOf(rule), app) == Ok(rule.(body := rule.body.(enabled := Some(true))))
  {
    assert Trim("") == "";
    hide Lower, Trim, UrlFilter.Build, ApiRule;
    RestRuleIff(counter, RequestOf(rule), app);
  }
}
