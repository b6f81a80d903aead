/** When a rule text with a labelled pattern is read back as it was typed (internal/bot/pending.go). */
module RuleText {
  import opened Text
  import opened PipeFields
  import UrlFilter

  // ---- A pattern with alternatives survives ----

  predicate Positional(field: string) {
    ParseUrlScope(field) == None
  }

  /** A labelled field other than a URL scope, such as goals= or period=. */
  predicate Labelled(field: string) {
    Positional(field) && IsKnownReportKeyword(field)
  }

  lemma UrlLabelsAreKeywords(field: string)
    requires !IsKnownReportKeyword(field)
    ensures Positional(field)
  {
    assert KEYWORDS[4] == "url=" && KEYWORDS[5] == "url~";
  }

  lemma {:induction false} TakePositional(taken: Scope, fields: seq<string>, later: seq<string>)
    requires taken.filter == "" || taken.match_ == UrlFilter.REGEXP
    requires forall i :: 0 <= i < |fields| ==> Positional(fields[i])
    requires taken.filter != "" ==> forall i :: 0 <= i < |fields| ==> IsKnownReportKeyword(fields[i])
    ensures TakeFrom(taken, fields + later) == TakeFrom(taken.(rest := taken.rest + fields), later)
    decreases |fields|
  {
    hide IsKnownReportKeyword;
    if fields == [] {
      assert fields + later == later && taken.rest + fields == taken.rest;
    } else {
      assert (fields + later)[0] == fields[0] && (fields + later)[1..] == fields[1..] + later;
      assert Positional(fields[0]);
      TakePositional(taken.(rest := taken.rest + [fields[0]]), fields[1..], later);
      assert taken.rest + [fields[0]] + fields[1..] == taken.rest + fields;
    }
  }

  lemma {:induction false} TakeAlternatives(taken: Scope, alts: seq<string>, later: seq<string>)
    requires taken.filter != "" && taken.match_ == UrlFilter.REGEXP
    requires forall i :: 0 <= i < |alts| ==> !IsKnownReportKeyword(alts[i])
    ensures TakeFrom(taken, alts + later) == TakeFrom(taken.(filter := Join([taken.filter] + alts, "|")), later)
    decreases |alts|
  {
    hide IsKnownReportKeyword;
    if alts == [] {
      assert alts + later == later;
      assert [taken.filter] + alts == [taken.filter];
    } else {
      assert (alts + later)[0] == alts[0] && (alts + later)[1..] == alts[1..] + later;
      UrlLabelsAreKeywords(alts[0]);
      TakeAlternatives(taken.(filter := taken.filter + "|" + alts[0]), alts[1..], later);
      JoinFirstTwo(taken.filter, alts[0], alts[1..]);
      assert [taken.filter] + alts == [taken.filter, alts[0]] + alts[1..];
    }
  }

  lemma JoinFirstTwo(a: string, b: string, later: seq<string>)
    ensures Join([a + "|" + b] + later, "|") == Join([a, b] + later, "|")
  {
    assert ([a, b] + later)[1..] == [b] + later;
    if later == [] {
      assert [b] + later == [b];
    } else {
      JoinAppend([b], later, "|");
      JoinAppend([a + "|" + b], later, "|");
    }
  }

  /** The pattern's own pipes split it into alternatives that can be put together again: none starts
      or ends with a space, the first one is not empty, and none of the others looks like a labelled
      field. */
  predicate Readable(pattern: string) {
    var alts := Raw(pattern);
    && alts[0] != ""
    && (forall i :: 0 <= i < |alts| ==> Trimmed(alts[i]))
    && (forall i :: 1 <= i < |alts| ==> !IsKnownReportKeyword(alts[i]))
  }

  /** The brackets the reader counts are closed at the end, and no backslash is left over. */
  predicate Closed(pattern: string) {
    After(TopLevel, pattern) == TopLevel
  }

  lemma {:induction false} RawEndsLikeText(st: Reader, cur: string, text: string)
    requires Whole(TopLevel, cur) && After(TopLevel, cur) == st
    ensures var raw := RawFrom(st, cur, text); After(TopLevel, raw[|raw| - 1]) == After(st, text)
    decreases |text|
  {
    if text != "" {
      if Separates(st, text[0]) {
        RawEndsLikeText(TopLevel, "", text[1..]);
      } else {
        WholeAppend(TopLevel, cur, text[0]);
        RawEndsLikeText(Step(st, text[0]), cur + [text[0]], text[1..]);
      }
    }
  }

  lemma PlainRune(c: char, x: string)
    requires !Separates(TopLevel, c) && Step(TopLevel, c) == TopLevel
    ensures Whole(TopLevel, [c] + x) == Whole(TopLevel, x)
    ensures After(TopLevel, [c] + x) == After(TopLevel, x)
  {
    assert ([c] + x)[1..] == x;
  }

  lemma LabelJoins(alts: seq<string>)
    requires alts != []
    ensures Join(["url~" + alts[0]] + alts[1..], "|") == "url~" + Join(alts, "|")
  {
    hide Join;
    var first, later := alts[0], alts[1..];
    assert alts == [first] + later;
    JoinOne(first);
    JoinOne("url~" + first);
    if later == [] {
      assert alts == [first] && ["url~" + first] + later == ["url~" + first];
    } else {
      JoinAppend(["url~" + first], later, "|");
      JoinAppend([first], later, "|");
    }
  }

  predicate Clean(fields: seq<string>) {
    forall i :: 0 <= i < |fields| ==> Neutral(fields[i]) && Trimmed(fields[i])
  }

  /** The fields the rule text really has: the pattern's alternatives stand apart. */
  function Spread(before: seq<string>, pattern: string, labelled: seq<string>): seq<string> {
    before + (["url~" + Raw(pattern)[0]] + Raw(pattern)[1..] + labelled)
  }

  lemma EmptyReads()
    ensures Whole(TopLevel, "") && After(TopLevel, "") == TopLevel
  {
  }

  lemma RawReads(pattern: string)
    ensures Splittable(Raw(pattern))
    ensures Closed(pattern) ==> Neutral(Raw(pattern)[|Raw(pattern)| - 1])
  {
    EmptyReads();
    hide RawFrom, Whole, After;
    RawSplittable(TopLevel, "", pattern);
    RawEndsLikeText(TopLevel, "", pattern);
  }

  /** Putting the label in front of the first field changes nothing about the brackets. */
  lemma LabelSplittable(alts: seq<string>)
    requires Splittable(alts)
    ensures Splittable(["url~" + alts[0]] + alts[1..])
    ensures Neutral(alts[|alts| - 1]) ==> var l := ["url~" + alts[0]] + alts[1..]; Neutral(l[|l| - 1])
  {
    hide Whole, After;
    var x := alts[0];
    LabelReads(x);
    var l := ["url~" + x] + alts[1..];
    assert forall i :: 1 <= i < |l| ==> l[i] == alts[i];
  }

  lemma LabelReads(x: string)
    ensures Whole(TopLevel, "url~" + x) == Whole(TopLevel, x) && After(TopLevel, "url~" + x) == After(TopLevel, x)
  {
    hide Whole, After;
    PlainRune('~', x);
    PlainRune('l', "~" + x);
    PlainRune('r', "l" + ("~" + x));
    PlainRune('u', "r" + ("l" + ("~" + x)));
    assert "url~" + x == "u" + ("r" + ("l" + ("~" + x)));
  }

  lemma SpreadSplittable(before: seq<string>, pattern: string, after: seq<string>)
    requires Clean(before) && Clean(after) && (after == [] || Closed(pattern))
    ensures Splittable(Spread(before, pattern, after))
  {
    RawReads(pattern);
    LabelSplittable(Raw(pattern));
    hide Neutral, Trimmed, Raw, Whole, Closed;
    var l := ["url~" + Raw(pattern)[0]] + Raw(pattern)[1..];
    assert after == [] ==> l + after == l;
    assert after != [] ==> Neutral(after[|after| - 1]);
    NeutralWhole(before + (l + after));
  }

  lemma NeutralWhole(fields: seq<string>)
    ensures forall i :: 0 <= i < |fields| && Neutral(fields[i]) ==> Whole(TopLevel, fields[i])
  {
    hide Whole, After;
  }

  lemma SpreadTrimmed(before: seq<string>, pattern: string, after: seq<string>)
    requires Clean(before) && Clean(after) && Readable(pattern)
    ensures AllTrimmed(Spread(before, pattern, after))
  {
    hide Neutral, Raw;
    var x := Raw(pattern)[0];
    assert ("url~" + x)[|"url~" + x| - 1] == x[|x| - 1];
  }

  lemma SpreadJoins(before: seq<string>, pattern: string, labelled: seq<string>)
    ensures Join(Spread(before, pattern, labelled), "|") == Join(before + (["url~" + pattern] + labelled), "|")
  {
    hide Raw, Join;
    var alts := Raw(pattern);
    var spread := ["url~" + alts[0]] + alts[1..];
    LabelJoins(alts);
    RawLossless(pattern);
    JoinOne("url~" + pattern);
    if labelled == [] {
      assert spread + labelled == spread && ["url~" + pattern] + labelled == ["url~" + pattern];
    } else {
      JoinAppend(spread, labelled, "|");
      JoinAppend(["url~" + pattern], labelled, "|");
    }
    if before == [] {
      assert before + (spread + labelled) == spread + labelled;
      assert before + (["url~" + pattern] + labelled) == ["url~" + pattern] + labelled;
    } else {
      JoinAppend(before, spread + labelled, "|");
      JoinAppend(before, ["url~" + pattern] + labelled, "|");
    }
  }

  lemma JoinOne(s: string)
    ensures Join([s], "|") == s
  {
  }

  lemma {:induction false} TrimTrimmed(fields: seq<string>)
    requires AllTrimmed(fields)
    ensures TrimAll(fields) == fields
  {
    forall i | 0 <= i < |fields|
      ensures Trim(fields[i]) == fields[i]
    {
      TrimKeeps(fields[i]);
    }
  }

  lemma TakeFirst(rest: seq<string>, value: string, later: seq<string>)
    requires value != "" && Trimmed(value)
    ensures TakeFrom(Scope("", "", rest), ["url~" + value] + later)
         == TakeFrom(Scope(value, UrlFilter.REGEXP, rest), later)
  {
    hide Trim, Trimmed;
    var first := "url~" + value;
    assert ([first] + later)[1..] == later;
    assert first[4..] == value;
    TrimKeeps(value);
  }

  lemma TakeSpread(before: seq<string>, pattern: string, labelled: seq<string>)
    requires Readable(pattern)
    requires forall i :: 0 <= i < |before| ==> Positional(before[i])
    requires forall i :: 0 <= i < |labelled| ==> Labelled(labelled[i])
    ensures TakeFrom(Scope("", "", []), Spread(before, pattern, labelled))
         == Ok(Scope(pattern, UrlFilter.REGEXP, before + labelled))
  {
    hide Raw, IsKnownReportKeyword, Positional, Join, Trimmed, TakeFrom, After;
    var alts := Raw(pattern);
    var others := alts[1..] + labelled;
    TakePositional(Scope("", "", []), before, ["url~" + alts[0]] + alts[1..] + labelled);
    assert [] + before == before;
    assert ["url~" + alts[0]] + alts[1..] + labelled == ["url~" + alts[0]] + others;
    TakeFirst(before, alts[0], others);
    TakeAlternatives(Scope(alts[0], UrlFilter.REGEXP, before), alts[1..], labelled);
    assert [alts[0]] + alts[1..] == alts;
    RawLossless(pattern);
    assert labelled + [] == labelled;
    TakePositional(Scope(pattern, UrlFilter.REGEXP, before), labelled, []);
    TakeNothing(Scope(pattern, UrlFilter.REGEXP, before + labelled));
  }

  lemma TakeNothing(taken: Scope)
    ensures TakeFrom(taken, []) == Ok(taken)
  {
  }

  /** The rule text with a labelled pattern among other fields. */
  function RuleText(before: seq<string>, pattern: string, after: seq<string>): string {
    Join(before + (["url~" + pattern] + after), "|")
  }

  /** Where the pattern can be read back and the fields around it are in their places, the scope comes out
      as it was typed: the pattern whole, the other fields in order. */
  lemma PatternSurvives(before: seq<string>, pattern: string, after: seq<string>)
    requires Readable(pattern) && Clean(before) && Clean(after) && (after == [] || Closed(pattern))
    requires AllPositional(before) && AllLabelled(after)
    ensures TakeFrom(Scope("", "", []), TrimAll(Raw(RuleText(before, pattern, after))))
         == Ok(Scope(pattern, UrlFilter.REGEXP, before + after))
  {
    hide Raw, Clean, Positional, Labelled, Splittable, Join, TakeFrom, TrimAll, Readable, Closed;
    var fields := Spread(before, pattern, after);
    SpreadSplittable(before, pattern, after);
    SpreadTrimmed(before, pattern, after);
    SpreadJoins(before, pattern, after);
    SplitsBack(fields);
    TrimTrimmed(fields);
    TakeSpread(before, pattern, after);
  }

  predicate AllPositional(fields: seq<string>) {
    forall i :: 0 <= i < |fields| ==> Positional(fields[i])
  }

  predicate AllLabelled(fields: seq<string>) {
    forall i :: 0 <= i < |fields| ==> Labelled(fields[i])
  }

  // ---- And only then ----

  /** The length of a list of fields with a pipe after each. */
  function Weight(fields: seq<string>): nat {
    if fields == [] then 0 else |fields[0]| + 1 + Weight(fields[1..])
  }

  lemma {:induction false} WeightAppend(a: seq<string>, b: seq<string>)
    ensures Weight(a + b) == Weight(a) + Weight(b)
  {
    if a == [] {
      assert a + b == b;
    } else {
      assert (a + b)[1..] == a[1..] + b;
      WeightAppend(a[1..], b);
    }
  }

  lemma {:induction false} JoinWeighs(fields: seq<string>)
    requires fields != []
    ensures |Join(fields, "|")| + 1 == Weight(fields)
  {
    if |fields| > 1 {
      JoinWeighs(fields[1..]);
    } else {
      assert fields[1..] == [];
    }
  }

  lemma {:induction false} TrimLeftLength(s: string)
    ensures |TrimLeft(s)| <= |s| && (|TrimLeft(s)| == |s| ==> TrimLeft(s) == s)
  {
    if s != "" && IsSpace(s[0]) {
      TrimLeftLength(s[1..]);
    }
  }

  lemma TrimLength(s: string)
    ensures |Trim(s)| <= |s| && (|Trim(s)| == |s| ==> Trim(s) == s && Trimmed(s))
  {
    TrimLeftLength(s);
    TrimRightEnds(TrimLeft(s));
    TrimTrims(s);
  }

  lemma {:induction false} TrimWeighs(fields: seq<string>)
    ensures Weight(TrimAll(fields)) <= Weight(fields)
    ensures Weight(TrimAll(fields)) == Weight(fields) ==> AllTrimmed(fields) && TrimAll(fields) == fields
  {
    hide Trim, Trimmed;
    if fields != [] {
      TrimLength(fields[0]);
      TrimWeighs(fields[1..]);
      assert TrimAll(fields)[1..] == TrimAll(fields[1..]);
      assert [fields[0]] + fields[1..] == fields;
    }
  }

  /** The fields after a pattern that join it, and those that do not. */
  function Joining(fields: seq<string>): seq<string> {
    if fields == [] then []
    else (if IsKnownReportKeyword(fields[0]) then [] else [fields[0]]) + Joining(fields[1..])
  }

  function Apart(fields: seq<string>): seq<string> {
    if fields == [] then []
    else (if IsKnownReportKeyword(fields[0]) then [fields[0]] else []) + Apart(fields[1..])
  }

  lemma {:induction false} JoiningWeighs(fields: seq<string>)
    ensures Weight(Joining(fields)) + Weight(Apart(fields)) == Weight(fields)
    ensures forall i :: 0 <= i < |Joining(fields)| ==> !IsKnownReportKeyword(Joining(fields)[i])
  {
    hide IsKnownReportKeyword;
    if fields != [] {
      JoiningWeighs(fields[1..]);
      WeightAppend(if IsKnownReportKeyword(fields[0]) then [] else [fields[0]], Joining(fields[1..]));
      WeightAppend(if IsKnownReportKeyword(fields[0]) then [fields[0]] else [], Apart(fields[1..]));
    }
  }

  /** One field after a taken pattern. */
  lemma TakeOneMore(taken: Scope, field: string, later: seq<string>)
    requires taken.filter != "" && taken.match_ == UrlFilter.REGEXP
    ensures TakeFrom(taken, [field] + later)
         == if !Positional(field) then Err(GivenTwice)
            else if IsKnownReportKeyword(field) then TakeFrom(taken.(rest := taken.rest + [field]), later)
            else TakeFrom(taken.(filter := taken.filter + "|" + field), later)
  {
    hide IsKnownReportKeyword, ParseUrlScope;
    assert ([field] + later)[1..] == later;
  }

  /** What comes of a taken pattern and the fields after it: each joins it or stays apart, and another
      scope is refused. */
  function Sorted(taken: Scope, fields: seq<string>): Result<Scope, ScopeError> {
    if AllPositional(fields) then
      Ok(Scope(Join([taken.filter] + Joining(fields), "|"), UrlFilter.REGEXP, taken.rest + Apart(fields)))
    else Err(GivenTwice)
  }

  lemma {:induction false} TakeSorts(taken: Scope, fields: seq<string>)
    requires taken.filter != "" && taken.match_ == UrlFilter.REGEXP
    ensures TakeFrom(taken, fields) == Sorted(taken, fields)
    decreases |fields|
  {
    if fields == [] {
      assert [taken.filter] + Joining(fields) == [taken.filter] && taken.rest + Apart(fields) == taken.rest;
    } else {
      var field, later := fields[0], fields[1..];
      assert fields == [field] + later;
      TakeOneMore(taken, field, later);
      SortOneMore(taken, field, later);
      hide IsKnownReportKeyword, Positional, TakeFrom, Sorted;
      if Positional(field) {
        if IsKnownReportKeyword(field) {
          TakeSorts(taken.(rest := taken.rest + [field]), later);
        } else {
          TakeSorts(taken.(filter := taken.filter + "|" + field), later);
        }
      }
    }
  }

  lemma SortOneMore(taken: Scope, field: string, later: seq<string>)
    ensures Sorted(taken, [field] + later)
         == if !Positional(field) then Err(GivenTwice)
            else if IsKnownReportKeyword(field) then Sorted(taken.(rest := taken.rest + [field]), later)
            else Sorted(taken.(filter := taken.filter + "|" + field), later)
  {
    PositionalCons(field, later);
    hide IsKnownReportKeyword, Positional, AllPositional, Join;
    var fields := [field] + later;
    assert fields[0] == field && fields[1..] == later;
    if IsKnownReportKeyword(field) {
      assert [] + Joining(later) == Joining(later);
      assert taken.rest + [field] + Apart(later) == taken.rest + ([field] + Apart(later));
    } else {
      JoinFirstTwo(taken.filter, field, Joining(later));
      assert [taken.filter] + ([field] + Joining(later)) == [taken.filter, field] + Joining(later);
      assert [] + Apart(later) == Apart(later);
    }
  }

  lemma PositionalCons(field: string, later: seq<string>)
    ensures AllPositional([field] + later) <==> Positional(field) && AllPositional(later)
  {
    hide Positional;
    var fields := [field] + later;
    assert fields[0] == field;
    assert forall i :: 0 <= i < |later| ==> fields[i + 1] == later[i];
  }

  lemma {:induction false} ApartLabelled(fields: seq<string>)
    requires AllPositional(fields)
    ensures AllLabelled(Apart(fields))
  {
    hide IsKnownReportKeyword, Positional;
    if fields != [] {
      ApartLabelled(fields[1..]);
    }
  }

  /** After a scope was taken a second one is refused. */
  lemma {:induction false} SecondRefused(taken: Scope, fields: seq<string>, i: nat)
    requires taken.filter != "" && i < |fields| && !Positional(fields[i])
    ensures TakeFrom(taken, fields).Err?
    decreases |fields|
  {
    hide IsKnownReportKeyword;
    if Positional(fields[0]) {
      SecondRefused(taken.(filter := taken.filter + "|" + fields[0]), fields[1..], i - 1);
      SecondRefused(taken.(rest := taken.rest + [fields[0]]), fields[1..], i - 1);
    }
  }

  /** So the fields before the scope that is taken are no scopes. */
  lemma {:induction false} BeforePositional(rest: seq<string>, before: seq<string>, later: seq<string>)
    requires later != [] && !Positional(later[0])
    requires TakeFrom(Scope("", "", rest), before + later).Ok?
    ensures AllPositional(before)
    decreases |before|
  {
    hide IsKnownReportKeyword;
    if before != [] {
      var all := before + later;
      assert all[0] == before[0] && all[1..] == before[1..] + later;
      if Positional(before[0]) {
        BeforePositional(rest + [before[0]], before[1..], later);
      } else {
        var scope := ParseUrlScope(before[0]).value;
        assert all[1..][|before| - 1] == later[0];
        if scope.value != "" {
          SecondRefused(Scope(scope.value, if scope.isRegexp then UrlFilter.REGEXP else UrlFilter.CONTAINS, rest),
            all[1..], |before| - 1);
        }
      }
    }
  }

  // ---- What the reader makes of the rule text, whatever the pattern ----

  /** What follows the label in the text. */
  function Tail(pattern: string, after: seq<string>): string {
    if after == [] then pattern else pattern + "|" + Join(after, "|")
  }

  lemma {:induction false} RawCur(st: Reader, a: string, b: string, text: string)
    ensures RawFrom(st, a + b, text) == [a + RawFrom(st, b, text)[0]] + RawFrom(st, b, text)[1..]
    decreases |text|
  {
    if text == "" {
      assert [a + b] + [b][1..] == [a + b];
    } else if Separates(st, text[0]) {
      var later := RawFrom(Step(st, text[0]), "", text[1..]);
      assert ([b] + later)[1..] == later;
    } else {
      RawCur(Step(st, text[0]), a, b + [text[0]], text[1..]);
      assert a + b + [text[0]] == a + (b + [text[0]]);
    }
  }

  lemma RawLabel(text: string)
    ensures Raw("url~" + text) == ["url~" + Raw(text)[0]] + Raw(text)[1..]
  {
    hide RawFrom;
    var t1, t2, t3 := "~" + text, "l~" + text, "rl~" + text;
    assert "url~" + text == "u" + t3 && t3 == "r" + t2 && t2 == "l" + t1;
    RawPlain("", 'u', t3);
    RawPlain("u", 'r', t2);
    RawPlain("ur", 'l', t1);
    RawPlain("url", '~', text);
    assert "" + "u" == "u" && "u" + "r" == "ur" && "ur" + "l" == "url" && "url" + "~" == "url~"
           && "url~" + "" == "url~";
    RawCur(TopLevel, "url~", "", text);
  }

  lemma RawPlain(cur: string, c: char, text: string)
    requires !Separates(TopLevel, c) && Step(TopLevel, c) == TopLevel
    ensures RawFrom(TopLevel, cur, [c] + text) == RawFrom(TopLevel, cur + [c], text)
  {
    assert ([c] + text)[1..] == text;
  }

  lemma {:induction false} RawAfterNeutral(before: seq<string>, text: string)
    requires Clean(before)
    ensures Raw(Join(before + [text], "|")) == before + Raw(text)
  {
    hide RawFrom, Trimmed;
    if before == [] {
      assert before + [text] == [text];
      JoinOne(text);
      assert before + Raw(text) == Raw(text);
    } else {
      var rest := before[1..];
      assert before + [text] == [before[0]] + (rest + [text]) && before == [before[0]] + rest;
      RawAfterNeutral(rest, text);
      RawField(TopLevel, "", before[0], Join(rest + [text], "|"));
      assert "" + before[0] == before[0];
      assert [before[0]] + (rest + Raw(text)) == [before[0]] + rest + Raw(text);
    }
  }

  lemma RuleTextReads(before: seq<string>, pattern: string, after: seq<string>)
    requires Clean(before)
    ensures var fields := Raw(Tail(pattern, after));
            Raw(RuleText(before, pattern, after)) == before + (["url~" + fields[0]] + fields[1..])
  {
    var marked := "url~" + Tail(pattern, after);
    assert RuleText(before, pattern, after) == Join(before + [marked], "|") by {
      TailJoins(pattern, after);
      JoinOne(marked);
      if before == [] {
        assert before + (["url~" + pattern] + after) == ["url~" + pattern] + after && before + [marked] == [marked];
      } else {
        JoinAppend(before, ["url~" + pattern] + after, "|");
        JoinAppend(before, [marked], "|");
      }
    }
    hide Join, Raw, Clean;
    RawAfterNeutral(before, marked);
    RawLabel(Tail(pattern, after));
  }

  lemma TailJoins(pattern: string, after: seq<string>)
    ensures Join(["url~" + pattern] + after, "|") == "url~" + Tail(pattern, after)
  {
    var marked := "url~" + pattern;
    JoinOne(marked);
    if after == [] {
      assert [marked] + after == [marked];
    } else {
      JoinAppend([marked], after, "|");
      assert marked + "|" + Join(after, "|") == "url~" + (pattern + "|" + Join(after, "|"));
    }
  }

  lemma TailWeighs(pattern: string, after: seq<string>)
    ensures Weight(Raw(Tail(pattern, after))) == |pattern| + 1 + Weight(after)
  {
    hide Raw;
    RawLossless(Tail(pattern, after));
    JoinWeighs(Raw(Tail(pattern, after)));
    if after != [] {
      JoinWeighs(after);
    }
  }

  /** Where a pipe does not separate, the fields before it stand and the last one runs on. */
  lemma {:induction false} RunsOn(st: Reader, cur: string, f: string, text: string)
    requires !Separates(After(st, f), '|')
    ensures var a, b := RawFrom(st, cur, f), RawFrom(st, cur, f + "|" + text);
            && |a| <= |b| && (forall i :: 0 <= i < |a| - 1 ==> b[i] == a[i])
            && a[|a| - 1] + "|" <= b[|a| - 1]
    decreases |f|
  {
    var all := f + "|" + text;
    if f == "" {
      assert all[0] == '|' && all[1..] == text;
      RawStartsWith(Step(st, '|'), cur + ['|'], text);
    } else {
      assert all[0] == f[0] && all[1..] == f[1..] + "|" + text;
      if Separates(st, f[0]) {
        RunsOn(Step(st, f[0]), "", f[1..], text);
        var a, b := RawFrom(Step(st, f[0]), "", f[1..]), RawFrom(Step(st, f[0]), "", f[1..] + "|" + text);
        RunsOnBehind(cur, a, b);
      } else {
        RunsOn(Step(st, f[0]), cur + [f[0]], f[1..], text);
      }
    }
  }

  lemma RunsOnBehind(cur: string, a: seq<string>, b: seq<string>)
    requires a != [] && |a| <= |b| && (forall i :: 0 <= i < |a| - 1 ==> b[i] == a[i]) && a[|a| - 1] + "|" <= b[|a| - 1]
    ensures var a', b' := [cur] + a, [cur] + b;
            && (forall i :: 0 <= i < |a'| - 1 ==> b'[i] == a'[i]) && a'[|a'| - 1] + "|" <= b'[|a'| - 1]
  {
    var a', b' := [cur] + a, [cur] + b;
    forall i | 0 <= i < |a'| - 1
      ensures b'[i] == a'[i]
    {
      assert i > 0 ==> b'[i] == b[i - 1] && a'[i] == a[i - 1];
    }
    assert b'[|a'| - 1] == b[|a| - 1];
  }

  lemma {:induction false} RawStartsWith(st: Reader, cur: string, text: string)
    ensures cur <= RawFrom(st, cur, text)[0]
    decreases |text|
  {
    if text != "" && !Separates(st, text[0]) {
      RawStartsWith(Step(st, text[0]), cur + [text[0]], text[1..]);
    }
  }

  /** A field that runs on from one that is no labelled field is none either: no label contains a pipe. */
  lemma NoLabelRunsOn(f: string, g: string)
    requires !IsKnownReportKeyword(f) && f + "|" <= g
    ensures !IsKnownReportKeyword(g)
  {
    forall i | 0 <= i < |KEYWORDS| && KEYWORDS[i] <= g
      ensures KEYWORDS[i] <= f
    {
      LabelsHaveNoPipe(i);
      PrefixBeforePipe(KEYWORDS[i], f, g);
    }
  }

  lemma PrefixBeforePipe(k: string, f: string, g: string)
    requires '|' !in k && f + "|" <= g && k <= g
    ensures k <= f
  {
    assert forall i :: 0 <= i < |k| ==> g[i] == k[i] && k[i] in k;
    assert g[|f|] == (f + "|")[|f|] == '|';
    assert forall i :: 0 <= i < |f| ==> g[i] == (f + "|")[i] == f[i];
  }

  lemma LabelsHaveNoPipe(i: nat)
    requires i < |KEYWORDS|
    ensures '|' !in KEYWORDS[i]
  {
  }

  lemma {:induction false} JoiningStarts(fields: seq<string>, n: nat)
    requires n <= |fields| && forall i :: 0 <= i < n ==> !IsKnownReportKeyword(fields[i])
    ensures n <= |Joining(fields)| && forall i :: 0 <= i < n ==> Joining(fields)[i] == fields[i]
  {
    hide IsKnownReportKeyword;
    if n > 0 {
      JoiningStarts(fields[1..], n - 1);
    }
  }

  lemma {:induction false} JoiningSplittable(x: string, fields: seq<string>)
    requires Splittable([x] + fields)
    ensures Splittable([x] + Joining(fields))
    decreases |fields|
  {
    hide IsKnownReportKeyword, Whole, After;
    if fields == [] {
      assert [x] + Joining(fields) == [x] + fields;
    } else {
      var later := fields[1..];
      var all := [x] + fields;
      assert all[0] == x && [fields[0]] + later == fields;
      SplittableTail(all);
      assert all[1..] == fields;
      JoiningSplittable(fields[0], later);
      var sub := [fields[0]] + Joining(later);
      assert sub[1..] == Joining(later);
      if Joining(later) != [] {
        SplittableTail(sub);
      }
      NeutralWhole([x]);
      assert [x][0] == x;
      if IsKnownReportKeyword(fields[0]) {
        assert [] + Joining(later) == Joining(later);
        if Joining(later) != [] {
          SplittableCons(x, Joining(later));
        } else {
          assert [x] + Joining(fields) == [x];
        }
      } else {
        SplittableCons(x, sub);
      }
    }
  }

  lemma SplittableTail(fields: seq<string>)
    requires Splittable(fields) && |fields| > 1
    ensures Neutral(fields[0]) && Splittable(fields[1..])
  {
    hide Whole, After, Neutral;
    var rest := fields[1..];
    assert forall i :: 0 <= i < |rest| ==> rest[i] == fields[i + 1];
  }

  lemma SplittableCons(x: string, fields: seq<string>)
    requires Neutral(x) && Splittable(fields)
    ensures Splittable([x] + fields)
  {
    hide Whole, After, Neutral;
    var all := [x] + fields;
    assert forall i :: 1 <= i < |all| ==> all[i] == fields[i - 1];
  }

  // ---- The exact condition ----

  lemma {:induction false} TrimRightKeeps(a: string, x: string)
    requires a != "" && !IsSpace(a[|a| - 1])
    ensures TrimRight(a + x) == a + TrimRight(x)
  {
    if x != "" {
      assert (a + x)[..|a + x| - 1] == a + x[..|x| - 1];
      TrimRightKeeps(a, x[..|x| - 1]);
    } else {
      assert a + x == a && a + TrimRight(x) == a;
    }
  }

  /** What a labelled field says once it is trimmed. */
  function ValueOf(x: string): string {
    var f := Trim("url~" + x);
    if |f| < 4 then "" else Trim(f[4..])
  }

  /** The trimmed field still carries the label; its value is as long as what followed the label only
      when that was trimmed. */
  lemma LabelValue(x: string)
    ensures var f := Trim("url~" + x);
            "url~" <= f && !Positional(f) && ParseUrlScope(f) == Some(UrlScope(ValueOf(x), true))
    ensures |ValueOf(x)| <= |x| && (|ValueOf(x)| == |x| ==> ValueOf(x) == x && Trimmed(x))
  {
    var l := "url~" + x;
    assert TrimLeft(l) == l;
    TrimRightKeeps("url~", x);
    var right := TrimRight(x);
    TrimRightEnds(x);
    assert Trim(l) == "url~" + right && ("url~" + right)[4..] == right;
    TrimLength(right);
  }

  lemma TakeValue(rest: seq<string>, f: string, value: string, later: seq<string>)
    requires ParseUrlScope(f) == Some(UrlScope(value, true))
    ensures TakeFrom(Scope("", "", rest), [f] + later)
         == if value == "" then Err(Blank) else TakeFrom(Scope(value, UrlFilter.REGEXP, rest), later)
  {
    hide ParseUrlScope;
    assert ([f] + later)[1..] == later;
  }

  /** What is taken from a value, the fields after it and those that stay from before. */
  function TakenWith(before: seq<string>, value: string, later: seq<string>): Result<Scope, ScopeError> {
    if value == "" then Err(Blank)
    else if !AllPositional(later) then Err(GivenTwice)
    else Ok(Scope(Join([value] + Joining(later), "|"), UrlFilter.REGEXP, before + Apart(later)))
  }

  lemma TakenFromFields(before: seq<string>, x: string, later: seq<string>)
    requires AllPositional(before)
    ensures TakeFrom(Scope("", "", []), before + ([Trim("url~" + x)] + later)) == TakenWith(before, ValueOf(x), later)
  {
    LabelValue(x);
    hide TakeFrom, Trim, ValueOf, ParseUrlScope, Joining, Apart, Join, Positional;
    var first := Trim("url~" + x);
    TakePositional(Scope("", "", []), before, [first] + later);
    assert [] + before == before;
    TakeValue(before, first, ValueOf(x), later);
    if ValueOf(x) != "" {
      TakeSorts(Scope(ValueOf(x), UrlFilter.REGEXP, before), later);
    }
  }

  lemma {:induction false} TrimAllAppend(a: seq<string>, b: seq<string>)
    ensures TrimAll(a + b) == TrimAll(a) + TrimAll(b)
  {
    hide Trim;
    if a == [] {
      assert a + b == b;
    } else {
      assert (a + b)[1..] == a[1..] + b;
      TrimAllAppend(a[1..], b);
    }
  }

  /** The rule text is read as the fields before, which come back, then the labelled first piece of the
      tail, then the other pieces. */
  lemma RuleTextTrimmed(before: seq<string>, pattern: string, after: seq<string>)
    requires Clean(before)
    ensures var fields := Raw(Tail(pattern, after));
            TrimAll(Raw(RuleText(before, pattern, after)))
            == before + ([Trim("url~" + fields[0])] + TrimAll(fields[1..]))
  {
    hide Raw, Trim, Join, Neutral;
    var fields := Raw(Tail(pattern, after));
    var first := "url~" + fields[0];
    RuleTextReads(before, pattern, after);
    TrimTrimmed(before);
    TrimAllAppend(before, [first] + fields[1..]);
    assert ([first] + fields[1..])[1..] == fields[1..];
  }

  /** What is read when every field before is in its place. */
  lemma TakenFromText(before: seq<string>, pattern: string, after: seq<string>)
    requires Clean(before) && AllPositional(before)
    ensures var fields := Raw(Tail(pattern, after));
            TakeFrom(Scope("", "", []), TrimAll(Raw(RuleText(before, pattern, after))))
            == TakenWith(before, ValueOf(fields[0]), TrimAll(fields[1..]))
  {
    hide TakeFrom, Trim, ValueOf, TakenWith, RawFrom, Join, Clean, AllPositional;
    var fields := Raw(Tail(pattern, after));
    RuleTextTrimmed(before, pattern, after);
    TakenFromFields(before, fields[0], TrimAll(fields[1..]));
  }

  predicate Survives(before: seq<string>, pattern: string, after: seq<string>) {
    TakeFrom(Scope("", "", []), TrimAll(Raw(RuleText(before, pattern, after))))
    == Ok(Scope(pattern, UrlFilter.REGEXP, before + after))
  }

  lemma SurvivorBefore(before: seq<string>, pattern: string, after: seq<string>)
    requires Clean(before) && Survives(before, pattern, after)
    ensures AllPositional(before)
  {
    hide TakeFrom, Trim, RawFrom, Join, Clean, Positional;
    var fields := Raw(Tail(pattern, after));
    RuleTextTrimmed(before, pattern, after);
    LabelValue(fields[0]);
    var later := [Trim("url~" + fields[0])] + TrimAll(fields[1..]);
    assert later[0] == Trim("url~" + fields[0]);
    BeforePositional([], before, later);
  }

  /** By length alone: if the pattern comes back, every piece of the tail was trimmed, the pieces that
      joined are the pattern's own alternatives, and those that stayed apart are the fields after it. */
  lemma SurvivorPieces(before: seq<string>, pattern: string, after: seq<string>)
    requires Clean(before) && AllPositional(before) && Survives(before, pattern, after)
    ensures var fields := Raw(Tail(pattern, after));
            && AllTrimmed(fields) && fields[0] != "" && AllPositional(fields[1..])
            && Join([fields[0]] + Joining(fields[1..]), "|") == pattern && Apart(fields[1..]) == after
  {
    hide TakeFrom, Trim, Trimmed, RawFrom, Join, Clean, ValueOf, AllPositional, Joining, Apart, Weight, TrimAll;
    var fields := Raw(Tail(pattern, after));
    var value, pieces := ValueOf(fields[0]), fields[1..];
    var later := TrimAll(pieces);
    TakenFromText(before, pattern, after);
    assert TakenWith(before, value, later) == Ok(Scope(pattern, UrlFilter.REGEXP, before + after));
    assert value != "" && AllPositional(later);
    assert Join([value] + Joining(later), "|") == pattern;
    SameAfter(before, Apart(later), after);
    LengthsAgree(pattern, after, value, later);
    LabelValue(fields[0]);
    TrimWeighs(pieces);
    assert fields == [fields[0]] + pieces;
    hide ParseUrlScope, Positional;
    assert later == pieces && value == fields[0] && Trimmed(fields[0]);
  }

  lemma SameAfter(a: seq<string>, b: seq<string>, c: seq<string>)
    requires a + b == a + c
    ensures b == c
  {
    assert b == (a + b)[|a|..] && c == (a + c)[|a|..];
  }

  lemma LengthsAgree(pattern: string, after: seq<string>, value: string, later: seq<string>)
    requires Join([value] + Joining(later), "|") == pattern && Apart(later) == after
    ensures var fields := Raw(Tail(pattern, after));
            |value| + Weight(later) == |fields[0]| + Weight(fields[1..])
  {
    hide RawFrom, Join, Joining, Apart;
    var joined := [value] + Joining(later);
    JoinWeighs(joined);
    assert joined[1..] == Joining(later);
    JoiningWeighs(later);
    TailWeighs(pattern, after);
  }

  /** Then the pattern is readable, and the fields after it are labelled. */
  lemma SurvivorReadable(before: seq<string>, pattern: string, after: seq<string>)
    requires Clean(before) && AllPositional(before) && Survives(before, pattern, after)
    ensures var fields := Raw(Tail(pattern, after));
            && Readable(pattern) && AllLabelled(after)
            && Raw(pattern) == [fields[0]] + Joining(fields[1..])
  {
    SurvivorPieces(before, pattern, after);
    RawReads(Tail(pattern, after));
    hide *;
    var fields := Raw(Tail(pattern, after));
    PiecesJoin(fields, pattern);
    ApartLabelled(fields[1..]);
  }

  /** Trimmed pieces of a text that join to a pattern are the alternatives of it. */
  lemma PiecesJoin(fields: seq<string>, pattern: string)
    requires fields != [] && Splittable(fields) && AllTrimmed(fields) && fields[0] != ""
    requires Join([fields[0]] + Joining(fields[1..]), "|") == pattern
    ensures Readable(pattern) && Raw(pattern) == [fields[0]] + Joining(fields[1..])
  {
    hide RawFrom, Join, Trimmed, Neutral, IsKnownReportKeyword, Splittable, Joining;
    var pieces := fields[1..];
    assert fields == [fields[0]] + pieces;
    JoiningSplittable(fields[0], pieces);
    SplitsBack([fields[0]] + Joining(pieces));
    JoiningWeighs(pieces);
    JoiningMembers(pieces);
  }

  lemma {:induction false} JoiningMembers(fields: seq<string>)
    requires AllTrimmed(fields)
    ensures AllTrimmed(Joining(fields))
  {
    hide IsKnownReportKeyword, Trimmed;
    if fields != [] {
      JoiningMembers(fields[1..]);
    }
  }

  /** And its brackets are closed where another field follows: otherwise its last alternative would have
      run on into that field. */
  lemma SurvivorClosed(before: seq<string>, pattern: string, after: seq<string>)
    requires Clean(before) && AllPositional(before) && after != [] && Survives(before, pattern, after)
    ensures Closed(pattern)
  {
    SurvivorReadable(before, pattern, after);
    hide Join, Clean, AllPositional, AllLabelled, Trimmed, Survives, IsKnownReportKeyword;
    var alts, fields := Raw(pattern), Raw(Tail(pattern, after));
    if !Closed(pattern) {
      RunsOn(TopLevel, "", pattern, Join(after, "|"));
      LastAlternativeKept(alts, fields);
      assert false;
    }
  }

  /** Alternatives whose last one ran on cannot all have joined again. */
  lemma LastAlternativeKept(alts: seq<string>, fields: seq<string>)
    requires alts != [] && |alts| <= |fields| && forall i :: 0 <= i < |alts| - 1 ==> fields[i] == alts[i]
    requires forall i :: 1 <= i < |alts| ==> !IsKnownReportKeyword(alts[i])
    requires alts == [fields[0]] + Joining(fields[1..])
    ensures !(alts[|alts| - 1] + "|" <= fields[|alts| - 1])
  {
    hide IsKnownReportKeyword;
    var k, pieces := |alts| - 1, fields[1..];
    assert |alts[k]| < |alts[k] + "|"|;
    if k > 0 && !IsKnownReportKeyword(fields[k]) {
      assert forall i :: 0 <= i < k ==> pieces[i] == fields[i + 1];
      JoiningStarts(pieces, k);
      assert alts[k] == Joining(pieces)[k - 1] == fields[k];
    }
    if alts[k] + "|" <= fields[k] && k > 0 {
      NoLabelRunsOn(alts[k], fields[k]);
    }
  }

  /** Exactly when a url~ pattern comes back from a rule text whose other fields are trimmed and
      bracket-neutral: the fields before it are no scopes, its own pipes split it into trimmed
      alternatives of which the first is not empty and no other looks like a label, the fields after it
      are labelled, and, when there are any, its brackets are closed for the reader. */
  lemma PatternSurvivesIff(before: seq<string>, pattern: string, after: seq<string>)
    requires Clean(before) && Clean(after)
    ensures Survives(before, pattern, after) <==>
            && AllPositional(before) && Readable(pattern) && AllLabelled(after)
            && (after == [] || Closed(pattern))
  {
    hide Survives, Clean, AllPositional, Readable, AllLabelled, Closed;
    if Survives(before, pattern, after) {
      SurvivorBefore(before, pattern, after);
      SurvivorReadable(before, pattern, after);
      if after != [] {
        SurvivorClosed(before, pattern, after);
      }
    }
    if AllPositional(before) && Readable(pattern) && AllLabelled(after) && (after == [] || Closed(pattern)) {
      PatternComesBack(before, pattern, after);
    }
  }

  lemma PatternComesBack(before: seq<string>, pattern: string, after: seq<string>)
    requires Readable(pattern) && Clean(before) && Clean(after) && (after == [] || Closed(pattern))
    requires AllPositional(before) && AllLabelled(after)
    ensures Survives(before, pattern, after)
  {
    hide Clean, AllPositional, Readable, AllLabelled, Closed, TakeFrom, Raw, RuleText, TrimAll;
    PatternSurvives(before, pattern, after);
  }

  /** The same for the scope a rule is saved with: the pattern also has to make a filter. */
  lemma ScopeSavedIff(before: seq<string>, pattern: string, after: seq<string>, compiles: string -> bool)
    requires Clean(before) && Clean(after)
    ensures UrlScopeOf(TrimAll(Raw(RuleText(before, pattern, after))), compiles)
            == Ok(Scope(pattern, UrlFilter.REGEXP, before + after))
        <==>
            && AllPositional(before) && Readable(pattern) && AllLabelled(after)
            && (after == [] || Closed(pattern)) && UrlFilter.Build(pattern, UrlFilter.REGEXP, compiles).Ok?
  {
    hide Clean, AllPositional, AllLabelled, Closed, TakeFrom, Raw, RuleText, TrimAll, UrlFilter.Build;
    PatternSurvivesIff(before, pattern, after);
    if Readable(pattern) {
      PatternNotEmpty(pattern);
    }
  }

  lemma PatternNotEmpty(pattern: string)
    requires Readable(pattern)
    ensures pattern != ""
  {
    assert Raw("") == [""];
  }

  const SWALLOWED := "url~[(]|goals=1"

  /** Where the condition fails for the brackets: in url~[(]|goals=1 the reader counts the parenthesis of
      the class as open, so the goals become part of the pattern. */
  lemma ClassSwallowsGoals()
    ensures RuleText([], "[(]", ["goals=1"]) == SWALLOWED && Raw(SWALLOWED) == [SWALLOWED]
    ensures TakeFrom(Scope("", "", []), TrimAll(Raw(SWALLOWED))) == Ok(Scope("[(]|goals=1", UrlFilter.REGEXP, []))
    ensures Readable("[(]") && !Closed("[(]") && !Survives([], "[(]", ["goals=1"])
  {
    SwallowedText();
    SwallowedReads();
    SwallowedTaken();
    ClassReadable();
    NoneClean();
    hide *;
    PatternSurvivesIff([], "[(]", ["goals=1"]);
  }

  lemma SwallowedReads()
    ensures Raw(SWALLOWED) == [SWALLOWED] && Clean(["goals=1"])
  {
    ClassStaysOpen();
    hide Whole, After;
    RawWhole(TopLevel, "", SWALLOWED);
    assert "" + SWALLOWED == SWALLOWED;
    GoalsNeutral();
  }

  lemma GoalsNeutral()
    ensures Neutral("goals=1") && Trimmed("goals=1")
  {
    hide Neutral;
    PlainNeutral("goals=1");
  }

  lemma {:induction false} PlainNeutral(f: string)
    requires forall i :: 0 <= i < |f|
               ==> f[i] != '\\' && f[i] != '(' && f[i] != ')' && f[i] != '[' && f[i] != ']' && f[i] != '|'
    ensures Neutral(f)
    decreases |f|
  {
    if f != "" {
      PlainNeutral(f[1..]);
    }
  }

  lemma {:induction false} NeverSeparates(st: Reader, f: string)
    requires st.paren > 0 && ')' !in f
    ensures Whole(st, f)
    decreases |f|
  {
    if f != "" {
      NeverSeparates(Step(st, f[0]), f[1..]);
    }
  }

  lemma ClassStaysOpen()
    ensures Whole(TopLevel, "[(]") && Whole(TopLevel, SWALLOWED) && !Closed("[(]")
  {
    assert SWALLOWED == "url~" + (['['] + (['('] + "]|goals=1"));
    hide *;
    assert "[(]" == ['['] + (['('] + "]") == ['['] + (['('] + ([']'] + ""));
    OpenClass("]");
    OpenClass("]|goals=1");
    ClassNotClosed("[(]");
  }

  /** Behind an opened class and group nothing without a closing parenthesis separates. */
  lemma OpenClass(tail: string)
    requires ')' !in tail
    ensures var f := ['['] + (['('] + tail); Whole(TopLevel, f) && Whole(TopLevel, "url~" + f)
  {
    NeverSeparates(Reader(1, 1, false), tail);
    hide Whole, After;
    ReadOne(TopLevel, '[', ['('] + tail);
    ReadOne(Reader(0, 1, false), '(', tail);
    LabelReads(['['] + (['('] + tail));
  }

  lemma ClassNotClosed(f: string)
    requires f == ['['] + (['('] + ([']'] + ""))
    ensures !Closed(f)
  {
    hide Whole, After;
    ReadOne(TopLevel, '[', ['('] + ([']'] + ""));
    ReadOne(Reader(0, 1, false), '(', [']'] + "");
    ReadOne(Reader(1, 1, false), ']', "");
    ReadNone(Reader(1, 0, false));
  }

  lemma ReadOne(st: Reader, c: char, f: string)
    ensures Whole(st, [c] + f) <==> !Separates(st, c) && Whole(Step(st, c), f)
    ensures After(st, [c] + f) == After(Step(st, c), f)
  {
    assert ([c] + f)[1..] == f;
  }

  lemma ReadNone(st: Reader)
    ensures Whole(st, "") && After(st, "") == st
  {
  }

  lemma SwallowedTaken()
    ensures Raw(SWALLOWED) == [SWALLOWED] ==>
              TakeFrom(Scope("", "", []), TrimAll(Raw(SWALLOWED))) == Ok(Scope("[(]|goals=1", UrlFilter.REGEXP, []))
  {
    var pattern := "[(]|goals=1";
    assert "url~" + pattern == SWALLOWED && [SWALLOWED] + [] == [SWALLOWED];
    assert AllTrimmed([SWALLOWED]) && Trimmed(pattern);
    hide TakeFrom, Raw, Trimmed;
    TrimTrimmed([SWALLOWED]);
    TakeFirst([], pattern, []);
    TakeNothing(Scope(pattern, UrlFilter.REGEXP, []));
  }

  lemma ClassReadable()
    ensures Readable("[(]") && !Closed("[(]")
  {
    ClassStaysOpen();
    hide Whole, Closed, Readable;
    OneReadable("[(]");
  }

  lemma OneReadable(f: string)
    requires Whole(TopLevel, f) && f != "" && Trimmed(f)
    ensures Readable(f)
  {
    hide Whole, After, IsKnownReportKeyword;
    RawWhole(TopLevel, "", f);
    assert "" + f == f;
  }

  lemma NoneClean()
    ensures Clean([])
  {
  }

  lemma SwallowedText()
    ensures RuleText([], "[(]", ["goals=1"]) == SWALLOWED
  {
    var l, g := "url~[(]", "goals=1";
    assert "url~" + "[(]" == l;
    assert [] + ([l] + [g]) == [l] + [g];
    JoinAppend([l], [g], "|");
    JoinOne(l);
    JoinOne(g);
    assert l + "|" + g == SWALLOWED;
  }

  /** And for what follows: fields without a label after a pattern, such as a number of weeks, are taken
      for more alternatives of it. */
  lemma UnlabelledAbsorbed(pattern: string, fields: seq<string>)
    requires pattern != "" && Trimmed(pattern) && forall i :: 0 <= i < |fields| ==> !IsKnownReportKeyword(fields[i])
    ensures TakeFrom(Scope("", "", []), ["url~" + pattern] + fields)
         == Ok(Scope(Join([pattern] + fields, "|"), UrlFilter.REGEXP, []))
  {
    hide IsKnownReportKeyword, TakeFrom, Join, Trimmed;
    TakeFirst([], pattern, fields);
    TakeAlternatives(Scope(pattern, UrlFilter.REGEXP, []), fields, []);
    assert fields + [] == fields;
    TakeNothing(Scope(Join([pattern] + fields, "|"), UrlFilter.REGEXP, []));
  }
}
