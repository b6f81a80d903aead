/** The one-line rule syntax: fields between pipes, and the labelled URL scope among them
    (internal/bot/pending.go). */
module PipeFields {
  import opened Text
  import UrlFilter

  // ---- Splitting on pipes ----

  /** How deep the reader is in parentheses and brackets, and whether a backslash just went by. */
  datatype Reader = Reader(paren: nat, bracket: nat, escaped: bool)

  const TopLevel := Reader(0, 0, false)

  predicate Separates(st: Reader, c: char) {
    !st.escaped && c == '|' && st.paren == 0 && st.bracket == 0
  }

  function Step(st: Reader, c: char): Reader {
    if st.escaped then st.(escaped := false)
    else
      match c
      case '\\' => st.(escaped := true)
      case '(' => st.(paren := st.paren + 1)
      case ')' => if st.paren > 0 then st.(paren := st.paren - 1) else st
      case '[' => st.(bracket := st.bracket + 1)
      case ']' => if st.bracket > 0 then st.(bracket := st.bracket - 1) else st
      case _ => st
  }

  /** The untrimmed fields still to come when `cur` has been read of the current one. */
  function RawFrom(st: Reader, cur: string, text: string): (fields: seq<string>)
    ensures fields != []
    decreases |text|
  {
    if text == "" then [cur]
    else if Separates(st, text[0]) then [cur] + RawFrom(Step(st, text[0]), "", text[1..])
    else RawFrom(Step(st, text[0]), cur + [text[0]], text[1..])
  }

  function Raw(text: string): (fields: seq<string>)
    ensures fields != []
  {
    RawFrom(TopLevel, "", text)
  }

  function TrimAll(fields: seq<string>): (out: seq<string>)
    ensures |out| == |fields|
    ensures forall i :: 0 <= i < |fields| ==> out[i] == Trim(fields[i])
  {
    if fields == [] then [] else [Trim(fields[0])] + TrimAll(fields[1..])
  }

  predicate AllTrimmed(fields: seq<string>) {
    forall i :: 0 <= i < |fields| ==> Trimmed(fields[i])
  }

  /** What one rune does to the field being read. */
  lemma NextRune(fields: seq<string>, st: Reader, cur: string, text: string)
    requires text != ""
    ensures var c, later := text[0], text[1..];
            fields + TrimAll(RawFrom(st, cur, text)) ==
            if Separates(st, c) then fields + [Trim(cur)] + TrimAll(RawFrom(Step(st, c), "", later))
            else fields + TrimAll(RawFrom(Step(st, c), cur + [c], later))
  {
    hide Trim;
    if Separates(st, text[0]) {
      var later := RawFrom(Step(st, text[0]), "", text[1..]);
      assert ([cur] + later)[1..] == later;
    }
  }

  method SplitPipeFields(text: string) returns (fields: seq<string>)
    ensures fields == TrimAll(Raw(text))
  {
    hide RawFrom, Trim, TrimAll;
    fields := [];
    var cur := "";
    var parenDepth: nat, bracketDepth: nat, escaped := 0, 0, false;
    for i := 0 to |text|
      invariant fields + TrimAll(RawFrom(Reader(parenDepth, bracketDepth, escaped), cur, text[i..]))
                == TrimAll(Raw(text))
    {
      var r := text[i];
      assert text[i..][0] == r && text[i..][1..] == text[i + 1..];
      NextRune(fields, Reader(parenDepth, bracketDepth, escaped), cur, text[i..]);
      if escaped {
        cur := cur + [r];
        escaped := false;
        continue;
      }
      if r == '\\' {
        escaped := true;
        cur := cur + [r];
        continue;
      }
      match r {
        case '(' =>
          parenDepth := parenDepth + 1;
          cur := cur + [r];
        case ')' =>
          if parenDepth > 0 {
            parenDepth := parenDepth - 1;
          }
          cur := cur + [r];
        case '[' =>
          bracketDepth := bracketDepth + 1;
          cur := cur + [r];
        case ']' =>
          if bracketDepth > 0 {
            bracketDepth := bracketDepth - 1;
          }
          cur := cur + [r];
        case '|' =>
          if parenDepth > 0 || bracketDepth > 0 {
            cur := cur + [r];
          } else {
            fields := fields + [Trim(cur)];
            cur := "";
          }
        case _ =>
          cur := cur + [r];
      }
    }
    LastField(Reader(parenDepth, bracketDepth, escaped), cur);
    fields := fields + [Trim(cur)];
  }

  lemma LastField(st: Reader, cur: string)
    ensures TrimAll(RawFrom(st, cur, "")) == [Trim(cur)]
  {
    assert [cur][1..] == [];
  }

  /** Nothing is lost: the raw fields with their pipes are the text. */
  lemma {:induction false} RawJoins(st: Reader, cur: string, text: string)
    ensures Join(RawFrom(st, cur, text), "|") == cur + text
    decreases |text|
  {
    if text != "" {
      assert text == [text[0]] + text[1..];
      if Separates(st, text[0]) {
        RawJoins(Step(st, text[0]), "", text[1..]);
        JoinAppend([cur], RawFrom(Step(st, text[0]), "", text[1..]), "|");
        assert "" + text[1..] == text[1..];
      } else {
        RawJoins(Step(st, text[0]), cur + [text[0]], text[1..]);
        assert cur + [text[0]] + text[1..] == cur + text;
      }
    }
  }

  lemma RawLossless(text: string)
    ensures Join(Raw(text), "|") == text
  {
    RawJoins(TopLevel, "", text);
    assert "" + text == text;
  }

  // ---- Which lists of fields survive ----

  /** No pipe of `f` separates when reading starts in `st`. */
  predicate Whole(st: Reader, f: string)
    decreases |f|
  {
    f == "" || (!Separates(st, f[0]) && Whole(Step(st, f[0]), f[1..]))
  }

  function After(st: Reader, f: string): Reader
    decreases |f|
  {
    if f == "" then st else After(Step(st, f[0]), f[1..])
  }

  /** A field is neutral when it holds no separating pipe and leaves every bracket closed. */
  predicate Neutral(f: string) {
    Whole(TopLevel, f) && After(TopLevel, f) == TopLevel
  }

  /** All fields but the last are neutral, and the last at least holds no separating pipe. */
  predicate Splittable(fields: seq<string>) {
    && fields != []
    && (forall i :: 0 <= i < |fields| - 1 ==> Neutral(fields[i]))
    && Whole(TopLevel, fields[|fields| - 1])
  }

  lemma {:induction false} RawWhole(st: Reader, cur: string, f: string)
    requires Whole(st, f)
    ensures RawFrom(st, cur, f) == [cur + f]
    decreases |f|
  {
    if f == "" {
      assert cur + f == cur;
    } else {
      RawWhole(Step(st, f[0]), cur + [f[0]], f[1..]);
      assert cur + [f[0]] + f[1..] == cur + f;
    }
  }

  lemma {:induction false} RawField(st: Reader, cur: string, f: string, text: string)
    requires Whole(st, f) && After(st, f) == TopLevel
    ensures RawFrom(st, cur, f + "|" + text) == [cur + f] + Raw(text)
    decreases |f|
  {
    var all := f + "|" + text;
    if f == "" {
      assert all[0] == '|' && all[1..] == text && cur + f == cur;
    } else {
      RawField(Step(st, f[0]), cur + [f[0]], f[1..], text);
      assert all[0] == f[0] && all[1..] == f[1..] + "|" + text;
      assert cur + [f[0]] + f[1..] == cur + f;
    }
  }

  lemma {:induction false} SplitsBack(fields: seq<string>)
    requires Splittable(fields)
    ensures Raw(Join(fields, "|")) == fields
  {
    if |fields| == 1 {
      RawWhole(TopLevel, "", fields[0]);
      assert "" + fields[0] == fields[0];
    } else {
      assert Neutral(fields[0]);
      var rest := fields[1..];
      assert forall i :: 0 <= i < |rest| - 1 ==> rest[i] == fields[i + 1];
      SplitsBack(rest);
      RawField(TopLevel, "", fields[0], Join(rest, "|"));
      assert "" + fields[0] == fields[0];
    }
  }

  lemma {:induction false} WholeAppend(st: Reader, f: string, c: char)
    requires Whole(st, f) && !Separates(After(st, f), c)
    ensures Whole(st, f + [c]) && After(st, f + [c]) == Step(After(st, f), c)
    decreases |f|
  {
    if f != "" {
      WholeAppend(Step(st, f[0]), f[1..], c);
      assert (f + [c])[1..] == f[1..] + [c];
    }
  }

  lemma {:induction false} RawSplittable(st: Reader, cur: string, text: string)
    requires Whole(TopLevel, cur) && After(TopLevel, cur) == st
    ensures Splittable(RawFrom(st, cur, text))
    decreases |text|
  {
    if text != "" {
      if Separates(st, text[0]) {
        RawSplittable(TopLevel, "", text[1..]);
      } else {
        WholeAppend(TopLevel, cur, text[0]);
        RawSplittable(Step(st, text[0]), cur + [text[0]], text[1..]);
      }
    }
  }

  /** A list of fields survives joining and splitting exactly when its fields are neutral (the last
      one need only hold no separating pipe); and splitting always yields such a list. */
  lemma RoundTripIff(fields: seq<string>, text: string)
    ensures fields != [] ==> (Raw(Join(fields, "|")) == fields <==> Splittable(fields))
    ensures Splittable(Raw(text))
  {
    hide Join, RawFrom;
    RawSplittable(TopLevel, "", text);
    RawSplittable(TopLevel, "", Join(fields, "|"));
    if Splittable(fields) {
      SplitsBack(fields);
    }
  }

  // ---- Which pipes do not separate ----

  /** Inside any group the text holds no separating pipe and leaves the groups as deep as they were. */
  ghost predicate Inner(f: string) {
    forall st: Reader | !st.escaped && (st.paren > 0 || st.bracket > 0) :: Whole(st, f) && After(st, f) == st
  }

  lemma {:induction false} ReadAppend(st: Reader, f: string, g: string)
    ensures Whole(st, f + g) <==> Whole(st, f) && Whole(After(st, f), g)
    ensures After(st, f + g) == After(After(st, f), g)
    decreases |f|
  {
    if f == "" {
      assert f + g == g;
    } else {
      ReadAppend(Step(st, f[0]), f[1..], g);
      assert (f + g)[0] == f[0] && (f + g)[1..] == f[1..] + g;
    }
  }

  lemma ReadRune(st: Reader, c: char)
    ensures Whole(st, [c]) <==> !Separates(st, c)
    ensures After(st, [c]) == Step(st, c)
  {
    assert [c][1..] == "";
  }

  /** A text in parentheses or in brackets, read from any depth. */
  lemma GroupRead(st: Reader, f: string)
    requires !st.escaped && Inner(f)
    ensures Whole(st, "(" + f + ")") && After(st, "(" + f + ")") == st
    ensures Whole(st, "[" + f + "]") && After(st, "[" + f + "]") == st
  {
    assert Step(Step(st, '('), ')') == st && Step(Step(st, '['), ']') == st;
    InnerAt(Step(st, '('), f);
    InnerAt(Step(st, '['), f);
    hide *;
    NoSeparators(st);
    Around(st, '(', f, ')');
    Around(st, '[', f, ']');
  }

  lemma InnerAt(st: Reader, f: string)
    requires Inner(f) && !st.escaped && (st.paren > 0 || st.bracket > 0)
    ensures Whole(st, f) && After(st, f) == st
  {
    hide Whole, After;
  }

  lemma NoSeparators(st: Reader)
    ensures !Separates(st, '(') && !Separates(st, '[')
    ensures !Separates(Step(st, '('), ')') && !Separates(Step(st, '['), ']')
  {
  }

  lemma Around(st: Reader, open: char, f: string, close: char)
    requires !Separates(st, open) && !Separates(Step(st, open), close) && Step(Step(st, open), close) == st
    requires Whole(Step(st, open), f) && After(Step(st, open), f) == Step(st, open)
    ensures Whole(st, [open] + f + [close]) && After(st, [open] + f + [close]) == st
  {
    hide *;
    ReadRune(st, open);
    ReadAppend(st, [open], f);
    ReadAppend(st, [open] + f, [close]);
    ReadRune(Step(st, open), close);
  }

  /** Any text whose groups are closed can stand inside a group, pipes and all. */
  lemma InnerPieces(f: string, g: string, c: char)
    ensures Inner("") && Inner(['\\', c])
    ensures c !in "\\()[]" ==> Inner([c])
    ensures Inner(f) && Inner(g) ==> Inner(f + g)
    ensures Inner(f) ==> Inner("(" + f + ")") && Inner("[" + f + "]")
  {
    hide Whole, After;
    forall st: Reader | !st.escaped && (st.paren > 0 || st.bracket > 0)
      ensures Whole(st, "") && After(st, "") == st
      ensures Whole(st, ['\\', c]) && After(st, ['\\', c]) == st
      ensures c !in "\\()[]" ==> Whole(st, [c]) && After(st, [c]) == st
      ensures Inner(f) && Inner(g) ==> Whole(st, f + g) && After(st, f + g) == st
      ensures Inner(f) ==> Whole(st, "(" + f + ")") && After(st, "(" + f + ")") == st
      ensures Inner(f) ==> Whole(st, "[" + f + "]") && After(st, "[" + f + "]") == st
    {
      ReadSmall(st, c);
      ReadAppend(st, f, g);
      if Inner(f) {
        GroupRead(st, f);
      }
    }
  }

  lemma ReadSmall(st: Reader, c: char)
    requires !st.escaped
    ensures Whole(st, "") && After(st, "") == st
    ensures Whole(st, ['\\', c]) && After(st, ['\\', c]) == st
    ensures c !in "\\()[]" ==> (Whole(st, [c]) <==> c != '|' || st.paren > 0 || st.bracket > 0) && After(st, [c]) == st
  {
    ReadRune(st, '\\');
    ReadRune(Step(st, '\\'), c);
    ReadAppend(st, ['\\'], [c]);
    ReadRune(st, c);
    assert ['\\'] + [c] == ['\\', c];
  }

  /** So a pipe in parentheses or brackets, however deep, or after a backslash does not separate, and a bracket
      that closes nothing changes nothing: fields made of such groups and of other runes are neutral. */
  lemma NeutralPieces(f: string, g: string, c: char)
    ensures Neutral("") && Neutral(")") && Neutral("]") && Neutral(['\\', c])
    ensures c !in "\\()[]" ==> (Neutral([c]) <==> c != '|')
    ensures Inner(f) ==> Neutral("(" + f + ")") && Neutral("[" + f + "]")
    ensures Neutral(f) && Neutral(g) ==> Neutral(f + g)
  {
    ReadSmall(TopLevel, c);
    ReadRune(TopLevel, ')');
    ReadRune(TopLevel, ']');
    ReadAppend(TopLevel, f, g);
    if Inner(f) {
      GroupRead(TopLevel, f);
    }
    hide Whole, After, Inner;
  }

  // ---- The labelled URL scope ----

  const KEYWORDS := ["goals=", "group=", "group_by=", "by=", "url=", "url~", "period=", "период="]

  predicate IsKnownReportKeyword(field: string) {
    exists i :: 0 <= i < |KEYWORDS| && KEYWORDS[i] <= field
  }

  datatype UrlScope = UrlScope(value: string, isRegexp: bool)

  /** "url~pattern" or "url=substring". */
  function ParseUrlScope(field: string): Option<UrlScope> {
    if "url~" <= field then Some(UrlScope(Trim(field[4..]), true))
    else if "url=" <= field then Some(UrlScope(Trim(field[4..]), false))
    else None
  }

  datatype Scope = Scope(filter: string, match_: string, rest: seq<string>)

  datatype ScopeError = GivenTwice | Blank | BadFilter(error: UrlFilter.FilterError)

  /** What the fields still unread add to what was taken so far. */
  function TakeFrom(taken: Scope, fields: seq<string>): Result<Scope, ScopeError>
    decreases |fields|
  {
    if fields == [] then Ok(taken)
    else
      var field, later := fields[0], fields[1..];
      match ParseUrlScope(field)
      case None =>
        if taken.filter != "" && taken.match_ == UrlFilter.REGEXP && !IsKnownReportKeyword(field) then
          TakeFrom(taken.(filter := taken.filter + "|" + field), later)
        else
          TakeFrom(taken.(rest := taken.rest + [field]), later)
      case Some(scope) =>
        if taken.filter != "" then Err(GivenTwice)
        else if scope.value == "" then Err(Blank)
        else
          var match_ := if scope.isRegexp then UrlFilter.REGEXP else UrlFilter.CONTAINS;
          TakeFrom(Scope(scope.value, match_, taken.rest), later)
  }

  function UrlScopeOf(fields: seq<string>, compiles: string -> bool): Result<Scope, ScopeError> {
    match TakeFrom(Scope("", "", []), fields)
    case Err(e) => Err(e)
    case Ok(s) =>
      if s.filter == "" then Ok(s)
      else
        match UrlFilter.Build(s.filter, s.match_, compiles)
        case Err(e) => Err(BadFilter(e))
        case Ok(_) => Ok(s)
  }

  method TakeUrlScope(optional: seq<string>, compiles: string -> bool) returns (r: Result<Scope, ScopeError>)
    ensures r == UrlScopeOf(optional, compiles)
  {
    var filter, match_ := "", "";
    var rest: seq<string> := [];
    for i := 0 to |optional|
      invariant TakeFrom(Scope("", "", []), optional) == TakeFrom(Scope(filter, match_, rest), optional[i..])
    {
      var field := optional[i];
      assert optional[i..][0] == field && optional[i..][1..] == optional[i + 1..];
      var parsed := ParseUrlScope(field);
      if parsed == None {
        if filter != "" && match_ == UrlFilter.REGEXP && !IsKnownReportKeyword(field) {
          filter := filter + "|" + field;
          continue;
        }
        rest := rest + [field];
        continue;
      }
      if filter != "" {
        return Err(GivenTwice);
      }
      if parsed.value.value == "" {
        return Err(Blank);
      }
      filter := parsed.value.value;
      match_ := UrlFilter.CONTAINS;
      if parsed.value.isRegexp {
        match_ := UrlFilter.REGEXP;
      }
    }
    if filter != "" {
      match UrlFilter.Build(filter, match_, compiles) {
        case Err(e) => return Err(BadFilter(e));
        case Ok(_) =>
      }
    }
    return Ok(Scope(filter, match_, rest));
  }
}
