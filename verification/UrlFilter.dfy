/** The API filter that narrows a request to pages (internal/engine/urlfilter.go). */
module UrlFilter {
  import opened Text

  const CONTAINS := "contains"
  const REGEXP := "regexp"

  /** The API's ceiling on a filter expression, in bytes. */
  const MAX_FILTER_LENGTH := 2000

  const PREFIX := "EXISTS(ym:pv:URL"

  datatype FilterError = BadRegexp | UnknownMatch | TooLong

  /** The bytes a rune takes in UTF-8. */
  function Utf8Size(c: char): nat {
    var n := c as int;
    if n < 0x80 then 1 else if n < 0x800 then 2 else if n < 0x10000 then 3 else 4
  }

  function Utf8Len(s: string): nat {
    if s == "" then 0 else Utf8Size(s[0]) + Utf8Len(s[1..])
  }

  function EscapeRune(c: char): string {
    if c == '\\' then "\\\\" else if c == '\'' then "\\'" else [c]
  }

  function EscapeValue(v: string): string {
    if v == "" then "" else EscapeRune(v[0]) + EscapeValue(v[1..])
  }

  function QuoteFilterValue(v: string): string {
    "'" + EscapeValue(v) + "'"
  }

  function Expression(op: string, v: string): string {
    PREFIX + op + QuoteFilterValue(v) + ")"
  }

  /** The operator a match word stands for, where `compiles` says which patterns are well formed. */
  function Operator(value: string, match_: string, compiles: string -> bool): Result<string, FilterError> {
    if match_ == "" || match_ == CONTAINS then Ok("=@")
    else if match_ == REGEXP then
      if compiles(value) then Ok("=~") else Err(BadRegexp)
    else Err(UnknownMatch)
  }

  function Build(value: string, match_: string, compiles: string -> bool): Result<string, FilterError> {
    var v := Trim(value);
    if v == "" then Ok("")
    else
      match Operator(v, match_, compiles)
      case Err(e) => Err(e)
      case Ok(op) =>
        var filter := Expression(op, v);
        if Utf8Len(filter) > MAX_FILTER_LENGTH then Err(TooLong) else Ok(filter)
  }

  // ---- The value can be read back ----

  function Unescape(s: string): string {
    if s == "" then ""
    else if s[0] == '\\' && |s| >= 2 then [s[1]] + Unescape(s[2..])
    else [s[0]] + Unescape(s[1..])
  }

  lemma {:induction false} UnescapeEscape(v: string)
    ensures Unescape(EscapeValue(v)) == v
  {
    if v != "" {
      UnescapeEscape(v[1..]);
      var head, tail := EscapeRune(v[0]), EscapeValue(v[1..]);
      assert (head + tail)[|head|..] == tail;
      assert [v[0]] + v[1..] == v;
    }
  }

  /** Where a quoted literal that starts before `s` ends: at the first quote that no backslash
      escapes; the length of `s` when it does not end. */
  function LiteralEnd(s: string): nat {
    if s == "" || s[0] == '\'' then 0
    else if s[0] == '\\' && |s| >= 2 then 2 + LiteralEnd(s[2..])
    else 1 + LiteralEnd(s[1..])
  }

  lemma LiteralGoesOn(c: char, rest: string)
    ensures LiteralEnd(EscapeRune(c) + rest) == |EscapeRune(c)| + LiteralEnd(rest)
  {
    var s := EscapeRune(c) + rest;
    assert s[|EscapeRune(c)|..] == rest;
    assert c == '\\' || c == '\'' ==> s[0] == '\\' && s[2..] == rest;
  }

  /** Nothing in a value ends its literal early, whatever follows. */
  lemma {:induction false} LiteralHoldsValue(v: string, after: string)
    ensures LiteralEnd(EscapeValue(v) + "'" + after) == |EscapeValue(v)|
  {
    if v == "" {
      assert "" + "'" + after == "'" + after;
    } else {
      LiteralHoldsValue(v[1..], after);
      var head, tail := EscapeRune(v[0]), EscapeValue(v[1..]);
      assert head + tail + "'" + after == head + (tail + "'" + after);
      LiteralGoesOn(v[0], tail + "'" + after);
      hide LiteralEnd, EscapeRune;
    }
  }

  /** Reads a filter expression back into its value and operator. */
  function Decode(filter: string): Option<(string, string)> {
    if |filter| >= |PREFIX| + 5 && PREFIX <= filter then
      Some((Unescape(filter[|PREFIX| + 3..|filter| - 2]), filter[|PREFIX|..|PREFIX| + 2]))
    else None
  }

  lemma DecodeExpression(op: string, v: string)
    requires |op| == 2
    ensures Decode(Expression(op, v)) == Some((v, op))
  {
    hide Unescape, EscapeValue;
    var f, q := Expression(op, v), EscapeValue(v);
    UnescapeEscape(v);
    assert |f| == |PREFIX| + 2 + |q| + 3;
    assert f[|PREFIX| + 3..|f| - 2] == q;
    assert f[|PREFIX|..|PREFIX| + 2] == op;
  }

  function DecodedOperator(match_: string): string {
    if match_ == REGEXP then "=~" else "=@"
  }

  /** An accepted filter is empty exactly for a blank value, and otherwise tells the trimmed value
      and the operator. */
  lemma FilterDecodes(value: string, match_: string, compiles: string -> bool)
    requires Build(value, match_, compiles).Ok?
    ensures var f := Build(value, match_, compiles).value;
            && (f == "" <==> Trim(value) == "")
            && (f != "" ==> Decode(f) == Some((Trim(value), if match_ == "regexp" then "=~" else "=@")))
            && (f != "" ==> "EXISTS(ym:pv:URL" <= f)
  {
    hide Decode, Trim, Utf8Len, EscapeValue;
    if Trim(value) != "" {
      DecodeExpression(DecodedOperator(match_), Trim(value));
    }
  }

  /** Two accepted rules ask for the same filter exactly when they agree on the trimmed value and,
      unless that is blank, on the operator. */
  lemma SameFilterIff(v: string, m: string, v': string, m': string, compiles: string -> bool)
    requires Build(v, m, compiles).Ok? && Build(v', m', compiles).Ok?
    ensures Build(v, m, compiles) == Build(v', m', compiles)
            <==> Trim(v) == Trim(v') && (Trim(v) == "" || (m == "regexp" <==> m' == "regexp"))
  {
    hide Decode, Trim, Expression, Utf8Len;
    FilterDecodes(v, m, compiles);
    FilterDecodes(v', m', compiles);
  }

  // ---- Which filters are accepted ----

  function Reserved(v: string): nat {
    if v == "" then 0 else (if v[0] == '\\' || v[0] == '\'' then 1 else 0) + Reserved(v[1..])
  }

  lemma {:induction false} Utf8Append(s: string, t: string)
    ensures Utf8Len(s + t) == Utf8Len(s) + Utf8Len(t)
  {
    if s == "" {
      assert s + t == t;
    } else {
      assert (s + t)[1..] == s[1..] + t;
      Utf8Append(s[1..], t);
    }
  }

  lemma {:induction false} EscapedLength(v: string)
    ensures Utf8Len(EscapeValue(v)) == Utf8Len(v) + Reserved(v)
  {
    if v != "" {
      EscapedLength(v[1..]);
      Utf8Append(EscapeRune(v[0]), EscapeValue(v[1..]));
      assert EscapeRune(v[0])[1..] in ["", "\\", "'"];
      assert Utf8Len("\\") == 1 && Utf8Len("'") == 1 && Utf8Len([v[0]]) == Utf8Size(v[0]);
    }
  }

  lemma {:induction false} AsciiLength(s: string)
    requires forall i :: 0 <= i < |s| ==> Utf8Size(s[i]) == 1
    ensures Utf8Len(s) == |s|
  {
    if s != "" {
      AsciiLength(s[1..]);
    }
  }

  /** The expression costs 21 bytes, the value's own bytes and one byte per reserved rune in it. */
  lemma ExpressionLength(op: string, v: string)
    requires op == "=@" || op == "=~"
    ensures Utf8Len(Expression(op, v)) == 21 + Utf8Len(v) + Reserved(v)
  {
    hide Utf8Len, EscapeValue;
    EscapedLength(v);
    Utf8Append(PREFIX + op + QuoteFilterValue(v), ")");
    Utf8Append(PREFIX + op, QuoteFilterValue(v));
    Utf8Append("'" + EscapeValue(v), "'");
    Utf8Append("'", EscapeValue(v));
    AsciiLength(PREFIX + op);
    AsciiLength("'");
    AsciiLength(")");
  }

  /** A filter is refused exactly for an unknown match word, a pattern that does not compile, or a
      value whose escaped form passes the API's limit; never for a blank value. */
  lemma AcceptedIff(value: string, match_: string, compiles: string -> bool)
    ensures Build(value, match_, compiles).Ok? <==>
            var v := Trim(value);
            v == "" || (&& match_ in ["", CONTAINS, REGEXP]
                        && (match_ == REGEXP ==> compiles(v))
                        && Utf8Len(v) + Reserved(v) <= 1979)
  {
    hide Utf8Len, Reserved, Expression, Trim;
    ExpressionLength(DecodedOperator(match_), Trim(value));
  }
}
