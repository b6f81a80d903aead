/** What the rendering of marked and of special text looks like, and that a reader sees the text that was
    written (internal/vkteams/format.go). */
module Rendered {
  import opened Text
  import opened Markdown
  import References

  // ---- Reading references ----

  /** The rune a character reference stands for. */
  function Meaning(reference: string): string {
    if reference == "&amp;" then "&"
    else if reference == "&#39;" then "'"
    else if reference == "&lt;" then "<"
    else if reference == "&gt;" then ">"
    else if reference == "&#34;" then "\""
    else ""
  }

  /** A text as a browser shows it: each reference as its rune. */
  function Shown(s: string): string
    decreases |s|
  {
    if s == "" then ""
    else
      var r := References.Reference(s);
      if r == "" then [s[0]] + Shown(s[1..]) else Meaning(r) + Shown(s[|r|..])
  }

  /** Escaped text is shown as the text it was. */
  lemma {:induction false} EscapedShown(s: string)
    ensures Shown(Escape(s)) == s
  {
    if s != "" {
      var e, rest := EscapeRune(s[0]), Escape(s[1..]);
      EscapedShown(s[1..]);
      OneShown(s[0], rest);
      assert [s[0]] + s[1..] == s;
    }
  }

  lemma OneShown(c: char, rest: string)
    ensures Shown(EscapeRune(c) + rest) == [c] + Shown(rest)
  {
    var e := EscapeRune(c);
    var s := e + rest;
    assert s[0] == e[0] && s[|e|..] == rest;
    if c in "&'<>\"" {
      StartsWith(e, rest);
      assert References.Reference(s) == e;
    } else {
      assert e == [c] && References.Reference(s) == "";
    }
  }

  lemma StartsWith(e: string, rest: string)
    requires e in ["&amp;", "&#39;", "&lt;", "&gt;", "&#34;"]
    ensures References.Reference(e + rest) == e
  {
    var s := e + rest;
    assert s[..|e|] == e && s[1] == e[1] && s[3] == e[3];
    if e == "&amp;" {
    } else if e == "&#39;" {
    } else if e == "&lt;" {
    } else if e == "&gt;" {
    } else {
    }
  }

  // ---- One group of a pass ----

  /** A pass turns the first two markers and the text between them into a tagged text, leaves two markers
      with nothing between them as they are, and goes on behind them. */
  lemma PairedGroup(a: string, m: string, x: string, t: string, open: string, close: string)
    requires m != "" && m[0] !in a && m[0] !in x
    ensures Paired(a + m + x + m + t, m, open, close)
         == a + (if x == "" then m + m else open + x + close) + Paired(t, m, open, close)
  {
    hide Paired, Find, NextPair;
    var s, after := a + m + x + m + t, x + m + t;
    assert s[|a| + |m|..] == after;
    MarkerFirst(a, m, x + m + t);
    assert a + m + (x + m + t) == s;
    MarkerFirst(x, m, t);
    NextPairIs(s, m);
    var p := Pair(|a|, |x|);
    PairedUnfolds(s, m, open, close, p);
    assert s[End(p, m)..] == t;
    GroupConverted(a, m, x, t, open, close);
  }

  lemma MarkerFirst(a: string, m: string, t: string)
    requires m != "" && m[0] !in a
    ensures Find(a + m + t, m) == |a|
  {
    var s := a + m + t;
    assert forall k :: 0 <= k < |m| ==> s[|a| + k] == m[k];
    forall j | 0 <= j < |a|
      ensures !At(s, m, j)
    {
      assert s[j + 0] == a[j] && a[j] in a;
    }
    FindIs(s, m, |a|);
  }

  lemma GroupConverted(a: string, m: string, x: string, t: string, open: string, close: string)
    requires m != ""
    ensures Converted(a + m + x + m + t, m, open, close, Pair(|a|, |x|))
         == a + (if x == "" then m + m else open + x + close)
  {
    var s := a + m + x + m + t;
    assert s[..|a|] == a && s[|a| + |m|..|a| + |m| + |x|] == x;
    assert x == "" ==> s[..|a| + 2 * |m|] == a + (m + m);
  }

  // ---- A marked word ----

  /** Without markers and without runes that are escaped. */
  predicate PlainText(s: string) {
    forall i :: 0 <= i < |s| ==> s[i] !in "*`_&'<>\""
  }

  /** The start and end tags the four kinds of markers become. */
  function StartOf(pass: Pass): string {
    match pass
    case DoubleStar => "<b>"
    case Star => "<b>"
    case Tick => "<code>"
    case Underscore => "<i>"
  }

  function EndOf(pass: Pass): string {
    match pass
    case DoubleStar => "</b>"
    case Star => "</b>"
    case Tick => "</code>"
    case Underscore => "</i>"
  }

  lemma TagsWritten(pass: Pass)
    ensures OpenTag(pass.Tag()) == StartOf(pass) && CloseTag(pass.Tag()) == EndOf(pass)
  {
  }

  /** One marked text among plain ones is rendered between its tags, and nothing else changes: **a** and *a*
      in bold, `a` as code, _a_ in italics. */
  lemma RenderMarked(pass: Pass, a: string, x: string, b: string)
    requires PlainText(a) && PlainText(x) && PlainText(b) && x != ""
    ensures Render(a + pass.Marker() + x + pass.Marker() + b) == a + (StartOf(pass) + x + EndOf(pass)) + b
  {
    var s, r := a + pass.Marker() + x + pass.Marker() + b, a + (StartOf(pass) + x + EndOf(pass)) + b;
    hide Paired, Escape, NextPair, Find, PlainText, StartOf, EndOf;
    MarkedPlain(pass, a, x, b);
    EscapePlain(s);
    MarkedApplied(pass, a, x, b);
    hide NothingToEscape;
    assert Render(s) == Apply(Apply(Apply(Apply(s, DoubleStar), Star), Tick), Underscore);
    hide Apply, Render;
    ResultUntouched(pass, a, x, b, Star);
    ResultUntouched(pass, a, x, b, Tick);
    ResultUntouched(pass, a, x, b, Underscore);
    match pass
    case DoubleStar =>
    case Star =>
      NoDoubleStar(a, x, b);
    case Tick =>
      NotInMarked(pass, a, x, b, DoubleStar);
      OtherUntouched(s, DoubleStar);
      NotInMarked(pass, a, x, b, Star);
      OtherUntouched(s, Star);
    case Underscore =>
      NotInMarked(pass, a, x, b, DoubleStar);
      OtherUntouched(s, DoubleStar);
      NotInMarked(pass, a, x, b, Star);
      OtherUntouched(s, Star);
      NotInMarked(pass, a, x, b, Tick);
      OtherUntouched(s, Tick);
  }

  lemma OtherUntouched(s: string, pass: Pass)
    requires pass.Marker()[0] !in s
    ensures Apply(s, pass) == s
  {
    hide Paired, NextPair;
    NothingToPair(s, pass.Marker());
    PairedNone(s, pass.Marker(), OpenTag(pass.Tag()), CloseTag(pass.Tag()));
  }

  lemma PlainRune(c: char)
    ensures c !in "&'<>\"" ==> EscapeRune(c) == [c]
  {
  }

  lemma MarkedPlain(pass: Pass, a: string, x: string, b: string)
    requires PlainText(a) && PlainText(x) && PlainText(b)
    ensures NothingToEscape(a + pass.Marker() + x + pass.Marker() + b)
  {
    hide EscapeRune;
    var m := pass.Marker();
    forall c | c in a + m + x + m + b
      ensures EscapeRune(c) == [c]
    {
      PlainRune(c);
      assert c in m ==> c in "*`_";
    }
  }

  lemma NoMarkers(a: string, x: string, b: string, q: Pass)
    requires PlainText(a) && PlainText(x) && PlainText(b)
    ensures q.Marker()[0] in "*`_" && q.Marker()[0] !in a && q.Marker()[0] !in x && q.Marker()[0] !in b
  {
    assert q.Marker()[0] in "*`_";
  }

  lemma NotInMarked(pass: Pass, a: string, x: string, b: string, q: Pass)
    requires PlainText(a) && PlainText(x) && PlainText(b) && q.Marker()[0] != pass.Marker()[0]
    ensures q.Marker()[0] !in a + pass.Marker() + x + pass.Marker() + b
  {
    NoMarkers(a, x, b, q);
    hide PlainText;
    assert forall c :: c in pass.Marker() ==> c == pass.Marker()[0];
  }

  lemma ResultUntouched(pass: Pass, a: string, x: string, b: string, q: Pass)
    requires PlainText(a) && PlainText(x) && PlainText(b)
    ensures Apply(a + (StartOf(pass) + x + EndOf(pass)) + b, q) == a + (StartOf(pass) + x + EndOf(pass)) + b
  {
    NoMarkers(a, x, b, q);
    assert q.Marker()[0] !in StartOf(pass) && q.Marker()[0] !in EndOf(pass);
    hide Apply, PlainText;
    OtherUntouched(a + (StartOf(pass) + x + EndOf(pass)) + b, q);
  }

  /** The marker's own pass. */
  lemma MarkedApplied(pass: Pass, a: string, x: string, b: string)
    requires PlainText(a) && PlainText(x) && PlainText(b) && x != ""
    ensures Apply(a + pass.Marker() + x + pass.Marker() + b, pass) == a + (StartOf(pass) + x + EndOf(pass)) + b
  {
    hide Paired, NextPair;
    var m := pass.Marker();
    NoMarkers(a, x, b, pass);
    PairedGroup(a, m, x, b, OpenTag(pass.Tag()), CloseTag(pass.Tag()));
    OtherUntouched(b, pass);
    TagsWritten(pass);
  }

  /** Single stars with text between them are no double star. */
  lemma NoDoubleStar(a: string, x: string, b: string)
    requires PlainText(a) && PlainText(x) && PlainText(b) && x != ""
    ensures Apply(a + "*" + x + "*" + b, DoubleStar) == a + "*" + x + "*" + b
  {
    hide Paired, NextPair;
    var s := a + "*" + x + "*" + b;
    forall i
      ensures !At(s, "**", i)
    {
      TwoStars(s, i);
    }
    hide At, First;
    NextPairIs(s, "**");
    PairedNone(s, "**", OpenTag("b"), CloseTag("b"));
  }

  lemma TwoStars(s: string, i: int)
    ensures At(s, "**", i) <==> 0 <= i && i + 2 <= |s| && s[i] == '*' && s[i + 1] == '*'
  {
    var m := "**";
    if At(s, m, i) {
      assert m[0] == s[i + 0] && m[1] == s[i + 1];
    }
  }
}
