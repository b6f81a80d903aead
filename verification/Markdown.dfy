/** Markdown to the HTML subset VK Teams renders (internal/vkteams/format.go). */
module Markdown {
  import opened Text

  /** html.EscapeString, one rune at a time. */
  function EscapeRune(c: char): string {
    match c
    case '&' => "&amp;"
    case '\'' => "&#39;"
    case '<' => "&lt;"
    case '>' => "&gt;"
    case '"' => "&#34;"
    case _ => [c]
  }

  function Escape(s: string): string {
    if s == "" then "" else EscapeRune(s[0]) + Escape(s[1..])
  }

  predicate At(s: string, m: string, i: int) {
    0 <= i && i + |m| <= |s| && forall k :: 0 <= k < |m| ==> m[k] == s[i + k]
  }

  predicate First(s: string, m: string, i: int) {
    At(s, m, i) && forall j :: 0 <= j < i ==> !At(s, m, j)
  }

  lemma {:induction false} FirstExists(s: string, m: string, i: nat, k: nat)
    requires k <= i && At(s, m, i) && forall j :: 0 <= j < k ==> !At(s, m, j)
    ensures exists j :: 0 <= j <= |s| && First(s, m, j)
    decreases i - k
  {
    if At(s, m, k) {
      assert First(s, m, k);
    } else {
      FirstExists(s, m, i, k + 1);
    }
  }

  /** The first position where `m` occurs in `s`, or -1 when there is none: strings.Index. */
  function Find(s: string, m: string): (i: int)
    ensures i >= 0 ==> First(s, m, i) && At(s, m, i) && i + |m| <= |s|
    ensures i < 0 ==> i == -1 && forall j :: 0 <= j <= |s| ==> !At(s, m, j)
  {
    if exists i :: 0 <= i <= |s| && At(s, m, i) then
      assert exists i :: 0 <= i <= |s| && First(s, m, i) by {
        var i :| 0 <= i <= |s| && At(s, m, i);
        FirstExists(s, m, i, 0);
      }
      var i :| 0 <= i <= |s| && First(s, m, i);
      i
    else -1
  }

  function OpenTag(tag: string): string { "<" + tag + ">" }

  function CloseTag(tag: string): string { "</" + tag + ">" }

  /** Two markers: where the first one starts and how much text is between them. */
  datatype Pair = Pair(start: nat, inner: nat)

  predicate IsPair(s: string, m: string, p: Pair) {
    && p.start + |m| <= |s|
    && Find(s, m) == p.start
    && Find(s[p.start + |m|..], m) == p.inner
  }

  function NextPair(s: string, m: string): (p: Option<Pair>)
    requires m != ""
    ensures p.Some? ==> IsPair(s, m, p.value) && End(p.value, m) <= |s|
  {
    var start := Find(s, m);
    if start < 0 then None
    else
      var inner := Find(s[start + |m|..], m);
      if inner < 0 then None else Some(Pair(start, inner))
  }

  /** The position after the closing marker. */
  function End(p: Pair, m: string): nat {
    p.start + |m| + p.inner + |m|
  }

  /** What is written for the text up to the closing marker; an empty pair stays as it is. */
  function Converted(s: string, m: string, open: string, close: string, p: Pair): string
    requires End(p, m) <= |s|
  {
    if p.inner == 0 then s[..p.start + 2 * |m|]
    else s[..p.start] + (open + (s[p.start + |m|..p.start + |m| + p.inner] + close))
  }

  /** What is written for the unread text `rest`. */
  function Paired(rest: string, m: string, open: string, close: string): string
    requires m != ""
    decreases |rest|
  {
    match NextPair(rest, m)
    case None => rest
    case Some(p) => Converted(rest, m, open, close, p) + Paired(rest[End(p, m)..], m, open, close)
  }

  lemma PairedUnfolds(s: string, m: string, open: string, close: string, p: Pair)
    requires m != "" && NextPair(s, m) == Some(p)
    ensures Paired(s, m, open, close) == Converted(s, m, open, close, p) + Paired(s[End(p, m)..], m, open, close)
  {
    hide Find, At, First;
  }

  /** One turn of the loop for a pair with text inside, and for an empty one. */
  lemma PairedStep(out: string, s: string, m: string, open: string, close: string, p: Pair)
    requires m != "" && NextPair(s, m) == Some(p) && p.inner > 0
    ensures out + Paired(s, m, open, close) == out + s[..p.start] + open + s[p.start + |m|..][..p.inner] + close
                                               + Paired(s[p.start + |m|..][p.inner + |m|..], m, open, close)
  {
    hide NextPair, Paired;
    PairedUnfolds(s, m, open, close, p);
    DropDrop(s, p.start + |m|, p.inner + |m|);
    DropTake(s, p.start + |m|, p.inner);
    var inside := s[p.start + |m|..p.start + |m| + p.inner];
    Regroup(out, s[..p.start], open, inside, close, Paired(s[End(p, m)..], m, open, close));
  }

  lemma PairedEmptyStep(out: string, s: string, m: string, open: string, close: string, p: Pair)
    requires m != "" && NextPair(s, m) == Some(p) && p.inner == 0
    ensures out + Paired(s, m, open, close) == out + s[..p.start + |m| * 2]
                                               + Paired(s[p.start + |m|..][|m|..], m, open, close)
  {
    hide NextPair, Paired;
    PairedUnfolds(s, m, open, close, p);
    DropDrop(s, p.start + |m|, |m|);
  }

  lemma NextPairIs(s: string, m: string)
    requires m != ""
    ensures Find(s, m) < 0 ==> NextPair(s, m) == None
    ensures Find(s, m) >= 0 ==> NextPair(s, m) == var inner := Find(s[Find(s, m) + |m|..], m);
                                                  if inner < 0 then None else Some(Pair(Find(s, m), inner))
  {
    hide Find, At, First;
  }

  lemma PairedNone(s: string, m: string, open: string, close: string)
    requires m != "" && NextPair(s, m) == None
    ensures Paired(s, m, open, close) == s
  {
    hide Find, At, First;
  }

  /** The cases of the loop body. */
  lemma PairedCases(out: string, s: string, m: string, open: string, close: string)
    requires m != ""
    ensures Find(s, m) < 0 ==> Paired(s, m, open, close) == s
    ensures Find(s, m) >= 0 ==>
      var start := Find(s, m);
      var after := s[start + |m|..];
      var end := Find(after, m);
      if end < 0 then Paired(s, m, open, close) == s
      else if end == 0 then
        out + Paired(s, m, open, close) == out + s[..start + |m| * 2] + Paired(after[|m|..], m, open, close)
      else
        out + Paired(s, m, open, close) == out + s[..start] + open + after[..end] + close
                                           + Paired(after[end + |m|..], m, open, close)
  {
    hide *;
    NextPairIs(s, m);
    var p := NextPair(s, m);
    if p == None {
      PairedNone(s, m, open, close);
    } else if p.value.inner == 0 {
      PairedEmptyStep(out, s, m, open, close, p.value);
    } else {
      PairedStep(out, s, m, open, close, p.value);
    }
  }

  method ConvertPaired(s: string, m: string, tag: string) returns (out: string)
    requires m != ""
    ensures out == Paired(s, m, OpenTag(tag), CloseTag(tag))
  {
    hide *;
    if Find(s, m) < 0 {
      PairedCases("", s, m, OpenTag(tag), CloseTag(tag));
      return s;
    }
    out := "";
    var openTag, closeTag := OpenTag(tag), CloseTag(tag);
    var rest := s;
    while true
      invariant out + Paired(rest, m, openTag, closeTag) == Paired(s, m, openTag, closeTag)
      decreases |rest|
    {
      PairedCases(out, rest, m, openTag, closeTag);
      var start := Find(rest, m);
      if start < 0 {
        return out + rest;
      }
      var after := rest[start + |m|..];
      var end := Find(after, m);
      if end < 0 {
        return out + rest;
      }
      if end == 0 {
        out := out + rest[..start + |m| * 2];
        rest := after[|m|..];
      } else {
        out := out + rest[..start];
        out := out + openTag;
        out := out + after[..end];
        out := out + closeTag;
        rest := after[end + |m|..];
      }
    }
  }

  /** The four passes in order: what each looks for and the tag it writes. */
  datatype Pass = DoubleStar | Star | Tick | Underscore {

    function Marker(): (m: string)
      ensures m != ""
    {
      match this
      case DoubleStar => "**"
      case Star => "*"
      case Tick => "`"
      case Underscore => "_"
    }

    function Tag(): string {
      match this
      case DoubleStar => "b"
      case Star => "b"
      case Tick => "code"
      case Underscore => "i"
    }
  }

  function Apply(s: string, pass: Pass): string {
    Paired(s, pass.Marker(), OpenTag(pass.Tag()), CloseTag(pass.Tag()))
  }

  function Render(s: string): string {
    Apply(Apply(Apply(Apply(Escape(s), DoubleStar), Star), Tick), Underscore)
  }

  method FromMarkdown(text: string) returns (s: string)
    ensures s == Render(text)
  {
    s := Escape(text);
    s := ConvertPaired(s, "**", "b");
    s := ConvertPaired(s, "*", "b");
    s := ConvertPaired(s, "`", "code");
    s := ConvertPaired(s, "_", "i");
  }

  // ---- The rendered text as tokens ----

  /** A rune of the escaped text, or a marker that became a tag. */
  datatype Token = Rune(c: char) | Open(pass: Pass) | Close(pass: Pass) {

    /** What the token contributes to the HTML. */
    function Html(): string {
      match this
      case Rune(c) => [c]
      case Open(p) => OpenTag(p.Tag())
      case Close(p) => CloseTag(p.Tag())
    }

    /** What the token stood for before the passes. */
    function Source(): string {
      match this
      case Rune(c) => [c]
      case Open(p) => p.Marker()
      case Close(p) => p.Marker()
    }
  }

  function Html(tokens: seq<Token>): string {
    if tokens == [] then "" else tokens[0].Html() + Html(tokens[1..])
  }

  function Source(tokens: seq<Token>): string {
    if tokens == [] then "" else tokens[0].Source() + Source(tokens[1..])
  }

  /** The tags one pass wrote, in order. */
  function Tags(tokens: seq<Token>, pass: Pass): seq<Token> {
    if tokens == [] then []
    else if tokens[0] == Open(pass) || tokens[0] == Close(pass) then [tokens[0]] + Tags(tokens[1..], pass)
    else Tags(tokens[1..], pass)
  }

  /** Open, close, open, close, ... */
  predicate Alternating(tags: seq<Token>, pass: Pass) {
    tags == [] || (|tags| >= 2 && tags[0] == Open(pass) && tags[1] == Close(pass) && Alternating(tags[2..], pass))
  }

  lemma {:induction false} HtmlAppend(a: seq<Token>, b: seq<Token>)
    ensures Html(a + b) == Html(a) + Html(b)
  {
    if a == [] {
      assert a + b == b;
    } else {
      assert (a + b)[1..] == a[1..] + b;
      HtmlAppend(a[1..], b);
    }
  }

  lemma {:induction false} SourceAppend(a: seq<Token>, b: seq<Token>)
    ensures Source(a + b) == Source(a) + Source(b)
  {
    if a == [] {
      assert a + b == b;
    } else {
      assert (a + b)[1..] == a[1..] + b;
      SourceAppend(a[1..], b);
    }
  }

  lemma {:induction false} TagsAppend(a: seq<Token>, b: seq<Token>, pass: Pass)
    ensures Tags(a + b, pass) == Tags(a, pass) + Tags(b, pass)
  {
    if a == [] {
      assert a + b == b;
    } else {
      assert (a + b)[1..] == a[1..] + b;
      TagsAppend(a[1..], b, pass);
    }
  }

  function Runes(s: string): (tokens: seq<Token>)
    ensures |tokens| == |s| && forall i :: 0 <= i < |s| ==> tokens[i] == Rune(s[i])
  {
    if s == "" then [] else [Rune(s[0])] + Runes(s[1..])
  }

  lemma {:induction false} RunesHtml(s: string)
    ensures Html(Runes(s)) == s && Source(Runes(s)) == s
    ensures forall p: Pass :: Tags(Runes(s), p) == []
  {
    if s != "" {
      RunesHtml(s[1..]);
      assert Runes(s)[1..] == Runes(s[1..]);
      assert [s[0]] + s[1..] == s;
    }
  }

  predicate IsMarkerRune(c: char) {
    c == '*' || c == '`' || c == '_'
  }

  lemma TagsHaveNoMarkers(t: Token)
    ensures t.Html() != "" && (t.Rune? ==> t.Html() == [t.c])
    ensures forall c :: c in t.Html() && IsMarkerRune(c) ==> t == Rune(c)
  {
  }

  /** No tag contains a marker rune, so a marker rune in the HTML is a rune of the text: the tokens
      split into what precedes it, the rune and what follows. */
  lemma {:induction false} SplitAtRune(tokens: seq<Token>, i: nat) returns (j: nat)
    requires i < |Html(tokens)| && IsMarkerRune(Html(tokens)[i])
    ensures j < |tokens| && tokens[j] == Rune(Html(tokens)[i])
    ensures Html(tokens[..j]) == Html(tokens)[..i]
    ensures Html(tokens[j + 1..]) == Html(tokens)[i + 1..]
  {
    hide Token.Html, OpenTag, CloseTag;
    var first, later := tokens[0].Html(), tokens[1..];
    TagsHaveNoMarkers(tokens[0]);
    if i < |first| {
      assert Html(tokens)[i] in first;
      j := 0;
    } else {
      var k := SplitAtRune(later, i - |first|);
      j := k + 1;
      SliceOfConcat(first, Html(later), i);
      assert tokens[..j][1..] == later[..k] && tokens[j + 1..] == later[k + 1..];
    }
  }

  lemma SliceOfConcat(a: string, b: string, i: nat)
    requires |a| <= i < |a + b|
    ensures (a + b)[..i] == a + b[..i - |a|]
    ensures (a + b)[i + 1..] == b[i - |a| + 1..]
  {
  }

  /** The same for a whole marker. */
  lemma SplitAtMarker(tokens: seq<Token>, i: nat, pass: Pass) returns (j: nat)
    requires At(Html(tokens), pass.Marker(), i)
    ensures j + |pass.Marker()| <= |tokens|
    ensures tokens[j..j + |pass.Marker()|] == Runes(pass.Marker())
    ensures Html(tokens[..j]) == Html(tokens)[..i]
    ensures Html(tokens[j + |pass.Marker()|..]) == Html(tokens)[i + |pass.Marker()|..]
  {
    hide Html;
    var h := Html(tokens);
    assert h[i] == pass.Marker()[0];
    j := SplitAtRune(tokens, i);
    if pass == DoubleStar {
      assert h[i + 1] == pass.Marker()[1];
      SecondStar(tokens, j, h, i);
    }
  }

  lemma SecondStar(tokens: seq<Token>, j: nat, h: string, i: nat)
    requires j < |tokens| && tokens[j] == Rune('*')
    requires i + 1 < |h| && h[i + 1] == '*' && Html(tokens[j + 1..]) == h[i + 1..]
    ensures j + 2 <= |tokens| && tokens[j..j + 2] == Runes("**")
    ensures Html(tokens[j + 2..]) == h[i + 2..]
  {
    var later := tokens[j + 1..];
    assert Html(later)[0] == '*';
    TagsHaveNoMarkers(later[0]);
    assert '*' in later[0].Html();
    DropDrop(tokens, j + 1, 1);
    DropDrop(h, i + 1, 1);
  }

  // ---- One pass over the tokens ----

  lemma FiveParts(a: seq<Token>, b: seq<Token>, c: seq<Token>, d: seq<Token>, e: seq<Token>)
    ensures Html(a + b + c + d + e) == Html(a) + Html(b) + Html(c) + Html(d) + Html(e)
    ensures Source(a + b + c + d + e) == Source(a) + Source(b) + Source(c) + Source(d) + Source(e)
    ensures forall q: Pass :: Tags(a + b + c + d + e, q)
              == Tags(a, q) + Tags(b, q) + Tags(c, q) + Tags(d, q) + Tags(e, q)
  {
    hide *;
    HtmlAppend(a + b + c + d, e);
    HtmlAppend(a + b + c, d);
    HtmlAppend(a + b, c);
    HtmlAppend(a, b);
    SourceAppend(a + b + c + d, e);
    SourceAppend(a + b + c, d);
    SourceAppend(a + b, c);
    SourceAppend(a, b);
    forall q: Pass
      ensures Tags(a + b + c + d + e, q) == Tags(a, q) + Tags(b, q) + Tags(c, q) + Tags(d, q) + Tags(e, q)
    {
      TagsAppend(a + b + c + d, e, q);
      TagsAppend(a + b + c, d, q);
      TagsAppend(a + b, c, q);
      TagsAppend(a, b, q);
    }
  }

  lemma OneTag(pass: Pass, q: Pass)
    ensures Html([Open(pass)]) == OpenTag(pass.Tag()) && Html([Close(pass)]) == CloseTag(pass.Tag())
    ensures Source([Open(pass)]) == pass.Marker() && Source([Close(pass)]) == pass.Marker()
    ensures Tags([Open(pass)], q) == if q == pass then [Open(pass)] else []
    ensures Tags([Close(pass)], q) == if q == pass then [Close(pass)] else []
  {
    OneToken(Open(pass), q);
    OneToken(Close(pass), q);
    hide Html, Source, Tags;
  }

  lemma OneToken(t: Token, q: Pass)
    ensures Html([t]) == t.Html() && Source([t]) == t.Source()
    ensures Tags([t], q) == if t == Open(q) || t == Close(q) then [t] else []
  {
    assert [t][1..] == [];
    assert Html([]) == "" && Source([]) == "" && Tags([], q) == [];
    hide Token.Html, Token.Source;
    assert t.Html() + "" == t.Html() && t.Source() + "" == t.Source();
  }

  /** How one pass changes the tokens: markers become tags that read back as the markers, other
      passes' tags stay, and the new tags open and close in turn. */
  ghost predicate PassResult(before: seq<Token>, after: seq<Token>, pass: Pass) {
    && Html(after) == Apply(Html(before), pass)
    && Source(after) == Source(before)
    && (forall q: Pass :: q != pass ==> Tags(after, q) == Tags(before, q))
    && (Tags(before, pass) == [] ==> Alternating(Tags(after, pass), pass))
    && (forall c :: Rune(c) in after ==> Rune(c) in before)
  }

  /** The first place where the runes of the pass's marker stand in a row. */
  function NextMarker(tokens: seq<Token>, pass: Pass): (i: Option<nat>)
    ensures i.Some? ==> i.value + |pass.Marker()| <= |tokens|
  {
    if |tokens| < |pass.Marker()| then None
    else if Runes(pass.Marker()) <= tokens then Some(0)
    else
      match NextMarker(tokens[1..], pass)
      case None => None
      case Some(i) => Some(i + 1)
  }

  /** The tokens before, between and after the next two markers. */
  datatype Cuts = Cuts(before: seq<Token>, inside: seq<Token>, after: seq<Token>)

  function NextCuts(tokens: seq<Token>, pass: Pass): (p: Option<Cuts>)
    ensures p.Some? ==> |p.value.after| < |tokens|
  {
    var n := |pass.Marker()|;
    match NextMarker(tokens, pass)
    case None => None
    case Some(i) =>
      var later := tokens[i + n..];
      match NextMarker(later, pass)
      case None => None
      case Some(j) => Some(Cuts(tokens[..i], later[..j], later[j + n..]))
  }

  /** One pass over the tokens, by the markers alone: the first marker and the next one after it become a
      pair of tags, unless nothing is between them, and so on behind them. */
  function PairMarkers(tokens: seq<Token>, pass: Pass): seq<Token>
    decreases |tokens|
  {
    match NextCuts(tokens, pass)
    case None => tokens
    case Some(p) =>
      var m, rest := Runes(pass.Marker()), PairMarkers(p.after, pass);
      if p.inside == [] then p.before + m + p.inside + m + rest
      else p.before + [Open(pass)] + p.inside + [Close(pass)] + rest
  }

  ghost predicate MarkerAt(tokens: seq<Token>, pass: Pass, i: int) {
    0 <= i && i + |pass.Marker()| <= |tokens| && tokens[i..i + |pass.Marker()|] == Runes(pass.Marker())
  }

  lemma MarkerLater(tokens: seq<Token>, pass: Pass, i: int)
    requires tokens != []
    ensures i >= 1 ==> (MarkerAt(tokens, pass, i) <==> MarkerAt(tokens[1..], pass, i - 1))
    ensures MarkerAt(tokens, pass, 0) <==> |tokens| >= |pass.Marker()| && Runes(pass.Marker()) <= tokens
  {
    hide Runes;
    var n := |pass.Marker()|;
    if i >= 1 && i + n <= |tokens| {
      TailSlice(tokens, i, n);
    }
  }

  lemma TailSlice<T>(s: seq<T>, i: nat, n: nat)
    requires 1 <= i && i + n <= |s|
    ensures s[1..][i - 1..i - 1 + n] == s[i..i + n]
  {
    var a, b := s[1..][i - 1..i - 1 + n], s[i..i + n];
    assert forall k :: 0 <= k < n ==> a[k] == b[k];
  }

  lemma {:induction false} NextMarkerFirst(tokens: seq<Token>, pass: Pass)
    ensures match NextMarker(tokens, pass)
            case None => forall i :: !MarkerAt(tokens, pass, i)
            case Some(i) => MarkerAt(tokens, pass, i) && forall j :: 0 <= j < i ==> !MarkerAt(tokens, pass, j)
  {
    hide Runes;
    if |tokens| >= |pass.Marker()| {
      MarkerLater(tokens, pass, 0);
      if !MarkerAt(tokens, pass, 0) {
        NextMarkerFirst(tokens[1..], pass);
        forall i
          ensures MarkerAt(tokens, pass, i) <==> i >= 1 && MarkerAt(tokens[1..], pass, i - 1)
        {
          assert MarkerAt(tokens, pass, i) ==> i >= 0;
          MarkerLater(tokens, pass, i);
        }
        hide MarkerAt;
      }
    }
  }

  lemma HtmlGrows(tokens: seq<Token>, i: nat, j: nat)
    requires i < j <= |tokens|
    ensures |Html(tokens[..i])| < |Html(tokens[..j])|
  {
    hide Token.Html;
    assert tokens[..j] == tokens[..i] + tokens[i..j];
    HtmlAppend(tokens[..i], tokens[i..j]);
    TagsHaveNoMarkers(tokens[i]);
    assert tokens[i..j][0] == tokens[i];
  }

  /** A marker among the tokens stands in the HTML where the tokens before it end. */
  lemma MarkerHtml(tokens: seq<Token>, pass: Pass, i: nat)
    requires MarkerAt(tokens, pass, i)
    ensures var m, h, k := pass.Marker(), Html(tokens), |Html(tokens[..i])|;
            && At(h, m, k) && k + |m| <= |h| && h[..k] == Html(tokens[..i]) && h[k + |m|..] == Html(tokens[i + |m|..])
  {
    var m := pass.Marker();
    RunesHtml(m);
    hide Html, Runes;
    var a, e := tokens[..i], tokens[i + |m|..];
    assert tokens == a + (Runes(m) + e);
    HtmlAppend(a, Runes(m) + e);
    HtmlAppend(Runes(m), e);
  }

  /** The first marker among the tokens is the first one in their HTML. */
  lemma NextMarkerIs(tokens: seq<Token>, pass: Pass)
    ensures match NextMarker(tokens, pass)
            case None => Find(Html(tokens), pass.Marker()) < 0
            case Some(i) => MarkerAt(tokens, pass, i) && Find(Html(tokens), pass.Marker()) == |Html(tokens[..i])|
  {
    hide Html, Find, At, Runes, NextMarker;
    var m, h := pass.Marker(), Html(tokens);
    NextMarkerFirst(tokens, pass);
    var f := Find(h, m);
    if NextMarker(tokens, pass).Some? {
      var i := NextMarker(tokens, pass).value;
      MarkerHtml(tokens, pass, i);
    }
    if f >= 0 {
      var j := SplitAtMarker(tokens, f, pass);
      assert MarkerAt(tokens, pass, j);
      var i := NextMarker(tokens, pass).value;
      if i < j {
        HtmlGrows(tokens, i, j);
      }
    }
  }

  lemma MarkerParts(tokens: seq<Token>, pass: Pass, i: nat)
    requires MarkerAt(tokens, pass, i)
    ensures tokens == tokens[..i] + Runes(pass.Marker()) + tokens[i + |pass.Marker()|..]
    ensures Html(tokens[..i]) == "" <==> tokens[..i] == []
  {
    hide Runes;
    if i > 0 {
      HtmlGrows(tokens, 0, i);
    }
  }

  /** The tokens around the next pair of markers make up the text around it. */
  lemma SplitAtPair(tokens: seq<Token>, pass: Pass)
    ensures var m, h, parts := pass.Marker(), Html(tokens), NextCuts(tokens, pass);
            match NextPair(h, m)
            case None => parts == None
            case Some(p) =>
              && parts.Some?
              && var Cuts(a, c, e) := parts.value;
                 && tokens == a + Runes(m) + c + Runes(m) + e
                 && Html(a) == h[..p.start] && Html(c) == h[p.start + |m|..][..p.inner] && Html(e) == h[End(p, m)..]
                 && (p.inner == 0 <==> c == [])
  {
    hide *;
    if NextCuts(tokens, pass) == None {
      NoCuts(tokens, pass);
    } else {
      var i, j := CutsArePair(tokens, pass);
      PairAround(tokens, pass, i, j, Html(tokens));
      EndIs(NextPair(Html(tokens), pass.Marker()).value, pass.Marker());
    }
  }

  lemma EndIs(p: Pair, m: string)
    ensures End(p, m) == p.start + |m| + p.inner + |m|
  {
  }

  lemma NoCuts(tokens: seq<Token>, pass: Pass)
    requires NextCuts(tokens, pass) == None
    ensures NextPair(Html(tokens), pass.Marker()) == None
  {
    hide Html, Find, First, At, Runes, NextPair, NextMarker, MarkerAt, Pass.Marker;
    NextPairIs(Html(tokens), pass.Marker());
    NextMarkerIs(tokens, pass);
    if NextMarker(tokens, pass).Some? {
      var i := NextMarker(tokens, pass).value;
      MarkerHtml(tokens, pass, i);
      NextMarkerIs(tokens[i + |pass.Marker()|..], pass);
    }
  }

  /** The two markers among the tokens are the next pair of the text. */
  lemma CutsArePair(tokens: seq<Token>, pass: Pass) returns (i: nat, j: nat)
    requires NextCuts(tokens, pass).Some?
    ensures MarkerAt(tokens, pass, i) && i + |pass.Marker()| <= |tokens|
    ensures var m, later := pass.Marker(), tokens[i + |pass.Marker()|..];
            && MarkerAt(later, pass, j) && j + |m| <= |later|
            && NextCuts(tokens, pass).value == Cuts(tokens[..i], later[..j], later[j + |m|..])
            && NextPair(Html(tokens), m) == Some(Pair(|Html(tokens[..i])|, |Html(later[..j])|))
  {
    hide Html, Find, First, At, Runes, NextPair, NextMarker, MarkerAt, Pass.Marker;
    NextPairIs(Html(tokens), pass.Marker());
    NextMarkerIs(tokens, pass);
    i := NextMarker(tokens, pass).value;
    MarkerHtml(tokens, pass, i);
    var later := tokens[i + |pass.Marker()|..];
    NextMarkerIs(later, pass);
    j := NextMarker(later, pass).value;
  }

  lemma PairAround(tokens: seq<Token>, pass: Pass, i: nat, j: nat, h: string)
    requires h == Html(tokens) && MarkerAt(tokens, pass, i) && MarkerAt(tokens[i + |pass.Marker()|..], pass, j)
    ensures var m := pass.Marker();
            var later := tokens[i + |m|..];
            var a, c, e := tokens[..i], later[..j], later[j + |m|..];
            && tokens == a + Runes(m) + c + Runes(m) + e
            && |Html(a)| + |m| + |Html(c)| + |m| <= |h|
            && Html(a) == h[..|Html(a)|] && Html(c) == h[|Html(a)| + |m|..][..|Html(c)|]
            && Html(e) == h[|Html(a)| + |m| + |Html(c)| + |m|..] && (|Html(c)| == 0 <==> c == [])
  {
    hide Html, Runes, At;
    var m := pass.Marker();
    MarkerHtml(tokens, pass, i);
    var later := tokens[i + |m|..];
    MarkerHtml(later, pass, j);
    MarkerParts(tokens, pass, i);
    MarkerParts(later, pass, j);
    FourParts(tokens[..i], Runes(m), later[..j], later[j + |m|..]);
    DropDrop(h, |Html(tokens[..i])| + |m|, |Html(later[..j])| + |m|);
  }

  lemma FourParts(a: seq<Token>, m: seq<Token>, c: seq<Token>, e: seq<Token>)
    ensures a + m + (c + m + e) == a + m + c + m + e
  {
  }

  /** The marker texts become one pair of tags; what follows the pair is `rest`. */
  lemma PairTags(a: seq<Token>, c: seq<Token>, e: seq<Token>, rest: seq<Token>, pass: Pass)
    requires PassResult(e, rest, pass)
    ensures var before := a + Runes(pass.Marker()) + c + Runes(pass.Marker()) + e;
            var after := a + [Open(pass)] + c + [Close(pass)] + rest;
            && Source(after) == Source(before)
            && (forall q: Pass :: q != pass ==> Tags(after, q) == Tags(before, q))
            && (Tags(before, pass) == [] ==> Alternating(Tags(after, pass), pass))
            && (forall x :: Rune(x) in after ==> Rune(x) in before)
            && Html(after) == Html(a) + OpenTag(pass.Tag()) + Html(c) + CloseTag(pass.Tag()) + Html(rest)
  {
    hide Html, Source, Tags, Runes, OpenTag, CloseTag, Apply;
    var m := Runes(pass.Marker());
    RunesHtml(pass.Marker());
    FiveParts(a, m, c, m, e);
    FiveParts(a, [Open(pass)], c, [Close(pass)], rest);
    forall q: Pass
      ensures q != pass ==> Tags(a + [Open(pass)] + c + [Close(pass)] + rest, q) == Tags(a + m + c + m + e, q)
    {
      OneTag(pass, q);
    }
    OneTag(pass, pass);
    if Tags(a + m + c + m + e, pass) == [] {
      var tags := Tags(a + [Open(pass)] + c + [Close(pass)] + rest, pass);
      assert Tags(a, pass) == [] && Tags(c, pass) == [] && Tags(e, pass) == [];
      assert tags == [Open(pass), Close(pass)] + Tags(rest, pass);
      assert tags[2..] == Tags(rest, pass);
    }
  }

  lemma EmptyPairTags(a: seq<Token>, c: seq<Token>, e: seq<Token>, rest: seq<Token>, pass: Pass)
    requires PassResult(e, rest, pass)
    ensures var before := a + Runes(pass.Marker()) + c + Runes(pass.Marker()) + e;
            var after := a + Runes(pass.Marker()) + c + Runes(pass.Marker()) + rest;
            && Source(after) == Source(before)
            && (forall q: Pass :: q != pass ==> Tags(after, q) == Tags(before, q))
            && (Tags(before, pass) == [] ==> Alternating(Tags(after, pass), pass))
            && (forall x :: Rune(x) in after ==> Rune(x) in before)
            && Html(after) == Html(a) + pass.Marker() + Html(c) + pass.Marker() + Html(rest)
  {
    hide Html, Source, Tags, Runes, Apply, Alternating;
    var m := Runes(pass.Marker());
    RunesHtml(pass.Marker());
    FiveParts(a, m, c, m, e);
    FiveParts(a, m, c, m, rest);
    if Tags(a + m + c + m + e, pass) == [] {
      assert Tags(a, pass) == [] && Tags(c, pass) == [] && Tags(e, pass) == [];
      assert Tags(a + m + c + m + rest, pass) == Tags(rest, pass);
    }
  }

  /** A pass over the HTML is a pass over the tokens. */
  lemma {:induction false} PassTokens(tokens: seq<Token>, pass: Pass)
    ensures PassResult(tokens, PairMarkers(tokens, pass), pass)
    decreases |tokens|
  {
    hide Html, Source, Tags, Runes, Converted, Find, At, First, Paired, NextCuts, NextPair, OpenTag, CloseTag;
    var m, h := pass.Marker(), Html(tokens);
    var open, close := OpenTag(pass.Tag()), CloseTag(pass.Tag());
    SplitAtPair(tokens, pass);
    if NextPair(h, m) == None {
      PairedNone(h, m, open, close);
      assert Tags(tokens, pass) == [] ==> Alternating(Tags(tokens, pass), pass);
    } else {
      var p := NextPair(h, m).value;
      var Cuts(a, c, e) := NextCuts(tokens, pass).value;
      var rest := PairMarkers(e, pass);
      PassTokens(e, pass);
      WrittenPair(h, m, open, close, p);
      if c == [] {
        EmptyPairTags(a, c, e, rest, pass);
      } else {
        PairTags(a, c, e, rest, pass);
      }
    }
  }

  /** What the string pass writes for a pair, in the shape of the tokens. */
  lemma WrittenPair(h: string, m: string, open: string, close: string, p: Pair)
    requires m != "" && NextPair(h, m) == Some(p)
    ensures var rest := Paired(h[End(p, m)..], m, open, close);
            Paired(h, m, open, close) ==
            if p.inner == 0 then h[..p.start] + m + h[p.start + |m|..][..p.inner] + m + rest
            else h[..p.start] + open + h[p.start + |m|..][..p.inner] + close + rest
  {
    hide NextPair, Paired, Find, First, Converted;
    var rest := Paired(h[End(p, m)..], m, open, close);
    if p.inner == 0 {
      PairedEmptyStep("", h, m, open, close, p);
      DropDrop(h, p.start + |m|, |m|);
      EmptyPairText(h, m, p);
      assert "" + Paired(h, m, open, close) == Paired(h, m, open, close);
      assert "" + h[..p.start + |m| * 2] == h[..p.start + |m| * 2];
    } else {
      PairedStep("", h, m, open, close, p);
      DropDrop(h, p.start + |m|, p.inner + |m|);
      assert "" + Paired(h, m, open, close) == Paired(h, m, open, close);
      assert "" + h[..p.start] == h[..p.start];
    }
  }

  lemma EmptyPairText(h: string, m: string, p: Pair)
    requires m != "" && NextPair(h, m) == Some(p) && p.inner == 0
    ensures h[..p.start + |m| * 2] == h[..p.start] + m + h[p.start + |m|..][..p.inner] + m
  {
    hide Find, First, Paired;
    var after := h[p.start + |m|..];
    assert At(h, m, p.start) && At(after, m, 0);
    assert h[p.start..p.start + |m|] == m;
    assert h[p.start + |m|..p.start + |m| * 2] == m;
  }

  // ---- The whole rendering ----

  function Opens(tokens: seq<Token>, pass: Pass): nat {
    if tokens == [] then 0
    else Opens(tokens[..|tokens| - 1], pass) + if tokens[|tokens| - 1] == Open(pass) then 1 else 0
  }

  function Closes(tokens: seq<Token>, pass: Pass): nat {
    if tokens == [] then 0
    else Closes(tokens[..|tokens| - 1], pass) + if tokens[|tokens| - 1] == Close(pass) then 1 else 0
  }

  /** How often a tag name is opened: bold is written by two passes. */
  function OpensOf(tokens: seq<Token>, tag: string): nat {
    (if tag == "b" then Opens(tokens, DoubleStar) + Opens(tokens, Star) else 0)
    + (if tag == "code" then Opens(tokens, Tick) else 0)
    + (if tag == "i" then Opens(tokens, Underscore) else 0)
  }

  function ClosesOf(tokens: seq<Token>, tag: string): nat {
    (if tag == "b" then Closes(tokens, DoubleStar) + Closes(tokens, Star) else 0)
    + (if tag == "code" then Closes(tokens, Tick) else 0)
    + (if tag == "i" then Closes(tokens, Underscore) else 0)
  }

  lemma {:induction false} TagsCount(tokens: seq<Token>, pass: Pass)
    ensures Opens(tokens, pass) == Opens(Tags(tokens, pass), pass)
    ensures Closes(tokens, pass) == Closes(Tags(tokens, pass), pass)
  {
    if tokens != [] {
      var init, last := tokens[..|tokens| - 1], tokens[|tokens| - 1];
      assert tokens == init + [last];
      TagsAppend(init, [last], pass);
      TagsCount(init, pass);
      var tags := Tags(init, pass);
      if last == Open(pass) || last == Close(pass) {
        assert Tags([last], pass) == [last] + [];
        assert (tags + [last])[..|tags|] == tags;
      } else {
        assert Tags([last], pass) == [];
        assert tags + [] == tags;
      }
    }
  }

  /** A prefix of an alternating list has opened at least as many tags as it closed. */
  lemma {:induction false} AlternatingPrefix(tags: seq<Token>, pass: Pass, k: nat)
    requires Alternating(tags, pass) && k <= |tags|
    ensures Opens(tags[..k], pass) == (k + 1) / 2 && Closes(tags[..k], pass) == k / 2
    ensures |tags| % 2 == 0
    decreases k, |tags|
  {
    AlternatingAt(tags, pass);
    hide Alternating;
    if k > 0 {
      AlternatingPrefix(tags, pass, k - 1);
      assert tags[..k][..k - 1] == tags[..k - 1];
    }
  }

  lemma {:induction false} AlternatingAt(tags: seq<Token>, pass: Pass)
    requires Alternating(tags, pass)
    ensures |tags| % 2 == 0
    ensures forall i :: 0 <= i < |tags| ==> tags[i] == if i % 2 == 0 then Open(pass) else Close(pass)
  {
    if tags != [] {
      AlternatingAt(tags[2..], pass);
      assert forall i :: 2 <= i < |tags| ==> tags[i] == tags[2..][i - 2];
    }
  }

  /** Each pass's tags are balanced: never more closed than opened, and all closed at the end. */
  lemma PassBalanced(tokens: seq<Token>, pass: Pass, n: nat)
    requires Alternating(Tags(tokens, pass), pass) && n <= |tokens|
    ensures Closes(tokens[..n], pass) <= Opens(tokens[..n], pass) <= Closes(tokens[..n], pass) + 1
    ensures Closes(tokens, pass) == Opens(tokens, pass)
  {
    hide Opens, Closes, Tags, Alternating;
    var tags, prefix := Tags(tokens, pass), Tags(tokens[..n], pass);
    assert tokens == tokens[..n] + tokens[n..];
    TagsAppend(tokens[..n], tokens[n..], pass);
    TagsCount(tokens, pass);
    TagsCount(tokens[..n], pass);
    AlternatingPrefix(tags, pass, |prefix|);
    AlternatingPrefix(tags, pass, |tags|);
    assert tags[..|prefix|] == prefix && tags[..|tags|] == tags;
  }

  lemma {:induction false} EscapedHasNoAngles(s: string)
    ensures '<' !in Escape(s) && '>' !in Escape(s)
  {
    if s != "" {
      EscapedHasNoAngles(s[1..]);
    }
  }

  /** `tokens` accounts for the whole rendering of `text`: read as HTML they are the output; with
      every tag read back as the marker it replaced they are the escaped text; the only angle
      brackets are those of the tags; and each tag name is closed only after it was opened, and as
      often. */
  ghost predicate Rendering(text: string, tokens: seq<Token>) {
    && Html(tokens) == Render(text)
    && Source(tokens) == Escape(text)
    && (forall c :: Rune(c) in tokens ==> c != '<' && c != '>')
    && (forall n, tag :: 0 <= n <= |tokens| ==> ClosesOf(tokens[..n], tag) <= OpensOf(tokens[..n], tag))
    && (forall tag :: ClosesOf(tokens, tag) == OpensOf(tokens, tag))
  }

  /** The four passes over the tokens of the escaped text. */
  function Marked(text: string): seq<Token> {
    PairMarkers(PairMarkers(PairMarkers(PairMarkers(Runes(Escape(text)), DoubleStar), Star), Tick), Underscore)
  }

  lemma RenderPasses(text: string)
    ensures Html(Marked(text)) == Render(text) && Source(Marked(text)) == Escape(text)
    ensures forall c :: Rune(c) in Marked(text) ==> c in Escape(text)
    ensures forall pass: Pass :: Alternating(Tags(Marked(text), pass), pass)
  {
    hide Html, Source, Tags, Runes, Apply, Escape, Alternating, PairMarkers;
    var e := Escape(text);
    RunesHtml(e);
    var t0 := Runes(e);
    assert forall c :: Rune(c) in t0 ==> c in e;
    var t1 := PairMarkers(t0, DoubleStar);
    PassTokens(t0, DoubleStar);
    var t2 := PairMarkers(t1, Star);
    PassTokens(t1, Star);
    var t3 := PairMarkers(t2, Tick);
    PassTokens(t2, Tick);
    var tokens := PairMarkers(t3, Underscore);
    PassTokens(t3, Underscore);
    forall pass: Pass
      ensures Alternating(Tags(tokens, pass), pass)
    {
      match pass
      case DoubleStar =>
      case Star =>
      case Tick =>
      case Underscore =>
    }
  }

  /** Rendering adds balanced tags and nothing else, and loses nothing but the markers. */
  lemma RenderingBalanced(text: string)
    ensures Rendering(text, Marked(text))
  {
    RenderPasses(text);
    EscapedHasNoAngles(text);
    hide Html, Source, Tags, Apply, Render, Escape, Alternating, Opens, Closes, Marked;
    var tokens := Marked(text);
    forall n, tag | 0 <= n <= |tokens|
      ensures ClosesOf(tokens[..n], tag) <= OpensOf(tokens[..n], tag)
    {
      PassBalanced(tokens, DoubleStar, n);
      PassBalanced(tokens, Star, n);
      PassBalanced(tokens, Tick, n);
      PassBalanced(tokens, Underscore, n);
    }
    forall tag
      ensures ClosesOf(tokens, tag) == OpensOf(tokens, tag)
    {
      PassBalanced(tokens, DoubleStar, 0);
      PassBalanced(tokens, Star, 0);
      PassBalanced(tokens, Tick, 0);
      PassBalanced(tokens, Underscore, 0);
    }
  }

  const SIX_TAGS := ["<b>", "</b>", "<code>", "</code>", "<i>", "</i>"]

  predicate TagAt(s: string, i: nat)
    requires i <= |s|
  {
    exists k :: 0 <= k < |SIX_TAGS| && SIX_TAGS[k] <= s[i..]
  }

  lemma TagHtml(t: Token)
    requires !t.Rune?
    ensures t.Html() in SIX_TAGS
    ensures forall i :: 0 < i < |t.Html()| ==> t.Html()[i] != '<'
  {
    assert SIX_TAGS[0] == OpenTag("b") && SIX_TAGS[1] == CloseTag("b");
    assert SIX_TAGS[2] == OpenTag("code") && SIX_TAGS[3] == CloseTag("code");
    assert SIX_TAGS[4] == OpenTag("i") && SIX_TAGS[5] == CloseTag("i");
  }

  lemma {:induction false} AnglesAreTags(tokens: seq<Token>, i: nat)
    requires forall c :: Rune(c) in tokens ==> c != '<'
    requires i < |Html(tokens)| && Html(tokens)[i] == '<'
    ensures TagAt(Html(tokens), i)
  {
    hide Token.Html, OpenTag, CloseTag;
    var first, later := tokens[0].Html(), tokens[1..];
    TagsHaveNoMarkers(tokens[0]);
    if i < |first| {
      assert first[i] == '<';
      assert Rune('<') !in tokens;
      TagHtml(tokens[0]);
      assert first <= Html(tokens)[0..];
    } else {
      assert Html(tokens)[i] == Html(later)[i - |first|];
      AnglesAreTags(later, i - |first|);
      assert Html(tokens)[i..] == Html(later)[i - |first|..];
    }
  }

  /** Every `<` of the output begins one of the six tags, whatever the text contained. */
  lemma NoOtherMarkup(text: string, i: nat)
    requires i < |Render(text)| && Render(text)[i] == '<'
    ensures TagAt(Render(text), i)
  {
    hide Render, Html, Source, Opens, Closes, TagAt, Marked;
    RenderingBalanced(text);
    AnglesAreTags(Marked(text), i);
  }

  // ---- Appending to a text ----

  lemma FindIs(s: string, m: string, i: nat)
    requires First(s, m, i)
    ensures Find(s, m) == i
  {
    hide Find;
    assert At(s, m, i);
  }

  /** Text without the marker's last rune changes nothing about where the marker is. */
  lemma FindAppend(s: string, t: string, m: string)
    requires m != "" && (Find(s, m) >= 0 || m[|m| - 1] !in t)
    ensures Find(s + t, m) == Find(s, m)
  {
    hide Find;
    var u := s + t;
    forall i | 0 <= i && i + |m| <= |s|
      ensures At(u, m, i) <==> At(s, m, i)
    {
    }
    if Find(s, m) >= 0 {
      FindIs(u, m, Find(s, m));
    } else {
      forall i | 0 <= i <= |u|
        ensures !At(u, m, i)
      {
        if i + |m| <= |s| {
          assert At(u, m, i) <==> At(s, m, i);
        } else if i + |m| <= |u| {
          assert m[|m| - 1] != u[i + (|m| - 1)];
        }
      }
      assert Find(u, m) >= 0 ==> At(u, m, Find(u, m));
    }
  }

  lemma NextPairAppend(s: string, t: string, m: string)
    requires m != "" && (NextPair(s, m).Some? || m[|m| - 1] !in t)
    ensures NextPair(s + t, m) == NextPair(s, m)
  {
    hide Find, First, At, NextPair;
    NextPairIs(s, m);
    NextPairIs(s + t, m);
    FindAppend(s, t, m);
    var start := Find(s, m);
    if start >= 0 {
      var after := s[start + |m|..];
      assert (s + t)[start + |m|..] == after + t;
      FindAppend(after, t, m);
    }
  }

  lemma ConvertedAppend(s: string, t: string, m: string, open: string, close: string, p: Pair)
    requires End(p, m) <= |s|
    ensures Converted(s + t, m, open, close, p) == Converted(s, m, open, close, p)
    ensures (s + t)[End(p, m)..] == s[End(p, m)..] + t
  {
    assert (s + t)[..p.start] == s[..p.start];
    var i, j := p.start + |m|, p.start + |m| + p.inner;
    assert (s + t)[i..j] == s[i..j];
    if p.inner == 0 {
      assert (s + t)[..p.start + 2 * |m|] == s[..p.start + 2 * |m|];
    }
  }

  /** A pass leaves appended text without marker runes alone. */
  lemma {:induction false} PairedAppendPlain(s: string, t: string, m: string, open: string, close: string)
    requires m != "" && m[|m| - 1] !in t
    ensures Paired(s + t, m, open, close) == Paired(s, m, open, close) + t
    decreases |s|
  {
    hide Find, First, At, NextPair, Converted, Paired;
    NextPairAppend(s, t, m);
    var next := NextPair(s, m);
    if next == None {
      PairedNone(s, m, open, close);
      PairedNone(s + t, m, open, close);
    } else {
      var p := next.value;
      PairedUnfolds(s, m, open, close, p);
      PairedUnfolds(s + t, m, open, close, p);
      ConvertedAppend(s, t, m, open, close, p);
      PairedAppendPlain(s[End(p, m)..], t, m, open, close);
    }
  }

  lemma FindUnderscore(a: string, b: string)
    requires '_' !in a
    ensures Find(a + "_" + b, "_") == |a|
  {
    hide Find;
    var s := a + "_" + b;
    assert At(s, "_", |a|);
    assert First(s, "_", |a|) by {
      forall j | 0 <= j < |a|
        ensures !At(s, "_", j)
      {
        assert s[j] == a[j];
        assert "_"[0] != s[j + 0];
      }
    }
    FindIs(s, "_", |a|);
  }

  /** An italic group appended after a gap lengthens the result by its own length and the two tags,
      less the two markers: also when the text before leaves an underscore open, which then pairs
      with the group's first one. */
  lemma {:induction false} ItalicSuffix(s: string, gap: string, x: string, open: string, close: string)
    requires gap != "" && '_' !in gap && x != "" && '_' !in x
    ensures |Paired(s + (gap + "_" + x + "_"), "_", open, close)|
         == |Paired(s, "_", open, close)| + |gap| + |x| + |open| + |close|
    decreases |s|
  {
    hide Find, First, At, NextPair, Paired;
    var t := gap + "_" + x + "_";
    var next := NextPair(s, "_");
    if next == None {
      PairedNone(s, "_", open, close);
      ItalicSuffixOpen(s, gap, x, open, close);
    } else {
      var p := next.value;
      NextPairAppend(s, t, "_");
      ConvertedAppend(s, t, "_", open, close, p);
      ItalicSuffix(s[End(p, "_")..], gap, x, open, close);
      PairedUnfolds(s, "_", open, close, p);
      PairedUnfolds(s + t, "_", open, close, p);
    }
  }

  lemma ItalicSuffixOpen(s: string, gap: string, x: string, open: string, close: string)
    requires gap != "" && '_' !in gap && x != "" && '_' !in x && NextPair(s, "_") == None
    ensures |Paired(s + (gap + "_" + x + "_"), "_", open, close)| == |s| + |gap| + |x| + |open| + |close|
  {
    hide Find, First, At, NextPair, Paired;
    var t := gap + "_" + x + "_";
    var u := s + t;
    NextPairIs(s, "_");
    NextPairIs(u, "_");
    if Find(s, "_") < 0 {
      NoUnderscore(s);
      assert u == (s + gap) + "_" + (x + "_");
      FindUnderscore(s + gap, x + "_");
      var after := u[|s + gap| + 1..];
      assert after == x + "_" + "";
      FindUnderscore(x, "");
      var p := Pair(|s + gap|, |x|);
      PairedUnfolds(u, "_", open, close, p);
      assert u[End(p, "_")..] == "";
      NoPairEmpty();
      PairedNone("", "_", open, close);
    } else {
      var start := Find(s, "_");
      var after := s[start + 1..];
      FindAppend(s, t, "_");
      NoUnderscore(after);
      assert u[start + 1..] == (after + gap) + "_" + (x + "_");
      FindUnderscore(after + gap, x + "_");
      var p := Pair(start, |after + gap|);
      PairedUnfolds(u, "_", open, close, p);
      assert u[End(p, "_")..] == x + "_" + "";
      LoneUnderscore(x);
      PairedNone(x + "_" + "", "_", open, close);
    }
  }

  lemma NoUnderscore(s: string)
    requires Find(s, "_") < 0
    ensures '_' !in s
  {
    hide Find;
    forall i | 0 <= i < |s|
      ensures s[i] != '_'
    {
      assert !At(s, "_", i);
      assert "_"[0] == '_' && s[i] == s[i + 0];
    }
  }

  lemma NoPairEmpty()
    ensures NextPair("", "_") == None
  {
    hide Find, First;
    NextPairIs("", "_");
  }

  lemma LoneUnderscore(x: string)
    requires '_' !in x
    ensures NextPair(x + "_" + "", "_") == None
  {
    hide Find, First, NextPair;
    var s := x + "_" + "";
    NextPairIs(s, "_");
    FindUnderscore(x, "");
    assert s[|x| + 1..] == "";
  }

  lemma {:induction false} EscapeAppend(s: string, t: string)
    ensures Escape(s + t) == Escape(s) + Escape(t)
  {
    if s == "" {
      assert s + t == t;
    } else {
      assert (s + t)[1..] == s[1..] + t;
      EscapeAppend(s[1..], t);
      assert EscapeRune(s[0]) + (Escape(s[1..]) + Escape(t)) == EscapeRune(s[0]) + Escape(s[1..]) + Escape(t);
    }
  }

  predicate NothingToEscape(s: string) {
    forall c :: c in s ==> EscapeRune(c) == [c]
  }

  lemma {:induction false} EscapePlain(s: string)
    requires NothingToEscape(s)
    ensures Escape(s) == s
  {
    if s != "" {
      EscapePlain(s[1..]);
      assert [s[0]] + s[1..] == s;
    }
  }

  lemma UnderscorePlain()
    ensures EscapeRune('_') == "_"
  {
  }

  /** Appending `gap _x_` to a message lengthens its rendering by exactly the length of the gap, of
      x and of the two italic tags, whatever the message is. */
  lemma RenderSuffix(s: string, gap: string, x: string)
    requires NothingToEscape(gap) && NothingToEscape(x) && gap != "" && x != ""
    requires forall c :: c in gap || c in x ==> !IsMarkerRune(c)
    ensures |Render(s + (gap + "_" + x + "_"))| == |Render(s)| + |gap| + |x| + 7
  {
    hide Paired, Escape, EscapeRune;
    var t := gap + "_" + x + "_";
    UnderscorePlain();
    EscapeAppend(s, t);
    EscapePlain(t);
    var e := Escape(s);
    assert '*' !in t && '`' !in t;
    PairedAppendPlain(e, t, "**", OpenTag("b"), CloseTag("b"));
    var e1 := Apply(e, DoubleStar);
    PairedAppendPlain(e1, t, "*", OpenTag("b"), CloseTag("b"));
    var e2 := Apply(e1, Star);
    PairedAppendPlain(e2, t, "`", OpenTag("code"), CloseTag("code"));
    var e3 := Apply(e2, Tick);
    ItalicSuffix(e3, gap, x, OpenTag("i"), CloseTag("i"));
  }

  // ---- Short texts ----

  lemma NothingToPair(s: string, m: string)
    requires m != "" && (|s| <= 1 || m[|m| - 1] !in s)
    ensures NextPair(s, m) == None
  {
    hide Find, First, NextPair;
    NextPairIs(s, m);
    var start := Find(s, m);
    if start >= 0 {
      var after := s[start + |m|..];
      assert At(s, m, start);
      assert m[|m| - 1] == s[start + (|m| - 1)];
      assert after == "";
    }
  }

  /** A single rune renders as its escape. */
  lemma RenderRune(c: char)
    ensures Render([c]) == EscapeRune(c) && |Render([c])| <= 5
    ensures Render("") == ""
  {
    hide Paired, NextPair;
    var e := EscapeRune(c);
    assert Escape([c]) == e;
    forall pass: Pass
      ensures Apply(e, pass) == e && Apply("", pass) == ""
    {
      var m := pass.Marker();
      assert |e| <= 1 || m[|m| - 1] !in e;
      NothingToPair(e, m);
      NothingToPair("", m);
      PairedNone(e, m, OpenTag(pass.Tag()), CloseTag(pass.Tag()));
      PairedNone("", m, OpenTag(pass.Tag()), CloseTag(pass.Tag()));
    }
  }

  // ---- The last resort: cutting an over-long message ----

  const MAX_MESSAGE_RUNES: nat := 9000

  const NOTICE_WORDS := "сообщение обрезано"

  const TRUNCATION_NOTICE := "\n\n" + ("<i>" + (NOTICE_WORDS + "</i>"))

  /** How much of an over-long message is kept. */
  const KEPT_RUNES: nat := MAX_MESSAGE_RUNES - |TRUNCATION_NOTICE|

  function Truncated(s: string): string {
    if |s| <= MAX_MESSAGE_RUNES then s else s[..KEPT_RUNES] + TRUNCATION_NOTICE
  }

  /** A message over the limit loses its tail to the notice and then fills the limit exactly; any
      other message is left alone. */
  method TruncateMessage(s: string) returns (out: string)
    ensures out == Truncated(s)
    ensures |s| <= MAX_MESSAGE_RUNES ==> out == s
    ensures |s| > MAX_MESSAGE_RUNES ==>
              |out| == MAX_MESSAGE_RUNES && out == s[..KEPT_RUNES] + TRUNCATION_NOTICE
  {
    if |s| <= MAX_MESSAGE_RUNES {
      return s;
    }
    var limit := KEPT_RUNES;
    var count := 0;
    for i := 0 to |s|
      invariant count == i <= limit
    {
      if count == limit {
        return s[..i] + TRUNCATION_NOTICE;
      }
      count := count + 1;
    }
    return s;
  }
}
