/** The tags of a message as its reader sees them: whether they are whole, balanced and nested, after
    rendering and after an over-long message was cut (internal/vkteams/format.go). */
module Markup {
  import opened Text
  import opened Nesting
  import Markdown

  // ---- Reading the tags of a text ----

  function TagText(t: Tag): string {
    (if t.opens then "<" else "</") + t.name + ">"
  }

  predicate Known(t: Tag) {
    t.name == "b" || t.name == "code" || t.name == "i"
  }

  /** The tag a text begins with. */
  function FirstTag(s: string): (t: Option<Tag>)
    ensures t.Some? ==> Known(t.value) && TagText(t.value) <= s
  {
    if "<b>" <= s then Some(Tag("b", true))
    else if "</b>" <= s then Some(Tag("b", false))
    else if "<code>" <= s then Some(Tag("code", true))
    else if "</code>" <= s then Some(Tag("code", false))
    else if "<i>" <= s then Some(Tag("i", true))
    else if "</i>" <= s then Some(Tag("i", false))
    else None
  }

  /** The tags of a text in order; None when some angle bracket begins no whole tag. */
  function TagsOf(s: string): Option<seq<Tag>>
    decreases |s|
  {
    if s == "" then Some([])
    else if s[0] != '<' then TagsOf(s[1..])
    else
      match FirstTag(s)
      case None => None
      case Some(t) =>
        match TagsOf(s[|TagText(t)|..])
        case None => None
        case Some(later) => Some([t] + later)
  }

  /** Every angle bracket begins a whole tag, and the tags are balanced. */
  ghost predicate WellTagged(s: string) {
    TagsOf(s).Some? && Balanced(TagsOf(s).value)
  }

  lemma FirstTagIs(t: Tag, s: string)
    requires Known(t)
    ensures FirstTag(TagText(t) + s) == Some(t)
  {
    var x := TagText(t) + s;
    assert x[0] == '<' && x[1] == TagText(t)[1] && x[2] == TagText(t)[2];
    assert TagText(t) <= x;
  }

  lemma TagsOfTag(t: Tag, s: string)
    requires Known(t)
    ensures TagsOf(TagText(t) + s) == match TagsOf(s) case None => None case Some(later) => Some([t] + later)
  {
    FirstTagIs(t, s);
    assert (TagText(t) + s)[|TagText(t)|..] == s;
    assert (TagText(t) + s)[0] == '<';
    hide FirstTag, TagText;
  }

  lemma {:induction false} TagsOfPlain(s: string)
    requires '<' !in s
    ensures TagsOf(s) == Some([])
  {
    if s != "" {
      TagsOfPlain(s[1..]);
    }
  }

  /** A whole tag at the start stays the first one whatever follows. */
  lemma FirstTagStays(a: string, b: string)
    ensures FirstTag(a).Some? ==> FirstTag(a + b) == FirstTag(a)
  {
    if FirstTag(a).Some? {
      var t := FirstTag(a).value;
      var rest := a[|TagText(t)|..];
      assert a == TagText(t) + rest;
      assert a + b == TagText(t) + (rest + b);
      FirstTagIs(t, rest + b);
    }
  }

  lemma {:induction false} TagsOfAppend(a: string, b: string)
    requires TagsOf(a).Some?
    ensures TagsOf(a + b) == match TagsOf(b) case None => None case Some(later) => Some(TagsOf(a).value + later)
    decreases |a|
  {
    hide FirstTag, TagText;
    if a == "" {
      assert a + b == b;
      if TagsOf(b).Some? {
        assert [] + TagsOf(b).value == TagsOf(b).value;
      }
    } else if a[0] != '<' {
      assert (a + b)[1..] == a[1..] + b;
      TagsOfAppend(a[1..], b);
    } else {
      FirstTagStays(a, b);
      var t := FirstTag(a).value;
      var n := |TagText(t)|;
      TagHasLength(t);
      assert (a + b)[n..] == a[n..] + b;
      TagsOfAppend(a[n..], b);
      if TagsOf(b).Some? {
        Regroup([t], TagsOf(a[n..]).value, TagsOf(b).value);
      }
    }
  }

  lemma TagHasLength(t: Tag)
    ensures |TagText(t)| > 0
  {
  }

  lemma Regroup<T>(a: seq<T>, b: seq<T>, c: seq<T>)
    ensures a + (b + c) == (a + b) + c
  {
  }

  lemma TagPlain(t: Tag)
    requires Known(t)
    ensures forall c :: c in TagText(t) ==> c in "</bcodei>"
  {
  }

  /** Text that goes on with a rune no tag contains cannot complete a tag. */
  lemma FirstTagCut(a: string, b: string)
    requires a != "" && b != "" && b[0] !in "</bcodei>" && FirstTag(a + b).Some?
    ensures FirstTag(a) == FirstTag(a + b)
  {
    var t := FirstTag(a + b).value;
    TagPlain(t);
    var x := TagText(t);
    FitsBefore(x, a, b);
    assert x == a[..|x|];
    assert a == x + a[|x|..];
    FirstTagIs(t, a[|x|..]);
  }

  lemma FitsBefore(x: string, a: string, b: string)
    requires x <= a + b && b != "" && b[0] !in x
    ensures |x| <= |a|
  {
    assert forall i :: 0 <= i < |x| ==> (a + b)[i] == x[i] && x[i] in x;
    assert (a + b)[|a|] == b[0];
  }

  lemma {:induction false} TagsOfCut(a: string, b: string)
    requires b != "" && b[0] !in "</bcodei>" && TagsOf(a + b).Some?
    ensures TagsOf(a).Some?
    decreases |a|
  {
    hide FirstTag, TagText;
    if a == "" {
    } else if a[0] != '<' {
      assert (a + b)[1..] == a[1..] + b;
      TagsOfCut(a[1..], b);
    } else {
      assert (a + b)[0] == '<';
      FirstTagCut(a, b);
      var n := |TagText(FirstTag(a).value)|;
      TagHasLength(FirstTag(a).value);
      assert (a + b)[n..] == a[n..] + b;
      TagsOfCut(a[n..], b);
    }
  }

  // ---- The tags of a rendering ----

  function TagOf(t: Markdown.Token): seq<Tag> {
    match t
    case Rune(_) => []
    case Open(p) => [Tag(p.Tag(), true)]
    case Close(p) => [Tag(p.Tag(), false)]
  }

  function TagSeq(tokens: seq<Markdown.Token>): seq<Tag> {
    if tokens == [] then [] else TagSeq(tokens[..|tokens| - 1]) + TagOf(tokens[|tokens| - 1])
  }

  lemma {:induction false} TokensRead(tokens: seq<Markdown.Token>)
    requires forall c :: Markdown.Rune(c) in tokens ==> c != '<'
    ensures TagsOf(Markdown.Html(tokens)) == Some(TagSeq(tokens))
  {
    hide TagsOf;
    if tokens == [] {
      TagsOfPlain("");
    } else {
      var init, last := tokens[..|tokens| - 1], tokens[|tokens| - 1];
      assert init + [last] == tokens && last in tokens;
      TokensRead(init);
      Markdown.HtmlAppend(init, [last]);
      LastRead(last);
      TagsOfAppend(Markdown.Html(init), Markdown.Html([last]));
    }
  }

  lemma LastRead(t: Markdown.Token)
    requires t.Rune? ==> t.c != '<'
    ensures TagsOf(Markdown.Html([t])) == Some(TagOf(t))
  {
    assert [t][1..] == [];
    assert Markdown.Html([t]) == t.Html() + "" == t.Html();
    TagsOfPlain("");
    if t.Rune? {
      TagsOfPlain([t.c]);
    } else {
      var tag := TagOf(t)[0];
      assert t.Html() == TagText(tag) == TagText(tag) + "";
      TagsOfTag(tag, "");
      assert [tag] + [] == [tag];
    }
  }

  lemma {:induction false} NetAppend(a: seq<Tag>, b: seq<Tag>, n: nat, name: string)
    requires n <= |b|
    ensures Net(a + b, |a| + n, name) == Net(a, |a|, name) + Net(b, n, name)
    decreases n
  {
    if n == 0 {
      NetPrefix(a, b, |a|, name);
    } else {
      NetAppend(a, b, n - 1, name);
    }
  }

  lemma {:induction false} NetPrefix(a: seq<Tag>, b: seq<Tag>, n: nat, name: string)
    requires n <= |a|
    ensures Net(a + b, n, name) == Net(a, n, name)
    decreases n
  {
    if n > 0 {
      NetPrefix(a, b, n - 1, name);
    }
  }

  function NameNet(tokens: seq<Markdown.Token>, name: string): int {
    Markdown.OpensOf(tokens, name) - Markdown.ClosesOf(tokens, name)
  }

  lemma CountOne(t: Markdown.Token, pass: Markdown.Pass)
    ensures Markdown.Opens([t], pass) == if t == Markdown.Open(pass) then 1 else 0
    ensures Markdown.Closes([t], pass) == if t == Markdown.Close(pass) then 1 else 0
  {
    assert [t][..0] == [];
  }

  lemma NetOne(t: Markdown.Token, name: string)
    ensures Net(TagOf(t), |TagOf(t)|, name) == NameNet([t], name)
  {
    CountOne(t, Markdown.DoubleStar);
    CountOne(t, Markdown.Star);
    CountOne(t, Markdown.Tick);
    CountOne(t, Markdown.Underscore);
    hide Markdown.Opens, Markdown.Closes;
    if t.Rune? {
    } else {
      NetNext(TagOf(t), 0, name);
    }
  }

  lemma CountStep(tokens: seq<Markdown.Token>, pass: Markdown.Pass)
    requires tokens != []
    ensures var n := |tokens| - 1;
            && Markdown.Opens(tokens, pass) == Markdown.Opens(tokens[..n], pass) + Markdown.Opens([tokens[n]], pass)
            && Markdown.Closes(tokens, pass) == Markdown.Closes(tokens[..n], pass) + Markdown.Closes([tokens[n]], pass)
  {
    CountOne(tokens[|tokens| - 1], pass);
  }

  lemma NameNetStep(tokens: seq<Markdown.Token>, name: string)
    requires tokens != []
    ensures var n := |tokens| - 1; NameNet(tokens, name) == NameNet(tokens[..n], name) + NameNet([tokens[n]], name)
  {
    CountStep(tokens, Markdown.DoubleStar);
    CountStep(tokens, Markdown.Star);
    CountStep(tokens, Markdown.Tick);
    CountStep(tokens, Markdown.Underscore);
    hide Markdown.Opens, Markdown.Closes;
  }

  lemma {:induction false} TokensNet(tokens: seq<Markdown.Token>, name: string)
    ensures Net(TagSeq(tokens), |TagSeq(tokens)|, name) == NameNet(tokens, name)
  {
    if tokens != [] {
      var n := |tokens| - 1;
      TokensNet(tokens[..n], name);
      NameNetStep(tokens, name);
      NetOne(tokens[n], name);
      hide NameNet, Net, TagOf;
      NetAppend(TagSeq(tokens[..n]), TagOf(tokens[n]), |TagOf(tokens[n])|, name);
    }
  }

  /** A prefix of the tags is the tags of a prefix. */
  lemma {:induction false} TagsPrefix(tokens: seq<Markdown.Token>, n: nat) returns (k: nat)
    requires n <= |TagSeq(tokens)|
    ensures k <= |tokens| && TagSeq(tokens[..k]) == TagSeq(tokens)[..n]
  {
    var m := |tokens| - 1;
    if n == |TagSeq(tokens)| {
      k := |tokens|;
      assert tokens[..k] == tokens;
    } else {
      k := TagsPrefix(tokens[..m], n);
      assert tokens[..m][..k] == tokens[..k];
    }
  }

  lemma NameNetBounds(tokens: seq<Markdown.Token>, k: nat, name: string)
    requires k <= |tokens| && forall pass: Markdown.Pass :: Markdown.Alternating(Markdown.Tags(tokens, pass), pass)
    ensures 0 <= NameNet(tokens[..k], name) && (name != "b" ==> NameNet(tokens[..k], name) <= 1)
    ensures NameNet(tokens, name) == 0
  {
    hide Markdown.Opens, Markdown.Closes, Markdown.Alternating, Markdown.Tags;
    Markdown.PassBalanced(tokens, Markdown.DoubleStar, k);
    Markdown.PassBalanced(tokens, Markdown.Star, k);
    Markdown.PassBalanced(tokens, Markdown.Tick, k);
    Markdown.PassBalanced(tokens, Markdown.Underscore, k);
  }

  /** Every rendering is well tagged, its tags are those the markers of the text became, and only bold is
      ever opened while it is open. */
  lemma RenderedTags(text: string)
    ensures WellTagged(Markdown.Render(text))
    ensures TagsOf(Markdown.Render(text)) == Some(TagSeq(Markdown.Marked(text)))
    ensures forall name :: name != "b" ==> Once(TagsOf(Markdown.Render(text)).value, name)
  {
    hide Markdown.Render, Markdown.Escape, Markdown.Html, Markdown.Source, Markdown.Tags, Markdown.Alternating,
      Markdown.Marked, NameNet, Net, TagsOf, TagSeq;
    Markdown.RenderPasses(text);
    var tokens := Markdown.Marked(text);
    Markdown.EscapedHasNoAngles(text);
    TokensRead(tokens);
    var tags := TagSeq(tokens);
    forall n, name | 0 <= n <= |tags|
      ensures 0 <= Net(tags, n, name) && (name != "b" ==> Net(tags, n, name) <= 1)
    {
      var k := TagsPrefix(tokens, n);
      assert tags[..n] + tags[n..] == tags;
      NetPrefix(tags[..n], tags[n..], n, name);
      TokensNet(tokens[..k], name);
      NameNetBounds(tokens, k, name);
    }
    forall name
      ensures Net(tags, |tags|, name) == 0
    {
      TokensNet(tokens, name);
      NameNetBounds(tokens, 0, name);
    }
  }

  /** The tags of a rendering nest exactly when, among the markers of the text that pair up, what is between
      each pair of backticks and between each pair of underscores is balanced for every name. */
  lemma RenderingNestsIff(text: string)
    ensures TagsOf(Markdown.Render(text)).Some?
    ensures Nested(TagsOf(Markdown.Render(text)).value) <==> PairsInside(TagSeq(Markdown.Marked(text)), "b")
  {
    hide TagsOf, TagSeq, Balanced, Once, Nested, PairsInside, Markdown.Render, Markdown.Marked;
    RenderedTags(text);
    NestedIff(TagsOf(Markdown.Render(text)).value, "b");
  }

  // ---- A message that was cut ----

  const NOTICE_TAGS := [Tag("i", true), Tag("i", false)]

  lemma NoticeTags()
    ensures TagsOf(Markdown.TRUNCATION_NOTICE) == Some(NOTICE_TAGS)
    ensures Markdown.TRUNCATION_NOTICE != "" && Markdown.TRUNCATION_NOTICE[0] == '\n'
  {
    assert TagText(Tag("i", true)) == "<i>" && TagText(Tag("i", false)) == "</i>";
    assert Markdown.TRUNCATION_NOTICE[0] == '\n';
    NoticeReads(Markdown.NOTICE_WORDS) by {
      WordsPlain();
    }
  }

  lemma WordsPlain()
    ensures '<' !in Markdown.NOTICE_WORDS
  {
  }

  lemma NoticeReads(words: string)
    requires '<' !in words
    ensures TagsOf("\n\n" + (TagText(Tag("i", true)) + (words + TagText(Tag("i", false))))) == Some(NOTICE_TAGS)
  {
    var open, close := Tag("i", true), Tag("i", false);
    TagsOfPlain("");
    TagsOfPlain(words);
    TagsOfPlain("\n\n");
    hide TagsOf, TagText;
    assert TagText(close) + "" == TagText(close);
    TagsOfTag(close, "");
    TagsOfAppend(words, TagText(close));
    TagsOfTag(open, words + TagText(close));
    TagsOfAppend("\n\n", TagText(open) + (words + TagText(close)));
    assert [close] + [] == [close] && [] + [close] == [close];
    assert [open] + [close] == NOTICE_TAGS && [] + NOTICE_TAGS == NOTICE_TAGS;
  }

  lemma NoticeBalanced(n: nat, name: string)
    requires n <= 2
    ensures 0 <= Net(NOTICE_TAGS, n, name) && (n == 2 ==> Net(NOTICE_TAGS, n, name) == 0)
  {
    NetNext(NOTICE_TAGS, 0, name);
    NetNext(NOTICE_TAGS, 1, name);
  }

  /** Nothing is open after these tags. */
  ghost predicate Settled(tags: seq<Tag>) {
    forall name :: Net(tags, |tags|, name) == 0
  }

  lemma CutNets(kept: seq<Tag>, rest: seq<Tag>, n: nat, name: string)
    requires Balanced(kept + rest) && n <= |kept + NOTICE_TAGS|
    ensures |NOTICE_TAGS| == 2
    ensures n <= |kept| ==> Net(kept + NOTICE_TAGS, n, name) == Net(kept, n, name) >= 0
    ensures n >= |kept| ==> Net(kept + NOTICE_TAGS, n, name) >= Net(kept, |kept|, name)
    ensures n == |kept| + 2 ==> Net(kept + NOTICE_TAGS, n, name) == Net(kept, |kept|, name)
  {
    NoticeSize();
    hide Net, NOTICE_TAGS;
    if n <= |kept| {
      NetPrefix(kept, rest, n, name);
      NetPrefix(kept, NOTICE_TAGS, n, name);
      assert Net(kept + rest, n, name) >= 0;
    } else {
      NetAppend(kept, NOTICE_TAGS, n - |kept|, name);
      NoticeBalanced(n - |kept|, name);
    }
  }

  /** What remains balanced when the rest of balanced tags is replaced by the notice. */
  lemma CutBalancedIff(kept: seq<Tag>, rest: seq<Tag>)
    requires Balanced(kept + rest)
    ensures Balanced(kept + NOTICE_TAGS) <==> Settled(kept)
  {
    NoticeSize();
    hide Net, NOTICE_TAGS;
    var cut := kept + NOTICE_TAGS;
    forall name
      ensures Net(cut, |cut|, name) == Net(kept, |kept|, name)
    {
      CutNets(kept, rest, |cut|, name);
    }
    forall n, name | 0 <= n <= |cut|
      ensures Net(cut, n, name) >= 0
    {
      CutNets(kept, rest, n, name);
      CutNets(kept, rest, |kept|, name);
    }
  }

  lemma NoticeSize()
    ensures |NOTICE_TAGS| == 2
  {
  }

  /** What is sent of a rendered message is well tagged exactly when it fits, or the cut falls outside
      every tag and where nothing is open. */
  lemma TruncationKeepsIff(text: string)
    ensures var r := Markdown.Render(text);
            WellTagged(Markdown.Truncated(r)) <==>
            || |r| <= Markdown.MAX_MESSAGE_RUNES
            || (TagsOf(r[..Markdown.KEPT_RUNES]).Some? && Settled(TagsOf(r[..Markdown.KEPT_RUNES]).value))
  {
    var r := Markdown.Render(text);
    RenderedTags(text);
    NoticeTags();
    hide TagsOf, Balanced, Settled, Once, Markdown.Render, NOTICE_TAGS;
    if |r| > Markdown.MAX_MESSAGE_RUNES {
      CutKeepsIff(r, r[..Markdown.KEPT_RUNES], r[Markdown.KEPT_RUNES..]);
    }
  }

  lemma CutKeepsIff(r: string, kept: string, rest: string)
    requires r == kept + rest && WellTagged(r)
    ensures WellTagged(kept + Markdown.TRUNCATION_NOTICE) <==> TagsOf(kept).Some? && Settled(TagsOf(kept).value)
  {
    NoticeTags();
    assert '\n' !in "</bcodei>";
    hide TagsOf, Balanced, Settled, NOTICE_TAGS, Markdown.TRUNCATION_NOTICE;
    if TagsOf(kept + Markdown.TRUNCATION_NOTICE).Some? {
      TagsOfCut(kept, Markdown.TRUNCATION_NOTICE);
    }
    if TagsOf(kept).Some? {
      TagsOfAppend(kept, rest);
      TagsOfAppend(kept, Markdown.TRUNCATION_NOTICE);
      CutBalancedIff(TagsOf(kept).value, TagsOf(rest).value);
    }
  }

  // ---- Where tags cross, and where a cut leaves one open ----

  /** One pair of a one-rune marker. */
  lemma PairedOnce(a: string, c: char, x: string, b: string, open: string, close: string)
    requires c !in a && c !in x && c !in b && x != ""
    ensures Markdown.Paired(a + [c] + x + [c] + b, [c], open, close) == a + open + x + close + b
  {
    hide Markdown.Find, Markdown.Paired, Markdown.NextPair;
    var s := a + [c] + x + [c] + b;
    var p := Markdown.Pair(|a|, |x|);
    NextPairOnce(a, c, x, b);
    Markdown.PairedUnfolds(s, [c], open, close, p);
    assert s[Markdown.End(p, [c])..] == b;
    Markdown.NothingToPair(b, [c]);
    Markdown.PairedNone(b, [c], open, close);
    PiecesOf(a, [c], x, b);
    assert a + (open + (x + close)) + b == a + open + x + close + b;
  }

  lemma PiecesOf(a: string, m: string, x: string, b: string)
    ensures var s := a + m + x + m + b; s[..|a|] == a && s[|a| + |m|..|a| + |m| + |x|] == x
  {
  }

  lemma NextPairOnce(a: string, c: char, x: string, b: string)
    requires c !in a && c !in x
    ensures Markdown.NextPair(a + [c] + x + [c] + b, [c]) == Some(Markdown.Pair(|a|, |x|))
  {
    hide Markdown.Find, Markdown.First;
    var s, after := a + [c] + x + [c] + b, x + [c] + b;
    assert s == a + [c] + after && s[|a| + 1..] == after;
    FirstOf(a, c, after);
    Markdown.FindIs(s, [c], |a|);
    FirstOf(x, c, b);
    Markdown.FindIs(after, [c], |x|);
  }

  lemma FirstOf(a: string, c: char, b: string)
    requires c !in a
    ensures Markdown.First(a + [c] + b, [c], |a|)
  {
    var s := a + [c] + b;
    forall j | 0 <= j < |a|
      ensures !Markdown.At(s, [c], j)
    {
      assert [c][0] == c && s[j + 0] == a[j] && a[j] in a;
    }
    assert s[|a| + 0] == c;
  }

  /** A text without two stars in a row passes the first pass unchanged. */
  lemma NoDoubleStar(s: string)
    requires forall i :: 0 <= i < |s| - 1 ==> s[i] != '*' || s[i + 1] != '*'
    ensures Markdown.Apply(s, Markdown.DoubleStar) == s
  {
    hide Markdown.Paired, Markdown.Find;
    forall j | 0 <= j <= |s|
      ensures !Markdown.At(s, "**", j)
    {
      assert j + 2 <= |s| ==> s[j] == s[j + 0] && (s[j + 0] != '*' || s[j + 1] != '*');
      assert "**"[0] == '*' && "**"[1] == '*';
    }
    assert Markdown.Find(s, "**") < 0;
    Markdown.NextPairIs(s, "**");
    Markdown.PairedNone(s, "**", Markdown.OpenTag("b"), Markdown.CloseTag("b"));
  }

  lemma NoMarker(s: string, pass: Markdown.Pass)
    requires pass != Markdown.DoubleStar && pass.Marker()[0] !in s
    ensures Markdown.Apply(s, pass) == s
  {
    hide Markdown.Paired;
    Markdown.NothingToPair(s, pass.Marker());
    Markdown.PairedNone(s, pass.Marker(), Markdown.OpenTag(pass.Tag()), Markdown.CloseTag(pass.Tag()));
  }

  /** One pair of a one-rune marker in the pass that looks for it. */
  lemma OnePair(pass: Markdown.Pass, a: string, x: string, b: string)
    requires pass != Markdown.DoubleStar && x != ""
    requires var c := pass.Marker()[0]; c !in a && c !in x && c !in b
    ensures Markdown.Apply(a + pass.Marker() + x + pass.Marker() + b, pass)
         == a + Markdown.OpenTag(pass.Tag()) + x + Markdown.CloseTag(pass.Tag()) + b
  {
    var c := pass.Marker()[0];
    assert pass.Marker() == [c];
    hide Markdown.Paired, Markdown.OpenTag, Markdown.CloseTag;
    PairedOnce(a, c, x, b, Markdown.OpenTag(pass.Tag()), Markdown.CloseTag(pass.Tag()));
  }

  lemma RenderedBy(text: string, starred: string, ticked: string, out: string)
    requires Markdown.Escape(text) == text && Markdown.Apply(text, Markdown.DoubleStar) == text
    requires Markdown.Apply(text, Markdown.Star) == starred && Markdown.Apply(starred, Markdown.Tick) == ticked
    requires Markdown.Apply(ticked, Markdown.Underscore) == out
    ensures Markdown.Render(text) == out
  {
    hide Markdown.Apply, Markdown.Escape;
  }

  const CROSSING := "*a _b* c_"

  /** A bold pair and an italic pair that cross give tags that cross: balanced, but not nested. */
  lemma TagsCanCross()
    ensures Markdown.Render(CROSSING) == "<b>a <i>b</b> c</i>"
    ensures WellTagged(Markdown.Render(CROSSING)) && !Nested(TagsOf(Markdown.Render(CROSSING)).value)
  {
    CrossingRendered();
    RenderedTags(CROSSING);
    CrossingRead();
    hide TagsOf, Markdown.Render, Balanced;
  }

  lemma CrossingRendered()
    ensures Markdown.Render(CROSSING) == "<b>a <i>b</b> c</i>"
  {
    hide *;
    CrossingPlain();
    CrossingBold();
    CrossingNoTick();
    CrossingItalic();
    RenderedBy(CROSSING, "<b>a _b</b> c_", "<b>a _b</b> c_", "<b>a <i>b</b> c</i>");
  }

  lemma CrossingNoTick()
    ensures Markdown.Apply("<b>a _b</b> c_", Markdown.Tick) == "<b>a _b</b> c_"
  {
    hide Markdown.Apply;
    NoMarker("<b>a _b</b> c_", Markdown.Tick);
  }

  lemma CrossingPlain()
    ensures Markdown.Escape(CROSSING) == CROSSING && Markdown.Apply(CROSSING, Markdown.DoubleStar) == CROSSING
  {
    hide Markdown.Apply, Markdown.Escape;
    PlainEscape(CROSSING);
    NoDoubleStar(CROSSING);
  }

  lemma PlainEscape(s: string)
    requires forall i :: 0 <= i < |s| ==> s[i] != '&' && s[i] != '\'' && s[i] != '<' && s[i] != '>' && s[i] != '"'
    ensures Markdown.Escape(s) == s
  {
    Markdown.EscapePlain(s);
  }

  lemma CrossingBold()
    ensures Markdown.Apply(CROSSING, Markdown.Star) == "<b>a _b</b> c_"
  {
    assert "" + "*" + "a _b" + "*" + " c_" == CROSSING;
    assert "" + Markdown.OpenTag("b") + "a _b" + Markdown.CloseTag("b") + " c_" == "<b>a _b</b> c_";
    hide Markdown.Apply;
    OnePair(Markdown.Star, "", "a _b", " c_");
  }

  lemma CrossingItalic()
    ensures Markdown.Apply("<b>a _b</b> c_", Markdown.Underscore) == "<b>a <i>b</b> c</i>"
  {
    assert "<b>a " + "_" + "b</b> c" + "_" + "" == "<b>a _b</b> c_";
    assert "<b>a " + Markdown.OpenTag("i") + "b</b> c" + Markdown.CloseTag("i") + "" == "<b>a <i>b</b> c</i>";
    hide Markdown.Apply;
    OnePair(Markdown.Underscore, "<b>a ", "b</b> c", "");
  }

  lemma CrossingRead()
    ensures TagsOf("<b>a <i>b</b> c</i>").Some? && !Nested(TagsOf("<b>a <i>b</b> c</i>").value)
  {
    CrossingPieces();
    hide *;
    FourTags("a ", "b", " c");
    OutOfTurn([Tag("b", true), Tag("i", true), Tag("b", false), Tag("i", false)]);
  }

  lemma CrossingPieces()
    ensures "<b>a <i>b</b> c</i>"
         == TagText(Tag("b", true))
           + ("a " + (TagText(Tag("i", true)) + ("b" + (TagText(Tag("b", false)) + (" c" + TagText(Tag("i", false)))))))
    ensures '<' !in "a " && '<' !in "b" && '<' !in " c"
  {
    assert TagText(Tag("b", true)) == "<b>" && TagText(Tag("i", true)) == "<i>";
    assert TagText(Tag("b", false)) == "</b>" && TagText(Tag("i", false)) == "</i>";
  }

  lemma PlainThen(x: string, s: string)
    requires '<' !in x && TagsOf(s).Some?
    ensures TagsOf(x + s) == TagsOf(s)
  {
    TagsOfPlain(x);
    hide TagsOf;
    TagsOfAppend(x, s);
    assert [] + TagsOf(s).value == TagsOf(s).value;
  }

  lemma TagThen(t: Tag, x: string, s: string, tags: seq<Tag>)
    requires Known(t) && '<' !in x && TagsOf(s) == Some(tags)
    ensures TagsOf(TagText(t) + (x + s)) == Some([t] + tags)
  {
    PlainThen(x, s);
    TagsOfTag(t, x + s);
  }

  lemma FourTags(x: string, y: string, z: string)
    requires '<' !in x && '<' !in y && '<' !in z
    ensures TagsOf(TagText(Tag("b", true)) +
                   (x + (TagText(Tag("i", true)) + (y + (TagText(Tag("b", false)) + (z + TagText(Tag("i", false))))))))
         == Some([Tag("b", true), Tag("i", true), Tag("b", false), Tag("i", false)])
  {
    TagsOfPlain("");
    hide TagsOf, TagText;
    var t1, t2, t3, t4 := Tag("b", true), Tag("i", true), Tag("b", false), Tag("i", false);
    assert TagText(t4) + "" == TagText(t4) && [t4] + [] == [t4];
    TagsOfTag(t4, "");
    ThreeMore(t1, t2, t3, t4, x, y, z);
  }

  lemma ThreeMore(t1: Tag, t2: Tag, t3: Tag, t4: Tag, x: string, y: string, z: string)
    requires Known(t1) && Known(t2) && Known(t3) && '<' !in x && '<' !in y && '<' !in z
    requires TagsOf(TagText(t4)) == Some([t4])
    ensures TagsOf(TagText(t1) + (x + (TagText(t2) + (y + (TagText(t3) + (z + TagText(t4)))))))
            == Some([t1, t2, t3, t4])
  {
    hide TagsOf, TagText, Known;
    TagThen(t3, z, TagText(t4), [t4]);
    TagThen(t2, y, TagText(t3) + (z + TagText(t4)), [t3] + [t4]);
    TagThen(t1, x, TagText(t2) + (y + (TagText(t3) + (z + TagText(t4)))), [t2] + ([t3] + [t4]));
    assert [t1] + ([t2] + ([t3] + [t4])) == [t1, t2, t3, t4];
  }

  lemma OutOfTurn(tags: seq<Tag>)
    requires tags == [Tag("b", true), Tag("i", true), Tag("b", false), Tag("i", false)]
    ensures !Nested(tags)
  {
    assert Stack(tags, 0) == Some([]);
    var none: seq<nat> := [];
    assert none + [0] == [0] && [0] + [1] == [0, 1];
    assert Stack(tags, 1) == Some([0]);
    assert Stack(tags, 2) == Some([0, 1]);
    assert Stack(tags, 3) == None;
  }

  function Run(n: nat): string {
    seq(n, _ => 'a')
  }

  /** A bold text longer than a message is cut inside the bold: what is sent leaves it open. */
  lemma CutCanLeaveOpen(n: nat)
    requires n >= Markdown.MAX_MESSAGE_RUNES
    ensures Markdown.Render("*" + Run(n) + "*") == "<b>" + Run(n) + "</b>"
    ensures !WellTagged(Markdown.Truncated(Markdown.Render("*" + Run(n) + "*")))
  {
    LongBold(n);
    TruncationKeepsIff("*" + Run(n) + "*");
    OpenAtCut(n, Markdown.KEPT_RUNES);
    hide TagsOf, WellTagged, Settled, Markdown.Render, Markdown.Truncated, Run;
  }

  lemma OpenAtCut(n: nat, k: nat)
    requires 3 <= k <= n
    ensures var kept := ("<b>" + Run(n) + "</b>")[..k]; TagsOf(kept).Some? ==> !Settled(TagsOf(kept).value)
  {
    var head, t := Run(n)[..k - 3], Tag("b", true);
    assert ("<b>" + Run(n) + "</b>")[..k] == TagText(t) + head;
    TagsOfPlain(head);
    TagsOfTag(t, head);
    hide TagsOf, TagText, Run;
    NetNext([t], 0, "b");
    assert [t] + [] == [t];
  }

  lemma LongBold(n: nat)
    requires n > 0
    ensures Markdown.Render("*" + Run(n) + "*") == "<b>" + Run(n) + "</b>"
  {
    var a := Run(n);
    var text, out := "*" + a + "*", "<b>" + a + "</b>";
    LongPlain(a, text, out);
    assert "" + "*" + a + "*" + "" == text;
    assert "" + Markdown.OpenTag("b") + a + Markdown.CloseTag("b") + "" == out;
    hide Markdown.Apply, Markdown.Escape;
    OnePair(Markdown.Star, "", a, "");
    hide *;
    RenderedBy(text, out, out, out);
  }

  lemma LongPlain(a: string, text: string, out: string)
    requires (forall i :: 0 <= i < |a| ==> a[i] == 'a') && a != "" && text == "*" + a + "*" && out == "<b>" + a + "</b>"
    ensures Markdown.Escape(text) == text && Markdown.Apply(text, Markdown.DoubleStar) == text
    ensures Markdown.Apply(out, Markdown.Tick) == out && Markdown.Apply(out, Markdown.Underscore) == out
  {
    hide Markdown.Apply, Markdown.Escape;
    assert forall i :: 0 <= i < |text| ==> text[i] == 'a' || text[i] == '*';
    PlainEscape(text);
    NoDoubleStar(text);
    NoMarker(out, Markdown.Tick);
    NoMarker(out, Markdown.Underscore);
  }
}
