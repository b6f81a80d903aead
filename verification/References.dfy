/** The character references of a message: rendering leaves them whole, and cutting an over-long message
    may not (internal/vkteams/format.go). */
module References {
  import opened Text
  import Markdown
  import Markup

  /** The reference a text begins with, or nothing. */
  function Reference(s: string): (r: string)
    ensures r <= s && (r != "" ==> |r| <= 5 && r[0] == '&')
  {
    if "&amp;" <= s then "&amp;"
    else if "&#39;" <= s then "&#39;"
    else if "&lt;" <= s then "&lt;"
    else if "&gt;" <= s then "&gt;"
    else if "&#34;" <= s then "&#34;"
    else ""
  }

  /** Every ampersand begins a reference. */
  ghost predicate WholeReferences(s: string) {
    forall i :: 0 <= i < |s| && s[i] == '&' ==> Reference(s[i..]) != ""
  }

  predicate InReference(c: char) {
    c in "&amp;#39;lt;gt;#34;"
  }

  lemma ReferenceRunes(s: string)
    ensures forall c :: c in Reference(s) ==> InReference(c)
  {
  }

  /** A reference stays the first one whatever follows, and text that goes on with a rune no reference
      contains cannot complete one. */
  lemma ReferenceStays(a: string, b: string)
    ensures Reference(a) != "" ==> Reference(a + b) == Reference(a)
    ensures |Reference(a + b)| <= |a| ==> Reference(a + b) == Reference(a)
    ensures a != "" && b != "" && !InReference(b[0]) ==> Reference(a + b) == Reference(a)
  {
    ReferenceRunes(a + b);
    var r := Reference(a + b);
    if |r| > |a| && b != "" {
      assert r[|a|] == (a + b)[|a|] == b[0] && r[|a|] in r;
    }
    Completes(a, b);
    hide InReference;
  }

  lemma Completes(a: string, b: string)
    ensures Reference(a) != "" ==> Reference(a + b) == Reference(a)
    ensures |Reference(a + b)| <= |a| ==> Reference(a + b) == Reference(a)
  {
    var x, r := a + b, Reference(a);
    if r != "" {
      assert r <= x && x[1] == r[1] && x[2] == r[2];
    }
    var y := Reference(x);
    if y != "" && |y| <= |a| {
      assert y == x[..|y|] == a[..|y|];
      assert a[1] == y[1] && a[2] == y[2];
    }
    if r == "" && |y| <= |a| {
      assert y == x[..|y|] == a[..|y|];
    }
  }

  lemma TailOf(a: string, b: string, i: nat)
    requires i <= |a + b|
    ensures i <= |a| ==> (a + b)[i..] == a[i..] + b
    ensures i >= |a| ==> (a + b)[i..] == b[i - |a|..]
  {
  }

  lemma ReferencesAppend(a: string, b: string)
    requires WholeReferences(a) && WholeReferences(b)
    ensures WholeReferences(a + b)
  {
    hide Reference;
    forall i | 0 <= i < |a + b| && (a + b)[i] == '&'
      ensures Reference((a + b)[i..]) != ""
    {
      TailOf(a, b, i);
      if i < |a| {
        ReferenceStays(a[i..], b);
      }
    }
  }

  lemma ReferencesSplit(a: string, b: string)
    requires WholeReferences(a + b)
    ensures WholeReferences(b)
    ensures b != "" && !InReference(b[0]) ==> WholeReferences(a)
  {
    hide Reference, InReference;
    forall i | 0 <= i < |b| && b[i] == '&'
      ensures Reference(b[i..]) != ""
    {
      TailOf(a, b, |a| + i);
      assert (a + b)[|a| + i] == '&';
    }
    if b != "" && !InReference(b[0]) {
      forall i | 0 <= i < |a| && a[i] == '&'
        ensures Reference(a[i..]) != ""
      {
        TailOf(a, b, i);
        assert (a + b)[i] == '&';
        ReferenceStays(a[i..], b);
      }
    }
  }

  lemma NoReferences(s: string)
    requires '&' !in s
    ensures WholeReferences(s)
  {
  }

  // ---- Rendering ----

  lemma {:induction false} EscapedReferences(s: string)
    ensures WholeReferences(Markdown.Escape(s))
  {
    if s != "" {
      RuneReference(s[0]);
      EscapedReferences(s[1..]);
      hide WholeReferences;
      ReferencesAppend(Markdown.EscapeRune(s[0]), Markdown.Escape(s[1..]));
    } else {
      NoReferences("");
    }
  }

  lemma RuneReference(c: char)
    ensures WholeReferences(Markdown.EscapeRune(c))
  {
    var e := Markdown.EscapeRune(c);
    EscapeAlone(c);
    hide Reference, Markdown.EscapeRune;
    assert e[0..] == e;
  }

  lemma EscapeAlone(c: char)
    ensures var e := Markdown.EscapeRune(c);
            && e != "" && (e[0] == '&' ==> Reference(e) == e)
            && forall i :: 0 < i < |e| ==> e[i] != '&'
  {
  }

  /** A pass leaves references whole when neither its marker nor its tags have a rune of one. */
  lemma {:induction false} PairedReferences(s: string, m: string, open: string, close: string)
    requires m != "" && (forall c :: c in m ==> !InReference(c)) && '&' !in open && '&' !in close
    requires WholeReferences(s)
    ensures WholeReferences(Markdown.Paired(s, m, open, close))
    decreases |s|
  {
    hide Markdown.Find, Markdown.Paired, Markdown.Converted, Markdown.NextPair, WholeReferences, InReference;
    var next := Markdown.NextPair(s, m);
    if next == None {
      Markdown.PairedNone(s, m, open, close);
    } else {
      var p := next.value;
      Markdown.PairedUnfolds(s, m, open, close, p);
      ConvertedReferences(s, m, open, close, p);
      var rest := s[Markdown.End(p, m)..];
      assert s == s[..Markdown.End(p, m)] + rest;
      ReferencesSplit(s[..Markdown.End(p, m)], rest);
      PairedReferences(rest, m, open, close);
      ReferencesAppend(Markdown.Converted(s, m, open, close, p), Markdown.Paired(rest, m, open, close));
    }
  }

  lemma ConvertedReferences(s: string, m: string, open: string, close: string, p: Markdown.Pair)
    requires m != "" && (forall c :: c in m ==> !InReference(c)) && '&' !in open && '&' !in close
    requires WholeReferences(s) && Markdown.NextPair(s, m) == Some(p)
    ensures WholeReferences(Markdown.Converted(s, m, open, close, p))
  {
    hide Markdown.Find, Markdown.NextPair, WholeReferences, InReference, Markdown.Converted;
    PairPieces(s, m, open, close, p);
    NoMarkerRune(m);
    var a, inside, e := s[..p.start], s[p.start + |m|..p.start + |m| + p.inner], s[Markdown.End(p, m)..];
    PieceReferences(a, m, inside, e);
    NoReferences(m);
    NoReferences(open);
    NoReferences(close);
    Around(a, open, inside, close);
    Around(a, m, inside, m);
  }

  lemma PieceReferences(a: string, m: string, b: string, e: string)
    requires m != "" && !InReference(m[0]) && WholeReferences(a + (m + (b + (m + e))))
    ensures WholeReferences(a) && WholeReferences(b)
  {
    hide WholeReferences, InReference;
    assert (m + e)[0] == m[0] && (m + (b + (m + e)))[0] == m[0];
    ReferencesSplit(a, m + (b + (m + e)));
    ReferencesSplit(m, b + (m + e));
    ReferencesSplit(b, m + e);
  }

  lemma Around(a: string, x: string, b: string, y: string)
    requires WholeReferences(a) && WholeReferences(x) && WholeReferences(b) && WholeReferences(y)
    ensures WholeReferences(a + (x + (b + y)))
  {
    hide WholeReferences;
    ReferencesAppend(b, y);
    ReferencesAppend(x, b + y);
    ReferencesAppend(a, x + (b + y));
  }

  lemma NoMarkerRune(m: string)
    requires m != "" && forall c :: c in m ==> !InReference(c)
    ensures !InReference(m[0]) && '&' !in m
  {
    assert InReference('&') && m[0] in m;
  }

  lemma PairPieces(s: string, m: string, open: string, close: string, p: Markdown.Pair)
    requires m != "" && Markdown.NextPair(s, m) == Some(p)
    ensures var inside := s[p.start + |m|..p.start + |m| + p.inner];
            && s == s[..p.start] + (m + (inside + (m + s[Markdown.End(p, m)..])))
            && Markdown.Converted(s, m, open, close, p)
               == if p.inner == 0 then s[..p.start] + (m + (inside + m)) else s[..p.start] + (open + (inside + close))
  {
    hide Markdown.NextPair, Markdown.Find, Markdown.First, Markdown.At;
    MarkersStand(s, m, p);
    var i, n := p.start, p.inner;
    ThreeCuts(s, m, i, n);
    hide Markdown.IsPair;
  }

  lemma MarkersStand(s: string, m: string, p: Markdown.Pair)
    requires m != "" && Markdown.NextPair(s, m) == Some(p)
    ensures s[p.start..p.start + |m|] == m && s[p.start + |m|..][p.inner..p.inner + |m|] == m
  {
    hide Markdown.Find, Markdown.First;
    Stands(s, m, p.start);
    Stands(s[p.start + |m|..], m, p.inner);
  }

  lemma Stands(s: string, m: string, i: nat)
    requires Markdown.At(s, m, i)
    ensures s[i..i + |m|] == m
  {
  }

  lemma ThreeCuts(s: string, m: string, i: nat, n: nat)
    requires i + |m| + n + |m| <= |s| && s[i..i + |m|] == m && s[i + |m|..][n..n + |m|] == m
    ensures s == s[..i] + (m + (s[i + |m|..i + |m| + n] + (m + s[i + |m| + n + |m|..])))
    ensures n == 0 ==> s[..i + 2 * |m|] == s[..i] + (m + (s[i + |m|..i + |m| + n] + m))
  {
    var after := s[i + |m|..];
    assert s == s[..i] + (m + after);
    assert after == after[..n] + (m + after[n + |m|..]);
    assert after[..n] == s[i + |m|..i + |m| + n] && after[n + |m|..] == s[i + |m| + n + |m|..];
    if n == 0 {
      assert s[..i + 2 * |m|] == s[..i] + (m + after[..|m|]);
    }
  }

  lemma PassReferences(s: string, pass: Markdown.Pass)
    requires WholeReferences(s)
    ensures WholeReferences(Markdown.Apply(s, pass))
  {
    var m, open, close := pass.Marker(), Markdown.OpenTag(pass.Tag()), Markdown.CloseTag(pass.Tag());
    assert forall c :: c in m ==> !InReference(c);
    assert '&' !in open && '&' !in close;
    hide Markdown.Paired, WholeReferences, InReference;
    PairedReferences(s, m, open, close);
  }

  /** In every rendering each ampersand begins one of the five references. */
  lemma RenderedReferences(text: string)
    ensures WholeReferences(Markdown.Render(text))
  {
    hide Markdown.Apply, Markdown.Escape, WholeReferences;
    EscapedReferences(text);
    var e := Markdown.Escape(text);
    PassReferences(e, Markdown.DoubleStar);
    var e1 := Markdown.Apply(e, Markdown.DoubleStar);
    PassReferences(e1, Markdown.Star);
    var e2 := Markdown.Apply(e1, Markdown.Star);
    PassReferences(e2, Markdown.Tick);
    PassReferences(Markdown.Apply(e2, Markdown.Tick), Markdown.Underscore);
  }

  // ---- A message that was cut ----

  /** No reference begins before k and ends after it. */
  ghost predicate CutsNone(s: string, k: nat)
    requires k <= |s|
  {
    forall i :: 0 <= i < k && s[i] == '&' ==> i + |Reference(s[i..])| <= k
  }

  lemma PrefixWholeIff(s: string, k: nat)
    requires k <= |s| && WholeReferences(s)
    ensures WholeReferences(s[..k]) <==> CutsNone(s, k)
  {
    hide Reference;
    var a, b := s[..k], s[k..];
    assert s == a + b;
    forall i | 0 <= i < k && s[i] == '&'
      ensures a[i] == '&' && (Reference(a[i..]) != "" <==> i + |Reference(s[i..])| <= k)
    {
      TailOf(a, b, i);
      ReferenceStays(a[i..], b);
      assert |Reference(a[i..])| <= |a[i..]| == k - i;
    }
  }

  lemma NoticeStarts()
    ensures '&' !in Markdown.TRUNCATION_NOTICE && Markdown.TRUNCATION_NOTICE != ""
    ensures !InReference(Markdown.TRUNCATION_NOTICE[0])
  {
    assert Markdown.TRUNCATION_NOTICE[0] == '\n';
    assert '&' !in Markdown.NOTICE_WORDS;
    NoneJoined("\n\n", "<i>", Markdown.NOTICE_WORDS, "</i>");
  }

  lemma NoneJoined(a: string, b: string, c: string, d: string)
    requires '&' !in a && '&' !in b && '&' !in c && '&' !in d
    ensures '&' !in a + (b + (c + d))
  {
  }

  /** What is sent of a rendered message has only whole references exactly when it fits, or the cut falls
      inside none. */
  lemma ReferencesKeptIff(text: string)
    ensures var r := Markdown.Render(text);
            WholeReferences(Markdown.Truncated(r)) <==>
            |r| <= Markdown.MAX_MESSAGE_RUNES || CutsNone(r, Markdown.KEPT_RUNES)
  {
    var r := Markdown.Render(text);
    RenderedReferences(text);
    hide Markdown.Render, WholeReferences, CutsNone, InReference, Markdown.TRUNCATION_NOTICE;
    if |r| > Markdown.MAX_MESSAGE_RUNES {
      var kept := r[..Markdown.KEPT_RUNES];
      PrefixWholeIff(r, Markdown.KEPT_RUNES);
      NoticeStarts();
      NoReferences(Markdown.TRUNCATION_NOTICE);
      if WholeReferences(kept) {
        ReferencesAppend(kept, Markdown.TRUNCATION_NOTICE);
      } else if WholeReferences(kept + Markdown.TRUNCATION_NOTICE) {
        ReferencesSplit(kept, Markdown.TRUNCATION_NOTICE);
      }
    }
  }

  // ---- A cut inside a reference ----

  function Ampersands(n: nat): string {
    if n == 0 then "" else "&" + Ampersands(n - 1)
  }

  function Amps(n: nat): (s: string)
    ensures |s| == 5 * n
  {
    if n == 0 then "" else "&amp;" + Amps(n - 1)
  }

  lemma {:induction false} AmpsEscaped(n: nat)
    ensures Markdown.Escape(Ampersands(n)) == Amps(n)
    ensures forall c :: c in Amps(n) ==> c in "&amp;"
  {
    if n > 0 {
      AmpsEscaped(n - 1);
      assert Ampersands(n)[1..] == Ampersands(n - 1);
      assert Markdown.EscapeRune('&') == "&amp;";
    }
  }

  lemma {:induction false} AmpsFrom(n: nat, k: nat)
    requires k <= n
    ensures Amps(n)[5 * k..] == Amps(n - k)
    decreases k
  {
    if k > 0 {
      AmpsFrom(n - 1, k - 1);
      assert Amps(n)[5 * k..] == Amps(n - 1)[5 * (k - 1)..];
    }
  }

  /** A text without markers is only escaped. */
  lemma Unmarked(text: string)
    requires var e := Markdown.Escape(text); '*' !in e && '`' !in e && '_' !in e
    ensures Markdown.Render(text) == Markdown.Escape(text)
  {
    hide Markdown.Apply, Markdown.Escape;
    var e := Markdown.Escape(text);
    Markup.NoDoubleStar(e);
    Markup.NoMarker(e, Markdown.Star);
    Markup.NoMarker(e, Markdown.Tick);
    Markup.NoMarker(e, Markdown.Underscore);
  }

  /** A long row of ampersands is cut inside a reference: what is sent ends with a broken one. */
  lemma CutInsideReference(n: nat)
    requires 5 * n > Markdown.MAX_MESSAGE_RUNES
    ensures Markdown.Render(Ampersands(n)) == Amps(n)
    ensures !WholeReferences(Markdown.Truncated(Markdown.Render(Ampersands(n))))
  {
    AmpsEscaped(n);
    Unmarked(Ampersands(n));
    ReferencesKeptIff(Ampersands(n));
    KeptSize();
    AmpsFrom(n, 1794);
    hide Markdown.Render, Markdown.Escape, WholeReferences, Markdown.Truncated, Reference, Ampersands;
    var r := Amps(n);
    AmpFirst(n - 1794);
    assert r[8970] == r[8970..][0] == '&';
  }

  lemma KeptSize()
    ensures Markdown.KEPT_RUNES == 8973
  {
    assert |Markdown.NOTICE_WORDS| == 18;
  }

  lemma AmpFirst(n: nat)
    requires n > 0
    ensures Reference(Amps(n)) == "&amp;" && Amps(n)[0] == '&'
  {
  }
}
