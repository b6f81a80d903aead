/** Delivering a reply in as many messages as the platform needs (internal/bot/bot.go). */
module Reply {
  import opened Text
  import opened Splitter
  import opened Markdown

  /** The room kept for the position suffix of a split reply. */
  const POSITION_MARKER_RESERVE := 20

  /** What a platform accepts in one message, and how it measures a text. */
  datatype Transport = Transport(maxUnits: int, measure: Measure)

  const Telegram := Transport(4000, (s: string) => Utf16Sum(s))

  /** VK Teams measures the text after conversion to HTML. */
  const VkTeams := Transport(MAX_MESSAGE_RUNES - 200, (s: string) => |Render(s)|)

  function Position(i: nat, n: nat): string {
    "(" + FormatInt(i) + "/" + FormatInt(n) + ")"
  }

  function PositionMarker(i: nat, n: nat): string {
    "\n\n" + "_" + Position(i, n) + "_"
  }

  /** The message bodies: the text as it is when it fits, or split with room left for the suffix. */
  function Bodies(text: string, t: Transport): seq<string> {
    var parts := Parts(text, t.maxUnits, t.measure);
    if |parts| > 1 then Parts(text, t.maxUnits - POSITION_MARKER_RESERVE, t.measure) else parts
  }

  function Message(bodies: seq<string>, i: nat): string
    requires i < |bodies|
  {
    if |bodies| > 1 then bodies[i] + PositionMarker(i + 1, |bodies|) else bodies[i]
  }

  /** `accepts(i)` tells whether the transport takes the i-th message. The messages go out in order
      and the first refusal ends the reply. */
  method Deliver(text: string, t: Transport, accepts: nat -> bool) returns (sent: seq<string>)
    ensures var bodies := Bodies(text, t);
            && |sent| <= |bodies|
            && (forall i :: 0 <= i < |sent| ==> sent[i] == Message(bodies, i) && accepts(i))
            && (|sent| < |bodies| ==> !accepts(|sent|))
  {
    hide Parts, PositionMarker, Utf16Sum, Render;
    var limit := t.maxUnits;
    var parts := SplitMessage(text, limit, t.measure);
    if |parts| > 1 {
      parts := SplitMessage(text, limit - POSITION_MARKER_RESERVE, t.measure);
    }
    sent := [];
    for i := 0 to |parts|
      invariant |sent| == i
      invariant forall k :: 0 <= k < i ==> sent[k] == Message(parts, k) && accepts(k)
    {
      var part := parts[i];
      if |parts| > 1 {
        part := part + PositionMarker(i + 1, |parts|);
      }
      if !accepts(i) {
        return;
      }
      sent := sent + [part];
    }
  }

  // ---- Nothing is lost ----

  /** The transport can carry any text: single runes and the empty line leave room for the suffix. */
  ghost predicate Carries(t: Transport) {
    && t.maxUnits > POSITION_MARKER_RESERVE
    && RunesFit(t.maxUnits - POSITION_MARKER_RESERVE, t.measure)
    && t.measure("") <= t.maxUnits - POSITION_MARKER_RESERVE
  }

  /** `blocks` lays the bodies out over the text: newlines stand between blocks, nothing inside. */
  ghost predicate Layout(text: string, bodies: seq<string>, blocks: seq<seq<string>>) {
    && bodies == Flatten(blocks)
    && text == Join(Texts(blocks), "\n")
    && forall b :: b in blocks ==> b != []
  }

  /** Every body is within the limit, less the reserve when there are several, and together they are
      the text. */
  lemma BodiesFit(text: string, t: Transport)
    requires Carries(t)
    ensures var bodies := Bodies(text, t);
            && (exists blocks :: Layout(text, bodies, blocks))
            && forall i :: 0 <= i < |bodies| ==>
                 t.measure(bodies[i]) <= if |bodies| > 1 then t.maxUnits - POSITION_MARKER_RESERVE else t.maxUnits
  {
    hide Parts, TextBlocks, Flatten, Texts;
    var m := t.measure;
    if m(text) <= t.maxUnits {
      FitsWhole(text, t.maxUnits, m);
      PartsBounded(text, t.maxUnits, m);
      NothingLost(text, t.maxUnits, m);
      assert Layout(text, Bodies(text, t), TextBlocks(text, t.maxUnits, m));
    } else {
      var limit := t.maxUnits - POSITION_MARKER_RESERVE;
      OverlongSplits(text, t.maxUnits, m);
      OverlongSplits(text, limit, m);
      PartsBounded(text, limit, m);
      NothingLost(text, limit, m);
      assert Layout(text, Bodies(text, t), TextBlocks(text, limit, m));
    }
  }

  /** A text that fits goes out as it is, in one message without a marker. */
  lemma ShortReplyWhole(text: string, t: Transport)
    requires t.measure(text) <= t.maxUnits
    ensures Bodies(text, t) == [text] && Message(Bodies(text, t), 0) == text
  {
    hide Parts;
    FitsWhole(text, t.maxUnits, t.measure);
  }

  /** Where there are several messages, the i-th is its body followed by a marker in which the number of the
      message, counted from one, and the number of all of them can be read, in this order. */
  lemma MarkerReads(bodies: seq<string>, i: nat)
    requires i < |bodies| && 1 < |bodies| <= INT64_MAX
    ensures var m, n := Message(bodies, i), |bodies[i]|;
            && |m| >= n + 6 && m[..n] == bodies[i] && m[n..n + 4] == "\n\n_(" && m[|m| - 2..] == ")_"
            && var numbers := SplitOn(m[n + 4..|m| - 2], '/');
               |numbers| == 2 && ParseInt64(numbers[0]) == Some(i + 1) && ParseInt64(numbers[1]) == Some(|bodies|)
  {
    hide *;
    MessageIs(bodies, i);
    MarkerPieces(bodies[i], FormatInt(i + 1) + "/" + FormatInt(|bodies|));
    NumbersRead(i + 1, |bodies|);
  }

  lemma NumbersRead(i: nat, n: nat)
    requires i <= INT64_MAX && n <= INT64_MAX
    ensures var numbers := SplitOn(FormatInt(i) + "/" + FormatInt(n), '/');
            |numbers| == 2 && ParseInt64(numbers[0]) == Some(i) && ParseInt64(numbers[1]) == Some(n)
  {
    var a, b := FormatInt(i), FormatInt(n);
    ParseFormatInt(i);
    ParseFormatInt(n);
    assert AllDigits(a) && AllDigits(b);
    hide FormatInt, ParseInt64, SplitOn, AllDigits;
    NoSlash(a);
    NoSlash(b);
    SplitAtSeparator(a, '/', b);
    SplitPlain(b, '/');
  }

  lemma MessageIs(bodies: seq<string>, i: nat)
    requires i < |bodies| && 1 < |bodies|
    ensures Message(bodies, i) == bodies[i] + ("\n\n_(" + (FormatInt(i + 1) + "/" + FormatInt(|bodies|) + ")_"))
  {
    hide FormatInt;
  }

  lemma NoSlash(s: string)
    requires AllDigits(s)
    ensures '/' !in s
  {
  }

  lemma MarkerPieces(body: string, inner: string)
    ensures var m, n := body + ("\n\n_(" + (inner + ")_")), |body|;
            && |m| >= n + 6
            && m[..n] == body && m[n..n + 4] == "\n\n_(" && m[|m| - 2..] == ")_" && m[n + 4..|m| - 2] == inner
  {
  }

  // ---- VK Teams: no message is ever cut ----

  lemma VkTeamsCarries()
    ensures Carries(VkTeams)
  {
    hide Render;
    forall c: char
      ensures |Render([c])| <= 5 && Render("") == ""
    {
      RenderRune(c);
    }
  }

  lemma DigitsArePlain(s: string)
    requires AllDigits(s)
    ensures NothingToEscape(s) && forall c :: c in s ==> !IsMarkerRune(c)
  {
  }

  lemma PositionIsPlain(i: nat, n: nat)
    ensures NothingToEscape(Position(i, n)) && forall c :: c in Position(i, n) ==> !IsMarkerRune(c)
    ensures |Position(i, n)| == 3 + |FormatInt(i)| + |FormatInt(n)|
  {
    hide FormatNat, EscapeRune, IsMarkerRune;
    DigitsArePlain(FormatInt(i));
    DigitsArePlain(FormatInt(n));
    PunctuationIsPlain();
  }

  lemma PunctuationIsPlain()
    ensures NothingToEscape("()/\n") && forall c :: c in "()/\n" ==> !IsMarkerRune(c)
    ensures '(' in "()/\n" && ')' in "()/\n" && '/' in "()/\n" && '\n' in "()/\n"
  {
  }

  /** The suffix lengthens the rendering by twelve units and the digits, whether or not the body
      leaves an underscore open for the suffix to close. */
  lemma MarkerGrowth(body: string, i: nat, n: nat)
    ensures |Render(body + PositionMarker(i, n))| == |Render(body)| + 12 + |FormatInt(i)| + |FormatInt(n)|
  {
    hide Render, EscapeRune, IsMarkerRune, Position, FormatInt;
    PositionIsPlain(i, n);
    PunctuationIsPlain();
    assert forall c :: c in "\n\n" ==> c in "()/\n";
    RenderSuffix(body, "\n\n", Position(i, n));
  }

  /** However long the text, what VK Teams is given to render stays within its limit for up to 9999
      messages, and within the truncation limit for any number a machine can count: sending never
      shortens it. */
  lemma NoReplyIsCut(text: string, i: nat)
    requires i < |Bodies(text, VkTeams)|
    ensures var n := |Bodies(text, VkTeams)|;
            var rendered := Render(Message(Bodies(text, VkTeams), i));
            && (n <= 9999 ==> |rendered| <= VkTeams.maxUnits)
            && (n < Power10(100) ==> |rendered| <= MAX_MESSAGE_RUNES)
  {
    hide Render, Bodies, FormatInt, PositionMarker, Power10;
    var bodies := Bodies(text, VkTeams);
    var n := |bodies|;
    VkTeamsCarries();
    BodiesFit(text, VkTeams);
    if n > 1 {
      MarkerGrowth(bodies[i], i + 1, n);
      if n <= 9999 {
        FourDigits();
        Width(i + 1, 4);
        Width(n, 4);
      }
      if n < Power10(100) {
        Width(i + 1, 100);
        Width(n, 100);
      }
    }
  }

  lemma FourDigits()
    ensures Power10(4) == 10000
  {
    assert Power10(2) == 100;
  }

  lemma Width(n: nat, k: nat)
    requires k >= 1 && n < Power10(k)
    ensures |FormatInt(n)| <= k
  {
    FormatNatWidth(n, k);
  }

  // ---- Telegram ----

  lemma TelegramCarries()
    ensures Carries(Telegram)
  {
    forall c: char
      ensures Utf16Sum([c]) <= 2
    {
      assert [c][..0] == "";
    }
  }

  ghost predicate BasicPlane(s: string) {
    forall i :: 0 <= i < |s| ==> s[i] as int <= 0xFFFF
  }

  lemma {:induction false} Utf16Basic(s: string)
    requires BasicPlane(s)
    ensures Utf16Sum(s) == |s|
  {
    if s != "" {
      Utf16Basic(s[..|s| - 1]);
    }
  }

  lemma MarkerBasic(i: nat, n: nat)
    ensures BasicPlane(PositionMarker(i, n))
    ensures |PositionMarker(i, n)| == 7 + |FormatInt(i)| + |FormatInt(n)|
  {
    hide FormatNat;
    var a, b := FormatInt(i), FormatInt(n);
    assert forall k :: 0 <= k < |a| ==> IsDigit(a[k]);
    assert forall k :: 0 <= k < |b| ==> IsDigit(b[k]);
  }

  /** No Telegram message passes the limit for fewer than a million messages. */
  lemma TelegramWithinLimit(text: string, i: nat)
    requires i < |Bodies(text, Telegram)| <= 999999
    ensures Utf16Sum(Message(Bodies(text, Telegram), i)) <= Telegram.maxUnits
  {
    hide Bodies, Power10, Utf16Sum, FormatInt, PositionMarker;
    var bodies := Bodies(text, Telegram);
    TelegramCarries();
    BodiesFit(text, Telegram);
    if |bodies| > 1 {
      SixDigits();
      Width(i + 1, 6);
      Width(|bodies|, 6);
      MarkerBasic(i + 1, |bodies|);
      Utf16Basic(PositionMarker(i + 1, |bodies|));
      Utf16Append(bodies[i], PositionMarker(i + 1, |bodies|));
    }
  }

  lemma SixDigits()
    ensures Power10(6) == 1000000
  {
    FourDigits();
    assert Power10(5) == 100000;
  }

  // ---- What is split ----

  /** A reply goes out whole up to 4000 UTF-16 units on Telegram and up to 8800 rendered runes on VK Teams;
      longer ones are split at 20 less. */
  lemma WhatIsSplit(text: string)
    ensures Bodies(text, Telegram) == if Utf16Sum(text) <= 4000 then [text] else Parts(text, 3980, Telegram.measure)
    ensures Bodies(text, VkTeams) == if |Render(text)| <= 8800 then [text] else Parts(text, 8780, VkTeams.measure)
  {
    hide Parts, Utf16Sum, Render;
    TelegramCarries();
    VkTeamsCarries();
    LongerSplit(text, Telegram);
    LongerSplit(text, VkTeams);
  }

  lemma LongerSplit(text: string, t: Transport)
    requires Carries(t)
    ensures Bodies(text, t) == if t.measure(text) <= t.maxUnits then [text]
                               else Parts(text, t.maxUnits - POSITION_MARKER_RESERVE, t.measure)
  {
    hide Parts;
    if t.measure(text) <= t.maxUnits {
      FitsWhole(text, t.maxUnits, t.measure);
    } else {
      assert RunesFit(t.maxUnits, t.measure);
      OverlongSplits(text, t.maxUnits, t.measure);
    }
  }
}
