/** Breaking a long reply into messages (internal/bot/split.go).

    The measure is an arbitrary function of the whole text: nothing below assumes that it adds up
    over pieces or that a longer text measures more. */
module Splitter {
  import opened Text

  type Measure = string -> int

  /** The length as Telegram counts it: a rune outside the basic plane takes two units. */
  function Utf16Units(c: char): nat {
    if c as int > 0xFFFF then 2 else 1
  }

  function Utf16Sum(s: string): nat {
    if s == "" then 0 else Utf16Sum(s[..|s| - 1]) + Utf16Units(s[|s| - 1])
  }

  /** The places of the runes outside the basic plane. */
  function Astral(s: string): set<int> {
    set i | 0 <= i < |s| && s[i] as int > 0xFFFF
  }

  lemma {:induction false} AstralTwice(s: string)
    ensures Utf16Sum(s) == |s| + |Astral(s)|
  {
    if s == "" {
      assert Astral(s) == {};
    } else {
      var n := |s| - 1;
      AstralTwice(s[..n]);
      assert Astral(s) == Astral(s[..n]) + if s[n] as int > 0xFFFF then {n} else {};
    }
  }

  method Utf16Len(s: string) returns (n: nat)
    ensures n == Utf16Sum(s) == |s| + |Astral(s)|
  {
    AstralTwice(s);
    n := 0;
    for i := 0 to |s|
      invariant n == Utf16Sum(s[..i])
    {
      assert s[..i + 1][..i] == s[..i];
      if s[i] as int > 0xFFFF {
        n := n + 2;
      } else {
        n := n + 1;
      }
    }
    assert s[..|s|] == s;
  }

  lemma {:induction false} Utf16Append(s: string, t: string)
    ensures Utf16Sum(s + t) == Utf16Sum(s) + Utf16Sum(t)
  {
    if t == "" {
      assert s + t == s;
    } else {
      assert (s + t)[..|s + t| - 1] == s + t[..|t| - 1];
      Utf16Append(s, t[..|t| - 1]);
    }
  }

  // ---- Cutting one over-long line ----

  /** The pieces still to be produced when `cur` is pending and `rest` is unread. */
  function Cut(cur: string, rest: string, limit: int, m: Measure): seq<string>
    decreases |rest|
  {
    if rest == "" then
      if cur == "" then [] else [cur]
    else if m(cur + [rest[0]]) > limit && cur != "" then
      [cur] + Cut([rest[0]], rest[1..], limit, m)
    else
      Cut(cur + [rest[0]], rest[1..], limit, m)
  }

  method HardSplit(line: string, limit: int, m: Measure) returns (parts: seq<string>)
    ensures parts == Cut("", line, limit, m)
  {
    parts := [];
    var current := "";
    for i := 0 to |line|
      invariant Cut("", line, limit, m) == parts + Cut(current, line[i..], limit, m)
    {
      var r := line[i];
      assert line[i..][0] == r && line[i..][1..] == line[i + 1..];
      var candidate := current + [r];
      if m(candidate) > limit && current != "" {
        parts := parts + [current];
        current := "";
      }
      current := current + [r];
      assert [r] == "" + [r];
    }
    if current != "" {
      parts := parts + [current];
    }
  }

  /** Every rune fits on its own. */
  ghost predicate RunesFit(limit: int, m: Measure) {
    forall c: char :: m([c]) <= limit
  }

  /** Cutting loses nothing. */
  lemma {:induction false} CutLossless(cur: string, rest: string, limit: int, m: Measure)
    ensures Concat(Cut(cur, rest, limit, m)) == cur + rest
    decreases |rest|
  {
    if rest == "" {
      ConcatOne(cur);
    } else {
      var c, later := [rest[0]], rest[1..];
      if m(cur + c) > limit && cur != "" {
        CutLossless(c, later, limit, m);
        ConcatCons(cur, Cut(c, later, limit, m));
        assert c + later == rest;
      } else {
        CutLossless(cur + c, later, limit, m);
        assert cur + c + later == cur + rest;
      }
    }
  }

  lemma {:induction false} CutNonEmpty(cur: string, rest: string, limit: int, m: Measure)
    ensures forall p :: p in Cut(cur, rest, limit, m) ==> p != ""
    decreases |rest|
  {
    if rest != "" {
      if m(cur + [rest[0]]) > limit && cur != "" {
        CutNonEmpty([rest[0]], rest[1..], limit, m);
      } else {
        CutNonEmpty(cur + [rest[0]], rest[1..], limit, m);
      }
    }
  }

  lemma CutWhole(line: string, limit: int, m: Measure)
    ensures Concat(Cut("", line, limit, m)) == line
  {
    CutLossless("", line, limit, m);
    assert "" + line == line;
  }

  /** Each piece is within the limit when single runes are. */
  lemma {:induction false} CutBounded(cur: string, rest: string, limit: int, m: Measure)
    requires RunesFit(limit, m) && (cur == "" || m(cur) <= limit)
    ensures forall p :: p in Cut(cur, rest, limit, m) ==> m(p) <= limit
    decreases |rest|
  {
    if rest != "" {
      if m(cur + [rest[0]]) > limit && cur != "" {
        CutBounded([rest[0]], rest[1..], limit, m);
      } else {
        if cur == "" {
          assert cur + [rest[0]] == [rest[0]];
        }
        CutBounded(cur + [rest[0]], rest[1..], limit, m);
      }
    }
  }

  /** A piece of a cut line ends only where its next rune would not have fitted. */
  ghost predicate Full(p: string, next: string, limit: int, m: Measure) {
    next != "" && m(p + [next[0]]) > limit
  }

  lemma {:induction false} CutGreedy(cur: string, rest: string, limit: int, m: Measure)
    ensures var ps := Cut(cur, rest, limit, m);
            && (cur != "" ==> ps != [] && cur <= ps[0])
            && forall k :: 0 <= k < |ps| - 1 ==> Full(ps[k], ps[k + 1], limit, m)
    decreases |rest|
  {
    if rest != "" {
      if m(cur + [rest[0]]) > limit && cur != "" {
        CutGreedy([rest[0]], rest[1..], limit, m);
        var tail := Cut([rest[0]], rest[1..], limit, m);
        var ps := [cur] + tail;
        assert tail[0][0] == rest[0];
        forall k | 0 <= k < |ps| - 1
          ensures Full(ps[k], ps[k + 1], limit, m)
        {
          assert k > 0 ==> ps[k] == tail[k - 1] && Full(tail[k - 1], tail[k - 1 + 1], limit, m);
        }
      } else {
        CutGreedy(cur + [rest[0]], rest[1..], limit, m);
      }
    }
  }

  // ---- Splitting a text into parts ----

  /** The pending lines as one part, followed by later blocks. */
  function Flush(current: seq<string>, later: seq<seq<string>>): seq<seq<string>> {
    if current == [] then later else [[Join(current, "\n")]] + later
  }

  /** The blocks still to be produced when the lines `current` are pending. A block is either one
      part made of whole lines, or the pieces of one over-long line. */
  function Blocks(current: seq<string>, lines: seq<string>, limit: int, m: Measure): seq<seq<string>>
    decreases |lines|
  {
    if lines == [] then Flush(current, [])
    else if m(lines[0]) > limit then
      Flush(current, [Cut("", lines[0], limit, m)] + Blocks([], lines[1..], limit, m))
    else if current != [] && m(Join(current + [lines[0]], "\n")) > limit then
      Flush(current, Blocks([lines[0]], lines[1..], limit, m))
    else
      Blocks(current + [lines[0]], lines[1..], limit, m)
  }

  function Flatten(blocks: seq<seq<string>>): seq<string> {
    if blocks == [] then [] else blocks[0] + Flatten(blocks[1..])
  }

  function Texts(blocks: seq<seq<string>>): (ts: seq<string>)
    ensures |ts| == |blocks|
    ensures forall i :: 0 <= i < |ts| ==> ts[i] == Concat(blocks[i])
  {
    if blocks == [] then [] else [Concat(blocks[0])] + Texts(blocks[1..])
  }

  lemma FlattenCons(block: seq<string>, later: seq<seq<string>>)
    ensures Flatten([block] + later) == block + Flatten(later)
    ensures Texts([block] + later) == [Concat(block)] + Texts(later)
  {
    assert ([block] + later)[1..] == later;
  }

  lemma FlushParts(current: seq<string>, later: seq<seq<string>>)
    ensures Flatten(Flush(current, later)) == (if current == [] then [] else [Join(current, "\n")]) + Flatten(later)
    ensures Texts(Flush(current, later)) == (if current == [] then [] else [Join(current, "\n")]) + Texts(later)
  {
    if current != [] {
      FlattenCons([Join(current, "\n")], later);
      ConcatOne(Join(current, "\n"));
    }
  }

  lemma {:induction false} FlattenMembers(blocks: seq<seq<string>>)
    ensures forall p :: p in Flatten(blocks) ==> exists b :: b in blocks && p in b
    ensures forall b, p :: b in blocks && p in b ==> p in Flatten(blocks)
  {
    if blocks != [] {
      FlattenMembers(blocks[1..]);
    }
  }

  /** Whether the text goes out as it is. */
  predicate Fits(text: string, limit: int, m: Measure) {
    limit <= 0 || m(text) <= limit
  }

  function TextBlocks(text: string, limit: int, m: Measure): seq<seq<string>> {
    if Fits(text, limit, m) then [[text]] else Blocks([], SplitOn(text, '\n'), limit, m)
  }

  function Parts(text: string, limit: int, m: Measure): seq<string> {
    var parts := Flatten(TextBlocks(text, limit, m));
    if parts == [] then [""] else parts
  }

  /** The blocks of the next line and those after it. */
  lemma BlocksStep(current: seq<string>, lines: seq<string>, limit: int, m: Measure)
    requires lines != []
    ensures var line, rest := lines[0], lines[1..];
            Blocks(current, lines, limit, m) ==
            if m(line) > limit then Flush(current, [Cut("", line, limit, m)] + Blocks([], rest, limit, m))
            else if current != []
              && m(Join(current + [line], "\n")) > limit then Flush(current, Blocks([line], rest, limit, m))
            else Blocks(current + [line], rest, limit, m)
  {
    hide Cut, Join, Flush;
  }

  /** What one line does to the loop's pending lines and output. */
  lemma NextLine(parts: seq<string>, current: seq<string>, lines: seq<string>, limit: int, m: Measure)
    requires lines != []
    ensures var line, rest := lines[0], lines[1..];
            var flushed := if current == [] then parts else parts + [Join(current, "\n")];
            parts + Flatten(Blocks(current, lines, limit, m)) ==
            if m(line) > limit then
              flushed + Cut("", line, limit, m) + Flatten(Blocks([], rest, limit, m))
            else if current != [] && m(Join(current + [line], "\n")) > limit then
              flushed + Flatten(Blocks([line], rest, limit, m))
            else
              parts + Flatten(Blocks(current + [line], rest, limit, m))
  {
    BlocksStep(current, lines, limit, m);
    hide *;
    var line, rest := lines[0], lines[1..];
    var cut, pending := Cut("", line, limit, m), if current == [] then [] else [Join(current, "\n")];
    assert parts + [] == parts;
    if m(line) > limit {
      FlushParts(current, [cut] + Blocks([], rest, limit, m));
      FlattenCons(cut, Blocks([], rest, limit, m));
      Reassociate(parts, pending, cut, Flatten(Blocks([], rest, limit, m)));
    } else if current != [] && m(Join(current + [line], "\n")) > limit {
      FlushParts(current, Blocks([line], rest, limit, m));
      Reassociate(parts, pending, [], Flatten(Blocks([line], rest, limit, m)));
    }
  }

  lemma Reassociate(a: seq<string>, b: seq<string>, c: seq<string>, d: seq<string>)
    ensures a + (b + (c + d)) == (a + b) + c + d && a + (b + d) == (a + b) + d
  {
  }

  lemma FitsWhole(text: string, limit: int, m: Measure)
    requires Fits(text, limit, m)
    ensures Parts(text, limit, m) == [text]
  {
    FlattenCons([text], []);
    assert [[text]] + [] == [[text]];
  }

  lemma LastFlush(current: seq<string>, limit: int, m: Measure)
    ensures Flatten(Blocks(current, [], limit, m)) == if current == [] then [] else [Join(current, "\n")]
  {
    FlushParts(current, []);
  }

  lemma PartsAre(text: string, limit: int, m: Measure)
    requires !(limit <= 0 || m(text) <= limit)
    ensures var whole := Flatten(Blocks([], SplitOn(text, '\n'), limit, m));
            Parts(text, limit, m) == if whole == [] then [""] else whole
  {
    hide Flatten, Blocks, SplitOn;
  }

  /** The same, for the i-th line of all of them. */
  lemma NextLineAt(parts: seq<string>, current: seq<string>, lines: seq<string>, i: nat, limit: int, m: Measure)
    requires i < |lines|
    ensures var line, rest := lines[i], lines[i + 1..];
            var flushed := if current == [] then parts else parts + [Join(current, "\n")];
            parts + Flatten(Blocks(current, lines[i..], limit, m)) ==
            if m(line) > limit then
              flushed + Cut("", line, limit, m) + Flatten(Blocks([], rest, limit, m))
            else if current != [] && m(Join(current + [line], "\n")) > limit then
              flushed + Flatten(Blocks([] + [line], rest, limit, m))
            else
              parts + Flatten(Blocks(current + [line], rest, limit, m))
  {
    hide *;
    assert lines[i..][0] == lines[i] && lines[i..][1..] == lines[i + 1..];
    assert [] + [lines[i]] == [lines[i]];
    NextLine(parts, current, lines[i..], limit, m);
  }

  method SplitMessage(text: string, limit: int, m: Measure) returns (parts: seq<string>)
    ensures parts == Parts(text, limit, m)
  {
    if limit <= 0 || m(text) <= limit {
      FitsWhole(text, limit, m);
      return [text];
    }
    hide *;
    PartsAre(text, limit, m);
    var lines := SplitOn(text, '\n');
    ghost var whole := Flatten(Blocks([], lines, limit, m));
    parts := [];
    var current: seq<string> := [];
    for i := 0 to |lines|
      invariant parts + Flatten(Blocks(current, lines[i..], limit, m)) == whole
    {
      var line := lines[i];
      NextLineAt(parts, current, lines, i, limit, m);
      if m(line) > limit {
        if current != [] {
          parts := parts + [Join(current, "\n")];
          current := [];
        }
        var pieces := HardSplit(line, limit, m);
        parts := parts + pieces;
      } else {
        var candidate := current + [line];
        if current != [] && m(Join(candidate, "\n")) > limit {
          parts := parts + [Join(current, "\n")];
          current := [];
        }
        current := current + [line];
      }
    }
    LastFlush(current, limit, m);
    if current != [] {
      parts := parts + [Join(current, "\n")];
    }
    if parts == [] {
      return [""];
    }
  }

  // ---- Nothing is lost ----

  lemma {:induction false} BlocksLossless(current: seq<string>, lines: seq<string>, limit: int, m: Measure)
    requires current + lines != []
    ensures Texts(Blocks(current, lines, limit, m)) != []
    ensures Join(Texts(Blocks(current, lines, limit, m)), "\n") == Join(current + lines, "\n")
    decreases |lines|
  {
    if lines == [] {
      FlushParts(current, []);
      assert current + lines == current;
    } else {
      var line, rest := lines[0], lines[1..];
      assert lines == [line] + rest;
      BlocksStep(current, lines, limit, m);
      hide *;
      if m(line) > limit {
        if rest != [] {
          assert [] + rest == rest;
          BlocksLossless([], rest, limit, m);
        }
        LongLineLossless(line, rest, limit, m);
        PrependFlushed(current, [Cut("", line, limit, m)] + Blocks([], rest, limit, m), lines);
      } else if current != [] && m(Join(current + [line], "\n")) > limit {
        TextsNotEmpty(Blocks([line], rest, limit, m));
        BlocksLossless([line], rest, limit, m);
        PrependFlushed(current, Blocks([line], rest, limit, m), lines);
      } else {
        assert current + [line] + rest == current + lines;
        BlocksLossless(current + [line], rest, limit, m);
      }
    }
  }

  lemma TextsNotEmpty(blocks: seq<seq<string>>)
    ensures Texts(blocks) != [] <==> blocks != []
  {
  }

  /** A line that is cut, before the rest. */
  lemma LongLineLossless(line: string, rest: seq<string>, limit: int, m: Measure)
    requires rest != [] ==> Texts(Blocks([], rest, limit, m)) != []
                            && Join(Texts(Blocks([], rest, limit, m)), "\n") == Join(rest, "\n")
    ensures var blocks := [Cut("", line, limit, m)] + Blocks([], rest, limit, m);
            Texts(blocks) != [] && Join(Texts(blocks), "\n") == Join([line] + rest, "\n")
  {
    CutWhole(line, limit, m);
    var cut, tail := Cut("", line, limit, m), Blocks([], rest, limit, m);
    FlattenCons(cut, tail);
    hide Cut, Flatten;
    if rest != [] {
      hide Blocks;
      JoinAppend([line], rest, "\n");
      JoinAppend([line], Texts(tail), "\n");
    } else {
      assert tail == [] && [line] + rest == [line] && [line] + Texts(tail) == [line];
    }
  }

  lemma PrependFlushed(current: seq<string>, later: seq<seq<string>>, lines: seq<string>)
    requires lines != [] && later != [] && Join(Texts(later), "\n") == Join(lines, "\n")
    ensures Join(Texts(Flush(current, later)), "\n") == Join(current + lines, "\n")
    ensures Texts(Flush(current, later)) != []
  {
    FlushParts(current, later);
    if current == [] {
      assert current + lines == lines;
      assert [] + Texts(later) == Texts(later);
    } else {
      JoinAppend(current, lines, "\n");
      JoinAppend([Join(current, "\n")], Texts(later), "\n");
    }
  }

  /** The text is the parts in order, where the parts of one block follow each other directly and
      blocks are separated by exactly one newline. */
  lemma NothingLost(text: string, limit: int, m: Measure)
    ensures text == Join(Texts(TextBlocks(text, limit, m)), "\n")
  {
    if Fits(text, limit, m) {
      FlattenCons([text], []);
      ConcatOne(text);
    } else {
      BlocksLossless([], SplitOn(text, '\n'), limit, m);
      JoinSplit(text, '\n');
      assert [] + SplitOn(text, '\n') == SplitOn(text, '\n');
    }
  }

  // ---- What a block is ----

  /** A block is one part that fits, or the pieces of a line that does not. */
  ghost predicate GoodBlock(block: seq<string>, limit: int, m: Measure) {
    || (|block| == 1 && m(block[0]) <= limit)
    || (exists line :: '\n' !in line && m(line) > limit && block == Cut("", line, limit, m))
  }

  lemma {:induction false} BlocksGood(current: seq<string>, lines: seq<string>, limit: int, m: Measure)
    requires current != [] ==> m(Join(current, "\n")) <= limit
    requires forall l :: l in lines ==> '\n' !in l
    ensures forall b :: b in Blocks(current, lines, limit, m) ==> GoodBlock(b, limit, m)
    decreases |lines|
  {
    if lines != [] {
      var line, rest := lines[0], lines[1..];
      if m(line) > limit {
        BlocksGood([], rest, limit, m);
        assert GoodBlock(Cut("", line, limit, m), limit, m);
      } else if current != [] && m(Join(current + [line], "\n")) > limit {
        BlocksGood([line], rest, limit, m);
      } else {
        if current == [] {
          assert [] + [line] == [line];
        }
        BlocksGood(current + [line], rest, limit, m);
      }
    }
  }

  /** Every part is within the limit, for any measure under which single runes are, and a line is
      cut only when it is over the limit by itself. The empty line has to fit too, or it would be
      dropped: with that, every block holds at least one part. */
  lemma PartsBounded(text: string, limit: int, m: Measure)
    requires RunesFit(limit, m) && m("") <= limit && (limit <= 0 ==> m(text) <= limit)
    ensures forall p :: p in Parts(text, limit, m) ==> m(p) <= limit
    ensures forall b :: b in TextBlocks(text, limit, m) ==> b != [] && GoodBlock(b, limit, m)
    ensures Parts(text, limit, m) == Flatten(TextBlocks(text, limit, m))
  {
    var blocks := TextBlocks(text, limit, m);
    if !Fits(text, limit, m) {
      SplitHasNoSeparator(text, '\n');
      BlocksGood([], SplitOn(text, '\n'), limit, m);
    }
    forall b | b in blocks
      ensures b != [] && GoodBlock(b, limit, m) && forall p :: p in b ==> m(p) <= limit
    {
      assert GoodBlock(b, limit, m);
      if !(|b| == 1 && m(b[0]) <= limit) {
        var line :| '\n' !in line && m(line) > limit && b == Cut("", line, limit, m);
        CutWhole(line, limit, m);
        CutBounded("", line, limit, m);
      }
    }
    FlattenMembers(blocks);
    NothingLost(text, limit, m);
    assert blocks != [] by {
      if !Fits(text, limit, m) {
        BlocksLossless([], SplitOn(text, '\n'), limit, m);
      }
    }
    assert blocks[0] in blocks;
  }

  /** A text over a positive limit always becomes at least two parts. */
  lemma OverlongSplits(text: string, limit: int, m: Measure)
    requires RunesFit(limit, m) && m("") <= limit && 0 < limit < m(text)
    ensures |Parts(text, limit, m)| >= 2
  {
    hide *;
    PartsBounded(text, limit, m);
    NothingLost(text, limit, m);
    var blocks := TextBlocks(text, limit, m);
    BlocksNotEmpty(blocks, text);
    ManyParts(blocks, text, Parts(text, limit, m));
  }

  lemma BlocksNotEmpty(blocks: seq<seq<string>>, text: string)
    requires text == Join(Texts(blocks), "\n")
    ensures blocks == [] ==> text == ""
  {
  }

  /** Parts laid out over a text are several, or none, or the text itself. */
  lemma ManyParts(blocks: seq<seq<string>>, text: string, parts: seq<string>)
    requires text == Join(Texts(blocks), "\n") && parts == Flatten(blocks) && forall b :: b in blocks ==> b != []
    ensures |parts| == 1 ==> text in parts
    ensures |parts| == 0 ==> blocks == []
  {
    if blocks != [] {
      var first, later := blocks[0], blocks[1..];
      assert blocks == [first] + later && first in blocks;
      FlattenCons(first, later);
      if later == [] {
        assert parts == first + [] == first;
        if |first| == 1 {
          ConcatOne(first[0]);
        }
      } else {
        FlattenCons(later[0], later[1..]);
        assert later == [later[0]] + later[1..] && later[0] in blocks;
      }
    }
  }

  // ---- Parts are not closed early ----

  function FirstLine(s: string): string {
    SplitOn(s, '\n')[0]
  }

  /** A block of whole lines ends only where its next line would not have fitted. */
  ghost predicate Greedy(texts: seq<string>, limit: int, m: Measure) {
    forall k :: 0 <= k < |texts| - 1 && m(texts[k]) <= limit && m(FirstLine(texts[k + 1])) <= limit
      ==> m(texts[k] + "\n" + FirstLine(texts[k + 1])) > limit
  }

  lemma JoinFirstLine(lines: seq<string>)
    requires lines != [] && '\n' !in lines[0]
    ensures FirstLine(Join(lines, "\n")) == lines[0]
  {
    if |lines| == 1 {
      SplitPlain(lines[0], '\n');
    } else {
      SplitAtSeparator(lines[0], '\n', Join(lines[1..], "\n"));
    }
  }

  /** Putting a block in front keeps the property when the next line did not fit into it. */
  lemma GreedyPrepend(text: string, rest: seq<string>, limit: int, m: Measure)
    requires Greedy(rest, limit, m)
    requires rest != [] && m(text) <= limit && m(FirstLine(rest[0])) <= limit
             ==> m(text + "\n" + FirstLine(rest[0])) > limit
    ensures Greedy([text] + rest, limit, m)
  {
    var all := [text] + rest;
    forall k | 0 <= k < |all| - 1 && m(all[k]) <= limit && m(FirstLine(all[k + 1])) <= limit
      ensures m(all[k] + "\n" + FirstLine(all[k + 1])) > limit
    {
      if k > 0 {
        assert all[k] == rest[k - 1] && all[k + 1] == rest[k - 1 + 1];
      }
    }
  }

  lemma GreedyFlush(current: seq<string>, later: seq<seq<string>>, limit: int, m: Measure)
    requires later != [] && Greedy(Texts(later), limit, m)
    requires current != [] && m(FirstLine(Texts(later)[0])) <= limit
             ==> m(Join(current, "\n") + "\n" + FirstLine(Texts(later)[0])) > limit
    ensures Greedy(Texts(Flush(current, later)), limit, m)
    ensures current == [] ==> Texts(Flush(current, later)) == Texts(later)
    ensures current != [] ==> Texts(Flush(current, later)) == [Join(current, "\n")] + Texts(later)
  {
    FlushParts(current, later);
    if current != [] {
      GreedyPrepend(Join(current, "\n"), Texts(later), limit, m);
    }
  }

  /** The texts begin with the first line and no block is closed early. */
  ghost predicate GreedyFrom(first: string, texts: seq<string>, limit: int, m: Measure) {
    texts != [] && FirstLine(texts[0]) == first && Greedy(texts, limit, m)
  }

  lemma PendingFirst(current: seq<string>, line: string, later: seq<seq<string>>, limit: int, m: Measure)
    requires (current != [] ==> '\n' !in current[0]) && GreedyFrom(line, Texts(later), limit, m) && later != []
    requires current != [] && m(line) <= limit ==> m(Join(current, "\n") + "\n" + line) > limit
    ensures GreedyFrom((current + [line])[0], Texts(Flush(current, later)), limit, m)
  {
    if current != [] {
      JoinFirstLine(current);
    }
    hide Texts, Flush, Join, FirstLine, Greedy;
    GreedyFlush(current, later, limit, m);
  }

  lemma CutFirst(line: string, tail: seq<seq<string>>, limit: int, m: Measure)
    requires '\n' !in line && m(line) > limit && Greedy(Texts(tail), limit, m)
    ensures GreedyFrom(line, Texts([Cut("", line, limit, m)] + tail), limit, m)
  {
    CutWhole(line, limit, m);
    SplitPlain(line, '\n');
    FlattenCons(Cut("", line, limit, m), tail);
    hide Texts, Cut, SplitOn, Flatten;
    GreedyPrepend(line, Texts(tail), limit, m);
  }

  lemma {:induction false} BlocksGreedy(current: seq<string>, lines: seq<string>, limit: int, m: Measure)
    requires forall l :: l in current + lines ==> '\n' !in l
    requires current + lines != []
    ensures GreedyFrom((current + lines)[0], Texts(Blocks(current, lines, limit, m)), limit, m)
    decreases |lines|
  {
    if lines == [] {
      assert current[0] in current + lines;
      JoinFirstLine(current);
      FlushParts(current, []);
    } else {
      BlocksStep(current, lines, limit, m);
      hide *;
      var line, rest := lines[0], lines[1..];
      assert line in current + lines && (current != [] ==> current[0] in current + lines);
      if m(line) > limit {
        var tail := Blocks([], rest, limit, m);
        if rest == [] {
          NothingGreedy(limit, m);
        } else {
          BlocksGreedy([], rest, limit, m);
          GreedyIs(([] + rest)[0], Texts(tail), limit, m);
        }
        CutFirst(line, tail, limit, m);
        PendingFirst(current, line, [Cut("", line, limit, m)] + tail, limit, m);
      } else if current != [] && m(Join(current + [line], "\n")) > limit {
        BlocksGreedy([line], rest, limit, m);
        assert ([line] + rest)[0] == line;
        JoinLine(current, line);
        BlocksThere(line, rest, limit, m);
        PendingFirst(current, line, Blocks([line], rest, limit, m), limit, m);
      } else {
        assert current + [line] + rest == current + lines;
        BlocksGreedy(current + [line], rest, limit, m);
      }
    }
  }

  lemma NothingGreedy(limit: int, m: Measure)
    ensures Greedy(Texts(Blocks([], [], limit, m)), limit, m)
  {
  }

  lemma GreedyIs(first: string, texts: seq<string>, limit: int, m: Measure)
    requires GreedyFrom(first, texts, limit, m)
    ensures texts != [] && FirstLine(texts[0]) == first && Greedy(texts, limit, m)
  {
  }

  lemma JoinLine(current: seq<string>, line: string)
    requires current != []
    ensures Join(current + [line], "\n") == Join(current, "\n") + "\n" + line
  {
    JoinAppend(current, [line], "\n");
  }

  lemma BlocksThere(line: string, rest: seq<string>, limit: int, m: Measure)
    ensures Blocks([line], rest, limit, m) != []
  {
    BlocksLossless([line], rest, limit, m);
    hide Blocks;
  }

  /** No message is closed while its next line still had room. */
  lemma NoneClosedEarly(text: string, limit: int, m: Measure)
    ensures Greedy(Texts(TextBlocks(text, limit, m)), limit, m)
  {
    if !Fits(text, limit, m) {
      SplitHasNoSeparator(text, '\n');
      var lines := SplitOn(text, '\n');
      assert [] + lines == lines;
      BlocksGreedy([], lines, limit, m);
      GreedyIs(lines[0], Texts(Blocks([], lines, limit, m)), limit, m);
    }
  }
}
