/** Strings as sequences of runes, and the few library operations the program leans on:
    trimming, joining and splitting, and decimal numbers. */
module Text {

  datatype Option<+T> = None | Some(value: T)

  datatype Result<+T, +E> = Ok(value: T) | Err(error: E) {
    predicate IsFailure() {
      Err?
    }

    function PropagateFailure<U>(): Result<U, E>
      requires Err?
    {
      Err(error)
    }

    function Extract(): T
      requires Ok?
    {
      value
    }
  }

  // ---- White space (Unicode's White_Space property, as strings.TrimSpace reads it) ----

  predicate IsSpace(c: char) {
    || '\U{0009}' <= c <= '\U{000D}'
    || c in ['\U{0020}', '\U{0085}', '\U{00A0}', '\U{1680}', '\U{2028}', '\U{2029}', '\U{202F}', '\U{205F}', '\U{3000}']
    || '\U{2000}' <= c <= '\U{200A}'
  }

  function TrimLeft(s: string): string {
    if s != "" && IsSpace(s[0]) then TrimLeft(s[1..]) else s
  }

  function TrimRight(s: string): string {
    if s != "" && IsSpace(s[|s| - 1]) then TrimRight(s[..|s| - 1]) else s
  }

  function Trim(s: string): string {
    TrimRight(TrimLeft(s))
  }

  predicate Trimmed(s: string) {
    s != "" ==> !IsSpace(s[0]) && !IsSpace(s[|s| - 1])
  }

  lemma TrimLeftStart(s: string)
    ensures TrimLeft(s) != "" ==> !IsSpace(TrimLeft(s)[0])
  {
  }

  lemma {:induction false} TrimRightEnds(s: string)
    ensures TrimRight(s) <= s
    ensures TrimRight(s) != "" ==> !IsSpace(TrimRight(s)[|TrimRight(s)| - 1])
  {
    if s != "" && IsSpace(s[|s| - 1]) {
      TrimRightEnds(s[..|s| - 1]);
    }
  }

  /** Trimming leaves no white space at either end, and trimming again changes nothing. */
  lemma TrimTrims(s: string)
    ensures Trimmed(Trim(s))
    ensures Trim(Trim(s)) == Trim(s)
  {
    TrimLeftStart(s);
    TrimRightEnds(TrimLeft(s));
    TrimKeeps(Trim(s));
  }

  lemma TrimKeeps(s: string)
    requires Trimmed(s)
    ensures Trim(s) == s
  {
  }

  // ---- Slices ----

  lemma DropDrop<T>(s: seq<T>, i: nat, k: nat)
    requires i + k <= |s|
    ensures s[i..][k..] == s[i + k..]
  {
  }

  lemma DropTake<T>(s: seq<T>, i: nat, k: nat)
    requires i + k <= |s|
    ensures s[i..][..k] == s[i..i + k]
  {
  }

  lemma Regroup(a: string, b: string, c: string, d: string, e: string, f: string)
    ensures a + ((b + (c + (d + e))) + f) == a + b + c + d + e + f
  {
  }

  // ---- Joining and splitting ----

  function Concat(parts: seq<string>): string {
    if parts == [] then "" else parts[0] + Concat(parts[1..])
  }

  lemma ConcatOne(s: string)
    ensures Concat([s]) == s
  {
    assert [s][1..] == [];
  }

  lemma ConcatCons(s: string, rest: seq<string>)
    ensures Concat([s] + rest) == s + Concat(rest)
  {
    assert ([s] + rest)[1..] == rest;
  }

  lemma {:induction false} ConcatAppend(a: seq<string>, b: seq<string>)
    ensures Concat(a + b) == Concat(a) + Concat(b)
  {
    if a == [] {
      assert a + b == b;
    } else {
      assert (a + b)[1..] == a[1..] + b;
      ConcatAppend(a[1..], b);
    }
  }

  function Join(parts: seq<string>, sep: string): string {
    if parts == [] then ""
    else if |parts| == 1 then parts[0]
    else parts[0] + sep + Join(parts[1..], sep)
  }

  lemma {:induction false} JoinAppend(a: seq<string>, b: seq<string>, sep: string)
    requires a != [] && b != []
    ensures Join(a + b, sep) == Join(a, sep) + sep + Join(b, sep)
  {
    if |a| == 1 {
      assert (a + b)[1..] == b;
    } else {
      assert (a + b)[1..] == a[1..] + b;
      JoinAppend(a[1..], b, sep);
    }
  }

  /** strings.Split on a one-rune separator. */
  function SplitOn(s: string, c: char): (parts: seq<string>)
    ensures parts != []
  {
    if s == "" then [""]
    else
      var rest := SplitOn(s[1..], c);
      if s[0] == c then [""] + rest else [[s[0]] + rest[0]] + rest[1..]
  }

  lemma {:induction false} JoinSplit(s: string, c: char)
    ensures Join(SplitOn(s, c), [c]) == s
  {
    if s != "" {
      JoinSplit(s[1..], c);
      var rest := SplitOn(s[1..], c);
      if s[0] == c {
        JoinAppend([""], rest, [c]);
      } else if |rest| > 1 {
        JoinAppend([[s[0]] + rest[0]], rest[1..], [c]);
        JoinAppend([rest[0]], rest[1..], [c]);
        assert [rest[0]] + rest[1..] == rest;
      }
    }
  }

  lemma {:induction false} SplitPlain(s: string, c: char)
    requires c !in s
    ensures SplitOn(s, c) == [s]
  {
    if s != "" {
      SplitPlain(s[1..], c);
      assert [s[0]] + s[1..] == s;
    }
  }

  lemma {:induction false} SplitAtSeparator(s: string, c: char, t: string)
    requires c !in s
    ensures SplitOn(s + [c] + t, c) == [s] + SplitOn(t, c)
  {
    if s == "" {
      assert s + [c] + t == [c] + t;
      assert ([c] + t)[1..] == t;
    } else {
      SplitAtSeparator(s[1..], c, t);
      assert (s + [c] + t)[1..] == s[1..] + [c] + t;
      assert [s[0]] + s[1..] == s;
    }
  }

  ghost predicate NoneContains(parts: seq<string>, c: char) {
    forall i :: 0 <= i < |parts| ==> c !in parts[i]
  }

  /** Splitting a joined list gives the list back when no item contains the separator. */
  lemma {:induction false} SplitJoin(parts: seq<string>, c: char)
    requires parts != [] && NoneContains(parts, c)
    ensures SplitOn(Join(parts, [c]), c) == parts
  {
    if |parts| == 1 {
      SplitPlain(parts[0], c);
    } else {
      var rest := parts[1..];
      assert parts == [parts[0]] + rest;
      SplitJoin(rest, c);
      SplitAtSeparator(parts[0], c, Join(rest, [c]));
    }
  }

  lemma {:induction false} SplitHasNoSeparator(s: string, c: char)
    ensures NoneContains(SplitOn(s, c), c)
  {
    if s != "" {
      SplitHasNoSeparator(s[1..], c);
    }
  }

  // ---- Decimal numbers ----

  function Digit(d: nat): char
    requires d < 10
  {
    "0123456789"[d]
  }

  predicate IsDigit(c: char) {
    '0' <= c <= '9'
  }

  predicate AllDigits(s: string) {
    forall c :: c in s ==> IsDigit(c)
  }

  function DigitValue(c: char): (d: nat)
    requires IsDigit(c)
    ensures d < 10
  {
    (c - '0') as int
  }

  function FormatNat(n: nat): (s: string)
    ensures s != "" && AllDigits(s)
  {
    if n < 10 then [Digit(n)] else FormatNat(n / 10) + [Digit(n % 10)]
  }

  function FormatInt(n: int): string {
    if n < 0 then "-" + FormatNat(-n) else FormatNat(n)
  }

  function ParseNat(s: string): nat
    requires AllDigits(s)
  {
    if s == "" then 0 else ParseNat(s[..|s| - 1]) * 10 + DigitValue(s[|s| - 1])
  }

  const INT64_MIN := -0x8000_0000_0000_0000
  const INT64_MAX := 0x7fff_ffff_ffff_ffff

  /** strconv.ParseInt(s, 10, 64): an optional sign, then digits, within range. */
  function ParseInt64(s: string): Option<int> {
    var digits := if s != "" && (s[0] == '+' || s[0] == '-') then s[1..] else s;
    if digits == "" || !AllDigits(digits) then None
    else
      var n := if s[0] == '-' then -(ParseNat(digits) as int) else ParseNat(digits);
      if INT64_MIN <= n <= INT64_MAX then Some(n) else None
  }

  lemma {:induction false} ParseFormatNat(n: nat)
    ensures ParseNat(FormatNat(n)) == n
  {
    if n >= 10 {
      ParseFormatNat(n / 10);
      var s := FormatNat(n);
      assert s[..|s| - 1] == FormatNat(n / 10);
    }
  }

  lemma DigitsRead(digits: string)
    requires digits != "" && AllDigits(digits)
    ensures var n: int := ParseNat(digits);
            && ParseInt64(digits) == (if INT64_MIN <= n <= INT64_MAX then Some(n) else None)
            && ParseInt64("-" + digits) == (if INT64_MIN <= -n <= INT64_MAX then Some(-n) else None)
            && ParseInt64("+" + digits) == ParseInt64(digits)
  {
    assert digits[0] in digits;
    assert ("-" + digits)[1..] == digits && ("+" + digits)[1..] == digits;
    hide ParseNat;
  }

  /** What FormatInt prints, ParseInt64 reads back, exactly for the 64-bit values. */
  lemma ParseFormatInt(n: int)
    ensures ParseInt64(FormatInt(n)) == if INT64_MIN <= n <= INT64_MAX then Some(n) else None
  {
    hide FormatNat, ParseNat, ParseInt64, AllDigits;
    if n < 0 {
      ParseFormatNat(-n);
      DigitsRead(FormatNat(-n));
    } else {
      ParseFormatNat(n);
      DigitsRead(FormatNat(n));
    }
  }

  function Power10(k: nat): (p: nat)
    ensures p >= 1
  {
    if k == 0 then 1 else 10 * Power10(k - 1)
  }

  /** A number below 10^k prints in at most k digits (one digit for zero). */
  lemma {:induction false} FormatNatWidth(n: nat, k: nat)
    requires k >= 1 && n < Power10(k)
    ensures |FormatNat(n)| <= k
  {
    if n >= 10 {
      FormatNatWidth(n / 10, k - 1);
    }
  }
}
