/** A report's goal list, stored as one comma-separated column. */
module Goals {
  import opened Text

  function Printed(ids: seq<int>): seq<string> {
    seq(|ids|, i requires 0 <= i < |ids| => FormatInt(ids[i]))
  }

  function FormatGoals(ids: seq<int>): string {
    Join(Printed(ids), ",")
  }

  /** A part that reads as a positive number gives it; anything else is skipped. */
  function ReadGoal(part: string): seq<int> {
    var trimmed := Trim(part);
    var n := ParseInt64(trimmed);
    if trimmed != "" && n.Some? && n.value > 0 then [n.value] else []
  }

  function ReadGoals(parts: seq<string>): seq<int> {
    if parts == [] then [] else ReadGoals(parts[..|parts| - 1]) + ReadGoal(parts[|parts| - 1])
  }

  function ParseGoals(s: string): seq<int> {
    ReadGoals(SplitOn(s, ','))
  }

  method FormatGoalIds(ids: seq<int>) returns (s: string)
    ensures s == FormatGoals(ids)
  {
    hide FormatInt, Join;
    var parts := [];
    for i := 0 to |ids|
      invariant |parts| == i && forall k :: 0 <= k < i ==> parts[k] == FormatInt(ids[k])
    {
      parts := parts + [FormatInt(ids[i])];
    }
    assert parts == Printed(ids);
    s := Join(parts, ",");
  }

  method ParseGoalIds(s: string) returns (out: seq<int>)
    ensures out == ParseGoals(s)
  {
    hide SplitOn, Trim, ParseInt64;
    var parts := SplitOn(s, ',');
    out := [];
    for i := 0 to |parts|
      invariant out == ReadGoals(parts[..i])
    {
      assert parts[..i + 1][..i] == parts[..i];
      var part := Trim(parts[i]);
      if part == "" {
        continue;
      }
      var id := ParseInt64(part);
      if id.Some? && id.value > 0 {
        out := out + [id.value];
      }
    }
    assert parts[..|parts|] == parts;
  }

  predicate IsInt64(n: int) {
    INT64_MIN <= n <= INT64_MAX
  }

  function Positive(ids: seq<int>): seq<int> {
    if ids == [] then []
    else
      var last := ids[|ids| - 1];
      Positive(ids[..|ids| - 1]) + if last > 0 then [last] else []
  }

  lemma PrintedReads(n: int)
    requires IsInt64(n)
    ensures ',' !in FormatInt(n)
    ensures ReadGoal(FormatInt(n)) == if n > 0 then [n] else []
  {
    var digits := FormatNat(if n < 0 then -n else n);
    assert AllDigits(digits);
    assert FormatInt(n) == digits || FormatInt(n) == "-" + digits;
    assert IsDigit(digits[0]) && IsDigit(digits[|digits| - 1]);
    TrimKeeps(FormatInt(n));
    ParseFormatInt(n);
    hide FormatInt, FormatNat, ParseInt64, Trim;
  }

  /** Spaces around a number make no difference. */
  lemma PaddedReads(part: string, n: int)
    requires IsInt64(n) && Trim(part) == FormatInt(n)
    ensures ReadGoal(part) == if n > 0 then [n] else []
  {
    var digits := FormatNat(if n < 0 then -n else n);
    assert FormatInt(n) == digits || FormatInt(n) == "-" + digits;
    ParseFormatInt(n);
    hide FormatInt, FormatNat, ParseInt64, Trim;
  }

  lemma {:induction false} PrintedReadBack(ids: seq<int>)
    requires forall i :: 0 <= i < |ids| ==> IsInt64(ids[i])
    ensures ReadGoals(Printed(ids)) == Positive(ids)
  {
    hide FormatInt, ReadGoal, IsInt64;
    if ids != [] {
      var n := |ids| - 1;
      PrintedReadBack(ids[..n]);
      assert Printed(ids)[..n] == Printed(ids[..n]);
      PrintedReads(ids[n]);
    }
  }

  /** Stored and read again, a goal list of 64-bit numbers keeps exactly its positive ones, in order. */
  lemma GoalsRoundTrip(ids: seq<int>)
    requires forall i :: 0 <= i < |ids| ==> IsInt64(ids[i])
    ensures ParseGoals(FormatGoals(ids)) == Positive(ids)
  {
    hide FormatInt, IsInt64, Trim, ParseInt64;
    var parts := Printed(ids);
    PrintedReadBack(ids);
    forall i | 0 <= i < |parts|
      ensures ',' !in parts[i]
    {
      PrintedReads(ids[i]);
    }
    if ids != [] {
      SplitJoin(parts, ',');
    } else {
      NothingStored();
    }
  }

  lemma NothingStored()
    ensures ParseGoals("") == []
  {
    assert [""][..0] == [];
  }

  lemma {:induction false} PositiveKeeps(ids: seq<int>)
    requires forall i :: 0 <= i < |ids| ==> ids[i] > 0
    ensures Positive(ids) == ids
  {
    if ids != [] {
      PositiveKeeps(ids[..|ids| - 1]);
    }
  }

  lemma ReadInRange(part: string)
    ensures forall n :: n in ReadGoal(part) ==> IsInt64(n) && n > 0
  {
    hide Trim;
    var n := ParseInt64(Trim(part));
    assert n.Some? ==> IsInt64(n.value);
  }

  lemma {:induction false} PositiveOnes(ids: seq<int>)
    ensures |Positive(ids)| <= |ids| && forall n :: n in Positive(ids) ==> n > 0
  {
    if ids != [] {
      PositiveOnes(ids[..|ids| - 1]);
    }
  }

  /** So a list comes back unchanged exactly when all its numbers are positive. */
  lemma GoalsKeptIff(ids: seq<int>)
    requires forall i :: 0 <= i < |ids| ==> IsInt64(ids[i])
    ensures ParseGoals(FormatGoals(ids)) == ids <==> forall i :: 0 <= i < |ids| ==> ids[i] > 0
  {
    GoalsRoundTrip(ids);
    PositiveOnes(ids);
    hide ParseGoals, FormatGoals, Positive;
    if forall i :: 0 <= i < |ids| ==> ids[i] > 0 {
      PositiveKeeps(ids);
    }
    if Positive(ids) == ids {
      assert forall i :: 0 <= i < |ids| ==> ids[i] in Positive(ids);
    }
  }

  lemma {:induction false} ReadPositive(parts: seq<string>)
    ensures forall n :: n in ReadGoals(parts) ==> IsInt64(n) && n > 0
  {
    hide ReadGoal, IsInt64;
    if parts != [] {
      ReadPositive(parts[..|parts| - 1]);
      ReadInRange(parts[|parts| - 1]);
    }
  }

  /** What was read from a column is stored and read again unchanged. */
  lemma ReadGoalsSurvive(s: string)
    ensures ParseGoals(FormatGoals(ParseGoals(s))) == ParseGoals(s)
  {
    ReadPositive(SplitOn(s, ','));
    var ids := ReadGoals(SplitOn(s, ','));
    assert ids == ParseGoals(s);
    hide ParseGoals, FormatGoals, ReadGoals, SplitOn, IsInt64;
    forall i | 0 <= i < |ids|
      ensures IsInt64(ids[i]) && ids[i] > 0
    {
      assert ids[i] in ids;
    }
    GoalsRoundTrip(ids);
    PositiveKeeps(ids);
  }
}
