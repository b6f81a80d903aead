/** What a window is judged against (internal/engine/baseline.go). */
module Baseline {
  import opened Text
  import opened Series

  // ---- Summing a window ----

  /** The total over the intervals from `at` up to `end`, or None as soon as one is missing. */
  function SumFrom(g: Grid, metric: int, at: int, end: int): Option<real>
    requires g.Step() > 0
    decreases end - at
  {
    if at >= end then Some(0.0)
    else
      match g.At(metric, Search(g.intervals, at))
      case None => None
      case Some(v) =>
        match SumFrom(g, metric, at + g.Step(), end)
        case None => None
        case Some(rest) => Some(v + rest)
  }

  function WindowTotal(g: Grid, metric: int, end: int, window: int): Option<real> {
    if g.Step() <= 0 then None else SumFrom(g, metric, end - window, end)
  }

  method WindowSum(series: TimeSeries, metric: int, end: int, window: int) returns (r: Option<real>)
    requires series.Valid()
    modifies series`index
    ensures series.Valid()
    ensures r == WindowTotal(series.grid, metric, end, window)
  {
    hide Search;
    var g := series.grid;
    var step := g.Step();
    if step <= 0 {
      return None;
    }
    var total := 0.0;
    var at := end - window;
    ghost var whole := SumFrom(g, metric, at, end);
    while at < end
      invariant series.Valid()
      invariant whole == match SumFrom(g, metric, at, end) case None => None case Some(rest) => Some(total + rest)
      decreases end - at
    {
      var i := series.IndexOf(at);
      if i < 0 {
        return None;
      }
      var v := g.At(metric, i);
      if v == None {
        return None;
      }
      total := total + v.value;
      at := at + step;
    }
    return Some(total);
  }

  function SliceSum(values: seq<real>): real {
    if values == [] then 0.0 else values[0] + SliceSum(values[1..])
  }

  /** The intervals i up to j hold the window: the first starts it and the last one runs to its end. */
  ghost predicate Holds(g: Grid, end: int, window: int, i: nat, j: nat) {
    && i < j <= |g.intervals| && g.intervals[i] == end - window
    && g.intervals[j - 1] < end <= g.intervals[j - 1] + g.Step()
  }

  lemma {:induction false} SumOfHeld(g: Grid, metric: int, end: int, window: int, i: nat, j: nat)
    requires Contiguous(g, metric) && Holds(g, end, window, i, j)
    ensures SumFrom(g, metric, end - window, end) == Some(SliceSum(g.values[metric][i..j]))
    decreases j - i
  {
    hide Search;
    var step, values := g.Step(), g.values[metric];
    var start := end - window;
    SearchFinds(g, metric, i);
    assert values[i..j][0] == values[i] && values[i..j][1..] == values[i + 1..j];
    if i < j - 1 {
      Increasing(g.intervals, step, i, j - 1);
      assert g.intervals[i + 1] == start + step;
      SumOfHeld(g, metric, end, window - step, i + 1, j);
    } else {
      assert start < end <= start + step;
      assert SumFrom(g, metric, start + step, end) == Some(0.0);
      assert values[i + 1..j] == [];
    }
  }

  lemma {:induction false} HeldWhenSummed(g: Grid, metric: int, end: int, window: int) returns (i: nat, j: nat)
    requires Contiguous(g, metric) && window > 0 && SumFrom(g, metric, end - window, end).Some?
    ensures Holds(g, end, window, i, j)
    decreases window
  {
    var step := g.Step();
    i := Search(g.intervals, end - window);
    hide Search;
    if step < window {
      var i', j' := HeldWhenSummed(g, metric, end, window - step);
      NextInterval(g, metric, i, i');
      j := j';
    } else {
      j := i + 1;
    }
  }

  lemma NextInterval(g: Grid, metric: int, i: nat, k: nat)
    requires Contiguous(g, metric) && i < |g.intervals| && k < |g.intervals|
    requires g.intervals[k] == g.intervals[i] + g.Step()
    ensures k == i + 1
  {
    if k < i {
      Increasing(g.intervals, g.Step(), k, i);
    } else if i + 1 < k {
      assert g.intervals[i + 1] == g.intervals[i] + g.Step();
      Increasing(g.intervals, g.Step(), i + 1, k);
    }
  }

  /** On a contiguous series a window is summed exactly when the series holds all of it, and the sum
      is that of the slice. */
  lemma WindowTotalIff(g: Grid, metric: int, end: int, window: int)
    requires Contiguous(g, metric) && window > 0
    ensures WindowTotal(g, metric, end, window).Some? <==> exists i: nat, j: nat :: Holds(g, end, window, i, j)
    ensures forall i: nat, j: nat :: Holds(g, end, window, i, j)
              ==> WindowTotal(g, metric, end, window) == Some(SliceSum(g.values[metric][i..j]))
  {
    hide SumFrom;
    if WindowTotal(g, metric, end, window).Some? {
      var i, j := HeldWhenSummed(g, metric, end, window);
    }
    forall i: nat, j: nat | Holds(g, end, window, i, j)
      ensures WindowTotal(g, metric, end, window) == Some(SliceSum(g.values[metric][i..j]))
    {
      SumOfHeld(g, metric, end, window, i, j);
    }
  }

  // ---- The median ----

  function Insert(x: real, s: seq<real>): seq<real> {
    if s == [] || x <= s[0] then [x] + s else [s[0]] + Insert(x, s[1..])
  }

  function Sort(s: seq<real>): seq<real> {
    if s == [] then [] else Insert(s[0], Sort(s[1..]))
  }

  function Median(values: seq<real>): real {
    if values == [] then 0.0
    else
      var sorted := Sort(values);
      SortSize(values);
      var mid := |sorted| / 2;
      if |sorted| % 2 == 1 then sorted[mid] else (sorted[mid - 1] + sorted[mid]) / 2.0
  }

  ghost predicate Sorted(s: seq<real>) {
    forall i, j :: 0 <= i <= j < |s| ==> s[i] <= s[j]
  }

  lemma {:induction false} SortSize(s: seq<real>)
    ensures |Sort(s)| == |s|
  {
    if s != [] {
      SortSize(s[1..]);
      InsertSize(s[0], Sort(s[1..]));
    }
  }

  lemma {:induction false} InsertSize(x: real, s: seq<real>)
    ensures |Insert(x, s)| == |s| + 1
  {
    if s != [] && x > s[0] {
      InsertSize(x, s[1..]);
    }
  }

  lemma TailSorted(s: seq<real>)
    requires Sorted(s) && s != []
    ensures Sorted(s[1..]) && forall i :: 0 <= i < |s| ==> s[0] <= s[i]
  {
  }

  lemma {:induction false} InsertKeeps(x: real, s: seq<real>)
    ensures multiset(Insert(x, s)) == multiset(s) + multiset{x}
  {
    if s != [] && x > s[0] {
      InsertKeeps(x, s[1..]);
      assert s == [s[0]] + s[1..];
    }
  }

  lemma {:induction false} InsertSorts(x: real, s: seq<real>)
    requires Sorted(s)
    ensures Sorted(Insert(x, s))
  {
    if s != [] && x > s[0] {
      TailSorted(s);
      InsertSorts(x, s[1..]);
      InsertBounded(x, s[1..], s[0]);
    }
  }

  lemma {:induction false} InsertBounded(x: real, s: seq<real>, low: real)
    requires low <= x && forall i :: 0 <= i < |s| ==> low <= s[i]
    ensures forall i :: 0 <= i < |Insert(x, s)| ==> low <= Insert(x, s)[i]
  {
    if s != [] && x > s[0] {
      InsertBounded(x, s[1..], low);
    }
  }

  lemma {:induction false} SortSorts(s: seq<real>)
    ensures Sorted(Sort(s)) && multiset(Sort(s)) == multiset(s)
  {
    if s != [] {
      SortSorts(s[1..]);
      InsertSorts(s[0], Sort(s[1..]));
      InsertKeeps(s[0], Sort(s[1..]));
      assert s == [s[0]] + s[1..];
    }
  }

  lemma {:induction false} SortedUnique(a: seq<real>, b: seq<real>)
    requires Sorted(a) && Sorted(b) && multiset(a) == multiset(b)
    ensures a == b
  {
    SameSize(a, b);
    if a != [] {
      FirstIsLeast(a, b);
      FirstIsLeast(b, a);
      TailSorted(a);
      TailSorted(b);
      TailMultiset(a);
      TailMultiset(b);
      hide Sorted;
      SortedUnique(a[1..], b[1..]);
      assert a == [a[0]] + a[1..] && b == [b[0]] + b[1..];
    }
  }

  lemma TailMultiset(s: seq<real>)
    requires s != []
    ensures multiset(s[1..]) == multiset(s) - multiset{s[0]}
  {
    assert s == [s[0]] + s[1..];
  }

  lemma SameSize(a: seq<real>, b: seq<real>)
    requires multiset(a) == multiset(b)
    ensures |a| == |b|
  {
    assert |multiset(a)| == |a| && |multiset(b)| == |b|;
  }

  lemma FirstIsLeast(a: seq<real>, b: seq<real>)
    requires Sorted(a) && a != [] && b != [] && multiset(a) == multiset(b)
    ensures a[0] <= b[0]
  {
    assert b[0] in multiset(a);
    assert b[0] in a;
  }

  /** The order in which the weeks come does not matter. */
  lemma MedianOrderFree(a: seq<real>, b: seq<real>)
    requires multiset(a) == multiset(b)
    ensures Median(a) == Median(b)
  {
    hide Sort;
    SortSorts(a);
    SortSorts(b);
    SortedUnique(Sort(a), Sort(b));
    SameSize(a, b);
  }

  // ---- Robustness ----

  /** How many figures lie outside lo..hi. */
  function Outside(s: seq<real>, lo: real, hi: real): nat {
    if s == [] then 0 else (if lo <= s[0] <= hi then 0 else 1) + Outside(s[1..], lo, hi)
  }

  lemma {:induction false} InsertOutside(x: real, s: seq<real>, lo: real, hi: real)
    ensures Outside(Insert(x, s), lo, hi) == (if lo <= x <= hi then 0 else 1) + Outside(s, lo, hi)
  {
    if s == [] || x <= s[0] {
      assert ([x] + s)[1..] == s;
    } else {
      InsertOutside(x, s[1..], lo, hi);
      assert ([s[0]] + Insert(x, s[1..]))[1..] == Insert(x, s[1..]);
    }
  }

  lemma {:induction false} SortOutside(s: seq<real>, lo: real, hi: real)
    ensures Outside(Sort(s), lo, hi) == Outside(s, lo, hi)
  {
    if s != [] {
      SortOutside(s[1..], lo, hi);
      InsertOutside(s[0], Sort(s[1..]), lo, hi);
    }
  }

  /** When a figure of a sorted list is below lo, so are all before it; above hi, all after it. */
  lemma {:induction false} SideOutside(s: seq<real>, lo: real, hi: real, k: nat)
    requires Sorted(s) && k < |s|
    ensures s[k] < lo ==> Outside(s, lo, hi) >= k + 1
    ensures s[k] > hi ==> Outside(s, lo, hi) >= |s| - k
    decreases |s|
  {
    var tail := s[1..];
    assert forall i, j :: 0 <= i <= j < |tail| ==> tail[i] == s[i + 1] && tail[j] == s[j + 1];
    assert s[0] <= s[k];
    if k > 0 {
      SideOutside(tail, lo, hi, k - 1);
    } else if |s| > 1 && s[0] > hi {
      assert s[0] <= s[1];
      SideOutside(tail, lo, hi, 0);
    }
  }

  /** Fewer than half of the weeks cannot move the median out of the range of the others. */
  lemma MedianRobust(values: seq<real>, lo: real, hi: real)
    requires values != [] && Outside(values, lo, hi) <= (|values| - 1) / 2
    ensures lo <= Median(values) <= hi
  {
    hide Sort, Outside;
    var s := Sort(values);
    SortSorts(values);
    SortSize(values);
    SortOutside(values, lo, hi);
    var mid := |s| / 2;
    SideOutside(s, lo, hi, mid);
    if |s| % 2 == 0 {
      SideOutside(s, lo, hi, mid - 1);
      assert s[mid - 1] <= s[mid];
    }
  }

  /** One odd week among three or more stays without effect on the range. */
  lemma OneOutlier(values: seq<real>, k: nat, lo: real, hi: real)
    requires |values| >= 3 && k < |values|
    requires forall i :: 0 <= i < |values| && i != k ==> lo <= values[i] <= hi
    ensures lo <= Median(values) <= hi
  {
    hide Median;
    OutsideOne(values, k, lo, hi);
    MedianRobust(values, lo, hi);
  }

  lemma {:induction false} OutsideOne(values: seq<real>, k: nat, lo: real, hi: real)
    requires forall i :: 0 <= i < |values| && i != k ==> lo <= values[i] <= hi
    ensures Outside(values, lo, hi) <= 1
    ensures k >= |values| ==> Outside(values, lo, hi) == 0
    decreases |values|
  {
    if values != [] {
      var tail := values[1..];
      assert forall i :: 0 <= i < |tail| ==> tail[i] == values[i + 1];
      OutsideOne(tail, if k == 0 then |tail| else k - 1, lo, hi);
    }
  }

  // ---- The baseline ----

  const WEEK := 7 * 1440

  /** A position in the weekly rhythm. */
  datatype Slot = Slot(weekday: int, minuteOfDay: int)

  function SlotOf(t: int): Slot {
    Slot((t / 1440) % 7, t % 1440)
  }

  datatype Baseline = Baseline(value: real, samples: nat)

  /** The totals of the same slot in the weeks from `week` to `weeks` ago. */
  function Samples(g: Grid, metric: int, end: int, window: int, week: int, weeks: int): seq<real>
    decreases weeks - week
  {
    if week > weeks then []
    else
      var past := end - WEEK * week;
      var later := Samples(g, metric, end, window, week + 1, weeks);
      if SlotOf(past) != SlotOf(end) then later
      else
        match WindowTotal(g, metric, past, window)
        case None => later
        case Some(v) => [v] + later
  }

  function BaselineOf(g: Grid, metric: int, end: int, window: int, weeks: int): Baseline {
    var samples := Samples(g, metric, end, window, 1, weeks);
    Baseline(Median(samples), |samples|)
  }

  /** The weeks whose window total exists and is of a kind. */
  ghost function WeeksWith(g: Grid, metric: int, end: int, window: int, weeks: int, kind: real -> bool): set<int> {
    set w | 1 <= w <= weeks && IsKind(g, metric, end, window, w, kind)
  }

  ghost predicate IsKind(g: Grid, metric: int, end: int, window: int, week: int, kind: real -> bool) {
    var total := WindowTotal(g, metric, end - WEEK * week, window);
    total.Some? && kind(total.value)
  }

  function Any(): real -> bool { (x: real) => true }

  function OutsideOf(lo: real, hi: real): real -> bool { (x: real) => !(lo <= x <= hi) }

  function LessThan(v: real): real -> bool { (x: real) => x < v }

  function AtMostOf(v: real): real -> bool { (x: real) => x <= v }

  /** The baseline counts the totals that exist; a minority of them cannot take it out of the range of the
      others; and it is halfway between the two totals in the middle, or is the one in the middle. */
  ghost predicate MiddleOf(b: Baseline, g: Grid, metric: int, end: int, window: int, weeks: int) {
    var n := |WeeksWith(g, metric, end, window, weeks, Any())|;
    && b.samples == n
    && (n == 0 ==> b.value == 0.0)
    && (forall lo, hi :: n > 0 && |WeeksWith(g, metric, end, window, weeks, OutsideOf(lo, hi))| <= (n - 1) / 2
          ==> lo <= b.value <= hi)
    && (forall lo, hi ::
          LowerMiddle(g, metric, end, window, weeks, lo) && UpperMiddle(g, metric, end, window, weeks, hi)
          ==> b.value == (lo + hi) / 2.0)
  }

  /** In ascending order of the totals, the one with index k is v. */
  ghost predicate Ranks(g: Grid, metric: int, end: int, window: int, weeks: int, v: real, k: int) {
    && |WeeksWith(g, metric, end, window, weeks, LessThan(v))| <= k
    && k < |WeeksWith(g, metric, end, window, weeks, AtMostOf(v))|
  }

  /** The total in the middle; with an even number of them, the lower one of the two. */
  ghost predicate LowerMiddle(g: Grid, metric: int, end: int, window: int, weeks: int, v: real) {
    Ranks(g, metric, end, window, weeks, v, (|WeeksWith(g, metric, end, window, weeks, Any())| - 1) / 2)
  }

  ghost predicate UpperMiddle(g: Grid, metric: int, end: int, window: int, weeks: int, v: real) {
    Ranks(g, metric, end, window, weeks, v, |WeeksWith(g, metric, end, window, weeks, Any())| / 2)
  }

  function CountOf(s: seq<real>, kind: real -> bool): nat {
    if s == [] then 0 else (if kind(s[0]) then 1 else 0) + CountOf(s[1..], kind)
  }

  /** The samples are the totals that exist, of every kind. */
  lemma SamplesCount(g: Grid, metric: int, end: int, window: int, weeks: int, kind: real -> bool)
    ensures |WeeksWith(g, metric, end, window, weeks, kind)| == CountOf(Samples(g, metric, end, window, 1, weeks), kind)
  {
    var from := set w | 1 <= w <= weeks && IsKind(g, metric, end, window, w, kind);
    SamplesCountFrom(g, metric, end, window, 1, weeks, kind, from);
  }

  lemma {:induction false} SamplesCountFrom(g: Grid, metric: int, end: int, window: int, week: int, weeks: int,
                                            kind: real -> bool, from: set<int>)
    requires forall w :: w in from <==> week <= w <= weeks && IsKind(g, metric, end, window, w, kind)
    ensures |from| == CountOf(Samples(g, metric, end, window, week, weeks), kind)
    decreases weeks - week
  {
    hide WindowTotal, SlotOf;
    if week <= weeks {
      SameSlot(end, week);
      SamplesCountFrom(g, metric, end, window, week + 1, weeks, kind, from - {week});
    } else {
      assert forall w :: w !in from;
      assert from == {};
    }
  }

  lemma {:induction false} InsertCount(x: real, s: seq<real>, kind: real -> bool)
    ensures CountOf(Insert(x, s), kind) == (if kind(x) then 1 else 0) + CountOf(s, kind)
  {
    if s == [] || x <= s[0] {
      assert ([x] + s)[1..] == s;
    } else {
      InsertCount(x, s[1..], kind);
      assert ([s[0]] + Insert(x, s[1..]))[1..] == Insert(x, s[1..]);
    }
  }

  lemma {:induction false} SortCount(s: seq<real>, kind: real -> bool)
    ensures CountOf(Sort(s), kind) == CountOf(s, kind)
  {
    if s != [] {
      SortCount(s[1..], kind);
      InsertCount(s[0], Sort(s[1..]), kind);
    }
  }

  lemma {:induction false} CountAll(s: seq<real>)
    ensures CountOf(s, Any()) == |s|
  {
    if s != [] {
      CountAll(s[1..]);
    }
  }

  lemma {:induction false} CountOutside(s: seq<real>, lo: real, hi: real)
    ensures CountOf(s, OutsideOf(lo, hi)) == Outside(s, lo, hi)
  {
    if s != [] {
      CountOutside(s[1..], lo, hi);
    }
  }

  /** In a sorted list, a figure below v has only such figures before it, and one above v only such figures
      after it. */
  lemma {:induction false} SideCount(s: seq<real>, v: real, k: nat)
    requires Sorted(s) && k < |s|
    ensures s[k] < v ==> CountOf(s, LessThan(v)) >= k + 1
    ensures s[k] > v ==> CountOf(s, AtMostOf(v)) <= k
    decreases |s|
  {
    var tail := s[1..];
    TailSorted(s);
    assert s[0] <= s[k];
    if k > 0 {
      assert tail[k - 1] == s[k];
      SideCount(tail, v, k - 1);
    } else if s[0] > v {
      NoneAtMost(tail, v);
    }
  }

  lemma {:induction false} NoneAtMost(s: seq<real>, v: real)
    requires forall i :: 0 <= i < |s| ==> s[i] > v
    ensures CountOf(s, AtMostOf(v)) == 0
  {
    if s != [] {
      NoneAtMost(s[1..], v);
    }
  }

  lemma Ranked(s: seq<real>, v: real, k: nat)
    requires Sorted(s) && k < |s| && CountOf(s, LessThan(v)) <= k < CountOf(s, AtMostOf(v))
    ensures s[k] == v
  {
    SideCount(s, v, k);
    hide CountOf, Sorted;
  }

  /** The figure with index k has at most k figures below it, and k others besides it that are not above. */
  lemma {:induction false} RankOf(s: seq<real>, k: nat)
    requires Sorted(s) && k < |s|
    ensures CountOf(s, LessThan(s[k])) <= k < CountOf(s, AtMostOf(s[k]))
    decreases |s|
  {
    var v, tail := s[k], s[1..];
    TailSorted(s);
    assert s[0] <= v;
    if k > 0 {
      assert tail[k - 1] == v;
      RankOf(tail, k - 1);
    } else {
      NoneBelow(tail, v);
    }
  }

  lemma {:induction false} NoneBelow(s: seq<real>, v: real)
    requires forall i :: 0 <= i < |s| ==> s[i] >= v
    ensures CountOf(s, LessThan(v)) == 0
  {
    if s != [] {
      NoneBelow(s[1..], v);
    }
  }

  /** Each index below the number of totals has its total. */
  lemma RankExists(g: Grid, metric: int, end: int, window: int, weeks: int, k: nat) returns (v: real)
    requires k < |WeeksWith(g, metric, end, window, weeks, Any())|
    ensures Ranks(g, metric, end, window, weeks, v, k)
  {
    hide WeeksWith, Samples, CountOf, LessThan, AtMostOf, Any, Sort;
    var samples := Samples(g, metric, end, window, 1, weeks);
    SamplesCount(g, metric, end, window, weeks, Any());
    CountAll(samples);
    SortSorts(samples);
    SortSize(samples);
    v := Sort(samples)[k];
    RankOf(Sort(samples), k);
    SortCount(samples, LessThan(v));
    SortCount(samples, AtMostOf(v));
    SamplesCount(g, metric, end, window, weeks, LessThan(v));
    SamplesCount(g, metric, end, window, weeks, AtMostOf(v));
  }

  lemma MedianMiddle(values: seq<real>, lo: real, hi: real)
    requires values != []
    requires CountOf(values, LessThan(lo)) <= (|values| - 1) / 2 < CountOf(values, AtMostOf(lo))
    requires CountOf(values, LessThan(hi)) <= |values| / 2 < CountOf(values, AtMostOf(hi))
    ensures Median(values) == (lo + hi) / 2.0
  {
    hide Sort, CountOf;
    var s := Sort(values);
    SortSorts(values);
    SortSize(values);
    SortCount(values, LessThan(lo));
    SortCount(values, AtMostOf(lo));
    SortCount(values, LessThan(hi));
    SortCount(values, AtMostOf(hi));
    Ranked(s, lo, (|s| - 1) / 2);
    Ranked(s, hi, |s| / 2);
  }

  lemma BaselineMiddle(g: Grid, metric: int, end: int, window: int, weeks: int)
    ensures MiddleOf(BaselineOf(g, metric, end, window, weeks), g, metric, end, window, weeks)
  {
    hide WeeksWith, Samples, Median, Outside, CountOf, LessThan, AtMostOf, OutsideOf, Any;
    var samples := Samples(g, metric, end, window, 1, weeks);
    SamplesCount(g, metric, end, window, weeks, Any());
    CountAll(samples);
    forall lo, hi | samples != []
      && |WeeksWith(g, metric, end, window, weeks, OutsideOf(lo, hi))| <= (|samples| - 1) / 2
      ensures lo <= Median(samples) <= hi
    {
      SamplesCount(g, metric, end, window, weeks, OutsideOf(lo, hi));
      CountOutside(samples, lo, hi);
      MedianRobust(samples, lo, hi);
    }
    forall lo, hi | LowerMiddle(g, metric, end, window, weeks, lo) && UpperMiddle(g, metric, end, window, weeks, hi)
      ensures Median(samples) == (lo + hi) / 2.0
    {
      SamplesCount(g, metric, end, window, weeks, LessThan(lo));
      SamplesCount(g, metric, end, window, weeks, AtMostOf(lo));
      SamplesCount(g, metric, end, window, weeks, LessThan(hi));
      SamplesCount(g, metric, end, window, weeks, AtMostOf(hi));
      if samples == [] {
        NothingCounted(samples, AtMostOf(lo));
      } else {
        MedianMiddle(samples, lo, hi);
      }
    }
    if samples == [] {
      EmptyMedian(samples);
    }
  }

  lemma NothingCounted(s: seq<real>, kind: real -> bool)
    requires s == []
    ensures CountOf(s, kind) == 0
  {
  }

  lemma EmptyMedian(s: seq<real>)
    requires s == []
    ensures Median(s) == 0.0
  {
  }

  method BuildBaseline(series: TimeSeries, metric: int, end: int, window: int, weeks: int) returns (b: Baseline)
    requires series.Valid()
    modifies series`index
    ensures series.Valid()
    ensures b == BaselineOf(series.grid, metric, end, window, weeks)
    ensures MiddleOf(b, series.grid, metric, end, window, weeks)
  {
    hide WindowTotal, Median, MiddleOf;
    BaselineMiddle(series.grid, metric, end, window, weeks);
    var samples: seq<real> := [];
    var week := 1;
    while week <= weeks
      invariant series.Valid()
      invariant samples + Samples(series.grid, metric, end, window, week, weeks)
             == Samples(series.grid, metric, end, window, 1, weeks)
      decreases weeks - week
    {
      var past := end - WEEK * week;
      if SlotOf(past) == SlotOf(end) {
        var v := WindowSum(series, metric, past, window);
        if v.Some? {
          samples := samples + [v.value];
        }
      }
      week := week + 1;
    }
    assert samples + [] == samples;
    return Baseline(Median(samples), |samples|);
  }

  /** Whole weeks back is always the same slot when the zone offset is fixed. */
  lemma SameSlot(end: int, week: int)
    ensures SlotOf(end - WEEK * week) == SlotOf(end)
  {
    var past := end - WEEK * week;
    assert past % 1440 == end % 1440;
    assert past / 1440 == end / 1440 - 7 * week;
  }

  /** The two series agree on every interval that starts before `end - window` or from `end` on. */
  ghost predicate SameOutside(g: Grid, g': Grid, metric: int, end: int, window: int) {
    && g.Step() == g'.Step()
    && forall at :: at < end - window || end <= at ==>
         g.At(metric, Search(g.intervals, at)) == g'.At(metric, Search(g'.intervals, at))
  }

  lemma {:induction false} SumOutside(g: Grid, g': Grid, metric: int, end: int, window: int, at: int, past: int)
    requires SameOutside(g, g', metric, end, window) && g.Step() > 0 && past <= end - window
    ensures SumFrom(g, metric, at, past) == SumFrom(g', metric, at, past)
    decreases past - at
  {
    hide Search;
    if at < past {
      SumOutside(g, g', metric, end, window, at + g.Step(), past);
    }
  }

  lemma {:induction false} SamplesOutside(g: Grid, g': Grid, metric: int, end: int, window: int, week: int, weeks: int)
    requires SameOutside(g, g', metric, end, window) && window <= WEEK && week >= 1
    ensures Samples(g, metric, end, window, week, weeks) == Samples(g', metric, end, window, week, weeks)
    decreases weeks - week
  {
    hide SameOutside, SumFrom;
    if week <= weeks {
      SamplesOutside(g, g', metric, end, window, week + 1, weeks);
      PastUnaffected(g, g', metric, end, window, week);
    }
  }

  lemma PastUnaffected(g: Grid, g': Grid, metric: int, end: int, window: int, week: int)
    requires SameOutside(g, g', metric, end, window) && window <= WEEK && week >= 1
    ensures WindowTotal(g, metric, end - WEEK * week, window) == WindowTotal(g', metric, end - WEEK * week, window)
  {
    hide SumFrom;
    var past := end - WEEK * week;
    assert g.Step() == g'.Step();
    if g.Step() > 0 {
      SumOutside(g, g', metric, end, window, past - window, past);
    }
  }

  /** The window under test does not shape its own baseline: whatever happens to the figures inside
      it, the baseline stays, for windows of up to a week. */
  lemma BaselineIndependent(g: Grid, g': Grid, metric: int, end: int, window: int, weeks: int)
    requires SameOutside(g, g', metric, end, window) && window <= WEEK
    ensures BaselineOf(g, metric, end, window, weeks) == BaselineOf(g', metric, end, window, weeks)
  {
    hide SameOutside, Samples, Median;
    SamplesOutside(g, g', metric, end, window, 1, weeks);
  }

  /** In particular, changing one figure inside the window changes nothing outside it. */
  lemma EditInside(g: Grid, metric: nat, k: nat, x: real, end: int, window: int)
    requires metric < |g.values| && k < |g.values[metric]| && k < |g.intervals|
    requires end - window <= g.intervals[k] < end
    ensures SameOutside(g, g.(values := g.values[metric := g.values[metric][k := x]]), metric, end, window)
  {
  }

  // ---- The verdict ----

  const DROP := "drop"
  const RISE := "rise"
  const BOTH := "both"

  /** The deviation in percent. A baseline of zero gives an infinite one, or none at all when the
      figure is zero too. */
  datatype Deviation = Undefined | NegInfinite | PosInfinite | Finite(pct: real) {

    predicate AtMost(limit: real) {
      NegInfinite? || (Finite? && pct <= limit)
    }

    predicate AtLeast(limit: real) {
      PosInfinite? || (Finite? && pct >= limit)
    }
  }

  function DeviationOf(current: real, base: real): Deviation {
    if base != 0.0 then Finite((current - base) / base * 100.0)
    else if current > 0.0 then PosInfinite
    else if current < 0.0 then NegInfinite
    else Undefined
  }

  datatype Verdict = Verdict(current: real, baseline: Baseline, deviation: Option<Deviation>, fired: bool)

  function Judge(current: real, baseline: Baseline, direction: string, deviationPct: int, minBaseline: int,
                 minSamples: int): Verdict {
    if baseline.samples < minSamples || baseline.value < minBaseline as real then
      Verdict(current, baseline, None, false)
    else
      var dev := DeviationOf(current, baseline.value);
      var fired :=
        if direction == DROP then dev.AtMost(-(deviationPct as real))
        else if direction == RISE then dev.AtLeast(deviationPct as real)
        else if direction == BOTH then dev.AtMost(-(deviationPct as real)) || dev.AtLeast(deviationPct as real)
        else false;
      Verdict(current, baseline, Some(dev), fired)
  }

  lemma PercentOf(d: real, base: real, p: real)
    requires base > 0.0
    ensures d / base * 100.0 <= p <==> 100.0 * d <= base * p
    ensures d / base * 100.0 >= p <==> 100.0 * d >= base * p
  {
    var q := d / base;
    assert d == q * base;
    ScaleOrder(q * 100.0, p, base);
    assert (q * 100.0) * base == 100.0 * d;
  }

  lemma ScaleOrder(x: real, y: real, k: real)
    requires k > 0.0
    ensures x <= y <==> x * k <= y * k
  {
    if x <= y {
      assert (y - x) * k >= 0.0;
    } else {
      assert (x - y) * k > 0.0;
    }
  }

  /** The slot's baseline counts: enough samples and not below the noise floor. */
  predicate Counts(b: Baseline, minBaseline: int, minSamples: int) {
    b.samples >= minSamples && b.value >= minBaseline as real
  }

  /** Over a positive baseline a rule fires exactly when the baseline counts and the figure has left
      the band of its direction: at most (100 - p) percent of the baseline, or at least (100 + p). */
  lemma FiresIff(current: real, b: Baseline, direction: string, p: int, minBaseline: int, minSamples: int)
    requires b.value > 0.0
    ensures Judge(current, b, direction, p, minBaseline, minSamples).fired <==>
            && Counts(b, minBaseline, minSamples)
            && var low := 100.0 * current <= b.value * (100 - p) as real;
               var high := 100.0 * current >= b.value * (100 + p) as real;
               || (direction == DROP && low) || (direction == RISE && high) || (direction == BOTH && (low || high))
  {
    PercentOf(current - b.value, b.value, -(p as real));
    PercentOf(current - b.value, b.value, p as real);
    assert b.value * (100 - p) as real == 100.0 * b.value + b.value * -(p as real);
    assert b.value * (100 + p) as real == 100.0 * b.value + b.value * (p as real);
  }

  /** Over a zero baseline that counts, any rise from it fires and a drop needs a negative figure; no
      rule fires on zero. */
  lemma FiresOverZero(current: real, b: Baseline, direction: string, p: int, minBaseline: int, minSamples: int)
    requires b.value == 0.0
    ensures Judge(current, b, direction, p, minBaseline, minSamples).fired <==>
            && Counts(b, minBaseline, minSamples)
            && ((direction in [RISE, BOTH] && current > 0.0) || (direction in [DROP, BOTH] && current < 0.0))
  {
  }

  /** Over a negative baseline the comparisons are the other way round. */
  lemma FiresBelowZero(current: real, b: Baseline, direction: string, p: int, minBaseline: int, minSamples: int)
    requires b.value < 0.0
    ensures Judge(current, b, direction, p, minBaseline, minSamples).fired <==>
            && Counts(b, minBaseline, minSamples)
            && var low := 100.0 * current >= b.value * (100 - p) as real;
               var high := 100.0 * current <= b.value * (100 + p) as real;
               || (direction == DROP && low) || (direction == RISE && high) || (direction == BOTH && (low || high))
  {
    var d, base := b.value - current, -b.value;
    assert (current - b.value) / b.value == d / base;
    PercentOf(d, base, -(p as real));
    PercentOf(d, base, p as real);
    assert base * -(p as real) == b.value * (p as real);
    assert b.value * (100 - p) as real == 100.0 * b.value - b.value * (p as real);
    assert b.value * (100 + p) as real == 100.0 * b.value + b.value * (p as real);
  }

  /** What is left of a figure after a drop by p percent, in hundredths, and what a rise makes of it. */
  function Dropped(v: real, p: int): real {
    Times(v, (100 - p) as real)
  }

  function Risen(v: real, p: int): real {
    Times(v, (100 + p) as real)
  }

  function Times(x: real, y: real): real {
    x * y
  }

  lemma PercentOrder(x: real, y: real, p: int)
    requires x <= y && 0 <= p <= 100
    ensures Dropped(x, p) <= Dropped(y, p) && Risen(x, p) <= Risen(y, p)
  {
    hide Times;
    TimesOrder(x, y, (100 - p) as real);
    TimesOrder(x, y, (100 + p) as real);
  }

  lemma TimesOrder(x: real, y: real, k: real)
    requires x <= y && k >= 0.0
    ensures Times(x, k) <= Times(y, k)
  {
    assert (y - x) * k >= 0.0;
  }

  /** Weeks out of the others' range, as long as they are a minority, change nothing beyond that range: a
      figure that has left the band over every other week fires the rule, and one that is inside the band over
      each of them does not. */
  lemma OddWeeksDecideNothing(g: Grid, metric: int, end: int, window: int, weeks: int, lo: real, hi: real,
                              current: real, direction: string, p: int, minBaseline: int, minSamples: int)
    requires 0.0 < lo <= hi && 0 <= p <= 100
    requires var n := |WeeksWith(g, metric, end, window, weeks, Any())|;
             n > 0 && |WeeksWith(g, metric, end, window, weeks, OutsideOf(lo, hi))| <= (n - 1) / 2
    ensures var n := |WeeksWith(g, metric, end, window, weeks, Any())|;
            var b := BaselineOf(g, metric, end, window, weeks);
            var fired := Judge(current, b, direction, p, minBaseline, minSamples).fired;
            && (n >= minSamples && lo >= minBaseline as real && Left(direction, p, current, lo, hi) ==> fired)
            && (fired ==> n >= minSamples && hi >= minBaseline as real && Left(direction, p, current, hi, lo))
  {
    hide BaselineOf, WeeksWith, LowerMiddle, UpperMiddle, Judge;
    BaselineMiddle(g, metric, end, window, weeks);
    var b := BaselineOf(g, metric, end, window, weeks);
    assert lo <= b.value <= hi;
    FiresIff(current, b, direction, p, minBaseline, minSamples);
    assert Judge(current, b, direction, p, minBaseline, minSamples).fired
      <==> Counts(b, minBaseline, minSamples) && Left(direction, p, current, b.value, b.value);
    LeftBetween(direction, p, current, lo, b.value, hi);
    hide Left;
  }

  lemma LeftBetween(direction: string, p: int, current: real, lo: real, v: real, hi: real)
    requires lo <= v <= hi && 0 <= p <= 100
    ensures Left(direction, p, current, lo, hi) ==> Left(direction, p, current, v, v)
    ensures Left(direction, p, current, v, v) ==> Left(direction, p, current, hi, lo)
  {
    PercentOrder(lo, v, p);
    PercentOrder(v, hi, p);
    hide Dropped, Risen;
  }

  /** The figure is at most the share of `low` that a drop leaves, or at least what a rise makes of `high`. */
  predicate Left(direction: string, p: int, current: real, low: real, high: real) {
    || ((direction == DROP || direction == BOTH) && 100.0 * current <= Dropped(low, p))
    || ((direction == RISE || direction == BOTH) && 100.0 * current >= Risen(high, p))
  }

  /** So with three weeks or more a single odd one decides nothing. */
  lemma OneOddWeek(g: Grid, metric: int, end: int, window: int, weeks: int, lo: real, hi: real, odd: int,
                   current: real, direction: string, p: int, minBaseline: int, minSamples: int)
    requires 0.0 < lo <= hi && 0 <= p <= 100
    requires |WeeksWith(g, metric, end, window, weeks, Any())| >= 3
    requires WeeksWith(g, metric, end, window, weeks, OutsideOf(lo, hi)) <= {odd}
    ensures var n := |WeeksWith(g, metric, end, window, weeks, Any())|;
            var b := BaselineOf(g, metric, end, window, weeks);
            var fired := Judge(current, b, direction, p, minBaseline, minSamples).fired;
            && (n >= minSamples && lo >= minBaseline as real && Left(direction, p, current, lo, hi) ==> fired)
            && (fired ==> n >= minSamples && hi >= minBaseline as real && Left(direction, p, current, hi, lo))
  {
    hide BaselineOf, WeeksWith, Judge, Left;
    FewIn(WeeksWith(g, metric, end, window, weeks, OutsideOf(lo, hi)), odd);
    OddWeeksDecideNothing(g, metric, end, window, weeks, lo, hi, current, direction, p, minBaseline, minSamples);
  }

  lemma FewIn(s: set<int>, x: int)
    requires s <= {x}
    ensures |s| <= 1
  {
    if x in s {
      assert s == {x};
    } else {
      assert s == {};
    }
  }
}
