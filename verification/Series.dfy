/** Time series of the Reporting API and their lazily built index (internal/engine/report_client.go).

    Times are wall-clock minutes; figures are exact numbers. */
module Series {
  import opened Text

  /** The starts of the intervals and, for each metric, one figure per interval. */
  datatype Grid = Grid(intervals: seq<int>, values: seq<seq<real>>) {

    function At(metric: int, interval: int): Option<real> {
      if !(0 <= metric < |values|) then None
      else if !(0 <= interval < |values[metric]|) then None
      else Some(values[metric][interval])
    }

    /** The spacing between intervals, or 0 when there are too few to tell. */
    function Step(): int {
      if |intervals| < 2 then 0 else intervals[1] - intervals[0]
    }
  }

  /** The last interval that starts at `t`, found by looking at each; -1 when there is none. */
  function Search(intervals: seq<int>, t: int): (i: int)
    ensures -1 <= i < |intervals|
    ensures i >= 0 ==> intervals[i] == t && forall k :: i < k < |intervals| ==> intervals[k] != t
    ensures i < 0 ==> t !in intervals
  {
    if intervals == [] then -1
    else if intervals[|intervals| - 1] == t then |intervals| - 1
    else Search(intervals[..|intervals| - 1], t)
  }

  function IndexMap(intervals: seq<int>): map<int, nat> {
    if intervals == [] then map[]
    else IndexMap(intervals[..|intervals| - 1])[intervals[|intervals| - 1] := |intervals| - 1]
  }

  /** Looking a start up in the index is the same as searching for it. */
  lemma {:induction false} IndexIsSearch(intervals: seq<int>, t: int)
    ensures (if t in IndexMap(intervals) then IndexMap(intervals)[t] else -1) == Search(intervals, t)
  {
    if intervals != [] {
      IndexIsSearch(intervals[..|intervals| - 1], t);
    }
  }

  class TimeSeries {
    const grid: Grid
    var index: Option<map<int, nat>>

    ghost predicate Valid()
      reads this`index
    {
      index == None || index == Some(IndexMap(grid.intervals))
    }

    constructor (grid: Grid)
      ensures Valid() && this.grid == grid
    {
      this.grid := grid;
      index := None;
    }

    /** The position of the interval that starts at `t`, or -1. The index is built on first use. */
    method IndexOf(t: int) returns (i: int)
      requires Valid()
      modifies this`index
      ensures Valid() && index.Some?
      ensures i == Search(grid.intervals, t)
    {
      if index == None {
        var m: map<int, nat> := map[];
        for k := 0 to |grid.intervals|
          invariant m == IndexMap(grid.intervals[..k])
        {
          assert grid.intervals[..k + 1][..k] == grid.intervals[..k];
          m := m[grid.intervals[k] := k];
        }
        assert grid.intervals[..|grid.intervals|] == grid.intervals;
        index := Some(m);
      }
      IndexIsSearch(grid.intervals, t);
      if t in index.value {
        return index.value[t];
      }
      return -1;
    }
  }

  /** The starts of `count` intervals of a period that begins at `start`. */
  method DeriveIntervals(start: int, step: int, count: nat) returns (out: seq<int>)
    ensures |out| == count && forall i :: 0 <= i < count ==> out[i] == start + step * i
  {
    out := [];
    for i := 0 to count
      invariant |out| == i && forall k :: 0 <= k < i ==> out[k] == start + step * k
    {
      out := out + [start + step * i];
    }
  }

  // ---- Contiguous series ----

  ghost predicate Evenly(intervals: seq<int>, step: int) {
    forall i :: 0 <= i < |intervals| - 1 ==> intervals[i + 1] == intervals[i] + step
  }

  /** Intervals follow each other without a gap and the metric has a figure for each. */
  ghost predicate Contiguous(g: Grid, metric: int) {
    && |g.intervals| >= 2 && g.Step() > 0 && Evenly(g.intervals, g.Step())
    && 0 <= metric < |g.values| && |g.values[metric]| == |g.intervals|
  }

  lemma {:induction false} Increasing(intervals: seq<int>, step: int, i: nat, j: nat)
    requires step > 0 && Evenly(intervals, step) && i < j < |intervals|
    ensures intervals[i] < intervals[j]
    decreases j
  {
    assert intervals[j - 1 + 1] == intervals[j - 1] + step;
    if i < j - 1 {
      Increasing(intervals, step, i, j - 1);
    }
  }

  /** On a contiguous series the search finds the one interval that starts at a moment. */
  lemma SearchFinds(g: Grid, metric: int, i: nat)
    requires Contiguous(g, metric) && i < |g.intervals|
    ensures Search(g.intervals, g.intervals[i]) == i
  {
    var k := Search(g.intervals, g.intervals[i]);
    if k > i {
      Increasing(g.intervals, g.Step(), i, k);
    }
  }
}
