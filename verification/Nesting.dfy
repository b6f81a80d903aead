/** Sequences of opening and closing tags: when they are balanced name by name, and when they nest. */
module Nesting {
  import opened Text

  datatype Tag = Tag(name: string, opens: bool)

  /** How many more of a name were opened than closed by the first n tags. */
  function Net(tags: seq<Tag>, n: nat, name: string): int
    requires n <= |tags|
  {
    if n == 0 then 0
    else Net(tags, n - 1, name) + if tags[n - 1].name != name then 0 else if tags[n - 1].opens then 1 else -1
  }

  /** Each name is closed only after it was opened, and as often. */
  ghost predicate Balanced(tags: seq<Tag>) {
    && (forall n, name :: 0 <= n <= |tags| ==> Net(tags, n, name) >= 0)
    && (forall name :: Net(tags, |tags|, name) == 0)
  }

  /** The name is never opened again while it is open. */
  ghost predicate Once(tags: seq<Tag>, name: string) {
    forall n :: 0 <= n <= |tags| ==> Net(tags, n, name) <= 1
  }

  predicate Within(open: seq<nat>, n: nat) {
    forall p :: 0 <= p < |open| ==> open[p] < n
  }

  /** The tags still open after the first n, by position, innermost last; None once a tag closes another
      name than the innermost open one. */
  function Stack(tags: seq<Tag>, n: nat): Option<seq<nat>>
    requires n <= |tags|
    ensures Stack(tags, n).Some? ==> Within(Stack(tags, n).value, n)
  {
    if n == 0 then Some([])
    else
      match Stack(tags, n - 1)
      case None => None
      case Some(open) =>
        if tags[n - 1].opens then Some(open + [n - 1])
        else if open != [] && tags[open[|open| - 1]].name == tags[n - 1].name then Some(open[..|open| - 1])
        else None
  }

  /** Every tag closes the innermost open one, and none stays open. */
  predicate Nested(tags: seq<Tag>) {
    Stack(tags, |tags|) == Some([])
  }

  /** Two consecutive tags of a name, one opening and one closing. */
  ghost predicate Pair(tags: seq<Tag>, k: nat, l: nat, name: string) {
    && k < l < |tags| && tags[k] == Tag(name, true) && tags[l] == Tag(name, false)
    && forall j :: k < j < l ==> tags[j].name != name
  }

  /** Between the tags k and l every name is closed only after it was opened there, and as often. */
  ghost predicate Inside(tags: seq<Tag>, k: nat, l: nat) {
    && k < l <= |tags|
    && (forall n, name :: k < n <= l ==> Net(tags, n, name) >= Net(tags, k + 1, name))
    && (forall name :: Net(tags, l, name) == Net(tags, k + 1, name))
  }

  /** What is inside each pair of the names other than `twice` is balanced. */
  ghost predicate PairsInside(tags: seq<Tag>, twice: string) {
    forall k, l, name :: name != twice && Pair(tags, k, l, name) ==> Inside(tags, k, l)
  }

  /** How many of the open tags from position p on have a name. */
  function Count(tags: seq<Tag>, open: seq<nat>, p: nat, name: string): nat
    requires p <= |open| && Within(open, |tags|)
    decreases |open| - p
  {
    if p == |open| then 0 else Count(tags, open, p + 1, name) + if tags[open[p]].name == name then 1 else 0
  }

  lemma {:induction false} CountPush(tags: seq<Tag>, open: seq<nat>, n: nat, p: nat, name: string)
    requires p <= |open| && n < |tags| && Within(open, |tags|)
    ensures Count(tags, open + [n], p, name) == Count(tags, open, p, name) + if tags[n].name == name then 1 else 0
    decreases |open| - p
  {
    if p < |open| {
      CountPush(tags, open, n, p + 1, name);
    } else {
      assert Count(tags, open + [n], p + 1, name) == 0;
    }
  }

  lemma CountPop(tags: seq<Tag>, open: seq<nat>, p: nat, name: string)
    requires open != [] && p < |open| && Within(open, |tags|)
    ensures var last := |open| - 1;
            Count(tags, open[..last], p, name)
            == Count(tags, open, p, name) - if tags[open[last]].name == name then 1 else 0
  {
    var last := |open| - 1;
    assert open[..last] + [open[last]] == open;
    CountPush(tags, open[..last], open[last], p, name);
  }

  /** The open tags and the counts agree, from the start and from each open tag on; and since it was
      opened no level fell below what it was then. */
  ghost predicate Agrees(tags: seq<Tag>, n: nat, open: seq<nat>)
    requires n <= |tags|
  {
    && Within(open, n) && (forall p :: 0 <= p < |open| ==> tags[open[p]].opens)
    && (forall name :: Count(tags, open, 0, name) == Net(tags, n, name))
    && (forall p, name :: 0 <= p < |open| ==> Level(tags, n, open, p, name))
  }

  ghost predicate Level(tags: seq<Tag>, n: nat, open: seq<nat>, p: nat, name: string)
    requires n <= |tags| && p < |open| && Within(open, n)
  {
    && Count(tags, open, p + 1, name) == Net(tags, n, name) - Net(tags, open[p] + 1, name)
    && forall m :: open[p] < m <= n ==> Net(tags, m, name) >= Net(tags, open[p] + 1, name)
  }

  lemma {:induction false} StackAgrees(tags: seq<Tag>, n: nat)
    requires n <= |tags| && Stack(tags, n).Some?
    ensures Agrees(tags, n, Stack(tags, n).value)
  {
    if n == 0 {
    } else {
      StackAgrees(tags, n - 1);
      var open := Stack(tags, n - 1).value;
      if tags[n - 1].opens {
        PushAgrees(tags, n - 1, open);
      } else {
        PopAgrees(tags, n - 1, open);
      }
    }
  }

  lemma PushAgrees(tags: seq<Tag>, n: nat, open: seq<nat>)
    requires n < |tags| && tags[n].opens && Agrees(tags, n, open)
    ensures Agrees(tags, n + 1, open + [n])
  {
    hide Count, Net;
    var more := open + [n];
    assert Within(more, n + 1);
    forall name
      ensures Count(tags, more, 0, name) == Net(tags, n + 1, name)
    {
      CountPush(tags, open, n, 0, name);
      NetNext(tags, n, name);
    }
    forall p: nat, name: string {:trigger Level(tags, n + 1, more, p, name)} | p < |more|
      ensures Level(tags, n + 1, more, p, name)
    {
      NetNext(tags, n, name);
      if p < |open| {
        assert Level(tags, n, open, p, name);
        CountPush(tags, open, n, p + 1, name);
        LevelStays(tags, n, open, more, p, name);
      } else {
        NothingAbove(tags, more, name);
      }
    }
  }

  lemma NetNext(tags: seq<Tag>, n: nat, name: string)
    requires n < |tags|
    ensures Net(tags, n + 1, name)
            == Net(tags, n, name) + if tags[n].name != name then 0 else if tags[n].opens then 1 else -1
  {
  }

  lemma NothingAbove(tags: seq<Tag>, open: seq<nat>, name: string)
    requires Within(open, |tags|)
    ensures Count(tags, open, |open|, name) == 0
  {
  }

  lemma LevelStays(tags: seq<Tag>, n: nat, open: seq<nat>, more: seq<nat>, p: nat, name: string)
    requires n < |tags| && p < |open| && p < |more| && open[p] == more[p]
    requires Within(open, n) && Within(more, n + 1)
    requires Level(tags, n, open, p, name)
    requires Count(tags, more, p + 1, name) == Net(tags, n + 1, name) - Net(tags, open[p] + 1, name)
    ensures Level(tags, n + 1, more, p, name)
  {
    hide Count, Net;
    forall m | more[p] < m <= n + 1
      ensures Net(tags, m, name) >= Net(tags, more[p] + 1, name)
    {
    }
  }

  lemma PopAgrees(tags: seq<Tag>, n: nat, open: seq<nat>)
    requires n < |tags| && !tags[n].opens && Agrees(tags, n, open)
    requires open != [] && tags[open[|open| - 1]].name == tags[n].name
    ensures Agrees(tags, n + 1, open[..|open| - 1])
  {
    hide Count, Net;
    var last := |open| - 1;
    var less := open[..last];
    forall name
      ensures Count(tags, less, 0, name) == Net(tags, n + 1, name)
    {
      CountPop(tags, open, 0, name);
      NetNext(tags, n, name);
    }
    forall p: nat, name: string {:trigger Level(tags, n + 1, less, p, name)} | p < |less|
      ensures Level(tags, n + 1, less, p, name)
    {
      NetNext(tags, n, name);
      assert Level(tags, n, open, p, name);
      CountPop(tags, open, p + 1, name);
      LevelStays(tags, n, open, less, p, name);
    }
  }

  // ---- Nested tags leave every pair's inside balanced ----

  lemma {:induction false} StackEarlier(tags: seq<Tag>, m: nat, n: nat)
    requires m <= n <= |tags| && Stack(tags, n).Some?
    ensures Stack(tags, m).Some?
    decreases n
  {
    if m < n {
      StackEarlier(tags, m, n - 1);
    }
  }

  /** A tag stays open until its name comes up again. */
  lemma {:induction false} StaysOpen(tags: seq<Tag>, k: nat, n: nat)
    requires k < n <= |tags| && tags[k].opens && Stack(tags, n).Some?
    requires forall j :: k < j < n ==> tags[j].name != tags[k].name
    ensures Stack(tags, k).Some? && var p, open := |Stack(tags, k).value|, Stack(tags, n).value;
            p < |open| && open[p] == k
    decreases n
  {
    StackEarlier(tags, n - 1, n);
    if k < n - 1 {
      StaysOpen(tags, k, n - 1);
    }
  }

  lemma NestedInside(tags: seq<Tag>, k: nat, l: nat, name: string)
    requires Nested(tags) && Pair(tags, k, l, name)
    ensures Inside(tags, k, l)
  {
    hide Net, Count;
    StackEarlier(tags, k, |tags|);
    var p := |Stack(tags, k).value|;
    forall n, x: string | k < n <= l
      ensures Net(tags, n, x) >= Net(tags, k + 1, x)
    {
      LevelHolds(tags, k, n, x);
    }
    forall x: string
      ensures Net(tags, l, x) == Net(tags, k + 1, x)
    {
      TopAtClose(tags, k, l, name, x);
    }
  }

  lemma LevelHolds(tags: seq<Tag>, k: nat, n: nat, x: string)
    requires k < n <= |tags| && tags[k].opens && Stack(tags, |tags|).Some?
    requires forall j :: k < j < n ==> tags[j].name != tags[k].name
    ensures Net(tags, n, x) >= Net(tags, k + 1, x)
  {
    hide Net, Count, Stack;
    StackEarlier(tags, n, |tags|);
    StackAgrees(tags, n);
    StaysOpen(tags, k, n);
    var p, open := |Stack(tags, k).value|, Stack(tags, n).value;
    assert Level(tags, n, open, p, x);
  }

  /** When the pair closes, its opening tag is the innermost one. */
  lemma TopAtClose(tags: seq<Tag>, k: nat, l: nat, name: string, x: string)
    requires Nested(tags) && Pair(tags, k, l, name)
    ensures Net(tags, l, x) == Net(tags, k + 1, x)
  {
    StackEarlier(tags, l, |tags|);
    StackEarlier(tags, l + 1, |tags|);
    StackAgrees(tags, l);
    StaysOpen(tags, k, l);
    TopClosed(tags, l);
    NoneBetween(tags, k + 1, l, name);
    hide Net, Count, Stack, Agrees;
    AgreesAt(tags, l, Stack(tags, l).value, |Stack(tags, k).value|, name);
    AgreesAt(tags, l, Stack(tags, l).value, |Stack(tags, k).value|, x);
    TopIs(tags, k, l, Stack(tags, l).value, |Stack(tags, k).value|, name, x);
  }

  lemma AgreesAt(tags: seq<Tag>, n: nat, open: seq<nat>, p: nat, name: string)
    requires n <= |tags| && Agrees(tags, n, open) && p < |open|
    ensures Level(tags, n, open, p, name)
  {
  }

  lemma LevelSays(tags: seq<Tag>, n: nat, open: seq<nat>, p: nat, name: string)
    requires n <= |tags| && p < |open| && Within(open, n) && Level(tags, n, open, p, name)
    ensures Count(tags, open, p + 1, name) == Net(tags, n, name) - Net(tags, open[p] + 1, name)
    ensures forall m :: open[p] < m <= n ==> Net(tags, m, name) >= Net(tags, open[p] + 1, name)
  {
  }

  lemma TopIs(tags: seq<Tag>, k: nat, l: nat, open: seq<nat>, p: nat, name: string, x: string)
    requires k < l <= |tags| && Within(open, l) && p < |open| && open[p] == k
    requires tags[open[|open| - 1]].name == name && Net(tags, l, name) == Net(tags, k + 1, name)
    requires Level(tags, l, open, p, name) && Level(tags, l, open, p, x)
    ensures Net(tags, l, x) == Net(tags, k + 1, x)
  {
    hide Net, Count;
    var last := |open| - 1;
    if p < last {
      CountHas(tags, open, p + 1, last);
    }
    NothingAbove(tags, open, x);
  }

  lemma TopClosed(tags: seq<Tag>, l: nat)
    requires l < |tags| && !tags[l].opens && Stack(tags, l + 1).Some?
    ensures Stack(tags, l).Some? && var open := Stack(tags, l).value;
            open != [] && tags[open[|open| - 1]].name == tags[l].name
  {
  }

  lemma {:induction false} NoneBetween(tags: seq<Tag>, m: nat, n: nat, name: string)
    requires m <= n <= |tags| && forall j :: m <= j < n ==> tags[j].name != name
    ensures Net(tags, n, name) == Net(tags, m, name)
    decreases n
  {
    if m < n {
      NoneBetween(tags, m, n - 1, name);
    }
  }

  lemma {:induction false} CountHas(tags: seq<Tag>, open: seq<nat>, p: nat, q: nat)
    requires p <= q < |open| && Within(open, |tags|)
    ensures Count(tags, open, p, tags[open[q]].name) >= 1
    decreases q - p
  {
    if p < q {
      CountHas(tags, open, p + 1, q);
    }
  }

  // ---- And tags whose pairs are balanced inside nest ----

  /** When no name other than `twice` is opened while it is open, and what is inside each pair of the
      other names is balanced, no tag closes out of turn. */
  lemma {:induction false} InsideStacks(tags: seq<Tag>, n: nat, twice: string)
    requires n <= |tags| && Balanced(tags)
    requires forall name :: name != twice ==> Once(tags, name)
    requires PairsInside(tags, twice)
    ensures Stack(tags, n).Some?
  {
    hide Net, Balanced, Once, Pair, Inside;
    if n > 0 {
      InsideStacks(tags, n - 1, twice);
      if !tags[n - 1].opens {
        StackAgrees(tags, n - 1);
        ClosesInTurn(tags, n - 1, Stack(tags, n - 1).value, twice);
      }
    }
  }

  lemma ClosesInTurn(tags: seq<Tag>, n: nat, open: seq<nat>, twice: string)
    requires n < |tags| && Balanced(tags) && !tags[n].opens && Agrees(tags, n, open)
    requires forall name :: name != twice ==> Once(tags, name)
    requires PairsInside(tags, twice)
    ensures open != [] && tags[open[|open| - 1]].name == tags[n].name
  {
    hide Net, Pair, Inside, Once;
    var x := tags[n].name;
    NetNext(tags, n, x);
    assert Net(tags, n + 1, x) >= 0;
    assert Count(tags, open, 0, x) >= 1;
    NothingAbove(tags, open, x);
    hide Balanced;
    assert open != [];
    var t := open[|open| - 1];
    var y := tags[t].name;
    if y != twice {
      SingleInTurn(tags, n, open, twice);
    } else if x != twice {
      DoubleInTurn(tags, n, open, twice);
    }
  }

  /** An innermost open tag whose name cannot be open twice is the one to be closed: it closes at n or
      later, and before that nothing goes below its level. */
  lemma SingleInTurn(tags: seq<Tag>, n: nat, open: seq<nat>, twice: string)
    requires n < |tags| && Balanced(tags) && !tags[n].opens && Agrees(tags, n, open) && open != []
    requires forall name :: name != twice ==> Once(tags, name)
    requires PairsInside(tags, twice) && tags[open[|open| - 1]].name != twice
    ensures tags[open[|open| - 1]].name == tags[n].name
  {
    hide Net, Count, Pair, Inside, Balanced, Once;
    var last := |open| - 1;
    var t, x := open[last], tags[n].name;
    var y := tags[t].name;
    assert Level(tags, n, open, last, x) && Level(tags, n, open, last, y);
    NothingAbove(tags, open, x);
    NetNext(tags, n, x);
    var l := NextOf(tags, t);
    assert Inside(tags, t, l);
    LaterThan(tags, t, l, n);
    PairEnds(tags, t, l, y);
    if n < l {
      InsideAt(tags, t, l, n + 1, x);
    }
  }

  lemma PairEnds(tags: seq<Tag>, k: nat, l: nat, name: string)
    requires Pair(tags, k, l, name)
    ensures l < |tags| && tags[l].name == name
  {
  }

  lemma InsideAt(tags: seq<Tag>, k: nat, l: nat, n: nat, x: string)
    requires k < n <= l <= |tags| && Inside(tags, k, l)
    ensures Net(tags, n, x) >= Net(tags, k + 1, x)
  {
  }

  /** The next tag of the name closes it. */
  lemma NextOf(tags: seq<Tag>, t: nat) returns (l: nat)
    requires t < |tags| && tags[t].opens && Balanced(tags) && Once(tags, tags[t].name)
    ensures Pair(tags, t, l, tags[t].name)
  {
    hide Net;
    var y := tags[t].name;
    NetNext(tags, t, y);
    l := t + 1;
    while l < |tags| && tags[l].name != y
      invariant t < l <= |tags| && forall j :: t < j < l ==> tags[j].name != y
    {
      l := l + 1;
    }
    NoneBetween(tags, t + 1, l, y);
    assert Net(tags, t, y) >= 0 && Net(tags, |tags|, y) == 0;
    if l < |tags| {
      NetNext(tags, l, y);
      assert Net(tags, l + 1, y) <= 1;
    }
  }

  /** A tag that is still open at n is not closed before n. */
  lemma LaterThan(tags: seq<Tag>, t: nat, l: nat, n: nat)
    requires t < n < |tags| && Pair(tags, t, l, tags[t].name)
    requires forall m :: t < m <= n ==> Net(tags, m, tags[t].name) >= Net(tags, t + 1, tags[t].name)
    ensures n <= l
  {
    hide Net;
    NoneBetween(tags, t + 1, l, tags[t].name);
    NetNext(tags, l, tags[t].name);
  }

  /** An innermost open tag of the name that can be open twice was not opened inside another pair that n
      closes. */
  lemma DoubleInTurn(tags: seq<Tag>, n: nat, open: seq<nat>, twice: string)
    requires n < |tags| && Balanced(tags) && !tags[n].opens && Agrees(tags, n, open) && open != []
    requires forall name :: name != twice ==> Once(tags, name)
    requires PairsInside(tags, twice) && tags[n].name != twice && Count(tags, open, 0, tags[n].name) >= 1
    ensures tags[open[|open| - 1]].name != twice
  {
    hide Net, Pair, Inside, Balanced, Count, Level;
    var last, x := |open| - 1, tags[n].name;
    var p := WhereCounted(tags, open, 0, x);
    var k := open[p];
    AgreesAt(tags, n, open, p, x);
    AgreesAt(tags, n, open, p, twice);
    hide Agrees;
    LevelSays(tags, n, open, p, x);
    LevelSays(tags, n, open, p, twice);
    OpenUntil(tags, k, n);
    InsideTotal(tags, k, n, twice);
    if p < last {
      CountHas(tags, open, p + 1, last);
    }
  }

  lemma InsideTotal(tags: seq<Tag>, k: nat, l: nat, x: string)
    requires k < l <= |tags| && Inside(tags, k, l)
    ensures Net(tags, l, x) == Net(tags, k + 1, x)
  {
  }

  lemma {:induction false} WhereCounted(tags: seq<Tag>, open: seq<nat>, p: nat, name: string) returns (q: nat)
    requires p <= |open| && Within(open, |tags|) && Count(tags, open, p, name) >= 1
    ensures p <= q < |open| && tags[open[q]].name == name
    decreases |open| - p
  {
    q := p;
    if tags[open[p]].name != name {
      q := WhereCounted(tags, open, p + 1, name);
    }
  }

  /** A name that cannot be open twice does not come up while it is open. */
  lemma OpenUntil(tags: seq<Tag>, k: nat, n: nat)
    requires k < n < |tags| && tags[k].opens && tags[n] == Tag(tags[k].name, false) && Balanced(tags)
             && Once(tags, tags[k].name)
    requires forall m :: k < m <= n ==> Net(tags, m, tags[k].name) >= Net(tags, k + 1, tags[k].name)
    ensures Pair(tags, k, n, tags[k].name)
  {
    hide Net;
    var x := tags[k].name;
    NetNext(tags, k, x);
    assert Net(tags, k, x) >= 0;
    forall j | k < j < n
      ensures tags[j].name != x
    {
      NetNext(tags, j, x);
      assert Net(tags, j, x) <= 1 && Net(tags, j + 1, x) <= 1;
      assert Net(tags, j, x) >= Net(tags, k + 1, x) && Net(tags, j + 1, x) >= Net(tags, k + 1, x);
    }
  }

  /** Balanced tags of which only one name may be open twice nest exactly when what is inside each pair of
      the other names is balanced. */
  lemma NestedIff(tags: seq<Tag>, twice: string)
    requires Balanced(tags) && forall name :: name != twice ==> Once(tags, name)
    ensures Nested(tags) <==> PairsInside(tags, twice)
  {
    hide Net, Count, Stack, Pair, Inside, Once;
    if Nested(tags) {
      forall k, l, name | name != twice && Pair(tags, k, l, name)
        ensures Inside(tags, k, l)
      {
        NestedInside(tags, k, l, name);
      }
    }
    if PairsInside(tags, twice) {
      InsideStacks(tags, |tags|, twice);
      StackAgrees(tags, |tags|);
      var open := Stack(tags, |tags|).value;
      if open != [] {
        CountHas(tags, open, 0, 0);
      }
    }
  }
}
