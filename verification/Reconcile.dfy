/** Keeping one polling loop per counter (internal/engine/poller.go).

    A loop is known by its number: the order in which loops were started. */
module Reconcile {

  /** A counter as the database lists it. */
  datatype Counter = Counter(id: int, pollInterval: int)

  /** A loop: whom it polls, how often (in minutes), and whether it was not cancelled. */
  datatype Loop = Loop(counter: int, interval: int, live: bool)

  /** The entry for a counter: its loop's number and the interval the loop was started with. */
  datatype Watch = Watch(loop: nat, interval: int)

  /** Loops are never forgotten or revived: an earlier loop stays as it was, or was cancelled. */
  ghost predicate Continues(before: seq<Loop>, after: seq<Loop>) {
    && |before| <= |after|
    && forall k :: 0 <= k < |before| ==> after[k] == before[k] || after[k] == before[k].(live := false)
  }

  lemma Continue(a: seq<Loop>, b: seq<Loop>, c: seq<Loop>)
    ensures Continues(a, a)
    ensures Continues(a, b) && Continues(b, c) ==> Continues(a, c)
  {
  }

  lemma NoMembers(s: set<int>)
    requires forall id: int | true :: id !in s
    ensures s == {}
  {
    assert forall id :: id in s ==> id in {};
  }

  lemma NoEntries(m: map<int, Watch>)
    requires forall id: int | true :: id !in m
    ensures m == map[]
  {
    NoMembers(m.Keys);
  }

  lemma HasMember(s: set<int>)
    requires s != {}
    ensures exists id :: id in s
  {
    if !exists id :: id in s {
      NoMembers(s);
    }
  }

  /** As configured, but never less than a minute. */
  function PollInterval(c: Counter): (interval: int)
    ensures interval >= 1 && (interval == c.pollInterval || (interval == 1 && c.pollInterval < 1))
  {
    if c.pollInterval < 1 then 1 else c.pollInterval
  }

  predicate DistinctIds(counters: seq<Counter>) {
    forall i, j :: 0 <= i < j < |counters| ==> counters[i].id != counters[j].id
  }

  function Ids(counters: seq<Counter>): set<int> {
    set i | 0 <= i < |counters| :: counters[i].id
  }

  /** The live loops are exactly the watched ones: one per counter, started with the interval on
      record. */
  ghost predicate Paired(watched: map<int, Watch>, loops: seq<Loop>) {
    && (forall id :: id in watched ==>
          watched[id].loop < |loops| && loops[watched[id].loop] == Loop(id, watched[id].interval, true))
    && (forall k :: 0 <= k < |loops| && loops[k].live ==>
          loops[k].counter in watched && watched[loops[k].counter].loop == k)
  }

  class Poller {
    var watched: map<int, Watch>
    /** Every loop ever started. */
    var loops: seq<Loop>
    var emptyLogged: bool

    ghost predicate Valid()
      reads this
    {
      Paired(watched, loops)
    }

    constructor ()
      ensures Valid() && watched == map[] && loops == []
    {
      watched, loops, emptyLogged := map[], [], false;
    }

    /** Starts a loop for a counter that has none. */
    method Launch(id: int, interval: int)
      requires Valid() && id !in watched
      modifies this`watched, this`loops
      ensures Valid()
      ensures watched == old(watched)[id := Watch(|old(loops)|, interval)]
      ensures loops == old(loops) + [Loop(id, interval, true)] && Continues(old(loops), loops)
    {
      watched := watched[id := Watch(|loops|, interval)];
      loops := loops + [Loop(id, interval, true)];
    }

    /** Cancels a counter's loop and forgets the counter. */
    method Cancel(id: int)
      requires Valid() && id in watched
      modifies this`watched, this`loops
      ensures Valid()
      ensures watched == old(watched) - {id} && Continues(old(loops), loops) && |loops| == |old(loops)|
      ensures loops == old(loops)[old(watched)[id].loop := old(loops)[old(watched)[id].loop].(live := false)]
    {
      var k := watched[id].loop;
      loops := loops[k := loops[k].(live := false)];
      watched := watched - {id};
    }

    /** Serves one listed counter: a missing loop is started, a loop with another interval replaced,
        and a loop with the same interval left alone. */
    method Serve(c: Counter)
      requires Valid()
      modifies this`watched, this`loops
      ensures Valid() && Continues(old(loops), loops)
      ensures Served(old(watched), watched, c) && OnlyAt(old(watched), watched, c.id)
      ensures c.id in old(watched) && old(watched)[c.id].interval == PollInterval(c)
              ==> watched == old(watched) && loops == old(loops)
    {
      hide Paired, Continues, PollInterval;
      Continue(loops, loops, loops);
      var interval := PollInterval(c);
      if c.id in watched {
        if watched[c.id].interval == interval {
          return;
        }
        Cancel(c.id);
      }
      ghost var earlier := loops;
      Launch(c.id, interval);
      Continue(old(loops), earlier, loops);
    }

    /** Brings the loops in step with the listed counters: afterwards exactly they are watched, each
        at its own interval. A loop whose counter and interval are unchanged is left running, so
        nothing happens when the two already agree. */
    method Reconcile(counters: seq<Counter>)
      requires Valid() && DistinctIds(counters)
      modifies this
      ensures Valid() && Continues(old(loops), loops)
      ensures InStep(watched, counters)
      ensures forall i :: 0 <= i < |counters| ==> Served(old(watched), watched, counters[i])
      ensures forall i :: 0 <= i < |counters| ==>
                && counters[i].id in watched
                && watched[counters[i].id].interval
                   == (if counters[i].pollInterval >= 1 then counters[i].pollInterval else 1)
      ensures emptyLogged == (counters == [])
      ensures InStep(old(watched), counters) ==> watched == old(watched) && loops == old(loops)
    {
      hide Paired, Continues, PollInterval, Ids, Served, InStep;
      Continue(loops, loops, loops);
      StartVisits(watched, counters);
      for n := 0 to |counters|
        invariant Valid() && Continues(old(loops), loops)
        invariant Visited(old(watched), watched, counters, n)
        invariant InStep(old(watched), counters) ==> watched == old(watched) && loops == old(loops)
      {
        ghost var earlier, mid := loops, watched;
        InStepAt(old(watched), counters, n);
        Serve(counters[n]);
        Continue(old(loops), earlier, loops);
        VisitOne(old(watched), mid, watched, counters, n);
      }
      ghost var earlier, mid := loops, watched;
      CancelGone(Ids(counters));
      Continue(old(loops), earlier, loops);
      AllVisited(old(watched), mid, watched, counters);
      InStepIntervals(watched, counters);
      if |watched| == 0 && !emptyLogged {
        emptyLogged := true;
      } else if |watched| > 0 {
        emptyLogged := false;
      }
    }

    /** Cancels the loops of the counters that are no longer present, in any order. */
    method CancelGone(present: set<int>)
      requires Valid()
      modifies this`watched, this`loops
      ensures Valid()
      ensures forall id :: id in watched <==> id in old(watched) && id in present
      ensures forall id :: id in watched ==> watched[id] == old(watched)[id]
      ensures Continues(old(loops), loops) && |loops| == |old(loops)|
      ensures (forall id :: id in old(watched) ==> id in present) ==> watched == old(watched) && loops == old(loops)
    {
      hide Paired, Continues;
      Continue(loops, loops, loops);
      var toVisit := watched.Keys;
      while toVisit != {}
        invariant Valid() && Continues(old(loops), loops) && |loops| == |old(loops)|
        invariant toVisit <= watched.Keys
        invariant forall id :: id in old(watched) && id in present ==> id in watched
        invariant forall id :: id in watched ==> id in old(watched)
        invariant forall id :: id in watched && id !in toVisit ==> id in present
        invariant forall id :: id in watched ==> watched[id] == old(watched)[id]
        invariant (forall id :: id in old(watched) ==> id in present) ==> watched == old(watched) && loops == old(loops)
        decreases |toVisit|
      {
        HasMember(toVisit);
        var id :| id in toVisit;
        toVisit := toVisit - {id};
        if id in present {
          continue;
        }
        ghost var earlier := loops;
        Cancel(id);
        Continue(old(loops), earlier, loops);
      }
    }

    method StopAll()
      requires Valid()
      modifies this`watched, this`loops
      ensures Valid() && watched == map[] && Continues(old(loops), loops) && |loops| == |old(loops)|
      ensures forall k :: 0 <= k < |loops| ==> !loops[k].live
    {
      hide Continues;
      CancelGone({});
      NoEntries(watched);
    }
  }

  /** The counter has a loop with its interval, and an unchanged entry was kept. */
  ghost predicate Served(before: map<int, Watch>, after: map<int, Watch>, c: Counter) {
    && c.id in after
    && after[c.id].interval == PollInterval(c)
    && (c.id in before && before[c.id].interval == PollInterval(c) ==> after[c.id] == before[c.id])
  }

  /** No entry but the one for `id` changed. */
  ghost predicate OnlyAt(before: map<int, Watch>, after: map<int, Watch>, id: int) {
    forall k :: k != id ==> (k in after <==> k in before) && (k in before ==> after[k] == before[k])
  }

  /** After the first `n` counters: they are served, and no other entry changed. */
  ghost predicate Visited(before: map<int, Watch>, now: map<int, Watch>, counters: seq<Counter>, n: nat)
    requires n <= |counters|
  {
    && (forall i :: 0 <= i < n ==> Served(before, now, counters[i]))
    && (forall id :: (forall i :: 0 <= i < n ==> counters[i].id != id)
          ==> (id in now <==> id in before) && (id in before ==> now[id] == before[id]))
  }

  /** The watched set already matches the database. */
  ghost predicate InStep(watched: map<int, Watch>, counters: seq<Counter>) {
    && (forall id :: id in watched <==> id in Ids(counters))
    && forall i :: 0 <= i < |counters| ==>
         counters[i].id in watched && watched[counters[i].id].interval == PollInterval(counters[i])
  }

  lemma InStepAt(watched: map<int, Watch>, counters: seq<Counter>, n: nat)
    requires n < |counters|
    ensures InStep(watched, counters) ==>
              counters[n].id in watched && watched[counters[n].id].interval == PollInterval(counters[n])
  {
    hide PollInterval;
  }

  lemma InStepIntervals(watched: map<int, Watch>, counters: seq<Counter>)
    requires InStep(watched, counters)
    ensures forall i :: 0 <= i < |counters| ==>
              && counters[i].id in watched
              && watched[counters[i].id].interval
                 == (if counters[i].pollInterval >= 1 then counters[i].pollInterval else 1)
  {
  }

  lemma StartVisits(watched: map<int, Watch>, counters: seq<Counter>)
    ensures Visited(watched, watched, counters, 0)
  {
  }

  lemma VisitOne(before: map<int, Watch>, mid: map<int, Watch>, after: map<int, Watch>, counters: seq<Counter>, n: nat)
    requires n < |counters| && DistinctIds(counters) && Visited(before, mid, counters, n)
    requires Served(mid, after, counters[n]) && OnlyAt(mid, after, counters[n].id)
    ensures Visited(before, after, counters, n + 1)
  {
    hide PollInterval;
    var c := counters[n];
    assert forall i :: 0 <= i < n ==> counters[i].id != c.id;
    forall i | 0 <= i < n + 1
      ensures Served(before, after, counters[i])
    {
      if i < n {
        assert Served(before, mid, counters[i]);
      }
    }
  }

  lemma AllVisited(before: map<int, Watch>, mid: map<int, Watch>, after: map<int, Watch>, counters: seq<Counter>)
    requires Visited(before, mid, counters, |counters|)
    requires forall id :: id in after <==> id in mid && id in Ids(counters)
    requires forall id :: id in after ==> after[id] == mid[id]
    ensures InStep(after, counters) && (forall i :: 0 <= i < |counters| ==> Served(before, after, counters[i]))
    ensures after == map[] <==> counters == []
    ensures InStep(before, counters) ==> forall id :: id in before ==> id in Ids(counters)
  {
    hide PollInterval;
    forall i | 0 <= i < |counters|
      ensures counters[i].id in Ids(counters) && Served(before, after, counters[i])
    {
      assert Served(before, mid, counters[i]);
    }
    if counters != [] {
      assert counters[0].id in after;
    } else {
      NoEntries(after);
    }
  }

  /** One counter never has two live loops, and the live one is the one on record. */
  lemma OneLiveLoop(watched: map<int, Watch>, loops: seq<Loop>, j: nat, k: nat)
    requires Paired(watched, loops) && j < |loops| && k < |loops|
    requires loops[j].live && loops[k].live && loops[j].counter == loops[k].counter
    ensures j == k && watched[loops[k].counter].loop == k
  {
  }

  // ---- Any run of reconciliations and shutdowns ----

  datatype Round = Listed(counters: seq<Counter>) | Shutdown

  /** Runs any sequence of rounds from a fresh start. After each reconciliation the watched ids are
      the listed ones; repeating it on the same list starts and cancels nothing; and at the end each
      counter has at most one live loop. */
  method RunRounds(rounds: seq<Round>) returns (p: Poller)
    requires forall r :: r in rounds && r.Listed? ==> DistinctIds(r.counters)
    ensures fresh(p) && p.Valid()
    ensures rounds != [] && rounds[|rounds| - 1].Listed? ==> InStep(p.watched, rounds[|rounds| - 1].counters)
    ensures rounds != [] && rounds[|rounds| - 1].Shutdown?
            ==> p.watched == map[] && forall k :: 0 <= k < |p.loops| ==> !p.loops[k].live
  {
    p := new Poller();
    for n := 0 to |rounds|
      invariant fresh(p) && p.Valid()
      invariant n > 0 && rounds[n - 1].Listed? ==> InStep(p.watched, rounds[n - 1].counters)
      invariant n > 0 && rounds[n - 1].Shutdown?
                ==> p.watched == map[] && forall k :: 0 <= k < |p.loops| ==> !p.loops[k].live
    {
      assert rounds[n] in rounds;
      match rounds[n] {
        case Listed(counters) =>
          p.Reconcile(counters);
          ghost var watched, loops := p.watched, p.loops;
          p.Reconcile(counters);
          assert p.watched == watched && p.loops == loops;
        case Shutdown =>
          p.StopAll();
      }
    }
  }
}
