/** Importing by merging: what it leaves of the tables, and that doing it twice is doing it once. */
module Merge {
  import opened Text
  import opened Keyed
  import opened RuleTables
  import opened Settings
  import opened Database

  // ---- What a list says about a key ----

  /** The n-th item is the last one for its key. */
  ghost predicate LastFor<K, V>(items: seq<(K, V)>, n: int) {
    0 <= n < |items| && forall j :: n < j < |items| ==> items[j].0 != items[n].0
  }

  /** Under overwriting, a key takes the value it is listed with last, and nothing when it is not
      listed. */
  lemma {:induction false} LastListed<K, V>(items: seq<(K, V)>, k: K)
    ensures match Listed(items, k, Overwrite)
            case None => forall n :: 0 <= n < |items| ==> items[n].0 != k
            case Some(v) => exists n :: LastFor(items, n) && items[n] == (k, v)
  {
    if items != [] {
      var n := |items| - 1;
      var init := items[..n];
      LastListed(init, k);
      ListedMore(init, Overwrite, items[n].0, items[n].1, k);
      assert init + [items[n]] == items;
      hide Listed;
      if items[n].0 == k {
        assert LastFor(items, n) && items[n] == (k, items[n].1);
      } else if Listed(init, k, Overwrite).Some? {
        var j :| LastFor(init, j) && init[j] == (k, Listed(init, k, Overwrite).value);
        assert LastFor(items, j) && items[j] == init[j];
      }
    }
  }

  /** The n-th item gives the key a token, and no later one does. */
  ghost predicate LastToken(items: seq<(string, CounterVals)>, k: string, n: int) {
    && 0 <= n < |items| && items[n].0 == k && items[n].1.token != ""
    && forall j :: n < j < |items| ==> items[j].0 != k || items[j].1.token == ""
  }

  ghost predicate NoToken(items: seq<(string, CounterVals)>, k: string) {
    forall j :: 0 <= j < |items| ==> items[j].0 != k || items[j].1.token == ""
  }

  function Takes(items: seq<(string, CounterVals)>, k: string, stored: CounterVals): CounterVals {
    Taken(stored, Listed(items, k, MergeCounter), MergeCounter)
  }

  lemma TakesMore(items: seq<(string, CounterVals)>, k: string, stored: CounterVals)
    requires items != []
    ensures var n := |items| - 1;
            Takes(items, k, stored)
            == if items[n].0 == k then MergeCounter(Takes(items[..n], k, stored), items[n].1)
               else Takes(items[..n], k, stored)
  {
    var n := |items| - 1;
    MergesLawful();
    ListedMore(items[..n], MergeCounter, items[n].0, items[n].1, k);
    assert items[..n] + [items[n]] == items;
    hide Listed, Lawful;
    TakenMore(stored, Listed(items[..n], k, MergeCounter), MergeCounter, items[n].1);
  }

  /** A stored counter takes the name and the interval it is listed with last; its cursor stays. */
  lemma {:induction false} LastNameTaken(items: seq<(string, CounterVals)>, k: string, stored: CounterVals, at: int)
    requires LastFor(items, at) && items[at].0 == k
    ensures var v := Takes(items, k, stored);
            v.name == items[at].1.name && v.poll == items[at].1.poll && v.cursor == stored.cursor
  {
    hide Takes;
    var n := |items| - 1;
    TakesMore(items, k, stored);
    CursorStays(items[..n], k, stored);
    if at < n {
      assert LastFor(items[..n], at);
      LastNameTaken(items[..n], k, stored, at);
    }
  }

  lemma {:induction false} CursorStays(items: seq<(string, CounterVals)>, k: string, stored: CounterVals)
    ensures Takes(items, k, stored).cursor == stored.cursor
  {
    if items != [] {
      hide Takes;
      TakesMore(items, k, stored);
      CursorStays(items[..|items| - 1], k, stored);
    }
  }

  /** It takes the last token listed for it that is not empty, and keeps its own when there is none. */
  lemma {:induction false} LastTokenTaken(items: seq<(string, CounterVals)>, k: string, stored: CounterVals)
    ensures NoToken(items, k) ==> Takes(items, k, stored).token == stored.token
    ensures forall at :: LastToken(items, k, at) ==> Takes(items, k, stored).token == items[at].1.token
  {
    if items != [] {
      hide Takes;
      var n := |items| - 1;
      TakesMore(items, k, stored);
      LastTokenTaken(items[..n], k, stored);
      forall at | LastToken(items, k, at) && at < n
        ensures LastToken(items[..n], k, at)
      {
      }
    }
  }

  // ---- A merge is an upsert by key ----

  lemma MergesLawful()
    ensures Lawful(MergeCounter)
    ensures Lawful<TriggerVals>(Overwrite) && Lawful<ReportVals>(Overwrite)
  {
  }

  /** After a merge each table is the old one with every listed key upserted: unlisted rows, ids and
      order stay, listed keys take what is listed for them, new keys get new rows; every listed rule is
      under a counter that exists. */
  lemma MergeUpserts(s: State, p: Payload)
    requires Applied(s, p, false).Ok?
    ensures var u := Applied(s, p, false).value;
            && Upserted(s.counters, CounterItems(p.counters), MergeCounter, u.counters)
            && Resolve(u.counters, TriggerRules(p), StoredTrigger).Ok?
            && Upserted(s.triggers, Resolve(u.counters, TriggerRules(p), StoredTrigger).value, Overwrite, u.triggers)
            && Resolve(u.counters, ReportRules(p), StoredReport).Ok?
            && Upserted(s.reports, Resolve(u.counters, ReportRules(p), StoredReport).value, Overwrite, u.reports)
            && u.cooldowns == s.cooldowns && u.alerts == s.alerts && u.snapshots == s.snapshots
  {
    hide CounterItems, Resolve, TriggerRules, ReportRules, PutAll, Upserted, ActionsAfter, Lawful;
    MergesLawful();
    var u := Applied(s, p, false).value;
    PutAllUpserts(s.counters, CounterItems(p.counters), MergeCounter);
    PutAllUpserts(s.triggers, Resolve(u.counters, TriggerRules(p), StoredTrigger).value, Overwrite);
    PutAllUpserts(s.reports, Resolve(u.counters, ReportRules(p), StoredReport).value, Overwrite);
  }

  /** Upserting by overwriting, said by rows: with unique keys, a row whose key is not listed stays as it
      is, and a listed key has a row with the value it is listed with last, which is its old row if it had
      one. */
  lemma OverwriteMeans<K(!new), V>(t: Table<K, V>, items: seq<(K, V)>, u: Table<K, V>)
    requires UniqueKeys(t.rows) && Upserted(t, items, Overwrite, u)
    ensures forall i :: 0 <= i < |t.rows| && (forall n :: 0 <= n < |items| ==> items[n].0 != t.rows[i].key)
              ==> u.rows[i] == t.rows[i]
    ensures forall n :: LastFor(items, n) ==>
              var at, before := Find(u.rows, items[n].0), Find(t.rows, items[n].0);
              at >= 0 && u.rows[at].val == items[n].1
                && (before >= 0 ==> at == before && u.rows[at].id == t.rows[before].id)
  {
    hide Find, Listed, OldRow, NewRow;
    forall i | 0 <= i < |t.rows| && (forall n :: 0 <= n < |items| ==> items[n].0 != t.rows[i].key)
      ensures |t.rows| <= |u.rows| && u.rows[i] == t.rows[i]
    {
      UnlistedStays(t, items, u, i);
    }
    forall n | LastFor(items, n)
      ensures var at, before := Find(u.rows, items[n].0), Find(t.rows, items[n].0);
              at >= 0 && u.rows[at].val == items[n].1
              && (before >= 0 ==> before < |u.rows| && at == before && u.rows[at].id == t.rows[before].id)
    {
      LastWins(t, items, u, n);
    }
  }

  lemma UnlistedStays<K(!new), V>(t: Table<K, V>, items: seq<(K, V)>, u: Table<K, V>, i: int)
    requires Upserted(t, items, Overwrite, u) && 0 <= i < |t.rows|
    requires forall n :: 0 <= n < |items| ==> items[n].0 != t.rows[i].key
    ensures u.rows[i] == t.rows[i]
  {
    LastListed(items, t.rows[i].key);
    hide Find, Listed;
    assert OldRow(t, items, Overwrite, u, i);
  }

  lemma LastWins<K(!new), V>(t: Table<K, V>, items: seq<(K, V)>, u: Table<K, V>, n: int)
    requires Upserted(t, items, Overwrite, u) && LastFor(items, n)
    ensures var at, before := Find(u.rows, items[n].0), Find(t.rows, items[n].0);
            && at >= 0 && u.rows[at].val == items[n].1
            && (before >= 0 ==> before < |u.rows| && at == before && u.rows[at].id == t.rows[before].id)
  {
    var k := items[n].0;
    LastListed(items, k);
    hide Find, Listed;
    assert Listed(items, k, Overwrite) == Some(items[n].1);
    OldKeys(t, items, Overwrite, u);
    var at, before := Find(u.rows, k), Find(t.rows, k);
    if before >= 0 {
      FindFirst(u.rows, k, before);
      assert OldRow(t, items, Overwrite, u, before);
    } else {
      assert at >= |t.rows|;
      assert NewRow(t, items, Overwrite, u, at);
    }
  }

  // ---- Destinations ----

  /** The old rows are still there, in place. */
  ghost predicate Extends(t: Actions, u: Actions) {
    |t.rows| <= |u.rows| && forall j :: 0 <= j < |t.rows| ==> u.rows[j].key == t.rows[j].key
  }

  ghost predicate AllFound(actions: seq<ExportAction>, rows: seq<Row<Address, string>>) {
    forall i :: 0 <= i < |actions| ==> FindDestination(rows, AddressOf(actions[i])) >= 0
  }

  lemma StaysFound(t: Actions, u: Actions, a: Address)
    requires Extends(t, u) && FindDestination(t.rows, a) >= 0
    ensures FindDestination(u.rows, a) == FindDestination(t.rows, a)
  {
    hide FindDestination, SameDestination;
    var i := FindDestination(t.rows, a);
    assert u.rows[i].key == t.rows[i].key;
    assert forall j :: 0 <= j < i ==> u.rows[j].key == t.rows[j].key;
  }

  /** The last non-empty name listed for the row at a place. */
  function NamedLast(actions: seq<ExportAction>, rows: seq<Row<Address, string>>, at: int): Option<string> {
    if actions == [] then None
    else
      var last := actions[|actions| - 1];
      if FindDestination(rows, AddressOf(last)) == at && last.name != "" then Some(last.name)
      else NamedLast(actions[..|actions| - 1], rows, at)
  }

  lemma {:induction false} NamedSame(actions: seq<ExportAction>, t: Actions, u: Actions, at: int)
    requires Extends(t, u) && AllFound(actions, t.rows)
    ensures NamedLast(actions, t.rows, at) == NamedLast(actions, u.rows, at)
    ensures at >= |t.rows| ==> NamedLast(actions, t.rows, at) == None
  {
    hide FindDestination, Extends;
    if actions != [] {
      var init, last := actions[..|actions| - 1], actions[|actions| - 1];
      StaysFound(t, u, AddressOf(last));
      NamedSame(init, t, u, at);
    }
  }

  /** What merging destinations comes to: rows stay in place, every listed destination has one, and a
      row has the last name listed for it, or else the one it had. */
  ghost predicate Merged(t: Actions, actions: seq<ExportAction>, u: Actions) {
    && Extends(t, u) && AllFound(actions, u.rows)
    && u.next == t.next + (|u.rows| - |t.rows|)
    && (forall i :: 0 <= i < |t.rows| ==> u.rows[i].id == t.rows[i].id)
    && (forall i :: 0 <= i < |u.rows| ==> NameTaken(t, actions, u, i))
  }

  ghost predicate NameTaken(t: Actions, actions: seq<ExportAction>, u: Actions, i: int)
    requires 0 <= i < |u.rows|
  {
    match NamedLast(actions, u.rows, i)
    case Some(name) => u.rows[i].val == name
    case None => i < |t.rows| ==> u.rows[i].val == t.rows[i].val
  }

  lemma PutKeeps(t: Actions, a: ExportAction)
    requires ChannelOf(a.typ) != Unknown
    ensures var u, at := PutAction(t, a, false), FindDestination(PutAction(t, a, false).rows, AddressOf(a));
            && Extends(t, u) && u.next == t.next + (|u.rows| - |t.rows|)
            && 0 <= at < |u.rows| && (at < |t.rows| ==> |u.rows| == |t.rows|)
            && (FindDestination(t.rows, AddressOf(a)) >= 0 ==> |u.rows| == |t.rows|)
            && (forall i :: 0 <= i < |t.rows| ==> u.rows[i].id == t.rows[i].id)
            && (forall i :: 0 <= i < |t.rows| && i != at ==> u.rows[i].val == t.rows[i].val)
            && (a.name == "" && at < |t.rows| ==> u.rows[at].val == t.rows[at].val)
            && (a.name != "" ==> u.rows[at].val == a.name)
            && |u.rows| <= |t.rows| + 1
  {
    hide FindDestination;
    var u, x := PutAction(t, a, false), AddressOf(a);
    assert SameDestination(x, x);
    hide SameDestination;
    if FindDestination(t.rows, x) >= 0 {
      StaysFound(t, u, x);
    } else {
      assert u.rows[|t.rows|].key == x;
      assert forall j :: 0 <= j < |t.rows| ==> u.rows[j].key == t.rows[j].key;
    }
  }

  lemma MergedMore(t: Actions, actions: seq<ExportAction>, u: Actions, a: ExportAction)
    requires Merged(t, actions, u) && ChannelOf(a.typ) != Unknown
    ensures Merged(t, actions + [a], PutAction(u, a, false))
  {
    hide FindDestination, PutAction, NamedLast, ChannelOf;
    var w, more := PutAction(u, a, false), actions + [a];
    PutKeeps(u, a);
    forall i | 0 <= i < |more|
      ensures FindDestination(w.rows, AddressOf(more[i])) >= 0
    {
      if i < |actions| {
        assert more[i] == actions[i];
        StaysFound(u, w, AddressOf(actions[i]));
      }
    }
    forall i | 0 <= i < |w.rows|
      ensures NameTaken(t, more, w, i)
    {
      MergedName(t, actions, u, a, i);
    }
  }

  lemma MergedName(t: Actions, actions: seq<ExportAction>, u: Actions, a: ExportAction, i: int)
    requires Merged(t, actions, u) && ChannelOf(a.typ) != Unknown && 0 <= i < |PutAction(u, a, false).rows|
    ensures NameTaken(t, actions + [a], PutAction(u, a, false), i)
  {
    var w, more := PutAction(u, a, false), actions + [a];
    assert more[..|actions|] == actions;
    assert NamedLast(more, w.rows, i)
        == if FindDestination(w.rows, AddressOf(a)) == i && a.name != "" then Some(a.name)
           else NamedLast(actions, w.rows, i);
    hide FindDestination, PutAction, NamedLast, ChannelOf;
    PutKeeps(u, a);
    NamedSame(actions, u, w, i);
    if i < |u.rows| {
      assert NameTaken(t, actions, u, i);
    }
  }

  lemma {:induction false} DestinationsMerge(t: Actions, actions: seq<ExportAction>)
    requires forall i :: 0 <= i < |actions| ==> ChannelOf(actions[i].typ) != Unknown
    ensures Merged(t, actions, ActionsAfter(t, actions, false))
  {
    hide FindDestination, Merged, ChannelOf, PutAction;
    if actions == [] {
      NothingMerged(t);
    } else {
      var n := |actions| - 1;
      DestinationsMerge(t, actions[..n]);
      MergedMore(t, actions[..n], ActionsAfter(t, actions[..n], false), actions[n]);
      assert actions == actions[..n] + [actions[n]];
    }
  }

  lemma NothingMerged(t: Actions)
    ensures Merged(t, [], t)
  {
    hide FindDestination;
  }

  lemma {:induction false} FoundInsertsNone(u: Actions, actions: seq<ExportAction>)
    requires AllFound(actions, u.rows)
    ensures Extends(u, ActionsAfter(u, actions, false)) && |ActionsAfter(u, actions, false).rows| == |u.rows|
  {
    hide FindDestination;
    if actions != [] {
      var n := |actions| - 1;
      FoundInsertsNone(u, actions[..n]);
      StaysFound(u, ActionsAfter(u, actions[..n], false), AddressOf(actions[n]));
    }
  }

  /** Merging the same destinations again adds none and renames none. */
  lemma DestinationsTwice(t: Actions, actions: seq<ExportAction>)
    requires forall i :: 0 <= i < |actions| ==> ChannelOf(actions[i].typ) != Unknown
    ensures ActionsAfter(ActionsAfter(t, actions, false), actions, false) == ActionsAfter(t, actions, false)
  {
    hide FindDestination, ActionsAfter, ChannelOf, NamedLast;
    var u := ActionsAfter(t, actions, false);
    var w := ActionsAfter(u, actions, false);
    DestinationsMerge(t, actions);
    DestinationsMerge(u, actions);
    FoundInsertsNone(u, actions);
    forall i | 0 <= i < |u.rows|
      ensures w.rows[i] == u.rows[i]
    {
      NamedSame(actions, u, w, i);
      assert NameTaken(t, actions, u, i) && NameTaken(u, actions, w, i);
    }
    assert w.rows == u.rows;
  }
}
