/** Where an import leaves the alert destinations, the schedule and the leftovers, told by the payload's
    fields (internal/model/export.go). */
module Destinations {
  import opened Text
  import opened Keyed
  import opened RuleTables
  import opened Settings
  import opened Validated
  import opened Database
  import Merge
  import Replace
  import Stored
  import Upkeep

  /** The address means the place a listed destination names: a Telegram chat by its number or its target. */
  predicate SamePlace(d: ExportAction, key: Address) {
    && key.typ == d.typ
    && (d.typ == "telegram" ==> (d.chat.Some? && key.chat == d.chat) || key.target == d.target)
    && (d.typ == "vkteams" ==> key.target == d.target)
    && (d.typ == "webhook" ==> key.url == d.url)
    && d.typ in ["telegram", "vkteams", "webhook"]
  }

  ghost predicate HasPlace(d: ExportAction, rows: seq<Row<Address, string>>) {
    exists i :: 0 <= i < |rows| && SamePlace(d, rows[i].key)
  }

  lemma SamePlaceIff(d: ExportAction, key: Address)
    ensures SameDestination(AddressOf(d), key) <==> SamePlace(d, key)
  {
  }

  /** The row holds the destination: its address field by field and its name. */
  predicate Holds(row: Row<Address, string>, d: ExportAction) {
    row.key.typ == d.typ && row.key.chat == d.chat && row.key.target == d.target && row.key.url == d.url
    && row.val == d.name
  }

  ghost predicate HoldsListed(row: Row<Address, string>, a: ExportAction) {
    ActionFits(a) && exists d :: Filled(a, d) && Holds(row, d)
  }

  /** The rows are the listed destinations, in their order, with ids from `next` on. */
  ghost predicate RowsOf(listed: seq<ExportAction>, next: int, rows: seq<Row<Address, string>>) {
    && |rows| == |listed|
    && forall n :: 0 <= n < |rows| ==> rows[n].id == next + n && HoldsListed(rows[n], listed[n])
  }

  /** The destinations as validated: each listed one with what was missing filled in. */
  ghost predicate AllFilled(listed: seq<ExportAction>, filled: seq<ExportAction>) {
    |filled| == |listed| && forall n :: 0 <= n < |listed| ==> ActionFits(listed[n]) && Filled(listed[n], filled[n])
  }

  lemma ActionsFilled(p: Payload, checks: Checks)
    requires Normalise(p, checks).Ok?
    ensures AllFilled(p.actions, Normalise(p, checks).value.actions)
    ensures |Normalise(p, checks).value.actions| == |p.actions|
    ensures forall n :: 0 <= n < |p.actions| ==> ChannelOf(Normalise(p, checks).value.actions[n].typ) != Unknown
  {
    hide Each, Normalise, NormaliseAction, Filled, ActionFits, ChannelOf, ActionNormal;
    Stored.NormalisedParts(p, checks);
    EachItem(p.actions, ActionCheck());
    var q := Normalise(p, checks).value;
    forall n | 0 <= n < |p.actions|
      ensures ActionFits(p.actions[n]) && Filled(p.actions[n], q.actions[n]) && ChannelOf(q.actions[n].typ) != Unknown
    {
      assert ActionCheck()(p.actions[n]) == Ok(q.actions[n]);
      ActionAcceptedIff(p.actions[n]);
      ActionNormalIff(p.actions[n]);
      KnownChannel(q.actions[n]);
    }
  }

  lemma KnownChannel(a: ExportAction)
    ensures ActionNormal(a) ==> ChannelOf(a.typ) != Unknown
  {
  }

  // ---- Replacing ----

  lemma {:induction false} InsertedInOrder(t: Actions, actions: seq<ExportAction>)
    ensures var u := ActionsAfter(t, actions, true);
            && |u.rows| == |t.rows| + |actions| && u.next == t.next + |actions|
            && (forall i :: 0 <= i < |t.rows| ==> u.rows[i] == t.rows[i])
            && forall i :: |t.rows| <= i < |u.rows| ==>
                 u.rows[i].id == t.next + (i - |t.rows|) && Holds(u.rows[i], actions[i - |t.rows|])
  {
    if actions != [] {
      var n := |actions| - 1;
      InsertedInOrder(t, actions[..n]);
      var u, w := ActionsAfter(t, actions[..n], true), ActionsAfter(t, actions, true);
      assert w == Insert(u, AddressOf(actions[n]), actions[n].name);
      forall i | |t.rows| <= i < |w.rows|
        ensures w.rows[i].id == t.next + (i - |t.rows|) && Holds(w.rows[i], actions[i - |t.rows|])
      {
        if i < |u.rows| {
          assert w.rows[i] == u.rows[i] && actions[..n][i - |t.rows|] == actions[i - |t.rows|];
        }
      }
    }
  }

  /** A replacing import leaves exactly the destinations it lists, in their order, under fresh ids; and when
      it lists none it leaves those that were there. */
  lemma ActionsReplaced(s: State, p: Payload, checks: Checks)
    requires Imported(s, p, true, checks).Ok?
    ensures var rows := Imported(s, p, true, checks).value.actions.rows;
            && (p.actions == [] ==> rows == s.actions.rows)
            && (p.actions != [] ==> RowsOf(p.actions, s.actions.next, rows))
  {
    var q := Normalise(p, checks).value;
    Stored.ImportedIs(s, p, true, checks);
    hide *;
    ActionsFilled(p, checks);
    Upkeep.AppliedParts(s, q, true);
    ReplacingActions(s, q);
    InsertedInOrder(Base(s, q, true).actions, q.actions);
    NoneListed(Base(s, q, true).actions, q.actions, true);
    if p.actions != [] {
      RowsFilled(p.actions, q.actions, s.actions.next, Imported(s, p, true, checks).value.actions.rows);
    }
  }

  lemma ReplacingActions(s: State, p: Payload)
    ensures var b := Base(s, p, true);
            b.actions.next == s.actions.next && b.actions.rows == if p.actions == [] then s.actions.rows else []
  {
  }

  lemma RowsFilled(listed: seq<ExportAction>, filled: seq<ExportAction>, next: int, rows: seq<Row<Address, string>>)
    requires AllFilled(listed, filled) && |rows| == |listed|
    requires forall i :: 0 <= i < |rows| ==> rows[i].id == next + i && Holds(rows[i], filled[i])
    ensures RowsOf(listed, next, rows)
  {
    hide ActionFits, Filled, Holds;
    forall n | 0 <= n < |rows|
      ensures HoldsListed(rows[n], listed[n])
    {
      assert Filled(listed[n], filled[n]) && Holds(rows[n], filled[n]);
    }
  }

  lemma NoneListed(t: Actions, actions: seq<ExportAction>, replace: bool)
    ensures actions == [] ==> ActionsAfter(t, actions, replace) == t
  {
  }

  // ---- Merging ----

  /** Each new row is some listed destination, at the first place that is the same. */
  ghost predicate OnlyListed(t: Actions, actions: seq<ExportAction>, u: Actions) {
    forall i :: |t.rows| <= i < |u.rows| ==> Added(actions, u.rows, i)
  }

  ghost predicate Added(actions: seq<ExportAction>, rows: seq<Row<Address, string>>, i: nat)
    requires i < |rows|
  {
    exists n :: 0 <= n < |actions| && FirstPlace(actions[n], rows, i)
  }

  ghost predicate FirstPlace(d: ExportAction, rows: seq<Row<Address, string>>, i: nat)
    requires i < |rows|
  {
    rows[i].key == AddressOf(d) && forall j :: 0 <= j < i ==> !SamePlace(d, rows[j].key)
  }

  lemma {:induction false} NewRowsListed(t: Actions, actions: seq<ExportAction>)
    ensures var u := ActionsAfter(t, actions, false); |t.rows| <= |u.rows| && OnlyListed(t, actions, u)
  {
    hide SamePlace, FindDestination, FirstPlace, PutAction;
    if actions != [] {
      var n := |actions| - 1;
      var u := ActionsAfter(t, actions[..n], false);
      NewRowsListed(t, actions[..n]);
      var w := PutAction(u, actions[n], false);
      assert w == ActionsAfter(t, actions, false);
      PutListed(u, actions[n]);
      hide ActionsAfter;
      forall i | |t.rows| <= i < |w.rows|
        ensures Added(actions, w.rows, i)
      {
        if i < |u.rows| {
          AddedStays(actions[..n], actions[n], u.rows, w.rows, i);
          assert actions[..n] + [actions[n]] == actions;
        } else {
          assert FirstPlace(actions[n], w.rows, i);
        }
      }
    }
  }

  lemma AddedStays(actions: seq<ExportAction>, a: ExportAction, rows: seq<Row<Address, string>>,
                   more: seq<Row<Address, string>>, i: nat)
    requires i < |rows| <= |more| && Added(actions, rows, i)
    requires forall j :: 0 <= j < |rows| ==> more[j].key == rows[j].key
    ensures Added(actions + [a], more, i)
  {
    hide SamePlace;
    var n :| 0 <= n < |actions| && FirstPlace(actions[n], rows, i);
    assert (actions + [a])[n] == actions[n];
    assert FirstPlace((actions + [a])[n], more, i);
  }

  lemma PutListed(u: Actions, a: ExportAction)
    ensures var w := PutAction(u, a, false);
            && |u.rows| <= |w.rows| <= |u.rows| + 1
            && (forall i :: 0 <= i < |u.rows| ==> w.rows[i].key == u.rows[i].key && w.rows[i].id == u.rows[i].id)
            && (|w.rows| == |u.rows| + 1 ==> FirstPlace(a, w.rows, |u.rows|))
  {
    hide SamePlace, SameDestination;
    forall j | 0 <= j < |u.rows|
      ensures SameDestination(AddressOf(a), u.rows[j].key) <==> SamePlace(a, u.rows[j].key)
    {
      SamePlaceIff(a, u.rows[j].key);
    }
  }

  /** A merging import keeps every destination in its place and adds one for a listed destination only where
      none, old or added before it, is the same place; so afterwards each listed one has its place. */
  lemma ActionsMerged(s: State, p: Payload, checks: Checks)
    requires Imported(s, p, false, checks).Ok?
    ensures var rows, d := Imported(s, p, false, checks).value.actions.rows, Normalise(p, checks).value.actions;
            && AllFilled(p.actions, d)
            && |s.actions.rows| <= |rows|
            && (forall i :: 0 <= i < |s.actions.rows| ==>
                  rows[i].id == s.actions.rows[i].id && rows[i].key == s.actions.rows[i].key)
            && (forall n :: 0 <= n < |d| ==> HasPlace(d[n], rows))
            && (forall i :: |s.actions.rows| <= i < |rows| ==> Added(d, rows, i))
  {
    var q := Normalise(p, checks).value;
    Stored.ImportedIs(s, p, false, checks);
    hide *;
    ActionsFilled(p, checks);
    Upkeep.AppliedParts(s, q, false);
    MergingBase(s, q);
    DestinationsPlaced(s.actions, q.actions);
  }

  lemma MergingBase(s: State, p: Payload)
    ensures Base(s, p, false) == s
  {
  }

  lemma DestinationsPlaced(t: Actions, d: seq<ExportAction>)
    requires forall n :: 0 <= n < |d| ==> ChannelOf(d[n].typ) != Unknown
    ensures var rows := ActionsAfter(t, d, false).rows;
            && |t.rows| <= |rows|
            && (forall i :: 0 <= i < |t.rows| ==> rows[i].id == t.rows[i].id && rows[i].key == t.rows[i].key)
            && (forall n :: 0 <= n < |d| ==> HasPlace(d[n], rows))
            && (forall i :: |t.rows| <= i < |rows| ==> Added(d, rows, i))
  {
    hide SamePlace, ActionsAfter, ChannelOf, FindDestination, Merge.NameTaken, SameDestination, Added;
    NewRowsListed(t, d);
    Merge.DestinationsMerge(t, d);
    var rows := ActionsAfter(t, d, false).rows;
    forall n | 0 <= n < |d|
      ensures HasPlace(d[n], rows)
    {
      var i := FindDestination(rows, AddressOf(d[n]));
      SamePlaceIff(d[n], rows[i].key);
      assert SamePlace(d[n], rows[i].key);
    }
  }

  // ---- The schedule and the leftovers ----

  /** An import in either mode sets the schedule that is named and no other setting; a replacing one leaves no
      cooldown, alert or snapshot behind, a merging one leaves them all. */
  lemma SettingsStored(s: State, p: Payload, replace: bool, checks: Checks)
    requires Imported(s, p, replace, checks).Ok?
    ensures var u := Imported(s, p, replace, checks).value;
            && (p.schedule != "" ==> SCHEDULE in u.settings && u.settings[SCHEDULE] == p.schedule)
            && (forall k :: (p.schedule == "" || k != SCHEDULE) ==>
                  (k in u.settings <==> k in s.settings) && (k in u.settings ==> u.settings[k] == s.settings[k]))
            && u.cooldowns == (if replace then map[] else s.cooldowns)
            && u.alerts == (if replace then [] else s.alerts)
            && u.snapshots == (if replace then [] else s.snapshots)
  {
    Stored.ImportedIs(s, p, replace, checks);
    hide Normalise, CountersAfter, CounterItems, RulesApplied, ActionsAfter;
    Stored.NormalisedParts(p, checks);
  }

  /** Ids are not given out twice: a row whose id a table had given out before is the row it was given to. */
  ghost predicate Fresh<K, V>(t: Table<K, V>, u: Table<K, V>, replace: bool) {
    && t.next <= u.next
    && forall i :: 0 <= i < |u.rows| ==>
         || t.next <= u.rows[i].id < u.next
         || (!replace && i < |t.rows| && u.rows[i].id == t.rows[i].id && u.rows[i].key == t.rows[i].key)
  }

  lemma UpsertedFresh<K(!new), V(!new)>(t: Table<K, V>, items: seq<(K, V)>, m: (V, V) -> V, u: Table<K, V>)
    requires Upserted(t, items, m, u)
    ensures Fresh(t, u, false)
  {
    hide Find, Listed, Taken;
    forall i | 0 <= i < |u.rows|
      ensures || t.next <= u.rows[i].id < u.next
              || (i < |t.rows| && u.rows[i].id == t.rows[i].id && u.rows[i].key == t.rows[i].key)
    {
      assert if i < |t.rows| then OldRow(t, items, m, u, i) else NewRow(t, items, m, u, i);
    }
  }

  lemma InsertedFresh<K, V>(t: Table<K, V>, items: seq<(K, V)>)
    requires t.rows == []
    ensures Fresh(t, InsertAll(t, items), true)
  {
    hide InsertAll;
    InsertAllAppends(t, items);
    var u := InsertAll(t, items);
    forall i | 0 <= i < |u.rows|
      ensures t.next <= u.rows[i].id < u.next
    {
      assert u.rows[|t.rows| + i] == Row(t.next + i, items[i].0, items[i].1);
    }
  }

  /** An import gives every new counter, rule and report an id its table had not given out, in either mode;
      a replacing one gives them all new ones. */
  lemma IdsFresh(s: State, p: Payload, replace: bool, checks: Checks)
    requires Imported(s, p, replace, checks).Ok?
    ensures var u := Imported(s, p, replace, checks).value;
            && Fresh(s.counters, u.counters, replace)
            && Fresh(s.triggers, u.triggers, replace) && Fresh(s.reports, u.reports, replace)
  {
    var q := Normalise(p, checks).value;
    Stored.ImportedIs(s, p, replace, checks);
    hide *;
    var u := Imported(s, p, replace, checks).value;
    if replace {
      Upkeep.AppliedParts(s, q, replace);
      ReplacingBase(s, q);
      var base := Base(s, q, true);
      CountersFresh(base.counters, CounterItems(q.counters));
      RulesFresh(base.triggers, Resolve(u.counters, TriggerRules(q), StoredTrigger).value);
      RulesFresh(base.reports, Resolve(u.counters, ReportRules(q), StoredReport).value);
      FreshFrom(base.counters, s.counters, u.counters);
      FreshFrom(base.triggers, s.triggers, u.triggers);
      FreshFrom(base.reports, s.reports, u.reports);
    } else {
      Merge.MergeUpserts(s, q);
      UpsertedFresh(s.counters, CounterItems(q.counters), MergeCounter, u.counters);
      UpsertedFresh(s.triggers, Resolve(u.counters, TriggerRules(q), StoredTrigger).value, Overwrite, u.triggers);
      UpsertedFresh(s.reports, Resolve(u.counters, ReportRules(q), StoredReport).value, Overwrite, u.reports);
    }
  }

  lemma ReplacingBase(s: State, p: Payload)
    ensures var b := Base(s, p, true);
            && b.counters.rows == [] && b.triggers.rows == [] && b.reports.rows == []
            && b.counters.next == s.counters.next && b.triggers.next == s.triggers.next
            && b.reports.next == s.reports.next
  {
  }

  lemma FreshFrom<K, V>(base: Table<K, V>, t: Table<K, V>, u: Table<K, V>)
    requires base.next == t.next && Fresh(base, u, true)
    ensures Fresh(t, u, true)
  {
  }

  lemma CountersFresh(t: Counters, items: seq<(string, CounterVals)>)
    requires t.rows == [] && CountersAfter(t, items, true).Ok?
    ensures Fresh(t, CountersAfter(t, items, true).value, true)
  {
    hide Fresh, InsertUnique, InsertAll;
    Replace.InsertUniqueIff(t, items);
    InsertedFresh(t, items);
  }

  lemma RulesFresh<V>(t: RuleTable<V>, items: seq<(RuleKey, V)>)
    requires t.rows == []
    ensures Fresh(t, RulesAfter(t, items, true), true)
  {
    hide Fresh, InsertAll;
    InsertedFresh(t, items);
  }
}
