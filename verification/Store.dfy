/** The database object: the loops of its transactions, each proved to leave the tables that the
    functions of Database describe. */
module Store {
  import opened Text
  import opened Keyed
  import opened RuleTables
  import opened Settings
  import opened Database
  import opened Exports

  // ---- Counters ----

  lemma CounterMore(t: Counters, counters: seq<ExportCounter>, i: nat, replace: bool)
    requires i < |counters| && CountersAfter(t, CounterItems(counters[..i]), replace).Ok?
    ensures var u, c := CountersAfter(t, CounterItems(counters[..i]), replace).value, counters[i];
            var cid := Trim(c.cid);
            CountersAfter(t, CounterItems(counters[..i + 1]), replace)
            == if !replace then Ok(Put(u, cid, StoredCounter(c), MergeCounter))
               else if Find(u.rows, cid) >= 0 then Err(cid)
               else Ok(Insert(u, cid, StoredCounter(c)))
  {
    hide Find, Trim, Put;
    assert counters[..i + 1][..i] == counters[..i];
    assert CounterItems(counters[..i + 1])[..i] == CounterItems(counters[..i]);
  }

  lemma {:induction false} RefusedCounters(t: Counters, counters: seq<ExportCounter>, i: nat)
    requires i <= |counters| && CountersAfter(t, CounterItems(counters[..i]), true).Err?
    ensures CountersAfter(t, CounterItems(counters), true) == CountersAfter(t, CounterItems(counters[..i]), true)
    decreases |counters|
  {
    hide Find, Trim;
    if i < |counters| {
      var init := counters[..|counters| - 1];
      assert init[..i] == counters[..i];
      RefusedCounters(t, init, i);
      assert CounterItems(counters)[..|init|] == CounterItems(init);
    } else {
      assert counters[..i] == counters;
    }
  }

  /** The ids noted while counters are written stay those of the table. */
  lemma StillCached(ids: map<string, int>, t: Counters, cid: string, v: CounterVals)
    requires Cached(ids, t)
    ensures var at, u := Find(t.rows, cid), Put(t, cid, v, MergeCounter);
            Cached(ids[cid := if at >= 0 then t.rows[at].id else t.next], u)
  {
    hide Find;
    var at, u := Find(t.rows, cid), Put(t, cid, v, MergeCounter);
    var more := ids[cid := if at >= 0 then t.rows[at].id else t.next];
    forall x | x in more
      ensures CounterRow(u, x) == Some(more[x])
    {
      PutFinds(t, cid, v, MergeCounter, x);
      assert x in ids || x == cid;
    }
  }

  predicate Noted(ids: map<string, int>, counters: seq<ExportCounter>) {
    forall i :: 0 <= i < |counters| ==> Trim(counters[i].cid) in ids
  }

  /** Writes the counters: an update of the row with the external id under merging, else an insert,
      which that id's uniqueness may refuse. Notes each counter's row id. */
  method ApplyCounters(table: Counters, counters: seq<ExportCounter>, replace: bool)
    returns (r: Result<Counters, string>, ids: map<string, int>, created: nat, updated: nat)
    ensures r == CountersAfter(table, CounterItems(counters), replace)
    ensures r.Ok? ==> Cached(ids, r.value) && Noted(ids, counters)
    ensures r.Ok? ==> created + updated == |counters| && |r.value.rows| == |table.rows| + created
    ensures replace ==> updated == 0
  {
    hide Find, Trim, CounterItems, CounterRow, CountersAfter;
    var t := table;
    ids, created, updated := map[], 0, 0;
    NoCounters(table, counters, replace);
    var i := 0;
    while i < |counters|
      invariant 0 <= i <= |counters|
      invariant CountersAfter(table, CounterItems(counters[..i]), replace) == Ok(t)
      invariant Cached(ids, t) && Noted(ids, counters[..i])
      invariant created + updated == i && |t.rows| == |table.rows| + created
      invariant replace ==> updated == 0
    {
      var c := counters[i];
      var cid := Trim(c.cid);
      var at := Find(t.rows, cid);
      CounterMore(table, counters, i, replace);
      StillCached(ids, t, cid, StoredCounter(c));
      if !replace && at >= 0 {
        ids := ids[cid := t.rows[at].id];
        t := t.(rows := t.rows[at := t.rows[at].(val := MergeCounter(t.rows[at].val, StoredCounter(c)))]);
        updated := updated + 1;
      } else if at >= 0 {
        RefusedCounters(table, counters, i + 1);
        return Err(cid), ids, created, updated;
      } else {
        ids := ids[cid := t.next];
        t := Insert(t, cid, StoredCounter(c));
        created := created + 1;
      }
      i := i + 1;
    }
    assert counters[..|counters|] == counters;
    r := Ok(t);
  }

  lemma NoCounters(t: Counters, counters: seq<ExportCounter>, replace: bool)
    ensures CountersAfter(t, CounterItems(counters[..0]), replace) == Ok(t)
  {
    assert CounterItems(counters[..0]) == [];
  }

  // ---- Alert destinations ----

  method ApplyActions(table: Actions, actions: seq<ExportAction>, replace: bool)
    returns (t: Actions, created: nat, updated: nat)
    ensures t == ActionsAfter(table, actions, replace)
    ensures created + updated == |actions| && |t.rows| == |table.rows| + created
    ensures replace ==> updated == 0
  {
    hide FindDestination;
    t, created, updated := table, 0, 0;
    var i := 0;
    while i < |actions|
      invariant 0 <= i <= |actions|
      invariant t == ActionsAfter(table, actions[..i], replace)
      invariant created + updated == i && |t.rows| == |table.rows| + created
      invariant replace ==> updated == 0
    {
      var a := actions[i];
      assert actions[..i + 1][..i] == actions[..i];
      var at := if replace then -1 else FindDestination(t.rows, AddressOf(a));
      if at >= 0 {
        if a.name != "" {
          t := t.(rows := t.rows[at := t.rows[at].(val := a.name)]);
        }
        updated := updated + 1;
      } else {
        t := Insert(t, AddressOf(a), a.name);
        created := created + 1;
      }
      i := i + 1;
    }
    assert actions[..|actions|] == actions;
  }

  // ---- The database ----

  datatype ImportResult = ImportResult(
    countersCreated: nat, countersUpdated: nat, triggersCreated: nat, triggersUpdated: nat,
    reportsCreated: nat, reportsUpdated: nat, actionsCreated: nat, actionsUpdated: nat,
    scheduleUpdated: bool, schedule: string)

  /** Every listed item is counted once, as created or as updated; the created ones are the rows each
      table gained; replacing updates nothing. */
  ghost predicate Conserved(base: State, next: State, p: Payload, replace: bool, n: ImportResult) {
    && n.countersCreated + n.countersUpdated == |p.counters|
    && n.triggersCreated + n.triggersUpdated == |TriggerRules(p)|
    && n.reportsCreated + n.reportsUpdated == |ReportRules(p)|
    && n.actionsCreated + n.actionsUpdated == |p.actions|
    && |next.counters.rows| == |base.counters.rows| + n.countersCreated
    && |next.triggers.rows| == |base.triggers.rows| + n.triggersCreated
    && |next.reports.rows| == |base.reports.rows| + n.reportsCreated
    && |next.actions.rows| == |base.actions.rows| + n.actionsCreated
    && (replace ==> n.countersUpdated == n.triggersUpdated == n.reportsUpdated == n.actionsUpdated == 0)
    && n.scheduleUpdated == (p.schedule != "") && n.schedule == p.schedule
  }

  class Db {
    var state: State

    constructor (s: State)
      ensures state == s
    {
      state := s;
    }

    /** Imports a payload. On any refusal the database is as before. */
    method Import(p: Payload, replace: bool, checks: Checks) returns (r: Result<ImportResult, Refusal>)
      modifies this
      ensures match Imported(old(state), p, replace, checks)
              case Err(e) => r == Err(e) && state == old(state)
              case Ok(next) =>
                && r.Ok? && state == next
                && Conserved(Base(old(state), p, replace), next, p, replace, r.value)
    {
      hide Normalise, CountersAfter, Resolve, RulesAfter, ActionsAfter, TriggerRules, ReportRules, CounterItems, Noted,
        Cached, Cleared;
      var valid := Validate(p, checks);
      if valid.Err? {
        return Err(valid.error);
      }
      CountsKept(p, checks);
      var q := valid.value;
      var tx := if replace then Cleared(state, q.actions != []) else state;

      var counters, ids, countersCreated, countersUpdated := ApplyCounters(tx.counters, q.counters, replace);
      if counters.Err? {
        return Err(CounterExists(counters.error));
      }
      tx := tx.(counters := counters.value);

      var triggers, triggersCreated, triggersUpdated;
      triggers, ids, triggersCreated, triggersUpdated :=
        ApplyRules(tx.counters, ids, tx.triggers, TriggerRules(q), StoredTrigger, replace);
      if triggers.Err? {
        return Err(CounterUnknown(triggers.error));
      }
      tx := tx.(triggers := triggers.value);

      var reports, reportsCreated, reportsUpdated;
      reports, ids, reportsCreated, reportsUpdated :=
        ApplyRules(tx.counters, ids, tx.reports, ReportRules(q), StoredReport, replace);
      if reports.Err? {
        return Err(CounterUnknown(reports.error));
      }
      tx := tx.(reports := reports.value);

      var actions, actionsCreated, actionsUpdated := ApplyActions(tx.actions, q.actions, replace);
      tx := tx.(actions := actions);

      if q.schedule != "" {
        tx := tx.(settings := tx.settings[SCHEDULE := q.schedule]);
      }
      state := tx;
      return Ok(ImportResult(countersCreated, countersUpdated, triggersCreated, triggersUpdated,
                             reportsCreated, reportsUpdated, actionsCreated, actionsUpdated,
                             q.schedule != "", q.schedule));
    }

    /** Exports the counter with a row id, or, for id 0, everything. */
    method Export(id: int, tokens: bool) returns (r: Option<Payload>)
      ensures r == Exported(state, id, tokens)
      ensures Shows(state, id, tokens, r)
    {
      hide Collected, FindId, Shows;
      ExportShows(state, id, tokens);
      var schedule, actions := "", [];
      if id == 0 {
        schedule := ScheduleOf(state);
        actions := ExportActions();
      }
      var chosen := Chosen(state, id);
      if chosen == None {
        return None;
      }
      var rows, counters := chosen.value, [];
      var i := 0;
      while i < |rows|
        invariant 0 <= i <= |rows| && |counters| == i
        invariant forall k :: 0 <= k < i ==> counters[k] == ListedCounter(state, rows[k], tokens)
      {
        var row := rows[i];
        var triggers := Collect(state.triggers.rows, row.id, ListedTrigger);
        var reports := Collect(state.reports.rows, row.id, ListedReport);
        var token := if tokens then row.val.token else "";
        counters := counters + [ExportCounter(row.val.name, row.key, token, row.val.poll, triggers, reports)];
        i := i + 1;
      }
      assert counters == ListedCounters(state, rows, tokens);
      r := Some(Payload(schedule, counters, [], [], actions));
    }

    method ExportActions() returns (out: seq<ExportAction>)
      ensures out == ListedActions(state.actions.rows)
    {
      out := [];
      for i := 0 to |state.actions.rows|
        invariant |out| == i && forall k :: 0 <= k < i ==> out[k] == ListedAction(state.actions.rows[k])
      {
        out := out + [ListedAction(state.actions.rows[i])];
      }
    }

    /** Deletes a counter statement by statement; the cooldowns go while the triggers that own them are
        still there to be looked up. */
    method DeleteCounter(id: int)
      modifies this
      ensures state == Deleted(old(state), id)
    {
      hide Kept, HasTrigger;
      var tx := state;
      tx := tx.(reports := tx.reports.(rows := Kept(tx.reports.rows, NotOf(id))));
      tx := tx.(cooldowns := map t | t in tx.cooldowns && !HasTrigger(tx.triggers, t, id) :: tx.cooldowns[t]);
      tx := tx.(triggers := tx.triggers.(rows := Kept(tx.triggers.rows, NotOf(id))));
      tx := tx.(snapshots := Kept(tx.snapshots, SnapshotNotOf(id)));
      tx := tx.(alerts := Kept(tx.alerts, AlertNotOf(id)));
      tx := tx.(counters := tx.counters.(rows := Kept(tx.counters.rows, CounterNot(id))));
      state := tx;
    }
  }

  // ---- Validation does not change how much is listed ----

  lemma {:induction false} FlattenCount<B>(a: seq<Owned<B>>, b: seq<Owned<B>>)
    requires |a| == |b| && forall i :: 0 <= i < |a| ==> |a[i].rules| == |b[i].rules|
    ensures |Flatten(a)| == |Flatten(b)|
  {
    hide Under;
    if a != [] {
      var n := |a| - 1;
      FlattenCount(a[..n], b[..n]);
      UnderCount(a[n].cid, a[n].rules);
      UnderCount(b[n].cid, b[n].rules);
    }
  }

  lemma {:induction false} UnderCount<B>(cid: string, rules: seq<ExportRule<B>>)
    ensures |Under(cid, rules)| == |rules|
  {
    if rules != [] {
      UnderCount(cid, rules[..|rules| - 1]);
    }
  }

  lemma OwnCounts(c: ExportCounter, checks: Checks)
    requires NormaliseOwn(c, checks).Ok?
    ensures |NormaliseOwn(c, checks).value.triggers| == |c.triggers|
            && |NormaliseOwn(c, checks).value.reports| == |c.reports|
  {
    EachItem(c.triggers, TriggerCheck(checks));
    EachItem(c.reports, ReportCheck(checks));
    hide Each;
  }

  lemma CounterCounts(counters: seq<ExportCounter>, checks: Checks)
    requires Each(counters, HeadCheck()).Ok? && Each(Each(counters, HeadCheck()).value, OwnCheck(checks)).Ok?
    ensures var out := Each(Each(counters, HeadCheck()).value, OwnCheck(checks)).value;
            |out| == |counters| && forall i :: 0 <= i < |out| ==>
              |out[i].triggers| == |counters[i].triggers| && |out[i].reports| == |counters[i].reports|
  {
    EachItem(counters, HeadCheck());
    var heads := Each(counters, HeadCheck()).value;
    EachItem(heads, OwnCheck(checks));
    hide Each, NormaliseOwn, Trim, ParseInt64;
    forall i | 0 <= i < |heads|
      ensures var c := NormaliseOwn(heads[i], checks);
              c.Ok? ==> |c.value.triggers| == |counters[i].triggers| && |c.value.reports| == |counters[i].reports|
    {
      assert HeadCheck()(counters[i]) == Ok(heads[i]);
      if NormaliseOwn(heads[i], checks).Ok? {
        OwnCounts(heads[i], checks);
      }
    }
  }

  lemma CountsKept(p: Payload, checks: Checks)
    ensures Normalise(p, checks).Ok? ==>
            var q := Normalise(p, checks).value;
            && |q.counters| == |p.counters| && |q.actions| == |p.actions| && q.schedule == p.schedule
            && |TriggerRules(q)| == |TriggerRules(p)| && |ReportRules(q)| == |ReportRules(p)|
  {
    hide Each, HeadCheck, OwnCheck, FlatTriggerCheck, FlatReportCheck, ActionCheck, All, Trim, Flatten;
    if Normalise(p, checks).Err? {
      return;
    }
    var q := Normalise(p, checks).value;
    CounterCounts(p.counters, checks);
    RestNormal(p, checks);
    FlattenCount(TriggerGroups(q.counters), TriggerGroups(p.counters));
    FlattenCount(ReportGroups(q.counters), ReportGroups(p.counters));
  }
}
