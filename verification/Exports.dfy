/** What an export shows of a database, in terms of its rows (internal/model/export.go). */
module Exports {
  import opened Text
  import opened Keyed
  import opened RuleTables
  import opened Settings
  import opened Goals
  import opened Database

  predicate TriggerShown(x: ExportTrigger, row: Row<RuleKey, TriggerVals>) {
    var b, v := x.body, row.val;
    && x.name == row.key.1 && b.metric == v.metric && b.direction == v.direction && b.deviation == v.deviation
    && b.minBaseline == v.minBaseline && b.weeks == v.weeks && b.urlFilter == v.urlFilter && b.urlMatch == v.urlMatch
    && b.cooldown == v.cooldown && b.enabled == Some(v.enabled)
  }

  predicate ReportShown(x: ExportReport, row: Row<RuleKey, ReportVals>) {
    var b, v := x.body, row.val;
    && x.name == row.key.1 && b.urlFilter == v.urlFilter && b.urlMatch == v.urlMatch && b.goals == ParseGoals(v.goals)
    && b.groupBy == v.groupBy && b.period == v.period && b.enabled == Some(v.enabled)
  }

  predicate ActionShown(x: ExportAction, row: Row<Address, string>) {
    && x.name == row.val && x.typ == row.key.typ && x.chat == row.key.chat && x.target == row.key.target
    && x.url == row.key.url && x.destination == ""
  }

  /** Places of rows that an id owns, in row order. */
  ghost predicate Ascending<V>(rows: seq<Row<RuleKey, V>>, id: int, at: seq<int>) {
    && (forall k :: 0 <= k < |at| ==> 0 <= at[k] < |rows| && rows[at[k]].key.0 == id)
    && (forall j, k :: 0 <= j < k < |at| ==> at[j] < at[k])
  }

  /** And all of them. */
  ghost predicate PlacesOf<V>(rows: seq<Row<RuleKey, V>>, id: int, at: seq<int>) {
    && Ascending(rows, id, at)
    && (forall i :: 0 <= i < |rows| && rows[i].key.0 == id ==> i in at)
  }

  /** The list shows exactly the rules that an id owns, in row order. */
  ghost predicate RulesShown<B, V>(rules: seq<ExportRule<B>>, rows: seq<Row<RuleKey, V>>, id: int,
                                   shows: (ExportRule<B>, Row<RuleKey, V>) -> bool) {
    exists at :: PlacesOf(rows, id, at) && ShownAt(rules, rows, at, shows)
  }

  ghost predicate ShownAt<B, V>(rules: seq<ExportRule<B>>, rows: seq<Row<RuleKey, V>>, at: seq<int>,
                                shows: (ExportRule<B>, Row<RuleKey, V>) -> bool) {
    && |rules| == |at|
    && forall k :: 0 <= k < |at| ==> 0 <= at[k] < |rows| && shows(rules[k], rows[at[k]])
  }

  ghost predicate CounterShown(s: State, c: ExportCounter, row: Row<string, CounterVals>, tokens: bool) {
    && c.cid == row.key && c.name == row.val.name && c.poll == row.val.poll
    && c.token == (if tokens then row.val.token else "")
    && RulesShown(c.triggers, s.triggers.rows, row.id, (x, r) => TriggerShown(x, r))
    && RulesShown(c.reports, s.reports.rows, row.id, (x, r) => ReportShown(x, r))
  }

  /** An export of one counter shows the counter with that row id, and there is none when no row has it; any
      other export shows every counter in row order. The schedule and the destinations go with id 0 only. */
  ghost predicate Shows(s: State, id: int, tokens: bool, r: Option<Payload>) {
    && (r == None <==> id > 0 && forall i :: 0 <= i < |s.counters.rows| ==> s.counters.rows[i].id != id)
    && (r.Some? ==>
          var p := r.value;
          && p.triggers == [] && p.reports == []
          && (if id > 0 then
                |p.counters| == 1 && exists i :: 0 <= i < |s.counters.rows| && s.counters.rows[i].id == id
                                                 && CounterShown(s, p.counters[0], s.counters.rows[i], tokens)
              else
                && |p.counters| == |s.counters.rows|
                && forall i :: 0 <= i < |p.counters| ==> CounterShown(s, p.counters[i], s.counters.rows[i], tokens))
          && (id != 0 ==> p.schedule == "" && p.actions == [])
          && (id == 0 ==>
                && p.schedule == (if SCHEDULE in s.settings then s.settings[SCHEDULE] else "")
                && |p.actions| == |s.actions.rows|
                && forall i :: 0 <= i < |p.actions| ==> ActionShown(p.actions[i], s.actions.rows[i])))
  }

  // ---- Exported shows it ----

  function Places<V>(rows: seq<Row<RuleKey, V>>, id: int): seq<int> {
    if rows == [] then []
    else Places(rows[..|rows| - 1], id) + if rows[|rows| - 1].key.0 == id then [|rows| - 1] else []
  }

  lemma {:induction false} PlacesAscend<V>(rows: seq<Row<RuleKey, V>>, id: int)
    ensures Ascending(rows, id, Places(rows, id))
  {
    if rows != [] {
      PlacesAscend(rows[..|rows| - 1], id);
      AscendingMore(rows, id, Places(rows[..|rows| - 1], id));
      hide Ascending;
    }
  }

  lemma AscendingMore<V>(rows: seq<Row<RuleKey, V>>, id: int, before: seq<int>)
    requires rows != [] && Ascending(rows[..|rows| - 1], id, before)
    ensures Ascending(rows, id, before + if rows[|rows| - 1].key.0 == id then [|rows| - 1] else [])
  {
    var init, at := rows[..|rows| - 1], before + if rows[|rows| - 1].key.0 == id then [|rows| - 1] else [];
    forall k | 0 <= k < |at|
      ensures 0 <= at[k] < |rows| && rows[at[k]].key.0 == id && (k < |before| ==> at[k] < |rows| - 1)
    {
      if k < |before| {
        assert at[k] == before[k] && 0 <= before[k] < |init| && init[before[k]].key.0 == id;
      }
    }
  }

  lemma {:induction false} PlacesFound<V>(rows: seq<Row<RuleKey, V>>, id: int, i: nat)
    requires i < |rows| && rows[i].key.0 == id
    ensures i in Places(rows, id)
  {
    if i < |rows| - 1 {
      PlacesFound(rows[..|rows| - 1], id, i);
    }
  }

  /** Gathering a counter's rules takes exactly its rows, in order. */
  lemma {:induction false} CollectedAt<B, V>(rows: seq<Row<RuleKey, V>>, id: int, listed: V -> B)
    ensures var at, rules := Places(rows, id), Collected(rows, id, listed);
            && |rules| == |at|
            && forall k :: 0 <= k < |at| ==>
                 0 <= at[k] < |rows| && rules[k] == ExportRule(rows[at[k]].key.1, listed(rows[at[k]].val))
  {
    if rows != [] {
      CollectedAt(rows[..|rows| - 1], id, listed);
    }
  }

  lemma PlacesAre<V>(rows: seq<Row<RuleKey, V>>, id: int)
    ensures PlacesOf(rows, id, Places(rows, id))
  {
    PlacesAscend(rows, id);
    forall i | 0 <= i < |rows| && rows[i].key.0 == id
      ensures i in Places(rows, id)
    {
      PlacesFound(rows, id, i);
    }
    hide Places;
  }

  lemma TriggersShown(rows: seq<Row<RuleKey, TriggerVals>>, id: int)
    ensures RulesShown(Collected(rows, id, ListedTrigger), rows, id, (x, r) => TriggerShown(x, r))
  {
    hide Collected, PlacesOf, Places;
    var at := Places(rows, id);
    PlacesAre(rows, id);
    CollectedAt(rows, id, ListedTrigger);
    assert ShownAt(Collected(rows, id, ListedTrigger), rows, at, (x, r) => TriggerShown(x, r));
  }

  lemma ReportsShown(rows: seq<Row<RuleKey, ReportVals>>, id: int)
    ensures RulesShown(Collected(rows, id, ListedReport), rows, id, (x, r) => ReportShown(x, r))
  {
    hide Collected, PlacesOf, Places, ParseGoals;
    var at := Places(rows, id);
    PlacesAre(rows, id);
    CollectedAt(rows, id, ListedReport);
    assert ShownAt(Collected(rows, id, ListedReport), rows, at, (x, r) => ReportShown(x, r));
  }

  lemma ListedShown(s: State, row: Row<string, CounterVals>, tokens: bool)
    ensures CounterShown(s, ListedCounter(s, row, tokens), row, tokens)
  {
    TriggersShown(s.triggers.rows, row.id);
    ReportsShown(s.reports.rows, row.id);
    hide Collected, RulesShown;
  }

  /** The export shows the database. */
  lemma ExportShows(s: State, id: int, tokens: bool)
    ensures Shows(s, id, tokens, Exported(s, id, tokens))
  {
    hide CounterShown, ListedCounter, FindId;
    forall i | 0 <= i < |s.counters.rows|
      ensures CounterShown(s, ListedCounter(s, s.counters.rows[i], tokens), s.counters.rows[i], tokens)
    {
      ListedShown(s, s.counters.rows[i], tokens);
    }
    if id > 0 {
      var i := FindId(s.counters.rows, id);
      if i >= 0 {
        assert Exported(s, id, tokens).value.counters[0] == ListedCounter(s, s.counters.rows[i], tokens);
      }
    }
  }
}
