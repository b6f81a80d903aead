/** The settings database: its tables, and the transactions that import a payload, export one, and
    delete a counter. A transaction works on a copy of the tables and commits it whole. */
module Database {
  import opened Text
  import opened Keyed
  import opened RuleTables
  import opened Settings
  import opened Goals

  datatype CounterVals = CounterVals(name: string, token: string, poll: int, cursor: Option<int>)

  datatype TriggerVals = TriggerVals(metric: string, direction: string, deviation: int, minBaseline: int,
                                     weeks: int, urlFilter: string, urlMatch: string, cooldown: int, enabled: bool)

  /** Goals are stored as text. */
  datatype ReportVals = ReportVals(urlFilter: string, urlMatch: string, goals: string, groupBy: string,
                                   period: string, enabled: bool)

  /** An alert destination's row is keyed by where it sends to; its value is its name. */
  datatype Address = Address(typ: string, chat: Option<int>, target: string, url: string)

  datatype AlertRow = AlertRow(trigger: int, counter: int, title: string)

  datatype SnapshotRow = SnapshotRow(counter: int, period: string)

  type Counters = Table<string, CounterVals>
  type Actions = Table<Address, string>

  datatype State = State(
    counters: Counters, triggers: RuleTable<TriggerVals>, reports: RuleTable<ReportVals>, actions: Actions,
    settings: map<string, string>,
    cooldowns: map<int, int>, alerts: seq<AlertRow>, snapshots: seq<SnapshotRow>)

  const SCHEDULE := "report_schedule"

  // ---- Stored and exported forms ----

  function EnabledOf(enabled: Option<bool>): bool {
    if enabled.Some? then enabled.value else true
  }

  function StoredTrigger(b: TriggerBody): TriggerVals {
    TriggerVals(b.metric, b.direction, b.deviation, b.minBaseline, b.weeks, b.urlFilter, b.urlMatch, b.cooldown,
      EnabledOf(b.enabled))
  }

  function ListedTrigger(v: TriggerVals): TriggerBody {
    TriggerBody(v.metric, v.direction, v.deviation, v.minBaseline, v.weeks, v.urlFilter, v.urlMatch, v.cooldown,
      Some(v.enabled))
  }

  function StoredReport(b: ReportBody): ReportVals {
    ReportVals(b.urlFilter, b.urlMatch, FormatGoals(b.goals), b.groupBy, b.period, EnabledOf(b.enabled))
  }

  function ListedReport(v: ReportVals): ReportBody {
    ReportBody(v.urlFilter, v.urlMatch, ParseGoals(v.goals), v.groupBy, v.period, Some(v.enabled))
  }

  function StoredCounter(c: ExportCounter): CounterVals {
    CounterVals(c.name, c.token, c.poll, None)
  }

  /** A listed counter gives a stored one its name, its interval and, unless empty, its token; the
      cursor stays. */
  function MergeCounter(before: CounterVals, listed: CounterVals): CounterVals {
    CounterVals(listed.name, if listed.token == "" then before.token else listed.token, listed.poll, before.cursor)
  }

  function AddressOf(a: ExportAction): Address {
    Address(a.typ, a.chat, a.target, a.url)
  }

  function ListedAction(row: Row<Address, string>): ExportAction {
    ExportAction(row.val, row.key.typ, row.key.chat, row.key.target, row.key.url, "")
  }

  // ---- What an import does to the tables ----

  function CounterItems(counters: seq<ExportCounter>): seq<(string, CounterVals)> {
    seq(|counters|, i requires 0 <= i < |counters| => (Trim(counters[i].cid), StoredCounter(counters[i])))
  }

  /** Plain inserts, refused by the first external id the table already has. */
  function InsertUnique<V>(t: Table<string, V>, items: seq<(string, V)>): Result<Table<string, V>, string> {
    if items == [] then Ok(t)
    else
      var u :- InsertUnique(t, items[..|items| - 1]);
      var last := items[|items| - 1];
      if Find(u.rows, last.0) >= 0 then Err(last.0) else Ok(Insert(u, last.0, last.1))
  }

  function CountersAfter(t: Counters, items: seq<(string, CounterVals)>, replace: bool): Result<Counters, string> {
    if replace then InsertUnique(t, items) else Ok(PutAll(t, items, MergeCounter))
  }

  function TriggerGroups(counters: seq<ExportCounter>): seq<Owned<TriggerBody>> {
    seq(|counters|, i requires 0 <= i < |counters| => Owned(Trim(counters[i].cid), counters[i].triggers))
  }

  function ReportGroups(counters: seq<ExportCounter>): seq<Owned<ReportBody>> {
    seq(|counters|, i requires 0 <= i < |counters| => Owned(Trim(counters[i].cid), counters[i].reports))
  }

  function TrimIds<B>(rules: seq<FlatRule<B>>): seq<FlatRule<B>> {
    seq(|rules|, i requires 0 <= i < |rules| => rules[i].(cid := Trim(rules[i].cid)))
  }

  /** All the triggers a payload lists: those nested in its counters, then the flat ones. */
  function TriggerRules(p: Payload): seq<FlatRule<TriggerBody>> {
    Flatten(TriggerGroups(p.counters)) + TrimIds(p.triggers)
  }

  function ReportRules(p: Payload): seq<FlatRule<ReportBody>> {
    Flatten(ReportGroups(p.counters)) + TrimIds(p.reports)
  }

  /** Whether a stored destination is the listed one: a Telegram chat by its number or its target. */
  predicate SameDestination(listed: Address, stored: Address) {
    && listed.typ == stored.typ
    && match ChannelOf(listed.typ)
       case Telegram => (listed.chat.Some? && listed.chat == stored.chat) || listed.target == stored.target
       case VkTeams => listed.target == stored.target
       case Webhook => listed.url == stored.url
       case Unknown => false
  }

  function FindDestination(rows: seq<Row<Address, string>>, a: Address): (i: int)
    ensures -1 <= i < |rows|
    ensures i >= 0 ==> SameDestination(a, rows[i].key)
    ensures forall j :: 0 <= j < (if i < 0 then |rows| else i) ==> !SameDestination(a, rows[j].key)
  {
    if rows == [] then -1
    else if SameDestination(a, rows[0].key) then 0
    else
      var i := FindDestination(rows[1..], a);
      if i < 0 then -1 else i + 1
  }

  function PutAction(t: Actions, a: ExportAction, replace: bool): Actions {
    var i := if replace then -1 else FindDestination(t.rows, AddressOf(a));
    if i < 0 then Insert(t, AddressOf(a), a.name)
    else if a.name == "" then t
    else t.(rows := t.rows[i := t.rows[i].(val := a.name)])
  }

  function ActionsAfter(t: Actions, actions: seq<ExportAction>, replace: bool): Actions {
    if actions == [] then t
    else PutAction(ActionsAfter(t, actions[..|actions| - 1], replace), actions[|actions| - 1], replace)
  }

  /** Replacing empties every table of counters and rules, and the destinations only when there are new
      ones; ids given out are not reused. */
  function Cleared(s: State, actionsToo: bool): State {
    s.(counters := s.counters.(rows := []), triggers := s.triggers.(rows := []), reports := s.reports.(rows := []),
       actions := if actionsToo then s.actions.(rows := []) else s.actions,
       cooldowns := map[], alerts := [], snapshots := [])
  }

  function Base(s: State, p: Payload, replace: bool): State {
    if replace then Cleared(s, p.actions != []) else s
  }

  function Refused<T>(r: Result<T, string>, exists_: bool): Result<T, Refusal> {
    match r
    case Ok(v) => Ok(v)
    case Err(cid) => Err(if exists_ then CounterExists(cid) else CounterUnknown(cid))
  }

  /** The state after importing a normal payload. */
  function Applied(s: State, p: Payload, replace: bool): Result<State, Refusal> {
    var base := Base(s, p, replace);
    var counters :- Refused(CountersAfter(base.counters, CounterItems(p.counters), replace), true);
    var triggers :- Refused(RulesApplied(counters, base.triggers, TriggerRules(p), StoredTrigger, replace), false);
    var reports :- Refused(RulesApplied(counters, base.reports, ReportRules(p), StoredReport, replace), false);
    Ok(base.(counters := counters,
             triggers := triggers, reports := reports,
             actions := ActionsAfter(base.actions, p.actions, replace),
             settings := if p.schedule != "" then base.settings[SCHEDULE := p.schedule] else base.settings))
  }

  function Imported(s: State, p: Payload, replace: bool, checks: Checks): Result<State, Refusal> {
    var normal :- Normalise(p, checks);
    Applied(s, normal, replace)
  }

  // ---- What an export shows ----

  function ListedCounter(s: State, row: Row<string, CounterVals>, tokens: bool): ExportCounter {
    ExportCounter(row.val.name, row.key, if tokens then row.val.token else "", row.val.poll,
                  Collected(s.triggers.rows, row.id, ListedTrigger), Collected(s.reports.rows, row.id, ListedReport))
  }

  function ListedCounters(s: State, rows: seq<Row<string, CounterVals>>, tokens: bool): seq<ExportCounter> {
    seq(|rows|, i requires 0 <= i < |rows| => ListedCounter(s, rows[i], tokens))
  }

  function ListedActions(rows: seq<Row<Address, string>>): seq<ExportAction> {
    seq(|rows|, i requires 0 <= i < |rows| => ListedAction(rows[i]))
  }

  function ScheduleOf(s: State): string {
    if SCHEDULE in s.settings then s.settings[SCHEDULE] else ""
  }

  function FindId<K, V>(rows: seq<Row<K, V>>, id: int): (i: int)
    ensures -1 <= i < |rows|
    ensures i >= 0 ==> rows[i].id == id
    ensures i < 0 ==> forall j :: 0 <= j < |rows| ==> rows[j].id != id
  {
    if rows == [] then -1
    else if rows[0].id == id then 0
    else
      var i := FindId(rows[1..], id);
      if i < 0 then -1 else i + 1
  }

  /** The counters an export covers: one by its row id when that is positive, else all of them. */
  function Chosen(s: State, id: int): Option<seq<Row<string, CounterVals>>> {
    if id <= 0 then Some(s.counters.rows)
    else
      var i := FindId(s.counters.rows, id);
      if i < 0 then None else Some([s.counters.rows[i]])
  }

  /** The schedule and the destinations go only with an export of everything. */
  function Exported(s: State, id: int, tokens: bool): Option<Payload> {
    match Chosen(s, id)
    case None => None
    case Some(rows) =>
      Some(Payload(if id == 0 then ScheduleOf(s) else "", ListedCounters(s, rows, tokens), [], [],
                   if id == 0 then ListedActions(s.actions.rows) else []))
  }

  // ---- Deleting a counter ----

  function Kept<T>(rows: seq<T>, keep: T -> bool): seq<T> {
    if rows == [] then []
    else
      var before, last := Kept(rows[..|rows| - 1], keep), rows[|rows| - 1];
      if keep(last) then before + [last] else before
  }

  function NotOf<V>(id: int): Row<RuleKey, V> -> bool {
    (row: Row<RuleKey, V>) => row.key.0 != id
  }

  function CounterNot(id: int): Row<string, CounterVals> -> bool {
    (row: Row<string, CounterVals>) => row.id != id
  }

  function AlertNotOf(id: int): AlertRow -> bool {
    (a: AlertRow) => a.counter != id
  }

  function SnapshotNotOf(id: int): SnapshotRow -> bool {
    (r: SnapshotRow) => r.counter != id
  }

  predicate HasTrigger(triggers: RuleTable<TriggerVals>, trigger: int, counter: int) {
    exists i :: 0 <= i < |triggers.rows| && triggers.rows[i].id == trigger && triggers.rows[i].key.0 == counter
  }

  /** Everything scoped to the counter goes with it, and nothing else. */
  function Deleted(s: State, id: int): State {
    s.(counters := s.counters.(rows := Kept(s.counters.rows, CounterNot(id))),
       triggers := s.triggers.(rows := Kept(s.triggers.rows, NotOf(id))),
       reports := s.reports.(rows := Kept(s.reports.rows, NotOf(id))),
       cooldowns := map t | t in s.cooldowns && !HasTrigger(s.triggers, t, id) :: s.cooldowns[t],
       alerts := Kept(s.alerts, AlertNotOf(id)),
       snapshots := Kept(s.snapshots, SnapshotNotOf(id)))
  }
}
