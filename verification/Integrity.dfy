/** References between tables: rules, alerts and snapshots point at counters that exist and cooldowns at
    triggers that do, after every import and every deletion. */
module Integrity {
  import opened Text
  import opened Keyed
  import opened RuleTables
  import opened Settings
  import opened Database
  import opened Merge

  // ---- References ----

  ghost predicate AlertsPoint(s: State) {
    forall i :: 0 <= i < |s.alerts| ==> HasId(s.counters, s.alerts[i].counter)
  }

  ghost predicate SnapshotsPoint(s: State) {
    forall i :: 0 <= i < |s.snapshots| ==> HasId(s.counters, s.snapshots[i].counter)
  }

  ghost predicate CooldownsPoint(s: State) {
    forall t :: t in s.cooldowns ==> HasId(s.triggers, t)
  }

  ghost predicate Integral(s: State) {
    && Anchored(s.triggers, s.counters) && Anchored(s.reports, s.counters)
    && AlertsPoint(s) && SnapshotsPoint(s) && CooldownsPoint(s)
  }

  lemma IdsStay<K(!new), V>(t: Table<K, V>, items: seq<(K, V)>, m: (V, V) -> V, u: Table<K, V>)
    requires Upserted(t, items, m, u)
    ensures forall id :: HasId(t, id) ==> HasId(u, id)
  {
    hide Find, Listed, Taken;
    forall id | HasId(t, id)
      ensures HasId(u, id)
    {
      var i :| 0 <= i < |t.rows| && t.rows[i].id == id;
      assert OldRow(t, items, m, u, i);
      assert u.rows[i].id == id;
    }
  }

  lemma StillAnchored<V>(t: RuleTable<V>, before: Counters, after: Counters)
    requires Anchored(t, before) && forall id :: HasId(before, id) ==> HasId(after, id)
    ensures Anchored(t, after)
  {
    hide HasId;
  }

  lemma RulesAnchored<B, V>(t: RuleTable<V>, counters: Counters, rules: seq<FlatRule<B>>, stored: B -> V, replace: bool)
    requires Anchored(t, counters) && Resolve(counters, rules, stored).Ok?
    ensures Anchored(RulesAfter(t, Resolve(counters, rules, stored).value, replace), counters)
  {
    hide Resolve, Anchored, RulesAfter, HasId;
    ResolvedAnchored(counters, rules, stored);
    AppliedAnchored(t, counters, Resolve(counters, rules, stored).value, replace);
  }

  /** What an import starts writing its rules from is anchored in the counters it wrote. */
  lemma BaseAnchored(s: State, p: Payload, replace: bool)
    requires Integral(s) && Applied(s, p, replace).Ok?
    ensures var base, u := Base(s, p, replace), Applied(s, p, replace).value;
            && Anchored(base.triggers, u.counters) && Anchored(base.reports, u.counters)
            && AlertsPoint(u) && SnapshotsPoint(u)
  {
    hide CounterItems, Resolve, TriggerRules, ReportRules, RulesAfter, PutAll, ActionsAfter, HasId, Upserted,
      CooldownsPoint, InsertUnique;
    if !replace {
      MergeUpserts(s, p);
      var u := Applied(s, p, false).value;
      IdsStay(s.counters, CounterItems(p.counters), MergeCounter, u.counters);
      StillAnchored(s.triggers, s.counters, u.counters);
      StillAnchored(s.reports, s.counters, u.counters);
    }
  }

  lemma CooldownsStay(s: State, p: Payload, replace: bool)
    requires CooldownsPoint(s) && Applied(s, p, replace).Ok?
    ensures CooldownsPoint(Applied(s, p, replace).value)
  {
    hide CounterItems, Resolve, TriggerRules, ReportRules, PutAll, ActionsAfter, HasId, Upserted, InsertUnique,
      InsertAll;
    if !replace {
      MergeUpserts(s, p);
      var u := Applied(s, p, false).value;
      IdsStay(s.triggers, Resolve(u.counters, TriggerRules(p), StoredTrigger).value, Overwrite, u.triggers);
    }
  }

  lemma AppliedIntegral(s: State, p: Payload, replace: bool)
    requires Integral(s) && Applied(s, p, replace).Ok?
    ensures Integral(Applied(s, p, replace).value)
  {
    BaseAnchored(s, p, replace);
    CooldownsStay(s, p, replace);
    hide CountersAfter, CounterItems, Resolve, TriggerRules, ReportRules, RulesAfter, ActionsAfter, Anchored,
      AlertsPoint, SnapshotsPoint, CooldownsPoint, Cleared;
    var base, u := Base(s, p, replace), Applied(s, p, replace).value;
    RulesAnchored(base.triggers, u.counters, TriggerRules(p), StoredTrigger, replace);
    RulesAnchored(base.reports, u.counters, ReportRules(p), StoredReport, replace);
  }

  /** Importing, in either mode, leaves no rule, alert, snapshot or cooldown without its owner. */
  lemma ImportIntegral(s: State, p: Payload, replace: bool, checks: Checks)
    requires Integral(s)
    ensures Imported(s, p, replace, checks).Ok? ==> Integral(Imported(s, p, replace, checks).value)
  {
    hide Integral, Applied, Normalise;
    if Imported(s, p, replace, checks).Ok? {
      AppliedIntegral(s, Normalise(p, checks).value, replace);
    }
  }

  // ---- Deleting ----

  lemma {:induction false} KeptExactly<T>(rows: seq<T>, keep: T -> bool, x: T)
    ensures x in Kept(rows, keep) <==> x in rows && keep(x)
  {
    if rows != [] {
      KeptExactly(rows[..|rows| - 1], keep, x);
      assert rows == rows[..|rows| - 1] + [rows[|rows| - 1]];
    }
  }

  lemma HasIdKept(counters: Counters, id: int, gone: int)
    ensures HasId(counters.(rows := Kept(counters.rows, CounterNot(gone))), id) <==> HasId(counters, id) && id != gone
  {
    var kept := counters.(rows := Kept(counters.rows, CounterNot(gone)));
    if HasId(counters, id) && id != gone {
      var i :| 0 <= i < |counters.rows| && counters.rows[i].id == id;
      KeptExactly(counters.rows, CounterNot(gone), counters.rows[i]);
      hide Kept;
      var j :| 0 <= j < |kept.rows| && kept.rows[j] == counters.rows[i];
      assert kept.rows[j].id == id;
    }
    if HasId(kept, id) {
      var j :| 0 <= j < |kept.rows| && kept.rows[j].id == id;
      KeptExactly(counters.rows, CounterNot(gone), kept.rows[j]);
      hide Kept;
      var i :| 0 <= i < |counters.rows| && counters.rows[i] == kept.rows[j];
      assert counters.rows[i].id == id;
    }
  }

  lemma KeptAnchored<V>(t: RuleTable<V>, counters: Counters, id: int)
    requires Anchored(t, counters)
    ensures Anchored(t.(rows := Kept(t.rows, NotOf(id))), counters.(rows := Kept(counters.rows, CounterNot(id))))
  {
    hide Kept, HasId;
    var kept, left := Kept(t.rows, NotOf(id)), counters.(rows := Kept(counters.rows, CounterNot(id)));
    forall i | 0 <= i < |kept|
      ensures HasId(left, kept[i].key.0)
    {
      KeptExactly(t.rows, NotOf(id), kept[i]);
      assert kept[i] in t.rows;
      HasIdKept(counters, kept[i].key.0, id);
    }
  }

  lemma KeptRecords(s: State, id: int)
    requires AlertsPoint(s) && SnapshotsPoint(s)
    ensures AlertsPoint(Deleted(s, id)) && SnapshotsPoint(Deleted(s, id))
  {
    hide Kept, HasId, HasTrigger;
    var d := Deleted(s, id);
    forall i | 0 <= i < |d.alerts|
      ensures HasId(d.counters, d.alerts[i].counter)
    {
      KeptExactly(s.alerts, AlertNotOf(id), d.alerts[i]);
      assert d.alerts[i] in s.alerts;
      HasIdKept(s.counters, d.alerts[i].counter, id);
    }
    forall i | 0 <= i < |d.snapshots|
      ensures HasId(d.counters, d.snapshots[i].counter)
    {
      KeptExactly(s.snapshots, SnapshotNotOf(id), d.snapshots[i]);
      assert d.snapshots[i] in s.snapshots;
      HasIdKept(s.counters, d.snapshots[i].counter, id);
    }
  }

  lemma KeptCooldowns(s: State, id: int)
    requires CooldownsPoint(s)
    ensures CooldownsPoint(Deleted(s, id))
  {
    hide Kept;
    var d := Deleted(s, id);
    forall t | t in d.cooldowns
      ensures HasId(d.triggers, t)
    {
      assert HasId(s.triggers, t) && !HasTrigger(s.triggers, t, id);
      var i :| 0 <= i < |s.triggers.rows| && s.triggers.rows[i].id == t;
      KeptExactly(s.triggers.rows, NotOf(id), s.triggers.rows[i]);
      var j :| 0 <= j < |d.triggers.rows| && d.triggers.rows[j] == s.triggers.rows[i];
      assert d.triggers.rows[j].id == t;
    }
  }

  /** Deleting a counter leaves nothing that points at it. */
  lemma DeleteIntegral(s: State, id: int)
    requires Integral(s)
    ensures Integral(Deleted(s, id)) && !HasId(Deleted(s, id).counters, id)
  {
    KeptAnchored(s.triggers, s.counters, id);
    KeptAnchored(s.reports, s.counters, id);
    KeptRecords(s, id);
    KeptCooldowns(s, id);
    HasIdKept(s.counters, id, id);
    hide Kept, HasId, HasTrigger, Anchored, AlertsPoint, SnapshotsPoint, CooldownsPoint;
  }

  lemma HasTriggerIff(t: RuleTable<TriggerVals>, trigger: int, counter: int)
    ensures HasTrigger(t, trigger, counter) <==> exists x :: x in t.rows && x.id == trigger && x.key.0 == counter
  {
    if HasTrigger(t, trigger, counter) {
      var i :| 0 <= i < |t.rows| && t.rows[i].id == trigger && t.rows[i].key.0 == counter;
      assert t.rows[i] in t.rows;
    }
  }

  /** Deleting removes exactly what is scoped to the counter, and keeps the rest. */
  lemma DeletesExactly(s: State, id: int)
    ensures var d := Deleted(s, id);
            && (forall x :: x in d.counters.rows <==> x in s.counters.rows && x.id != id)
            && (forall x :: x in d.triggers.rows <==> x in s.triggers.rows && x.key.0 != id)
            && (forall x :: x in d.reports.rows <==> x in s.reports.rows && x.key.0 != id)
            && (forall x :: x in d.alerts <==> x in s.alerts && x.counter != id)
            && (forall x :: x in d.snapshots <==> x in s.snapshots && x.counter != id)
            && (forall t :: t in d.cooldowns <==> t in s.cooldowns && !exists x :: x in s.triggers.rows
                                                                               && x.id == t && x.key.0 == id)
            && (forall t :: t in d.cooldowns ==> d.cooldowns[t] == s.cooldowns[t])
            && d.actions == s.actions && d.settings == s.settings
            && d.counters.next == s.counters.next && d.triggers.next == s.triggers.next
            && d.reports.next == s.reports.next
  {
    hide Kept, HasTrigger;
    var d := Deleted(s, id);
    forall t
      ensures HasTrigger(s.triggers, t, id) <==> exists x :: x in s.triggers.rows && x.id == t && x.key.0 == id
    {
      HasTriggerIff(s.triggers, t, id);
    }
    forall x
      ensures x in d.counters.rows <==> x in s.counters.rows && x.id != id
    {
      KeptExactly(s.counters.rows, CounterNot(id), x);
    }
    forall x
      ensures x in d.triggers.rows <==> x in s.triggers.rows && x.key.0 != id
    {
      KeptExactly(s.triggers.rows, NotOf(id), x);
    }
    forall x
      ensures x in d.reports.rows <==> x in s.reports.rows && x.key.0 != id
    {
      KeptExactly(s.reports.rows, NotOf(id), x);
    }
    forall x
      ensures x in d.alerts <==> x in s.alerts && x.counter != id
    {
      KeptExactly(s.alerts, AlertNotOf(id), x);
    }
    forall x
      ensures x in d.snapshots <==> x in s.snapshots && x.counter != id
    {
      KeptExactly(s.snapshots, SnapshotNotOf(id), x);
    }
  }

  /** What is kept stays in its order. */
  lemma {:induction false} KeptInOrder<T>(a: seq<T>, b: seq<T>, keep: T -> bool)
    ensures Kept(a + b, keep) == Kept(a, keep) + Kept(b, keep)
  {
    if b == [] {
      assert a + b == a;
    } else {
      var n := |b| - 1;
      KeptInOrder(a, b[..n], keep);
      assert (a + b)[..|a + b| - 1] == a + b[..n];
    }
  }
}
