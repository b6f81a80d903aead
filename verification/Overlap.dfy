/** One rule's cooldown when evaluations overlap (internal/engine/evaluator.go): the ticker loop and calls
    of RunOnce each check the cooldown, send, and only then record the fire, without holding a lock. Fire
    records are saved. */
module Overlap {
  import opened Text
  import opened Clock

  datatype Phase = Cleared | Sent

  datatype Alert = Alert(slot: nat, at: int)

  /** The rule's fire record, what each evaluation in flight has done, the alerts sent, and the clock. An
      evaluation runs in a slot; a slot without a phase is free or has not checked the cooldown yet. */
  datatype State = State(firedAt: Option<int>, phase: map<nat, Phase>, alerts: seq<Alert>, clock: int)

  datatype Event =
    | Check(slot: nat, now: int)  // the rule fires, and is not cooling down
    | Send(slot: nat, now: int)   // the alert goes out
    | Store(slot: nat, now: int)  // the fire is recorded, to the whole second

  function Start(firedAt: Option<int>, clock: int): State {
    State(firedAt, map[], [], clock)
  }

  /** What an event does, for a cooldown in nanoseconds; one that does not apply changes nothing. */
  function Apply(s: State, e: Event, cooldown: int): State {
    if e.now < s.clock then s
    else
      match e
      case Check(c, now) =>
        if c !in s.phase && (s.firedAt == None || now - s.firedAt.value >= cooldown) then
          s.(phase := s.phase[c := Cleared], clock := now)
        else s.(clock := now)
      case Send(c, now) =>
        if c in s.phase && s.phase[c] == Cleared then
          s.(phase := s.phase[c := Sent], alerts := s.alerts + [Alert(c, now)], clock := now)
        else s.(clock := now)
      case Store(c, now) =>
        if c in s.phase && s.phase[c] == Sent then
          s.(phase := s.phase - {c}, firedAt := Some(WholeSeconds(now)), clock := now)
        else s.(clock := now)
  }

  function After(s: State, events: seq<Event>, cooldown: int): State {
    if events == [] then s else Apply(After(s, events[..|events| - 1], cooldown), events[|events| - 1], cooldown)
  }

  /** Where a slot that sent this alert stands: its record is made, or it may only send again after the
      cooldown. */
  ghost predicate Accounted(s: State, a: Alert, cooldown: int) {
    && a.at <= s.clock
    && (a.slot !in s.phase ==> s.firedAt.Some? && s.firedAt.value > a.at - SECOND)
    && (a.slot in s.phase && s.phase[a.slot] == Cleared ==> s.clock - a.at > cooldown - SECOND)
  }

  ghost predicate Inv(s: State, cooldown: int) {
    && (forall i :: 0 <= i < |s.alerts| ==> Accounted(s, s.alerts[i], cooldown))
    && (forall i, j :: 0 <= i < j < |s.alerts| ==> s.alerts[i].at <= s.alerts[j].at)
    && (forall i, j :: 0 <= i < j < |s.alerts| && s.alerts[i].slot == s.alerts[j].slot
          ==> s.alerts[j].at - s.alerts[i].at > cooldown - SECOND)
  }

  lemma ApplyKeeps(s: State, e: Event, cooldown: int)
    requires Inv(s, cooldown)
    ensures Inv(Apply(s, e, cooldown), cooldown)
  {
    StoredWithin(e.now);
    hide WholeSeconds;
    var u := Apply(s, e, cooldown);
    forall i | 0 <= i < |u.alerts|
      ensures Accounted(u, u.alerts[i], cooldown)
    {
      assert i < |s.alerts| ==> u.alerts[i] == s.alerts[i] && Accounted(s, s.alerts[i], cooldown);
    }
    forall i, j | 0 <= i < j < |u.alerts|
      ensures u.alerts[i].at <= u.alerts[j].at
      ensures u.alerts[i].slot == u.alerts[j].slot ==> u.alerts[j].at - u.alerts[i].at > cooldown - SECOND
    {
      assert u.alerts[i] == s.alerts[i] && Accounted(s, s.alerts[i], cooldown);
      assert j < |s.alerts| ==> u.alerts[j] == s.alerts[j];
    }
  }

  /** Over any run, two alerts of one slot are a cooldown apart, up to the second that storing drops. */
  lemma {:induction false} SlotSpaced(firedAt: Option<int>, clock: int, events: seq<Event>, cooldown: int)
    ensures Inv(After(Start(firedAt, clock), events, cooldown), cooldown)
  {
    hide Inv, Apply;
    if events == [] {
      StartInv(firedAt, clock, cooldown);
    } else {
      SlotSpaced(firedAt, clock, events[..|events| - 1], cooldown);
      ApplyKeeps(After(Start(firedAt, clock), events[..|events| - 1], cooldown), events[|events| - 1], cooldown);
    }
  }

  lemma StartInv(firedAt: Option<int>, clock: int, cooldown: int)
    ensures Inv(Start(firedAt, clock), cooldown)
  {
  }

  /** Different numbers below n are at most n. */
  lemma {:induction false} Pigeons(s: seq<nat>, n: nat)
    requires forall i :: 0 <= i < |s| ==> s[i] < n
    requires forall i, j :: 0 <= i < j < |s| ==> s[i] != s[j]
    ensures |s| <= n
    decreases n
  {
    if s != [] {
      assert s[0] < n;
      if n - 1 in s {
        var k :| 0 <= k < |s| && s[k] == n - 1;
        Pigeons(s[..k] + s[k + 1..], n - 1);
      } else {
        Pigeons(s, n - 1);
      }
    }
  }

  ghost predicate SlotsBelow(events: seq<Event>, n: nat) {
    forall i :: 0 <= i < |events| ==> events[i].slot < n
  }

  lemma OneMoreAlert(s: State, e: Event, cooldown: int)
    ensures Apply(s, e, cooldown).alerts == s.alerts
            || Apply(s, e, cooldown).alerts == s.alerts + [Alert(e.slot, e.now)]
  {
    hide WholeSeconds;
  }

  ghost predicate FromBelow(alerts: seq<Alert>, n: nat) {
    forall i :: 0 <= i < |alerts| ==> alerts[i].slot < n
  }

  lemma {:induction false} AlertSlots(s: State, events: seq<Event>, cooldown: int, n: nat)
    requires SlotsBelow(events, n) && FromBelow(s.alerts, n)
    ensures FromBelow(After(s, events, cooldown).alerts, n)
  {
    if events != [] {
      var k := |events| - 1;
      AlertSlots(s, events[..k], cooldown, n);
      OneMoreAlert(After(s, events[..k], cooldown), events[k], cooldown);
    }
  }

  /** When at most n evaluations of the rule are in flight at once, at most n of its alerts go out within
      one cooldown, less the second that storing drops; so one, when they do not overlap. */
  lemma AtMostPerCooldown(firedAt: Option<int>, clock: int, events: seq<Event>, cooldown: int, n: nat, i: nat, j: nat)
    requires SlotsBelow(events, n)
    requires i < j <= |After(Start(firedAt, clock), events, cooldown).alerts|
    requires var alerts := After(Start(firedAt, clock), events, cooldown).alerts;
             alerts[j - 1].at - alerts[i].at <= cooldown - SECOND
    ensures j - i <= n
  {
    SlotSpaced(firedAt, clock, events, cooldown);
    AlertSlots(Start(firedAt, clock), events, cooldown, n);
    hide After, Start, Accounted;
    var alerts := After(Start(firedAt, clock), events, cooldown).alerts;
    var slots: seq<nat> := seq(j - i, k requires 0 <= k < j - i => alerts[i + k].slot);
    forall k, l | 0 <= k < l < |slots|
      ensures slots[k] != slots[l]
    {
      assert alerts[i + l].at <= alerts[j - 1].at && alerts[i].at <= alerts[i + k].at;
    }
    Pigeons(slots, n);
  }

  // ---- And that many can go out at once ----

  /** Evaluations 0 to n - 1 each check before any of them sends. */
  function Checks(n: nat, now: int): seq<Event> {
    if n == 0 then [] else Checks(n - 1, now) + [Check(n - 1, now)]
  }

  function Sends(n: nat, now: int): seq<Event> {
    if n == 0 then [] else Sends(n - 1, now) + [Send(n - 1, now)]
  }

  lemma {:induction false} AfterAppend(s: State, a: seq<Event>, b: seq<Event>, cooldown: int)
    ensures After(s, a + b, cooldown) == After(After(s, a, cooldown), b, cooldown)
  {
    if b == [] {
      assert a + b == a;
    } else {
      AfterAppend(s, a, b[..|b| - 1], cooldown);
      assert (a + b)[..|a + b| - 1] == a + b[..|b| - 1];
    }
  }

  lemma AfterOne(s: State, a: seq<Event>, e: Event, cooldown: int)
    ensures After(s, a + [e], cooldown) == Apply(After(s, a, cooldown), e, cooldown)
  {
    assert (a + [e])[..|a|] == a;
  }

  /** The first n slots are cleared, and no other. */
  ghost predicate ClearedTo(s: State, firedAt: Option<int>, n: nat, now: int) {
    && s.firedAt == firedAt && s.alerts == [] && s.clock == now
    && (forall c: nat :: c in s.phase <==> c < n) && (forall c: nat :: c < n ==> s.phase[c] == Cleared)
  }

  /** No fire is on record, or the one on record is at least a cooldown old. */
  predicate Cool(firedAt: Option<int>, now: int, cooldown: int) {
    firedAt.Some? ==> now - firedAt.value >= cooldown
  }

  lemma OneMoreCheck(s: State, firedAt: Option<int>, n: nat, now: int, cooldown: int)
    requires ClearedTo(s, firedAt, n, now) && Cool(firedAt, now, cooldown)
    ensures ClearedTo(Apply(s, Check(n, now), cooldown), firedAt, n + 1, now)
  {
  }

  lemma {:induction false} AllCheck(firedAt: Option<int>, n: nat, now: int, cooldown: int)
    requires Cool(firedAt, now, cooldown)
    ensures ClearedTo(After(Start(firedAt, now), Checks(n, now), cooldown), firedAt, n, now)
  {
    if n > 0 {
      AllCheck(firedAt, n - 1, now, cooldown);
      AfterOne(Start(firedAt, now), Checks(n - 1, now), Check(n - 1, now), cooldown);
      hide After, Apply, ClearedTo;
      OneMoreCheck(After(Start(firedAt, now), Checks(n - 1, now), cooldown), firedAt, n - 1, now, cooldown);
    }
  }

  lemma {:induction false} AllSend(s: State, n: nat, cooldown: int)
    requires forall c: nat :: c < n ==> c in s.phase && s.phase[c] == Cleared
    ensures var u := After(s, Sends(n, s.clock), cooldown);
            && u.clock == s.clock && |u.alerts| == |s.alerts| + n
            && (forall c: nat :: c >= n
                 ==> (c in u.phase <==> c in s.phase) && (c in u.phase ==> u.phase[c] == s.phase[c]))
            && forall i :: |s.alerts| <= i < |u.alerts| ==> u.alerts[i].at == s.clock
  {
    if n > 0 {
      AllSend(s, n - 1, cooldown);
      hide After;
      AfterOne(s, Sends(n - 1, s.clock), Send(n - 1, s.clock), cooldown);
    } else {
      assert After(s, Sends(0, s.clock), cooldown) == s;
    }
  }

  /** n evaluations that all check before any records send n alerts at one moment, once nothing is on record
      or the record is a cooldown old; before that none sends any. */
  lemma Attained(firedAt: Option<int>, n: nat, now: int, cooldown: int)
    ensures var alerts := After(Start(firedAt, now), Checks(n, now) + Sends(n, now), cooldown).alerts;
            && |alerts| == (if firedAt.Some? && now - firedAt.value < cooldown then 0 else n)
            && forall i :: 0 <= i < |alerts| ==> alerts[i].at == now
  {
    AfterAppend(Start(firedAt, now), Checks(n, now), Sends(n, now), cooldown);
    if Cool(firedAt, now, cooldown) {
      AllCheck(firedAt, n, now, cooldown);
      hide After, Checks, Sends, Start;
      AllSend(After(Start(firedAt, now), Checks(n, now), cooldown), n, cooldown);
    } else {
      NoneChecks(firedAt, n, now, cooldown);
      NoneSends(Start(firedAt, now), n, cooldown);
    }
  }

  lemma {:induction false} NoneChecks(firedAt: Option<int>, n: nat, now: int, cooldown: int)
    requires !Cool(firedAt, now, cooldown)
    ensures After(Start(firedAt, now), Checks(n, now), cooldown) == Start(firedAt, now)
  {
    if n > 0 {
      NoneChecks(firedAt, n - 1, now, cooldown);
      AfterOne(Start(firedAt, now), Checks(n - 1, now), Check(n - 1, now), cooldown);
    }
  }

  lemma {:induction false} NoneSends(s: State, n: nat, cooldown: int)
    requires s.phase == map[]
    ensures After(s, Sends(n, s.clock), cooldown) == s
  {
    if n > 0 {
      NoneSends(s, n - 1, cooldown);
      AfterOne(s, Sends(n - 1, s.clock), Send(n - 1, s.clock), cooldown);
    }
  }

  /** The second that storing drops is really lost: after an alert at any moment, another goes out a cooldown
      later less the fraction of a second of that moment. */
  lemma SecondLost(t: int, cooldown: int)
    requires cooldown >= SECOND
    ensures var u := t + cooldown - t % SECOND;
            After(Start(None, t), [Check(0, t), Send(0, t), Store(0, t), Check(1, u), Send(1, u)], cooldown).alerts
            == [Alert(0, t), Alert(1, u)]
  {
    hide After, Apply, Start;
    var u := t + cooldown - t % SECOND;
    var s0, mid := Start(None, t), State(Some(t - t % SECOND), map[], [Alert(0, t)], t);
    AfterNone(s0, cooldown);
    AfterOne(s0, [], Check(0, t), cooldown);
    AfterOne(s0, [Check(0, t)], Send(0, t), cooldown);
    AfterOne(s0, [Check(0, t), Send(0, t)], Store(0, t), cooldown);
    AfterOne(s0, [Check(0, t), Send(0, t), Store(0, t)], Check(1, u), cooldown);
    AfterOne(s0, [Check(0, t), Send(0, t), Store(0, t), Check(1, u)], Send(1, u), cooldown);
    assert [] + [Check(0, t)] == [Check(0, t)];
    assert [Check(0, t)] + [Send(0, t)] == [Check(0, t), Send(0, t)];
    assert [Check(0, t), Send(0, t)] + [Store(0, t)] == [Check(0, t), Send(0, t), Store(0, t)];
    assert [Check(0, t), Send(0, t), Store(0, t)] + [Check(1, u)]
           == [Check(0, t), Send(0, t), Store(0, t), Check(1, u)];
    assert [Check(0, t), Send(0, t), Store(0, t), Check(1, u)] + [Send(1, u)]
        == [Check(0, t), Send(0, t), Store(0, t), Check(1, u), Send(1, u)];
    FirstRound(t, cooldown);
    SecondRound(mid, u, cooldown);
  }

  lemma FirstRound(t: int, cooldown: int)
    ensures Apply(Apply(Apply(Start(None, t), Check(0, t), cooldown), Send(0, t), cooldown), Store(0, t), cooldown)
         == State(Some(t - t % SECOND), map[], [Alert(0, t)], t)
  {
  }

  lemma SecondRound(s: State, u: int, cooldown: int)
    requires s.phase == map[] && s.firedAt.Some? && s.clock <= u && u - s.firedAt.value >= cooldown
    ensures Apply(Apply(s, Check(1, u), cooldown), Send(1, u), cooldown).alerts == s.alerts + [Alert(1, u)]
  {
  }

  lemma AfterNone(s: State, cooldown: int)
    ensures After(s, [], cooldown) == s
  {
  }
}
