/** Calls of `advance` that overlap: the ticker loop, /poll and the REST API, with crashes between
    judging a window and saving the cursor (internal/engine/poller.go). A call moves on from a window
    only when its evaluation passes for what it then sees of the API, the rules and the fire records. */
module Interleaving {
  import opened Text
  import opened Poller
  import opened Scopes
  import opened Batching
  import opened Evaluator
  import opened Judging

  /** A call in flight: the windows it has not saved yet, and whether the first one is judged. */
  datatype InFlight = InFlight(windows: seq<int>, judged: bool)

  /** The saved cursor, the windows whose evaluation passed, those among them that passed with nothing
      unjudged, and the calls in flight. */
  datatype State = State(cursor: int, judged: set<int>, whole: set<int>, calls: map<nat, InFlight>)

  datatype Event =
    | Begin(call: nat, now: int)                // reads the cursor and lists the pending windows
    | Judge(call: nat, window: int, view: View) // the call's first window is evaluated without error
    | Fail(call: nat)                           // judging or saving fails, or the call is cancelled
    | Save(call: nat)                           // the cursor is set to the judged window
    | Crash                                     // the process dies; only the saved cursor survives

  function Start(cursor: int): State {
    State(cursor, {}, {}, map[])
  }

  /** The call is about to judge this window, and its evaluation passes. */
  ghost predicate CanJudge(cfg: Config, s: State, c: nat, window: int, v: View) {
    && c in s.calls && s.calls[c].windows != [] && s.calls[c].windows[0] == window && !s.calls[c].judged
    && v.env.cfg == cfg && Answers(v.env) && Passes(v, window)
  }

  /** Every rule that can be judged is judged in this view. */
  ghost predicate Whole(v: View, window: int)
    requires Answers(v.env)
  {
    !Unjudged(v.env, Enabled(v.triggers), window)
  }

  /** What an event does; an event that does not apply changes nothing. */
  ghost function Apply(cfg: Config, s: State, e: Event): State {
    match e
    case Begin(c, now) =>
      if c in s.calls then s
      else s.(calls := s.calls[c := InFlight(Pending(cfg, Some(s.cursor), now), false)])
    case Judge(c, window, v) =>
      if CanJudge(cfg, s, c, window, v) then
        s.(judged := s.judged + {window}, whole := s.whole + if Whole(v, window) then {window} else {},
           calls := s.calls[c := s.calls[c].(judged := true)])
      else s
    case Fail(c) => s.(calls := s.calls - {c})
    case Save(c) =>
      if c in s.calls && s.calls[c].windows != [] && s.calls[c].judged then
        s.(cursor := s.calls[c].windows[0], calls := s.calls[c := InFlight(s.calls[c].windows[1..], false)])
      else s
    case Crash => s.(calls := map[])
  }

  ghost function After(cfg: Config, s: State, events: seq<Event>): State {
    if events == [] then s
    else Apply(cfg, After(cfg, s, events[..|events| - 1]), events[|events| - 1])
  }

  /** Every grid window after `from` and up to `upTo` has been judged. */
  ghost predicate Covered(cfg: Config, judged: set<int>, from: int, upTo: int) {
    forall g :: OnGrid(g, cfg.Step()) && from < g <= upTo ==> g in judged
  }

  /** The windows of a call follow each other on the grid, everything before them is judged, and so
      is the first one once the call says so. */
  ghost predicate CallOk(cfg: Config, judged: set<int>, from: int, call: InFlight) {
    call.windows != [] ==>
      && OnGrid(call.windows[0], cfg.Step())
      && (forall i :: 0 <= i < |call.windows| - 1 ==> call.windows[i + 1] == call.windows[i] + cfg.Step())
      && Covered(cfg, judged, from, call.windows[0] - cfg.Step())
      && (call.judged ==> call.windows[0] in judged)
  }

  ghost predicate Inv(cfg: Config, s: State, from: int) {
    && Covered(cfg, s.judged, from, s.cursor)
    && forall c :: c in s.calls ==> CallOk(cfg, s.judged, from, s.calls[c])
  }

  lemma CoveredMonotonic(cfg: Config, judged: set<int>, more: set<int>, from: int, upTo: int, lower: int)
    requires Covered(cfg, judged, from, upTo) && judged <= more && lower <= upTo
    ensures Covered(cfg, more, from, lower)
  {
    hide OnGrid;
  }

  /** A judged window extends what is covered by one step: there is no other grid window between. */
  lemma CoveredStep(cfg: Config, judged: set<int>, from: int, w: int)
    requires MINUTES_A_DAY % cfg.Step() == 0 && OnGrid(w, cfg.Step()) && w in judged
    requires Covered(cfg, judged, from, w - cfg.Step())
    ensures Covered(cfg, judged, from, w)
  {
    var step := cfg.Step();
    NoneSkippedIff(step);
    GridIsMultiples(w, step);
    ModAddStep(w - step, step);
    GridIsMultiples(w - step, step);
    assert OnGrid(w - step, step);
    hide OnGrid;
    forall g | OnGrid(g, step) && from < g <= w
      ensures g in judged
    {
      assert !(w - step < g < w - step + step);
    }
  }

  lemma CallOkMore(cfg: Config, judged: set<int>, more: set<int>, from: int, call: InFlight)
    requires CallOk(cfg, judged, from, call) && judged <= more
    ensures CallOk(cfg, more, from, call)
  {
    hide OnGrid;
    if call.windows != [] {
      CoveredMonotonic(cfg, judged, more, from, call.windows[0] - cfg.Step(), call.windows[0] - cfg.Step());
    }
  }

  /** A call that begins finds the windows after the cursor as it is now. */
  lemma BeginOk(cfg: Config, s: State, from: int, now: int)
    requires MINUTES_A_DAY % cfg.Step() == 0 && Inv(cfg, s, from)
    ensures CallOk(cfg, s.judged, from, InFlight(Pending(cfg, Some(s.cursor), now), false))
  {
    hide Pending, OnGrid, TruncateTo, Backlog, Covered;
    var step := cfg.Step();
    var ws := Pending(cfg, Some(s.cursor), now);
    PendingExact(cfg, s.cursor, now);
    TruncatedIsMultiple(s.cursor, step);
    if ws != [] {
      assert ws[0] == TruncateTo(s.cursor, step) + step * 1;
      forall i | 0 <= i < |ws| - 1
        ensures ws[i + 1] == ws[i] + step
      {
        assert step * (i + 1 + 1) == step * (i + 1) + step;
      }
      CoveredMonotonic(cfg, s.judged, s.judged, from, s.cursor, ws[0] - step);
    }
  }

  lemma SaveOk(cfg: Config, s: State, from: int, c: nat)
    requires MINUTES_A_DAY % cfg.Step() == 0 && Inv(cfg, s, from)
    requires c in s.calls && s.calls[c].windows != [] && s.calls[c].judged
    ensures Covered(cfg, s.judged, from, s.calls[c].windows[0])
    ensures CallOk(cfg, s.judged, from, InFlight(s.calls[c].windows[1..], false))
  {
    hide Covered;
    var ws := s.calls[c].windows;
    assert CallOk(cfg, s.judged, from, s.calls[c]);
    CoveredStep(cfg, s.judged, from, ws[0]);
    if |ws| > 1 {
      var step := cfg.Step();
      var rest := ws[1..];
      assert rest[0] == ws[0 + 1] == ws[0] + step;
      GridIsMultiples(ws[0], step);
      ModAddStep(ws[0], step);
      GridIsMultiples(rest[0], step);
      forall i | 0 <= i < |rest| - 1
        ensures rest[i + 1] == rest[i] + step
      {
        assert ws[i + 1 + 1] == ws[i + 1] + step;
      }
    }
  }

  lemma ApplyKeeps(cfg: Config, s: State, e: Event, from: int)
    requires MINUTES_A_DAY % cfg.Step() == 0 && Inv(cfg, s, from)
    ensures Inv(cfg, Apply(cfg, s, e), from)
  {
    hide Covered, CallOk, OnGrid, Pending, Passes, Answers, Whole;
    var s' := Apply(cfg, s, e);
    match e
    case Begin(c, now) =>
      BeginOk(cfg, s, from, now);
    case Judge(c, window, v) =>
      if CanJudge(cfg, s, c, window, v) {
        CoveredMonotonic(cfg, s.judged, s'.judged, from, s.cursor, s.cursor);
        forall d | d in s.calls
          ensures CallOk(cfg, s'.judged, from, s.calls[d])
        {
          CallOkMore(cfg, s.judged, s'.judged, from, s.calls[d]);
        }
        JudgedOk(cfg, s'.judged, from, s.calls[c]);
      }
    case Fail(c) =>
    case Save(c) =>
      if c in s.calls && s.calls[c].windows != [] && s.calls[c].judged {
        SaveOk(cfg, s, from, c);
      }
    case Crash =>
  }

  lemma JudgedOk(cfg: Config, judged: set<int>, from: int, call: InFlight)
    requires CallOk(cfg, judged, from, call) && call.windows != [] && call.windows[0] in judged
    ensures CallOk(cfg, judged, from, call.(judged := true))
  {
    hide OnGrid, Covered;
  }

  lemma {:induction false} AfterKeeps(cfg: Config, cursor: int, events: seq<Event>)
    requires MINUTES_A_DAY % cfg.Step() == 0
    ensures Inv(cfg, After(cfg, Start(cursor), events), cursor)
  {
    hide Covered, CallOk, OnGrid, Apply;
    if events == [] {
      NothingToCover(cfg, cursor);
    } else {
      AfterKeeps(cfg, cursor, events[..|events| - 1]);
      ApplyKeeps(cfg, After(cfg, Start(cursor), events[..|events| - 1]), events[|events| - 1], cursor);
    }
  }

  lemma NothingToCover(cfg: Config, cursor: int)
    ensures Covered(cfg, {}, cursor, cursor)
  {
    hide OnGrid;
  }

  // ---- Which runs are at issue ----

  /** Every evaluation of the run is against the counter's configuration and an API that tiles the day. */
  ghost predicate Sane(cfg: Config, events: seq<Event>) {
    forall i :: 0 <= i < |events| && events[i].Judge? ==> events[i].view.env.cfg == cfg && SaneApi(events[i].view.env)
  }

  /** At every evaluation of the run the counter has an enabled rule. */
  ghost predicate HasRules(events: seq<Event>) {
    forall i :: 0 <= i < |events| && events[i].Judge? ==> Enabled(events[i].view.triggers) != []
  }

  /** At every evaluation of the run the API spaces its intervals otherwise than by the step. */
  ghost predicate Mismatched(cfg: Config, events: seq<Event>) {
    forall i, w :: 0 <= i < |events| && events[i].Judge? && w >= 1 ==> events[i].view.env.spacing(w) != cfg.Step()
  }

  lemma Earlier(cfg: Config, events: seq<Event>, n: nat)
    requires n <= |events|
    ensures Sane(cfg, events) ==> Sane(cfg, events[..n])
    ensures HasRules(events) ==> HasRules(events[..n])
    ensures Mismatched(cfg, events) ==> Mismatched(cfg, events[..n])
  {
    hide SaneApi, Enabled;
  }

  /** A step other than the API's spacing stops a counter with rules: no window of it is ever judged, and
      its cursor stays where it was. */
  lemma {:induction false} MismatchStops(cfg: Config, cursor: int, events: seq<Event>)
    requires Sane(cfg, events) && HasRules(events) && Mismatched(cfg, events)
    ensures var s := After(cfg, Start(cursor), events);
            s.cursor == cursor && s.judged == {} && forall c :: c in s.calls ==> !s.calls[c].judged
  {
    if events != [] {
      var n := |events| - 1;
      Earlier(cfg, events, n);
      MismatchStops(cfg, cursor, events[..n]);
      var s, e := After(cfg, Start(cursor), events[..n]), events[n];
      hide After, Pending, Passes, Unjudged, Enabled;
      if e.Judge? {
        assert forall w :: w >= 1 ==> e.view.env.spacing(w) != cfg.Step();
        StepMismatch(e.view, e.window);
        assert Apply(cfg, s, e) == s;
      }
    }
  }

  /** At least once, over every interleaving: whatever overlaps, fails or crashes, and even when a
      slower call moves the cursor back, each grid window between the first cursor and the present
      one was passed by an evaluation. A counter with rules needs no assumption on the step. */
  lemma AtLeastOnce(cfg: Config, cursor: int, events: seq<Event>, g: int)
    requires MINUTES_A_DAY % cfg.Step() == 0 || (Sane(cfg, events) && HasRules(events))
    requires OnGrid(g, cfg.Step()) && cursor < g <= After(cfg, Start(cursor), events).cursor
    ensures g in After(cfg, Start(cursor), events).judged
  {
    if MINUTES_A_DAY % cfg.Step() == 0 {
      AfterKeeps(cfg, cursor, events);
      hide OnGrid, After;
    } else {
      NeverSpaced(cfg, events);
      hide OnGrid, After, Sane, HasRules, Mismatched;
      MismatchStops(cfg, cursor, events);
    }
  }

  lemma NeverSpaced(cfg: Config, events: seq<Event>)
    requires Sane(cfg, events) && MINUTES_A_DAY % cfg.Step() != 0
    ensures Mismatched(cfg, events)
  {
    hide SaneApi;
    forall i, w | 0 <= i < |events| && events[i].Judge? && w >= 1
      ensures events[i].view.env.spacing(w) != cfg.Step()
    {
      NoDivisor(events[i].view.env);
    }
  }

  // ---- The midnight window of a counter without rules ----

  /** Whether a run leaves the window `g` behind its cursor without having passed it. */
  ghost predicate Missed(cfg: Config, cursor: int, events: seq<Event>, g: int) {
    && OnGrid(g, cfg.Step()) && cursor < g <= After(cfg, Start(cursor), events).cursor
    && g !in After(cfg, Start(cursor), events).judged
  }

  /** A view of a counter without rules: there is nothing to judge, so every window passes. */
  function Idle(cfg: Config): View {
    View(Env(cfg, _ => None, _ => true, _ => true, _ => 10, (_, _, _) => 0.0), [], map[], 0)
  }

  lemma IdlePasses(cfg: Config, end: int)
    ensures SaneApi(Idle(cfg).env) && Answers(Idle(cfg).env) && Passes(Idle(cfg), end)
            && Enabled(Idle(cfg).triggers) == []
  {
  }

  /** Without the divisibility and without rules, the cursor steps over midnight: from the day's last
      window the next save passes over the midnight window. */
  lemma MidnightMissed(cfg: Config)
    requires MINUTES_A_DAY % cfg.Step() != 0
    ensures exists cursor: int, events: seq<Event>, g: int :: Sane(cfg, events) && Missed(cfg, cursor, events, g)
  {
    var step := cfg.Step();
    var last := TruncateTo(MINUTES_A_DAY - 1, step);
    MidnightSkipped(step);
    var now := MINUTES_A_DAY - 1 + step + step + cfg.Settle();
    var ws := Pending(cfg, Some(last), now);
    LastTruncates(step);
    hide TruncateTo, OnGrid, Idle;
    TruncateWithin(now - cfg.Settle(), step);
    assert ws != [] && ws[0] == last + step;
    IdlePasses(cfg, ws[0]);
    assert Idle(cfg).env.cfg == cfg by { IdleCfg(cfg); }
    var events := [Begin(0, now), Judge(0, ws[0], Idle(cfg)), Save(0)];
    ThreeEvents(cfg, last, now, ws, Idle(cfg));
    assert Sane(cfg, events);
    assert Missed(cfg, last, events, MINUTES_A_DAY);
  }

  lemma IdleCfg(cfg: Config)
    ensures Idle(cfg).env.cfg == cfg
  {
  }

  lemma LastTruncates(step: int)
    requires step > 0
    ensures var last := TruncateTo(MINUTES_A_DAY - 1, step); TruncateTo(last, step) == last
  {
    var k := LastWindow(step);
    MultipleMod(step, k);
  }

  lemma TruncateWithin(t: int, step: int)
    requires step > 0
    ensures t - step < TruncateTo(t, step) <= t
  {
  }

  lemma AfterOneMore(cfg: Config, s: State, events: seq<Event>, e: Event)
    ensures After(cfg, s, events + [e]) == Apply(cfg, After(cfg, s, events), e)
  {
    assert (events + [e])[..|events|] == events;
  }

  /** One call judges its first window and saves it. */
  lemma ThreeEvents(cfg: Config, cursor: int, now: int, ws: seq<int>, v: View)
    requires ws == Pending(cfg, Some(cursor), now) && ws != []
    requires v.env.cfg == cfg && Answers(v.env) && Passes(v, ws[0])
    ensures var s := After(cfg, Start(cursor), [Begin(0, now), Judge(0, ws[0], v), Save(0)]);
            s.cursor == ws[0] && s.judged == {ws[0]} && s.whole == if Whole(v, ws[0]) then {ws[0]} else {}
  {
    hide Pending, Passes, Answers, Whole;
    var s, b, j := Start(cursor), Begin(0, now), Judge(0, ws[0], v);
    AfterOneMore(cfg, s, [], b);
    AfterOneMore(cfg, s, [b], j);
    AfterOneMore(cfg, s, [b, j], Save(0));
    assert [] + [b] == [b] && [b] + [j] == [b, j] && [b, j] + [Save(0)] == [b, j, Save(0)];
    hide After;
    var s1 := Apply(cfg, s, b);
    var s2 := Apply(cfg, s1, j);
    assert After(cfg, s, []) == s by { AfterNothing(cfg, s); }
    assert s1.calls[0] == InFlight(ws, false) && s1.judged == {} && s1.whole == {};
    assert s2.calls[0] == InFlight(ws, true);
    assert s2.judged == {ws[0]};
  }

  lemma AfterNothing(cfg: Config, s: State)
    ensures After(cfg, s, []) == s
  {
  }

  /** No run misses a window exactly when the step divides the day; and a run that misses one evaluates a
      counter without rules, for which there was nothing to judge. */
  lemma AtLeastOnceIff(cfg: Config)
    ensures (forall cursor: int, events: seq<Event>, g: int :: Sane(cfg, events) ==> !Missed(cfg, cursor, events, g))
            <==> MINUTES_A_DAY % cfg.Step() == 0
    ensures forall cursor: int, events: seq<Event>, g: int ::
              Sane(cfg, events) && Missed(cfg, cursor, events, g) ==> !HasRules(events)
  {
    hide OnGrid, After, Sane, HasRules;
    forall cursor: int, events: seq<Event>, g: int {:trigger Missed(cfg, cursor, events, g)}
      | Sane(cfg, events) && (MINUTES_A_DAY % cfg.Step() == 0 || HasRules(events))
      ensures !Missed(cfg, cursor, events, g)
    {
      if OnGrid(g, cfg.Step()) && cursor < g <= After(cfg, Start(cursor), events).cursor {
        AtLeastOnce(cfg, cursor, events, g);
      }
    }
    if MINUTES_A_DAY % cfg.Step() != 0 {
      MidnightMissed(cfg);
    }
  }

  // ---- Whether every rule was judged ----

  /** The views a counter can be evaluated in, window by window: with rules, against an API that tiles the
      day. */
  ghost predicate Fair(cfg: Config, possible: iset<(View, int)>) {
    forall v, w :: (v, w) in possible ==> v.env.cfg == cfg && SaneApi(v.env) && Enabled(v.triggers) != []
  }

  ghost predicate Uses(events: seq<Event>, possible: iset<(View, int)>) {
    forall i :: 0 <= i < |events| && events[i].Judge? ==> (events[i].view, events[i].window) in possible
  }

  /** The window has something unjudged, and some rule fires out of its cooldown. */
  ghost predicate Mixed(v: View, window: int) {
    && Answers(v.env) && Unjudged(v.env, Enabled(v.triggers), window)
    && FiresOut(v.env, Enabled(v.triggers), window, v.firedAt, v.clock)
  }

  /** Whether a run leaves a window behind its cursor that was only ever passed with something
      unjudged. */
  ghost predicate PartlyJudged(cfg: Config, cursor: int, events: seq<Event>, g: int) {
    && OnGrid(g, cfg.Step()) && cursor < g <= After(cfg, Start(cursor), events).cursor
    && g !in After(cfg, Start(cursor), events).whole
  }

  lemma {:induction false} WholeIsJudged(cfg: Config, cursor: int, events: seq<Event>)
    requires forall i :: 0 <= i < |events| && events[i].Judge? && OnGrid(events[i].window, cfg.Step())
               ==> !Mixed(events[i].view, events[i].window)
    ensures var s := After(cfg, Start(cursor), events);
            forall g :: g in s.judged && OnGrid(g, cfg.Step()) ==> g in s.whole
  {
    if events != [] {
      var n := |events| - 1;
      WholeIsJudged(cfg, cursor, events[..n]);
      var s, e := After(cfg, Start(cursor), events[..n]), events[n];
      hide After, Pending, Unjudged, FiresOut, OnGrid, Answers;
      if e.Judge? && CanJudge(cfg, s, e.call, e.window, e.view) && OnGrid(e.window, cfg.Step()) {
        assert Whole(e.view, e.window);
      }
    }
  }

  /** A window counts as whole because some evaluation in the run had nothing unjudged; in it every rule
      with a usable filter was judged, as far as its scope's answer held the window. */
  lemma {:induction false} WholeMeans(cfg: Config, cursor: int, events: seq<Event>, g: int)
    requires Sane(cfg, events) && g in After(cfg, Start(cursor), events).whole
    ensures exists i :: 0 <= i < |events| && events[i].Judge? && events[i].window == g && RulesJudged(events[i].view, g)
  {
    var n := |events| - 1;
    var s, e := After(cfg, Start(cursor), events[..n]), events[n];
    Earlier(cfg, events, n);
    if g in s.whole {
      WholeMeans(cfg, cursor, events[..n], g);
      var i :| 0 <= i < n && events[..n][i].Judge? && events[..n][i].window == g && RulesJudged(events[..n][i].view, g);
      assert events[i].window == g;
    } else {
      hide After, Pending, Unjudged, Passes, SaneApi, RulesJudged;
      WholeRules(e.view, g);
    }
  }

  ghost predicate RulesJudged(v: View, window: int) {
    && Answers(v.env)
    && forall t :: t in Enabled(v.triggers) && FilterOf(v.env, t).Ok?
         ==> WholeFor(v.env, Enabled(v.triggers), t, window)
  }

  lemma WholeRules(v: View, window: int)
    requires SaneApi(v.env) && Answers(v.env) && Whole(v, window)
    ensures RulesJudged(v, window)
  {
    hide Unjudged, WholeFor, FilterOf, Enabled, SaneApi, Answers;
    forall t | t in Enabled(v.triggers) && FilterOf(v.env, t).Ok?
      ensures WholeFor(v.env, Enabled(v.triggers), t, window)
    {
      WholeJudged(v.env, Enabled(v.triggers), t, window);
    }
  }

  /** A mixed view passes its window and leaves it partly judged. */
  lemma MixedLeavesPart(cfg: Config, v: View, w: int)
    requires v.env.cfg == cfg && SaneApi(v.env) && Enabled(v.triggers) != []
    requires OnGrid(w, cfg.Step()) && Mixed(v, w)
    ensures var now := w + cfg.Settle();
            PartlyJudged(cfg, w - cfg.Step(), [Begin(0, now), Judge(0, w, v), Save(0)], w)
  {
    hide *;
    MixedPasses(v, w);
    NextIs(cfg, w);
    PartlyRun(cfg, v, w, w - cfg.Step(), w + cfg.Settle(), Pending(cfg, Some(w - cfg.Step()), w + cfg.Settle()));
  }

  lemma PartlyRun(cfg: Config, v: View, w: int, cursor: int, now: int, ws: seq<int>)
    requires ws == Pending(cfg, Some(cursor), now) && ws != [] && ws[0] == w && cursor < w && OnGrid(w, cfg.Step())
    requires v.env.cfg == cfg && Answers(v.env) && Passes(v, w) && !Whole(v, w)
    ensures PartlyJudged(cfg, cursor, [Begin(0, now), Judge(0, w, v), Save(0)], w)
  {
    hide *;
    ThreeEvents(cfg, cursor, now, ws, v);
    PartlyAt(cfg, cursor, [Begin(0, now), Judge(0, w, v), Save(0)], w);
  }

  lemma PartlyAt(cfg: Config, cursor: int, events: seq<Event>, g: int)
    requires OnGrid(g, cfg.Step()) && cursor < g <= After(cfg, Start(cursor), events).cursor
    requires g !in After(cfg, Start(cursor), events).whole
    ensures PartlyJudged(cfg, cursor, events, g)
  {
  }

  lemma MixedPasses(v: View, w: int)
    requires SaneApi(v.env) && Enabled(v.triggers) != [] && Mixed(v, w)
    ensures Answers(v.env) && Passes(v, w) && !Whole(v, w) && MINUTES_A_DAY % v.env.cfg.Step() == 0
  {
    hide Unjudged, FiresOut, Enabled, SaneApi, Answers;
    if MINUTES_A_DAY % v.env.cfg.Step() != 0 {
      NoDivisor(v.env);
      StepMismatch(v, w);
    }
  }

  /** With a dividing step the window after the one before is the window itself. */
  lemma NextIs(cfg: Config, w: int)
    requires MINUTES_A_DAY % cfg.Step() == 0 && OnGrid(w, cfg.Step())
    ensures var ws := Pending(cfg, Some(w - cfg.Step()), w + cfg.Settle()); ws != [] && ws[0] == w
  {
    hide Pending, TruncateTo;
    var step := cfg.Step();
    PendingExact(cfg, w - step, w + cfg.Settle());
    GridIsMultiples(w, step);
    ModAddStep(w - step, step);
    TruncatedIsMultiple(w, step);
    TruncatedIsMultiple(w - step, step);
    GridIsMultiples(w - step, step);
    assert OnGrid(w - step, step);
    assert TruncateTo(w - step, step) == w - step && Latest(cfg, w + cfg.Settle()) == w;
    assert Backlog(cfg, w - step, w + cfg.Settle()) == step / step == 1;
    assert step * (0 + 1) == step;
  }

  /** A counter with rules: over every interleaving each window behind the cursor was judged for all its
      rules at least once, exactly when no window can be evaluated with something unjudged while a rule
      fires out of its cooldown. */
  lemma RulesAtLeastOnceIff(cfg: Config, possible: iset<(View, int)>)
    requires Fair(cfg, possible)
    ensures (forall cursor: int, events: seq<Event>, g: int ::
               Uses(events, possible) ==> !PartlyJudged(cfg, cursor, events, g))
            <==> (forall v, w :: (v, w) in possible && OnGrid(w, cfg.Step()) ==> !Mixed(v, w))
  {
    hide OnGrid, After, Mixed, Enabled, SaneApi;
    if forall v, w :: (v, w) in possible && OnGrid(w, cfg.Step()) ==> !Mixed(v, w) {
      forall cursor: int, events: seq<Event>, g: int {:trigger PartlyJudged(cfg, cursor, events, g)}
        | Uses(events, possible)
        ensures !PartlyJudged(cfg, cursor, events, g)
      {
        NoPart(cfg, possible, cursor, events, g);
      }
    }
    forall v, w | (v, w) in possible && OnGrid(w, cfg.Step()) && Mixed(v, w)
      ensures exists cursor: int, events: seq<Event>, g: int ::
                Uses(events, possible) && PartlyJudged(cfg, cursor, events, g)
    {
      MixedLeavesPart(cfg, v, w);
      var events := [Begin(0, w + cfg.Settle()), Judge(0, w, v), Save(0)];
      assert Uses(events, possible);
      assert PartlyJudged(cfg, w - cfg.Step(), events, w);
    }
  }

  lemma NoPart(cfg: Config, possible: iset<(View, int)>, cursor: int, events: seq<Event>, g: int)
    requires Fair(cfg, possible) && Uses(events, possible)
    requires forall v, w :: (v, w) in possible && OnGrid(w, cfg.Step()) ==> !Mixed(v, w)
    ensures !PartlyJudged(cfg, cursor, events, g)
  {
    hide OnGrid, After, Mixed, Enabled, SaneApi;
    if OnGrid(g, cfg.Step()) && cursor < g <= After(cfg, Start(cursor), events).cursor {
      AtLeastOnce(cfg, cursor, events, g);
      WholeIsJudged(cfg, cursor, events);
    }
  }

  // ---- Getting on ----

  /** After a failed call or a crash nothing of what was saved or judged is lost, and a call that begins then
      has exactly the windows after the saved cursor before it; after a crash no other call is in flight. */
  lemma Resumes(cfg: Config, s: State, e: Event, c: nat, now: int)
    requires e == Fail(c) || e == Crash
    ensures var t := Apply(cfg, Apply(cfg, s, e), Begin(c, now));
            && t.cursor == s.cursor && t.judged == s.judged && t.whole == s.whole
            && c in t.calls && t.calls[c] == InFlight(Pending(cfg, Some(s.cursor), now), false)
            && t.calls - {c} == if e == Crash then map[] else s.calls - {c}
  {
    hide Pending;
    var u := Apply(cfg, s, e);
    assert c !in u.calls;
  }

  /** The events of a call that judges and saves its windows one after the other. */
  function Finishing(c: nat, windows: seq<int>, views: seq<View>): seq<Event>
    requires |windows| == |views|
  {
    if windows == [] then []
    else
      var n := |windows| - 1;
      Finishing(c, windows[..n], views[..n]) + [Judge(c, windows[n], views[n]), Save(c)]
  }

  ghost predicate AllPass(cfg: Config, windows: seq<int>, views: seq<View>) {
    |views| == |windows|
    && forall i :: 0 <= i < |views| ==> views[i].env.cfg == cfg && Answers(views[i].env) && Passes(views[i], windows[i])
  }

  lemma AfterTwo(cfg: Config, s: State, events: seq<Event>, a: Event, b: Event)
    ensures After(cfg, s, events + [a, b]) == Apply(cfg, Apply(cfg, After(cfg, s, events), a), b)
  {
    hide Apply;
    var all := events + [a, b];
    assert all[..|all| - 1] == events + [a];
    assert (events + [a])[..|events|] == events;
  }

  lemma JudgeAndSave(cfg: Config, s: State, c: nat, v: View)
    requires c in s.calls && s.calls[c].windows != [] && !s.calls[c].judged
    requires v.env.cfg == cfg && Answers(v.env) && Passes(v, s.calls[c].windows[0])
    ensures var w := s.calls[c].windows[0];
            var t := Apply(cfg, Apply(cfg, s, Judge(c, w, v)), Save(c));
            && t.cursor == w && t.judged == s.judged + {w}
            && c in t.calls && t.calls[c] == InFlight(s.calls[c].windows[1..], false)
  {
    hide Passes, Whole, Answers;
  }

  /** A call whose windows all pass when it comes to them, with nothing in between, judges every one of them
      and leaves the cursor at the last. */
  lemma {:induction false} Completes(cfg: Config, s: State, c: nat, views: seq<View>, n: nat)
    requires c in s.calls && !s.calls[c].judged && AllPass(cfg, s.calls[c].windows, views)
    requires n <= |views|
    ensures var ws := s.calls[c].windows;
            var t := After(cfg, s, Finishing(c, ws[..n], views[..n]));
            && t.cursor == (if n == 0 then s.cursor else ws[n - 1])
            && t.judged == s.judged + (set w | w in ws[..n])
            && c in t.calls && t.calls[c] == InFlight(ws[n..], false)
  {
    hide Apply, Passes, Answers;
    var ws := s.calls[c].windows;
    if n == 0 {
      assert ws[..0] == [] && ws[0..] == ws;
    } else {
      Completes(cfg, s, c, views, n - 1);
      var events := Finishing(c, ws[..n - 1], views[..n - 1]);
      var t := After(cfg, s, events);
      assert ws[..n][..n - 1] == ws[..n - 1] && views[..n][..n - 1] == views[..n - 1];
      AfterTwo(cfg, s, events, Judge(c, ws[n - 1], views[n - 1]), Save(c));
      assert ws[n - 1..][0] == ws[n - 1] && ws[n - 1..][1..] == ws[n..];
      JudgeAndSave(cfg, t, c, views[n - 1]);
      assert ws[..n] == ws[..n - 1] + [ws[n - 1]];
    }
  }
}
