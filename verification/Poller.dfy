/** Walking a counter through measurement windows (internal/engine/poller.go).

    Times are wall-clock minutes in a zone with a fixed offset; a window is named by its end. */
module Poller {
  import opened Text

  const MINUTES_A_DAY := 1440

  /** Settings as configured; the getters supply the defaults. */
  datatype Config = Config(settleMinutes: int, windowMinutes: int, stepMinutes: int, maxCatchUpSteps: int) {

    function Settle(): (d: int)
      ensures d > 0
    {
      if settleMinutes <= 0 then 20 else settleMinutes
    }

    function Window(): (d: int)
      ensures d > 0
    {
      if windowMinutes <= 0 then 60 else windowMinutes
    }

    function Step(): (d: int)
      ensures d > 0
    {
      if stepMinutes <= 0 then 10 else stepMinutes
    }

    function MaxCatchUp(): (n: nat)
      ensures n > 0
    {
      if maxCatchUpSteps <= 0 then 6 else maxCatchUpSteps
    }
  }

  /** Rounds down to a multiple of the step within the day. */
  function TruncateTo(t: int, step: int): int
    requires step > 0
  {
    var minutes := t % MINUTES_A_DAY;
    t - minutes + (minutes - minutes % step)
  }

  /** The newest window end whose data has settled. */
  function Latest(cfg: Config, now: int): int {
    TruncateTo(now - cfg.Settle(), cfg.Step())
  }

  /** The ends from `end` up to `latest`, at most `room` of them. */
  function WindowsFrom(end: int, latest: int, step: int, room: nat): seq<int>
    requires step > 0
    decreases room
  {
    if end > latest || room == 0 then [] else [end] + WindowsFrom(end + step, latest, step, room - 1)
  }

  function Pending(cfg: Config, cursor: Option<int>, now: int): seq<int> {
    if cursor == None then [Latest(cfg, now)]
    else WindowsFrom(TruncateTo(cursor.value, cfg.Step()) + cfg.Step(), Latest(cfg, now), cfg.Step(), cfg.MaxCatchUp())
  }

  method PendingWindows(cfg: Config, cursor: Option<int>, now: int) returns (windows: seq<int>)
    ensures windows == Pending(cfg, cursor, now)
  {
    hide TruncateTo;
    var step := cfg.Step();
    var latest := TruncateTo(now - cfg.Settle(), step);
    if cursor == None {
      return [latest];
    }
    windows := [];
    var end := TruncateTo(cursor.value, step) + step;
    while end <= latest
      invariant |windows| < cfg.MaxCatchUp()
      invariant windows + WindowsFrom(end, latest, step, cfg.MaxCatchUp() - |windows|) == Pending(cfg, cursor, now)
      decreases latest - end
    {
      windows := windows + [end];
      if |windows| >= cfg.MaxCatchUp() {
        break;
      }
      end := end + step;
    }
  }

  /** Settings left out are a 60-minute window every 10 minutes, judged once 20 minutes old, at most 6 at a
      time. */
  lemma DefaultsFillIn(cfg: Config, cursor: Option<int>, now: int)
    ensures var full := Config(if cfg.settleMinutes > 0 then cfg.settleMinutes else 20,
                               if cfg.windowMinutes > 0 then cfg.windowMinutes else 60,
                               if cfg.stepMinutes > 0 then cfg.stepMinutes else 10,
                               if cfg.maxCatchUpSteps > 0 then cfg.maxCatchUpSteps else 6);
            && Pending(cfg, cursor, now) == Pending(full, cursor, now)
            && cfg.Window() == full.windowMinutes && cfg.Step() == full.stepMinutes
            && cfg.Settle() == full.settleMinutes && cfg.MaxCatchUp() == full.maxCatchUpSteps
  {
    hide TruncateTo, WindowsFrom;
  }

  /** At 14:35 the newest window ends at 14:10, once its 20 minutes are over and its end is rounded down to
      ten minutes; after an outage since 10:00 the first six come first. */
  lemma AfternoonWindows()
    ensures Pending(Config(0, 0, 0, 0), None, 875) == [850]
    ensures Pending(Config(0, 0, 0, 0), Some(600), 875) == [610, 620, 630, 640, 650, 660]
  {
    assert TruncateTo(855, 10) == 850 && TruncateTo(600, 10) == 600;
    hide TruncateTo;
    WindowsStep(610, 850, 10, 6);
    WindowsStep(620, 850, 10, 5);
    WindowsStep(630, 850, 10, 4);
    WindowsStep(640, 850, 10, 3);
    WindowsStep(650, 850, 10, 2);
    WindowsStep(660, 850, 10, 1);
    hide WindowsFrom;
  }

  lemma WindowsStep(end: int, latest: int, step: int, room: nat)
    requires step > 0 && end <= latest && room > 0
    ensures WindowsFrom(end, latest, step, room)
         == [end] + if room == 1 then [] else WindowsFrom(end + step, latest, step, room - 1)
  {
  }

  // ---- The grid of windows ----

  predicate OnGrid(t: int, step: int)
    requires step > 0
  {
    (t % MINUTES_A_DAY) % step == 0
  }

  lemma {:induction false} ModAddMultiple(r: int, step: int, n: int)
    requires step > 0
    ensures (r + step * n) % step == r % step
    decreases if n < 0 then -n else n
  {
    if n > 0 {
      ModAddMultiple(r, step, n - 1);
      assert r + step * n == r + step * (n - 1) + step;
      ModAddStep(r + step * (n - 1), step);
    } else if n < 0 {
      ModAddMultiple(r, step, n + 1);
      assert r + step * (n + 1) == r + step * n + step;
      ModAddStep(r + step * n, step);
    }
  }

  lemma ModAddStep(r: int, step: int)
    requires step > 0
    ensures (r + step) % step == r % step
  {
    assert r == step * (r / step) + r % step;
    assert r + step == step * (r / step + 1) + r % step;
    DivModUnique(r + step, step, r / step + 1, r % step);
  }

  lemma TimesMonotonic(step: int, a: int, b: int)
    requires step > 0
    ensures a <= b ==> step * a <= step * b
  {
    if a <= b {
      assert step * b == step * a + step * (b - a);
    }
  }

  lemma DivModUnique(x: int, step: int, q: int, r: int)
    requires step > 0 && x == step * q + r && 0 <= r < step
    ensures x / step == q && x % step == r
  {
    var q', r' := x / step, x % step;
    assert x == step * q' + r';
    assert step * (q - q') == r' - r;
    TimesMonotonic(step, 1, q - q');
    TimesMonotonic(step, q - q', -1);
  }

  /** When the step divides the day, the grid is the multiples of the step. */
  lemma GridIsMultiples(t: int, step: int)
    requires step > 0 && MINUTES_A_DAY % step == 0
    ensures (t % MINUTES_A_DAY) % step == t % step
    ensures TruncateTo(t, step) == t - t % step
  {
    var perDay := MINUTES_A_DAY / step;
    assert MINUTES_A_DAY == step * perDay;
    var day := t / MINUTES_A_DAY;
    assert t == t % MINUTES_A_DAY + MINUTES_A_DAY * day;
    assert MINUTES_A_DAY * day == step * (perDay * day);
    ModAddMultiple(t % MINUTES_A_DAY, step, perDay * day);
  }

  /** Stepping from a grid point never passes over another one. */
  ghost predicate NoneSkipped(step: int)
    requires step > 0
  {
    forall t, g :: OnGrid(t, step) && OnGrid(g, step) ==> !(t < g < t + step)
  }

  lemma MultiplesApart(t: int, g: int, step: int)
    requires step > 0 && t % step == 0 && g % step == 0 && t < g
    ensures t + step <= g
  {
    assert t == step * (t / step) && g == step * (g / step);
    TimesMonotonic(step, g / step, t / step);
    TimesMonotonic(step, t / step + 1, g / step);
  }

  /** The windows a counter steps through are all the windows of the grid exactly when the step
      divides the day. Otherwise the step from the day's last window passes over midnight. */
  lemma NoneSkippedIff(step: int)
    requires step > 0
    ensures NoneSkipped(step) <==> MINUTES_A_DAY % step == 0
  {
    if MINUTES_A_DAY % step == 0 {
      forall t, g | OnGrid(t, step) && OnGrid(g, step)
        ensures !(t < g < t + step)
      {
        GridIsMultiples(t, step);
        GridIsMultiples(g, step);
        if t < g {
          MultiplesApart(t, g, step);
        }
      }
    } else {
      MidnightSkipped(step);
    }
  }

  lemma MidnightSkipped(step: int)
    requires step > 0 && MINUTES_A_DAY % step != 0
    ensures var last := TruncateTo(MINUTES_A_DAY - 1, step);
            && OnGrid(last, step) && OnGrid(MINUTES_A_DAY, step) && last < MINUTES_A_DAY < last + step
  {
    var last := TruncateTo(MINUTES_A_DAY - 1, step);
    var k := LastWindow(step);
    hide TruncateTo;
    MultipleMod(step, k);
    MultipleMod(step, k + 1);
    assert last + step == step * (k + 1);
  }

  lemma LastWindow(step: int) returns (k: int)
    requires step > 0
    ensures TruncateTo(MINUTES_A_DAY - 1, step) == step * k
    ensures 0 <= step * k < MINUTES_A_DAY <= step * k + step
  {
    var d := MINUTES_A_DAY - 1;
    k := d / step;
    assert d == step * k + d % step;
  }

  lemma MultipleMod(step: int, k: int)
    requires step > 0
    ensures (step * k) % step == 0
  {
    DivModUnique(step * k, step, k, 0);
  }

  // ---- What one call is due to judge ----

  lemma {:induction false} WindowsFromAt(end: int, latest: int, step: int, room: nat)
    requires step > 0
    ensures var ws := WindowsFrom(end, latest, step, room);
            && |ws| <= room
            && (forall i :: 0 <= i < |ws| ==> ws[i] == end + step * i && ws[i] <= latest)
            && (|ws| < room ==> end + step * |ws| > latest)
    decreases room
  {
    if end <= latest && room > 0 {
      WindowsFromAt(end + step, latest, step, room - 1);
      var ws, rest := WindowsFrom(end, latest, step, room), WindowsFrom(end + step, latest, step, room - 1);
      forall i | 0 <= i < |ws|
        ensures ws[i] == end + step * i && ws[i] <= latest
      {
        if i > 0 {
          assert ws[i] == rest[i - 1];
          assert step * i == step * (i - 1) + step;
        }
      }
      assert step * |ws| == step * |rest| + step;
    }
  }

  /** How many settled windows a cursor still owes. */
  function Backlog(cfg: Config, cursor: int, now: int): nat {
    var behind := Latest(cfg, now) - TruncateTo(cursor, cfg.Step());
    if behind <= 0 then 0 else behind / cfg.Step()
  }

  function Min(a: nat, b: nat): nat {
    if a < b then a else b
  }

  lemma CountSteps(first: int, latest: int, step: int, n: nat)
    requires step > 0
    requires (n > 0 ==> first + step * n <= latest) && first + step * (n + 1) > latest
    ensures n == var behind := latest - first; if behind <= 0 then 0 else behind / step
  {
    var behind := latest - first;
    assert step * (n + 1) == step * n + step;
    TimesMonotonic(step, 1, n);
    if behind > 0 {
      DivModUnique(behind, step, n, behind - step * n);
    }
  }

  /** With a step that divides the day, a call judges exactly the settled grid windows after the
      cursor: in order, none skipped, none past the settled end, and as many as there are up to the
      catch-up bound. */
  lemma PendingExact(cfg: Config, cursor: int, now: int)
    requires MINUTES_A_DAY % cfg.Step() == 0
    ensures var ws := Pending(cfg, Some(cursor), now);
            var base := TruncateTo(cursor, cfg.Step());
            && |ws| == Min(Backlog(cfg, cursor, now), cfg.MaxCatchUp())
            && (forall i :: 0 <= i < |ws| ==> ws[i] == base + cfg.Step() * (i + 1) && OnGrid(ws[i], cfg.Step()))
            && (forall i :: 0 <= i < |ws| ==> ws[i] <= now - cfg.Settle())
  {
    var step, latest := cfg.Step(), Latest(cfg, now);
    var base := TruncateTo(cursor, step);
    var ws := Pending(cfg, Some(cursor), now);
    WindowsFromAt(base + step, latest, step, cfg.MaxCatchUp());
    GridIsMultiples(cursor, step);
    GridIsMultiples(now - cfg.Settle(), step);
    TruncatedIsMultiple(cursor, step);
    TruncatedIsMultiple(now - cfg.Settle(), step);
    forall i | 0 <= i < |ws|
      ensures ws[i] == base + step * (i + 1) && OnGrid(ws[i], step)
    {
      assert step * (i + 1) == step + step * i;
      ModAddMultiple(base, step, i + 1);
      GridIsMultiples(ws[i], step);
    }
    CountWindows(base, latest, step, cfg.MaxCatchUp());
  }

  lemma TruncatedIsMultiple(t: int, step: int)
    requires step > 0 && MINUTES_A_DAY % step == 0
    ensures TruncateTo(t, step) % step == 0 && OnGrid(TruncateTo(t, step), step)
    ensures OnGrid(t, step) ==> TruncateTo(t, step) == t
    ensures TruncateTo(t, step) <= t < TruncateTo(t, step) + step
  {
    GridIsMultiples(t, step);
    assert t == step * (t / step) + t % step;
    var base := TruncateTo(t, step);
    assert base == step * (t / step) + 0;
    DivModUnique(base, step, t / step, 0);
    GridIsMultiples(base, step);
  }

  lemma CountWindows(base: int, latest: int, step: int, room: nat)
    requires step > 0
    ensures |WindowsFrom(base + step, latest, step, room)|
            == Min(if latest - base <= 0 then 0 else (latest - base) / step, room)
  {
    hide WindowsFrom;
    var ws := WindowsFrom(base + step, latest, step, room);
    var n := |ws|;
    WindowsFromAt(base + step, latest, step, room);
    assert step * (n + 1) == step + step * n;
    if n > 0 {
      assert ws[n - 1] == base + step + step * (n - 1);
      assert step * n == step + step * (n - 1);
    }
    if n < room {
      CountSteps(base, latest, step, n);
    } else if n > 0 {
      TimesMonotonic(step, 1, n);
      DivAtLeast(latest - base, step, room);
    }
  }

  lemma DivAtLeast(x: int, step: int, n: nat)
    requires step > 0 && x >= step * n
    ensures x / step >= n
  {
    TimesMonotonic(step, x / step + 1, n);
    assert x == step * (x / step) + x % step;
    assert step * (x / step + 1) == step * (x / step) + step;
  }

  // ---- One call, and serial runs of calls ----

  /** A call's circumstances: the clock, which windows are judged without error and which cursors
      can be saved. */
  datatype Call = Call(now: int, judges: int -> bool, saves: int -> bool)

  /** How many windows a call finishes before the first failure. */
  function Finished(windows: seq<int>, call: Call): (n: nat)
    ensures n <= |windows|
    ensures forall i :: 0 <= i < n ==> call.judges(windows[i]) && call.saves(windows[i])
    ensures n < |windows| ==> !(call.judges(windows[n]) && call.saves(windows[n]))
  {
    if windows == [] || !call.judges(windows[0]) || !call.saves(windows[0]) then 0
    else 1 + Finished(windows[1..], call)
  }

  class CounterRecord {
    /** The end of the last window judged and saved. */
    var cursor: Option<int>
    /** Every window judged without error, in order. */
    var judged: seq<int>

    constructor (cursor: Option<int>)
      ensures this.cursor == cursor && judged == []
    {
      this.cursor := cursor;
      judged := [];
    }

    /** Judges the pending windows in order. The cursor follows the last window that was judged and
        saved; a failure ends the call and leaves the cursor where it is. */
    method Advance(cfg: Config, call: Call) returns (ok: bool)
      modifies this
      ensures var ws := Pending(cfg, old(cursor), call.now);
              var n := Finished(ws, call);
              && ok == (n == |ws|)
              && cursor == (if n == 0 then old(cursor) else Some(ws[n - 1]))
              && judged == old(judged) + ws[..n] + if n < |ws| && call.judges(ws[n]) then [ws[n]] else []
    {
      hide Pending;
      var windows := PendingWindows(cfg, cursor, call.now);
      for i := 0 to |windows|
        invariant i <= Finished(windows, call)
        invariant cursor == if i == 0 then old(cursor) else Some(windows[i - 1])
        invariant judged == old(judged) + windows[..i]
      {
        var end := windows[i];
        assert windows[..i + 1] == windows[..i] + [end];
        if !call.judges(end) {
          return false;
        }
        judged := judged + [end];
        if !call.saves(end) {
          return false;
        }
        cursor := Some(end);
      }
      return true;
    }
  }

  function CursorAfter(cfg: Config, cursor: int, call: Call): int {
    var ws := Pending(cfg, Some(cursor), call.now);
    var n := Finished(ws, call);
    if n == 0 then cursor else ws[n - 1]
  }

  function JudgedBy(cfg: Config, cursor: int, call: Call): seq<int> {
    var ws := Pending(cfg, Some(cursor), call.now);
    var n := Finished(ws, call);
    ws[..n] + if n < |ws| && call.judges(ws[n]) then [ws[n]] else []
  }

  /** The windows judged over a serial run of calls, and the cursor it ends with. */
  function JudgedOver(cfg: Config, cursor: int, calls: seq<Call>): seq<int>
    decreases |calls|
  {
    if calls == [] then []
    else JudgedBy(cfg, cursor, calls[0]) + JudgedOver(cfg, CursorAfter(cfg, cursor, calls[0]), calls[1..])
  }

  function CursorOver(cfg: Config, cursor: int, calls: seq<Call>): int
    decreases |calls|
  {
    if calls == [] then cursor else CursorOver(cfg, CursorAfter(cfg, cursor, calls[0]), calls[1..])
  }

  /** The next `n` windows after a cursor. */
  ghost predicate Consecutive(windows: seq<int>, cursor: int, step: int) {
    forall i :: 0 <= i < |windows| ==> windows[i] == cursor + step * (i + 1)
  }

  lemma OneCall(cfg: Config, cursor: int, call: Call)
    requires MINUTES_A_DAY % cfg.Step() == 0 && OnGrid(cursor, cfg.Step())
    requires forall w :: call.saves(w)
    ensures var judged := JudgedBy(cfg, cursor, call);
            && Consecutive(judged, cursor, cfg.Step())
            && CursorAfter(cfg, cursor, call) == cursor + cfg.Step() * |judged|
            && OnGrid(CursorAfter(cfg, cursor, call), cfg.Step())
            && |judged| <= cfg.MaxCatchUp()
            && forall i :: 0 <= i < |judged| ==> judged[i] <= call.now - cfg.Settle()
  {
    hide Pending, Backlog, TruncateTo, OnGrid;
    PendingExact(cfg, cursor, call.now);
    TruncatedIsMultiple(cursor, cfg.Step());
    assert cfg.Step() * 0 == 0;
  }

  lemma ConsecutiveAppend(a: seq<int>, b: seq<int>, cursor: int, step: int)
    requires Consecutive(a, cursor, step) && Consecutive(b, cursor + step * |a|, step)
    ensures Consecutive(a + b, cursor, step)
    ensures cursor + step * |a| + step * |b| == cursor + step * |a + b|
  {
    forall i | |a| <= i < |a + b|
      ensures (a + b)[i] == cursor + step * (i + 1)
    {
      assert (a + b)[i] == b[i - |a|];
      assert step * |a| + step * (i - |a| + 1) == step * (i + 1);
    }
    assert step * |a| + step * |b| == step * (|a| + |b|);
  }

  /** Exactly once and in order: whatever the clock shows and whichever judgements fail, a serial run
      from a grid cursor judges the windows after it one after the other, each once and none
      skipped, and its cursor is the last one judged. */
  lemma {:induction false} SerialExactlyOnce(cfg: Config, cursor: int, calls: seq<Call>)
    requires MINUTES_A_DAY % cfg.Step() == 0 && OnGrid(cursor, cfg.Step())
    requires forall i :: 0 <= i < |calls| ==> forall w :: calls[i].saves(w)
    ensures var judged := JudgedOver(cfg, cursor, calls);
            && Consecutive(judged, cursor, cfg.Step())
            && CursorOver(cfg, cursor, calls) == cursor + cfg.Step() * |judged|
    decreases |calls|
  {
    hide JudgedBy, CursorAfter, OnGrid;
    if calls != [] {
      OneCall(cfg, cursor, calls[0]);
      var next := CursorAfter(cfg, cursor, calls[0]);
      SerialExactlyOnce(cfg, next, calls[1..]);
      ConsecutiveAppend(JudgedBy(cfg, cursor, calls[0]), JudgedOver(cfg, next, calls[1..]), cursor, cfg.Step());
    } else {
      assert cfg.Step() * 0 == 0;
    }
  }

  /** `n` calls at the same moment, all going well. */
  function Repeat(call: Call, n: nat): seq<Call> {
    if n == 0 then [] else [call] + Repeat(call, n - 1)
  }

  function Less(a: nat, b: nat): nat {
    if a < b then 0 else a - b
  }

  lemma BacklogAfterOne(cfg: Config, cursor: int, call: Call)
    requires MINUTES_A_DAY % cfg.Step() == 0 && OnGrid(cursor, cfg.Step())
    requires forall w :: call.judges(w) && call.saves(w)
    ensures Backlog(cfg, CursorAfter(cfg, cursor, call), call.now)
            == Less(Backlog(cfg, cursor, call.now), cfg.MaxCatchUp())
  {
    hide Pending, OnGrid, TruncateTo;
    var step := cfg.Step();
    var next := CursorAfter(cfg, cursor, call);
    var ws := Pending(cfg, Some(cursor), call.now);
    OneCall(cfg, cursor, call);
    PendingExact(cfg, cursor, call.now);
    TruncatedIsMultiple(cursor, step);
    TruncatedIsMultiple(next, step);
    assert Finished(ws, call) == |ws|;
    hide Finished;
    assert JudgedBy(cfg, cursor, call) == ws;
    hide JudgedBy, CursorAfter;
    var latest := Latest(cfg, call.now);
    assert next == cursor + step * |ws|;
    BacklogShrinks(latest - cursor, step, |ws|, cfg.MaxCatchUp());
  }

  lemma BacklogShrinks(behind: int, step: int, n: nat, room: nat)
    requires step > 0 && room > 0
    requires n == Min(if behind <= 0 then 0 else behind / step, room)
    ensures var left := behind - step * n;
            (if left <= 0 then 0 else left / step) == Less(if behind <= 0 then 0 else behind / step, room)
  {
    if behind > 0 {
      var q, r := behind / step, behind % step;
      assert behind == step * q + r;
      assert behind - step * n == step * (q - n) + r;
      TimesMonotonic(step, 0, q - n);
      DivModUnique(behind - step * n, step, q - n, r);
    } else {
      assert step * 0 == 0;
    }
  }

  /** Convergence: each successful call takes the catch-up bound off the backlog, so after `n` calls
      `n` times the bound is gone; the backlog is zero exactly when that covers it. */
  lemma {:induction false} Converges(cfg: Config, cursor: int, call: Call, n: nat)
    requires MINUTES_A_DAY % cfg.Step() == 0 && OnGrid(cursor, cfg.Step())
    requires forall w :: call.judges(w) && call.saves(w)
    ensures Backlog(cfg, CursorOver(cfg, cursor, Repeat(call, n)), call.now)
            == Less(Backlog(cfg, cursor, call.now), cfg.MaxCatchUp() * n)
    decreases n
  {
    hide Backlog, CursorAfter, OnGrid;
    var max := cfg.MaxCatchUp();
    if n > 0 {
      BacklogAfterOne(cfg, cursor, call);
      OneCall(cfg, cursor, call);
      var next := CursorAfter(cfg, cursor, call);
      Converges(cfg, next, call, n - 1);
      assert Repeat(call, n)[1..] == Repeat(call, n - 1);
      assert max * n == max * (n - 1) + max;
    } else {
      assert max * 0 == 0;
    }
  }

  /** A counter that was never polled starts at the newest settled window: nothing older is judged. */
  lemma FirstPoll(cfg: Config, now: int)
    requires MINUTES_A_DAY % cfg.Step() == 0
    ensures var ws := Pending(cfg, None, now);
            |ws| == 1 && OnGrid(ws[0], cfg.Step()) && ws[0] <= now - cfg.Settle() < ws[0] + cfg.Step()
  {
    TruncatedIsMultiple(now - cfg.Settle(), cfg.Step());
  }
}
