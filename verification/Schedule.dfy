/** When periodic reports are sent (internal/engine/schedule.go, internal/engine/scheduler.go).

    A moment is a wall-clock time in nanoseconds, in a zone with a fixed offset. */
module Schedule {
  import opened Text
  import opened Clock
  import Poller

  const DAY: int := 86_400 * SECOND

  datatype Schedule = Off | Every(gap: int) | Daily(hour: nat, minute: nat)

  predicate ValidTime(hour: nat, minute: nat) {
    hour < 24 && minute < 60
  }

  function DayOf(t: int): int {
    t / DAY
  }

  /** The configured time on a day. */
  function At(hour: nat, minute: nat, day: int): int {
    day * DAY + (hour * 60 + minute) * 60 * SECOND
  }

  /** When the report after `last` is due; no `last` means nothing was recorded yet. */
  function Next(s: Schedule, last: Option<int>, now: int): Option<int> {
    match s
    case Off => None
    case Every(gap) => if last == None then Some(now) else Some(last.value + gap)
    case Daily(hour, minute) =>
      var today := At(hour, minute, DayOf(now));
      if last == None then
        if today <= now then Some(today + DAY) else Some(today)
      else if last.value < today then Some(today)
      else Some(today + DAY)
  }

  predicate Due(s: Schedule, last: Option<int>, now: int) {
    var next := Next(s, last, now);
    next.Some? && next.value <= now
  }

  /** One look at the clock, and whether a run could be recorded then. */
  datatype Tick = Tick(now: int, saves: bool)

  predicate Sends(s: Schedule, last: Option<int>, tick: Tick) {
    Due(s, last, tick.now) && tick.saves
  }

  class ReportScheduler {
    var schedule: Schedule
    var lastRun: Option<int>
    /** The moments at which reports were handed to the reporter. */
    var sent: seq<int>

    constructor (schedule: Schedule, lastRun: Option<int>)
      ensures this.schedule == schedule && this.lastRun == lastRun && sent == []
    {
      this.schedule, this.lastRun := schedule, lastRun;
      sent := [];
    }

    method SetSchedule(schedule: Schedule)
      modifies this`schedule
      ensures this.schedule == schedule
    {
      this.schedule := schedule;
    }

    /** The run is recorded, to the whole second, before the report goes out; when it cannot be, nothing goes
        out. */
    method RunTick(tick: Tick)
      modifies this`lastRun, this`sent
      ensures sent == old(sent) + Run(schedule, old(lastRun), [tick])
      ensures lastRun == LastAfter(schedule, old(lastRun), [tick])
      ensures || (sent == old(sent) + [tick.now] && lastRun == Some(WholeSeconds(tick.now)))
              || (sent == old(sent) && lastRun == old(lastRun))
      ensures sent == old(sent) + [tick.now] <==>
              && tick.saves
              && match schedule
                 case Off => false
                 case Every(gap) => old(lastRun) == None || tick.now - old(lastRun).value >= gap
                 case Daily(hour, minute) =>
                   old(lastRun).Some? && old(lastRun).value < At(hour, minute, DayOf(tick.now)) <= tick.now
    {
      if schedule == Off {
        return;
      }
      var next := Next(schedule, lastRun, tick.now);
      if next == None || next.value > tick.now {
        return;
      }
      if !tick.saves {
        return;
      }
      lastRun := Some(WholeSeconds(tick.now));
      sent := sent + [tick.now];
    }
  }

  // ---- Whole runs of a fixed schedule ----

  /** The moments at which reports go out over a run of ticks. */
  function Run(s: Schedule, last: Option<int>, ticks: seq<Tick>): seq<int>
    decreases |ticks|
  {
    if ticks == [] then []
    else if Sends(s, last, ticks[0]) then [ticks[0].now] + Run(s, Some(WholeSeconds(ticks[0].now)), ticks[1..])
    else Run(s, last, ticks[1..])
  }

  function LastAfter(s: Schedule, last: Option<int>, ticks: seq<Tick>): Option<int>
    decreases |ticks|
  {
    if ticks == [] then last
    else LastAfter(s, if Sends(s, last, ticks[0]) then Some(WholeSeconds(ticks[0].now)) else last, ticks[1..])
  }

  /** A run taken in two stretches is the run over all the ticks. */
  lemma {:induction false} RunAppend(s: Schedule, last: Option<int>, a: seq<Tick>, b: seq<Tick>)
    ensures Run(s, last, a + b) == Run(s, last, a) + Run(s, LastAfter(s, last, a), b)
    ensures LastAfter(s, last, a + b) == LastAfter(s, LastAfter(s, last, a), b)
    decreases |a|
  {
    hide Sends;
    if a == [] {
      assert a + b == b;
    } else {
      assert (a + b)[0] == a[0] && (a + b)[1..] == a[1..] + b;
      RunAppend(s, if Sends(s, last, a[0]) then Some(WholeSeconds(a[0].now)) else last, a[1..], b);
    }
  }

  ghost predicate Ordered(ticks: seq<Tick>) {
    forall i, j :: 0 <= i < j < |ticks| ==> ticks[i].now <= ticks[j].now
  }

  // ---- Daily reports ----

  function SentOn(sent: seq<int>, day: int): nat {
    if sent == [] then 0 else (if DayOf(sent[0]) == day then 1 else 0) + SentOn(sent[1..], day)
  }

  /** Some tick of the day comes at or after the configured time and could record a run. */
  predicate Reached(hour: nat, minute: nat, ticks: seq<Tick>, day: int) {
    exists i :: 0 <= i < |ticks| && DayOf(ticks[i].now) == day && At(hour, minute, day) <= ticks[i].now
      && ticks[i].saves
  }

  /** Due means: not yet run since today's configured time, which has come. */
  lemma DailyDueIff(hour: nat, minute: nat, last: int, now: int)
    requires ValidTime(hour, minute)
    ensures Due(Daily(hour, minute), Some(last), now)
            <==> last < At(hour, minute, DayOf(now)) <= now
  {
  }

  // ---- The clock on the wall ----

  const HOUR: int := 3600 * SECOND
  const MINUTE: int := 60 * SECOND

  function HourOf(t: int): int {
    t % DAY / HOUR
  }

  function MinuteOf(t: int): int {
    t % HOUR / MINUTE
  }

  /** The clock shows this time or a later one of the day. */
  predicate Shows(hour: nat, minute: nat, t: int) {
    HourOf(t) > hour || (HourOf(t) == hour && MinuteOf(t) >= minute)
  }

  lemma ShowsIff(hour: nat, minute: nat, day: int, t: int)
    requires ValidTime(hour, minute)
    ensures At(hour, minute, day) <= t <==> day < DayOf(t) || (day == DayOf(t) && Shows(hour, minute, t))
  {
    var r := t % DAY;
    assert r % HOUR == t % HOUR by {
      assert DAY == 24 * HOUR;
      var h := r / HOUR;
      assert t == HOUR * (24 * DayOf(t) + h) + r % HOUR;
    }
  }

  /** A daily report is due exactly when the clock shows its time or later and the last run was on an earlier
      day, or earlier today than that. */
  lemma DailyClock(hour: nat, minute: nat, last: int, now: int)
    requires ValidTime(hour, minute)
    ensures Due(Daily(hour, minute), Some(last), now) <==>
            && Shows(hour, minute, now)
            && (DayOf(last) < DayOf(now) || (DayOf(last) == DayOf(now) && !Shows(hour, minute, last)))
  {
    DailyDueIff(hour, minute, last, now);
    ShowsIff(hour, minute, DayOf(now), now);
    ShowsIff(hour, minute, DayOf(now), last);
    hide Due, At, DayOf, Shows;
  }

  /** The next daily report is at the time of day asked for. With no recorded run it is the first such moment
      after now; else the first one from today on that lies after the last run. */
  lemma NextDaily(hour: nat, minute: nat, last: Option<int>, now: int)
    requires ValidTime(hour, minute) && (last.Some? ==> last.value <= now)
    ensures var next := Next(Daily(hour, minute), last, now);
            && next.Some? && HourOf(next.value) == hour && MinuteOf(next.value) == minute && next.value % MINUTE == 0
            && DayOf(next.value) >= DayOf(now) && next.value > (if last == None then now else last.value)
            && (DayOf(next.value) > DayOf(now) ==> next.value - DAY <= (if last == None then now else last.value))
  {
    TimeShown(hour, minute, DayOf(now));
    TimeShown(hour, minute, DayOf(now) + 1);
    assert now < (DayOf(now) + 1) * DAY;
    hide HourOf, MinuteOf, DayOf;
  }

  lemma TimeShown(hour: nat, minute: nat, day: int)
    requires ValidTime(hour, minute)
    ensures var t := At(hour, minute, day);
            && HourOf(t) == hour && MinuteOf(t) == minute && t % MINUTE == 0 && DayOf(t) == day
            && At(hour, minute, day + 1) == t + DAY
  {
    var t := At(hour, minute, day);
    var inDay := hour * HOUR + minute * MINUTE;
    Poller.DivModUnique(t, DAY, day, inDay);
    Poller.DivModUnique(inDay, HOUR, hour, minute * MINUTE);
    Poller.DivModUnique(t, HOUR, 24 * day + hour, minute * MINUTE);
    Poller.DivModUnique(minute * MINUTE, MINUTE, minute, 0);
    Poller.DivModUnique(t, MINUTE, 60 * (24 * day + hour) + minute, 0);
  }

  /** Dropping the fraction of a second keeps a run on its side of every configured time. */
  lemma SavedKeepsOrder(hour: nat, minute: nat, t: int, day: int)
    requires ValidTime(hour, minute)
    ensures WholeSeconds(t) <= t
    ensures At(hour, minute, day) <= t <==> At(hour, minute, day) <= WholeSeconds(t)
  {
    var a := At(hour, minute, day);
    assert a == SECOND * (86_400 * day + (hour * 60 + minute) * 60);
    assert a % SECOND == 0;
    assert WholeSeconds(t) % SECOND == 0 && t - SECOND < WholeSeconds(t) <= t;
    if a <= t && WholeSeconds(t) < a {
      MultiplesApart(WholeSeconds(t), a);
    }
  }

  lemma MultiplesApart(x: int, y: int)
    requires x % SECOND == 0 && y % SECOND == 0 && x < y
    ensures x + SECOND <= y
  {
  }

  lemma DayBounds(hour: nat, minute: nat, t: int, day: int)
    requires ValidTime(hour, minute)
    ensures DayOf(t) < day ==> t < At(hour, minute, day)
    ensures DayOf(t) == day ==> t < At(hour, minute, day + 1)
    ensures At(hour, minute, day) < At(hour, minute, day + 1)
  {
  }

  /** With a recorded last run and a clock that does not go back, a day gets exactly one report when
      its configured time lies after the last run and some tick that day reaches it, and none
      otherwise. */
  lemma {:induction false} DailyOnce(hour: nat, minute: nat, last: int, ticks: seq<Tick>, day: int)
    requires ValidTime(hour, minute) && Ordered(ticks)
    ensures SentOn(Run(Daily(hour, minute), Some(last), ticks), day)
            == if last < At(hour, minute, day) && Reached(hour, minute, ticks, day) then 1 else 0
    decreases |ticks|
  {
    if ticks != [] {
      var t, later := ticks[0], ticks[1..];
      var today := DayOf(t.now);
      var s := Daily(hour, minute);
      DailyDueIff(hour, minute, last, t.now);
      SavedKeepsOrder(hour, minute, t.now, day);
      SavedKeepsOrder(hour, minute, t.now, today);
      ReachedTail(hour, minute, ticks, day);
      hide Due, Next, At, DayOf, WholeSeconds, Reached;
      if Sends(s, Some(last), t) {
        DailyOnce(hour, minute, WholeSeconds(t.now), later, day);
        var rest := Run(s, Some(WholeSeconds(t.now)), later);
        assert ([t.now] + rest)[1..] == rest;
        DaysApart(hour, minute, last, ticks, day);
      } else {
        DailyOnce(hour, minute, last, later, day);
      }
    }
  }

  lemma ReachedTail(hour: nat, minute: nat, ticks: seq<Tick>, day: int)
    requires ticks != []
    ensures Reached(hour, minute, ticks, day) <==>
            || (DayOf(ticks[0].now) == day && At(hour, minute, day) <= ticks[0].now && ticks[0].saves)
            || Reached(hour, minute, ticks[1..], day)
  {
    hide DayOf, At;
    assert forall i :: 1 <= i < |ticks| ==> ticks[i] == ticks[1..][i - 1];
    if Reached(hour, minute, ticks[1..], day) {
      var i :| 0 <= i < |ticks| - 1 && DayOf(ticks[1..][i].now) == day
               && At(hour, minute, day) <= ticks[1..][i].now && ticks[1..][i].saves;
      assert ticks[i + 1] == ticks[1..][i];
    }
  }

  /** After a report today: later days are still ahead of it, earlier ones are over. */
  lemma DaysApart(hour: nat, minute: nat, last: int, ticks: seq<Tick>, day: int)
    requires ValidTime(hour, minute) && Ordered(ticks) && ticks != []
    requires last < At(hour, minute, DayOf(ticks[0].now)) <= ticks[0].now
    ensures var today := DayOf(ticks[0].now);
            && (today < day ==> WholeSeconds(ticks[0].now) < At(hour, minute, day) && last < At(hour, minute, day))
            && (today > day ==> !Reached(hour, minute, ticks, day))
  {
    DayBounds(hour, minute, ticks[0].now, day);
    SavedKeepsOrder(hour, minute, ticks[0].now, day);
    forall i | 0 <= i < |ticks|
      ensures DayOf(ticks[0].now) <= DayOf(ticks[i].now)
    {
      assert ticks[0].now <= ticks[i].now;
    }
  }

  /** Every report goes out at or after the configured time of its day. */
  lemma {:induction false} DailyNotEarly(hour: nat, minute: nat, last: Option<int>, ticks: seq<Tick>)
    requires ValidTime(hour, minute)
    ensures forall t :: t in Run(Daily(hour, minute), last, ticks) ==> At(hour, minute, DayOf(t)) <= t
    decreases |ticks|
  {
    if ticks != [] {
      DailyNotEarly(hour, minute, if Sends(Daily(hour, minute), last, ticks[0])
        then Some(WholeSeconds(ticks[0].now)) else last, ticks[1..]);
      hide At, DayOf;
    }
  }

  /** A daily schedule that finds no recorded run never sends, however long it runs: every tick puts
      the next report after itself, and nothing is recorded. With a recorded run it does send. */
  lemma {:induction false} DailyNeedsRecord(hour: nat, minute: nat, ticks: seq<Tick>)
    requires ValidTime(hour, minute)
    ensures Run(Daily(hour, minute), None, ticks) == []
    ensures LastAfter(Daily(hour, minute), None, ticks) == None
    decreases |ticks|
  {
    if ticks != [] {
      DailyNeedsRecord(hour, minute, ticks[1..]);
    }
  }

  /** A daily schedule sends some report over a run exactly when a last run is recorded and some day
      after it is reached. */
  lemma DailySendsIff(hour: nat, minute: nat, last: Option<int>, ticks: seq<Tick>)
    requires ValidTime(hour, minute) && Ordered(ticks)
    ensures Run(Daily(hour, minute), last, ticks) != [] <==>
            last != None && exists i :: 0 <= i < |ticks| && ticks[i].saves
                                        && last.value < At(hour, minute, DayOf(ticks[i].now)) <= ticks[i].now
  {
    hide Run, At, DayOf, Due;
    var s := Daily(hour, minute);
    if last == None {
      DailyNeedsRecord(hour, minute, ticks);
    } else {
      var sent := Run(s, last, ticks);
      if sent != [] {
        var day := DayOf(sent[0]);
        DailyOnce(hour, minute, last.value, ticks, day);
        assert SentOn(sent, day) >= 1;
        var i :| 0 <= i < |ticks| && DayOf(ticks[i].now) == day && At(hour, minute, day) <= ticks[i].now
          && ticks[i].saves;
        assert ticks[i].saves && last.value < At(hour, minute, DayOf(ticks[i].now)) <= ticks[i].now;
      } else {
        forall i | 0 <= i < |ticks| && ticks[i].saves
          ensures !(last.value < At(hour, minute, DayOf(ticks[i].now)) <= ticks[i].now)
        {
          DailyOnce(hour, minute, last.value, ticks, DayOf(ticks[i].now));
        }
      }
    }
  }

  // ---- Reports every so often ----

  /** Two reports of an interval schedule are the interval apart, up to the second that storing the
      earlier one drops; the first is that far from the recorded run. */
  ghost predicate Apart(gap: int, last: Option<int>, sent: seq<int>) {
    && (last != None ==> forall i :: 0 <= i < |sent| ==> sent[i] >= last.value + gap)
    && (forall i, j :: 0 <= i < j < |sent| ==> sent[j] - sent[i] > gap - SECOND)
  }

  lemma {:induction false} EveryApart(gap: int, last: Option<int>, ticks: seq<Tick>)
    requires gap >= SECOND
    ensures Apart(gap, last, Run(Every(gap), last, ticks))
    decreases |ticks|
  {
    if ticks != [] {
      var t, later := ticks[0], ticks[1..];
      if Sends(Every(gap), last, t) {
        EveryApart(gap, Some(WholeSeconds(t.now)), later);
        assert t.now - SECOND < WholeSeconds(t.now) <= t.now;
        ApartPrepend(gap, last, t.now, WholeSeconds(t.now), Run(Every(gap), Some(WholeSeconds(t.now)), later));
      } else {
        EveryApart(gap, last, later);
        assert Run(Every(gap), last, ticks) == Run(Every(gap), last, later);
      }
    }
  }

  /** The last recorded run after these reports went out. */
  function RecordedRun(last: Option<int>, sent: seq<int>): Option<int> {
    if sent == [] then last else Some(WholeSeconds(sent[|sent| - 1]))
  }

  lemma {:induction false} RecordedIs(s: Schedule, last: Option<int>, ticks: seq<Tick>)
    ensures LastAfter(s, last, ticks) == RecordedRun(last, Run(s, last, ticks))
    decreases |ticks|
  {
    hide Sends, WholeSeconds;
    if ticks != [] {
      RecordedIs(s, if Sends(s, last, ticks[0]) then Some(WholeSeconds(ticks[0].now)) else last, ticks[1..]);
    }
  }

  /** Over any run of an interval schedule, a tick that can be recorded sends a report exactly when nothing was
      recorded before it, or the last recorded run is at least the interval before it; no other tick does. */
  lemma EverySendsIff(gap: int, last: Option<int>, ticks: seq<Tick>, i: nat)
    requires i < |ticks|
    ensures var before := Run(Every(gap), last, ticks[..i]);
            var recorded := RecordedRun(last, before);
            var sends := ticks[i].saves && (recorded == None || ticks[i].now - recorded.value >= gap);
            Run(Every(gap), last, ticks[..i + 1]) == before + if sends then [ticks[i].now] else []
  {
    var tick := ticks[i];
    assert ticks[..i + 1] == ticks[..i] + [tick];
    RunAppend(Every(gap), last, ticks[..i], [tick]);
    RecordedIs(Every(gap), last, ticks[..i]);
    OneTick(gap, RecordedRun(last, Run(Every(gap), last, ticks[..i])), tick);
    hide Run, LastAfter, RecordedRun;
  }

  lemma OneTick(gap: int, last: Option<int>, tick: Tick)
    ensures Run(Every(gap), last, [tick])
         == if tick.saves && (last == None || tick.now - last.value >= gap) then [tick.now] else []
  {
    assert [tick][1..] == [];
    assert [tick.now] + [] == [tick.now];
  }

  /** So the first tick that can be recorded sends when there is no record; and after a report, every tick that
      can be recorded and comes at least the interval later sends the next one. */
  lemma EveryInTime(gap: int, last: Option<int>, ticks: seq<Tick>, i: nat)
    requires i < |ticks| && ticks[i].saves
    requires var before := Run(Every(gap), last, ticks[..i]);
             if before == [] then last == None || ticks[i].now - last.value >= gap
             else ticks[i].now - before[|before| - 1] >= gap
    ensures ticks[i].now in Run(Every(gap), last, ticks)
  {
    hide Run;
    EverySendsIff(gap, last, ticks, i);
    assert ticks == ticks[..i + 1] + ticks[i + 1..];
    RunAppend(Every(gap), last, ticks[..i + 1], ticks[i + 1..]);
    var before := Run(Every(gap), last, ticks[..i]);
    if before != [] {
      assert WholeSeconds(before[|before| - 1]) <= before[|before| - 1];
    }
    hide WholeSeconds;
    assert ticks[i].now in Run(Every(gap), last, ticks[..i + 1]);
  }

  lemma ApartPrepend(gap: int, last: Option<int>, t: int, saved: int, rest: seq<int>)
    requires gap >= SECOND && t - SECOND < saved <= t && (last != None ==> t >= last.value + gap)
    requires Apart(gap, Some(saved), rest)
    ensures Apart(gap, last, [t] + rest)
  {
    var sent := [t] + rest;
    forall j | 1 <= j < |sent|
      ensures sent[j] >= saved + gap && sent[j] == rest[j - 1]
    {
    }
  }
}
