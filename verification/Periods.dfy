/** The usage-period windows of `usage.py` and the spend-limit windows of `key_limits.py`. */
module Periods {
  import opened Calendar
  import opened Prelude

  datatype Window = Window(start: Instant, end: Instant) {
    predicate Holds(t: Instant) {
      start.AtOrBefore(t) && t.Before(end)
    }

    /** `t` is properly inside, not at the start. */
    predicate Inside(t: Instant) {
      start.Before(t) && t.Before(end)
    }
  }

  /** What fixes a user's windows: `token_reset_mode` and its anchor. */
  datatype Mode =
    | AccountCreation(created: Instant)
    | CalendarMonth(resetDay: int)
    | Weekly(resetWeekday: int)
  {
    /** The ranges `config.py` allows for the two anchor settings. */
    predicate Valid() {
      match this
      case AccountCreation(created) => created.Valid()
      case CalendarMonth(resetDay) => 1 <= resetDay <= 28
      case Weekly(resetWeekday) => 0 <= resetWeekday <= 6
    }
  }

  /** `_month_anchor`: the anchor day of month `k`, clamped to the month's length, at a whole second. */
  function MonthAnchor(k: int, day: int, second: int): Instant {
    Instant(FirstDay(k) + Min(day, DaysInMonth(k)) - 1, second, 0)
  }

  /** This month's anchor if it is not in the future, else last month's; and the anchor a month later. */
  function MonthWindow(now: Instant, day: int, second: int): Window {
    var k := MonthOf(now.day);
    if now.Before(MonthAnchor(k, day, second))
    then Window(MonthAnchor(k - 1, day, second), MonthAnchor(k, day, second))
    else Window(MonthAnchor(k, day, second), MonthAnchor(k + 1, day, second))
  }

  function WeekWindow(now: Instant, resetWeekday: int): Window {
    var first := now.day - (Weekday(now.day) - resetWeekday) % 7;
    Window(Instant(first, 0, 0), Instant(first + 7, 0, 0))
  }

  /** `_account_creation_period`, `_calendar_month_period` and `_weekly_period`. */
  function PeriodOf(mode: Mode, now: Instant): Window {
    match mode
    case AccountCreation(created) => MonthWindow(now, DayOfMonth(created.day), created.second)
    case CalendarMonth(resetDay) => MonthWindow(now, resetDay, 0)
    case Weekly(resetWeekday) => WeekWindow(now, resetWeekday)
  }

  /** The instants at which a window may start, said without reference to any `now`. */
  predicate IsReset(mode: Mode, t: Instant) {
    match mode
    case AccountCreation(created) => IsMonthlyReset(t, DayOfMonth(created.day), created.second)
    case CalendarMonth(resetDay) => IsMonthlyReset(t, resetDay, 0)
    case Weekly(resetWeekday) => Weekday(t.day) == resetWeekday && t.second == 0 && t.micro == 0
  }

  /** Day `day` of a month, or the last day of a month too short to have it. */
  predicate IsMonthlyReset(t: Instant, day: int, second: int) {
    && DayOfMonth(t.day) == Min(day, DaysInMonth(MonthOf(t.day)))
    && t.second == second
    && t.micro == 0
  }

  /** `w` is the stretch between two neighbouring reset instants that holds `now`. */
  ghost predicate IsResetWindow(mode: Mode, now: Instant, w: Window) {
    && w.Holds(now)
    && IsReset(mode, w.start)
    && IsReset(mode, w.end)
    && forall t | w.Inside(t) :: !IsReset(mode, t)
  }

  lemma AnchorInMonth(k: int, day: int, second: int)
    requires 1 <= day
    ensures MonthOf(MonthAnchor(k, day, second).day) == k
    ensures forall t :: IsMonthlyReset(t, day, second) && MonthOf(t.day) == k <==> t == MonthAnchor(k, day, second)
  {
    MonthsAbut(k);
    MonthIsUnique(MonthAnchor(k, day, second).day, k);
  }

  /** Nothing between two consecutive anchors is a monthly reset. */
  lemma NoResetBetweenAnchors(t: Instant, k: int, day: int, second: int)
    requires 1 <= day
    requires MonthAnchor(k, day, second).Before(t) && t.Before(MonthAnchor(k + 1, day, second))
    ensures !IsMonthlyReset(t, day, second)
  {
    AnchorInMonth(k, day, second);
    AnchorInMonth(k + 1, day, second);
    MonthsOrderDays(MonthAnchor(k, day, second).day, t.day);
    MonthsOrderDays(t.day, MonthAnchor(k + 1, day, second).day);
  }

  lemma MonthWindowExact(now: Instant, day: int, second: int)
    requires 1 <= day
    ensures var w := MonthWindow(now, day, second);
            && w.Holds(now)
            && IsMonthlyReset(w.start, day, second) && IsMonthlyReset(w.end, day, second)
            && forall t | w.Inside(t) :: !IsMonthlyReset(t, day, second)
  {
    hide FirstDay, DaysInMonth, IsMonthlyReset;
    var here := MonthOf(now.day);
    var k := if now.Before(MonthAnchor(here, day, second)) then here - 1 else here;
    assert MonthAnchor(k, day, second).AtOrBefore(now) && now.Before(MonthAnchor(k + 1, day, second)) by {
      MonthsAbut(here - 1);
      MonthsAbut(here + 1);
    }
    AnchorInMonth(k, day, second);
    AnchorInMonth(k + 1, day, second);
    forall t | MonthAnchor(k, day, second).Before(t) && t.Before(MonthAnchor(k + 1, day, second))
      ensures !IsMonthlyReset(t, day, second)
    {
      NoResetBetweenAnchors(t, k, day, second);
    }
  }

  lemma WeekWindowExact(now: Instant, resetWeekday: int)
    requires now.Valid() && 0 <= resetWeekday <= 6
    ensures IsResetWindow(Weekly(resetWeekday), now, WeekWindow(now, resetWeekday))
  {
    var w := WeekWindow(now, resetWeekday);
    var first := w.start.day;
    assert first <= now.day < first + 7;
    assert (first + 6) % 7 == resetWeekday;
    forall t | w.Inside(t)
      ensures !IsReset(Weekly(resetWeekday), t)
    {
      if t.second == 0 && t.micro == 0 {
        var n := t.day - first;
        assert 0 < n < 7;
        assert (first + n + 6) % 7 != (first + 6) % 7;
      }
    }
  }

  /**
   All three period functions return the window between the last reset instant
   that is not after `now` and the next one: the anchor day clamped to a short
   month, or midnight of the anchor weekday.
   */
  lemma PeriodIsResetWindow(mode: Mode, now: Instant)
    requires mode.Valid() && now.Valid()
    ensures IsResetWindow(mode, now, PeriodOf(mode, now))
  {
    match mode
    case AccountCreation(created) =>
      MonthWindowExact(now, DayOfMonth(created.day), created.second);
    case CalendarMonth(resetDay) =>
      MonthWindowExact(now, resetDay, 0);
    case Weekly(resetWeekday) =>
      WeekWindowExact(now, resetWeekday);
  }

  lemma ResetWindowIsUnique(mode: Mode, t: Instant, v: Window, w: Window)
    requires IsResetWindow(mode, t, v) && IsResetWindow(mode, t, w)
    ensures v == w
  {
    assert !v.Inside(w.start) && !w.Inside(v.start);
    assert !v.Inside(w.end) && !w.Inside(v.end);
  }

  /** The windows tile time: one window for all its instants, and the next one starts where it ends. */
  lemma PeriodsTileTime(mode: Mode, now: Instant)
    requires mode.Valid() && now.Valid()
    ensures forall t: Instant | t.Valid() && PeriodOf(mode, now).Holds(t) :: PeriodOf(mode, t) == PeriodOf(mode, now)
    ensures PeriodOf(mode, PeriodOf(mode, now).end).start == PeriodOf(mode, now).end
  {
    var w := PeriodOf(mode, now);
    PeriodIsResetWindow(mode, now);
    forall t: Instant | t.Valid() && w.Holds(t)
      ensures PeriodOf(mode, t) == w
    {
      PeriodIsResetWindow(mode, t);
      ResetWindowIsUnique(mode, t, PeriodOf(mode, t), w);
    }
    PeriodIsResetWindow(mode, w.end);
    assert !PeriodOf(mode, w.end).Inside(w.end);
  }

  // ---- spend-limit windows of an API key ----

  datatype LimitPeriod = Daily | Monthly | Never

  /** `limit_window`: the window of a capped key; a lifetime limit has none. */
  function LimitWindow(period: LimitPeriod, now: Instant): Window
    requires period != Never
  {
    match period
    case Daily => Window(Instant(now.day, 0, 0), Instant(now.day + 1, 0, 0))
    case Monthly => Window(Instant(FirstDay(MonthOf(now.day)), 0, 0), Instant(FirstDay(MonthOf(now.day) + 1), 0, 0))
  }

  /** Limit windows tile time, and a window's start never moves back as time passes. */
  lemma LimitWindowsTile(period: LimitPeriod, now: Instant, later: Instant)
    requires period != Never && now.Valid() && later.Valid() && now.AtOrBefore(later)
    ensures LimitWindow(period, now).Holds(now)
    ensures LimitWindow(period, now).start.AtOrBefore(LimitWindow(period, later).start)
    ensures LimitWindow(period, later) == LimitWindow(period, now) <==> later.Before(LimitWindow(period, now).end)
    ensures LimitWindow(period, LimitWindow(period, now).end).start == LimitWindow(period, now).end
  {
    hide FirstDay, DaysInMonth;
    if period == Monthly {
      var k, l := MonthOf(now.day), MonthOf(later.day);
      MonthsOrderDays(now.day, later.day);
      MonthsAbut(k + 1);
      MonthIsUnique(FirstDay(k + 1), k + 1);
      FirstDaysIncrease(k, l);
      if k < l {
        FirstDaysIncrease(k + 1, l);
      }
    }
  }

  /** A daily window is the calendar day of now, and a monthly one its calendar month, from midnight to midnight. */
  lemma LimitWindowExact(period: LimitPeriod, now: Instant)
    requires period != Never
    ensures var w := LimitWindow(period, now);
            && w.start.second == w.start.micro == w.end.second == w.end.micro == 0
            && (period == Daily ==> w.start.day == now.day && w.end.day == now.day + 1)
            && (period == Monthly ==>
                  && MonthOf(w.start.day) == MonthOf(now.day) && DayOfMonth(w.start.day) == 1
                  && MonthOf(w.end.day) == MonthOf(now.day) + 1 && DayOfMonth(w.end.day) == 1)
  {
    hide FirstDay, DaysInMonth, MonthOf;
    var k := MonthOf(now.day);
    MonthsAbut(k);
    MonthsAbut(k + 1);
    MonthIsUnique(FirstDay(k), k);
    MonthIsUnique(FirstDay(k + 1), k + 1);
  }

  /** Where each kind of usage period starts and ends. */
  lemma PeriodExact(mode: Mode, now: Instant)
    requires mode.Valid() && now.Valid()
    ensures var w := PeriodOf(mode, now);
            && w.start.micro == w.end.micro == 0
            && match mode
               case AccountCreation(created) =>
                 && w.start.second == w.end.second == created.second
                 && MonthOf(w.end.day) == MonthOf(w.start.day) + 1
                 && DayOfMonth(w.start.day) == Min(DayOfMonth(created.day), DaysInMonth(MonthOf(w.start.day)))
                 && DayOfMonth(w.end.day) == Min(DayOfMonth(created.day), DaysInMonth(MonthOf(w.end.day)))
               case CalendarMonth(resetDay) =>
                 && w.start.second == w.end.second == 0
                 && MonthOf(w.end.day) == MonthOf(w.start.day) + 1
                 && DayOfMonth(w.start.day) == DayOfMonth(w.end.day) == resetDay
               case Weekly(resetWeekday) =>
                 && w.start.second == w.end.second == 0
                 && Weekday(w.start.day) == resetWeekday && w.end.day == w.start.day + 7
  {
    hide FirstDay, MonthOf, DaysInMonth;
    match mode
    case AccountCreation(created) => MonthWindowMonths(now, DayOfMonth(created.day), created.second);
    case CalendarMonth(resetDay) => MonthWindowMonths(now, resetDay, 0);
    case Weekly(resetWeekday) => WeekWindowExact(now, resetWeekday);
  }

  lemma MonthWindowMonths(now: Instant, day: int, second: int)
    requires 1 <= day
    ensures var w := MonthWindow(now, day, second);
            && w.start.second == w.end.second == second && w.start.micro == w.end.micro == 0
            && MonthOf(w.end.day) == MonthOf(w.start.day) + 1
            && DayOfMonth(w.start.day) == Min(day, DaysInMonth(MonthOf(w.start.day)))
            && DayOfMonth(w.end.day) == Min(day, DaysInMonth(MonthOf(w.end.day)))
  {
    hide FirstDay, MonthOf, DaysInMonth;
    var k := MonthOf(now.day);
    AnchorInMonth(k - 1, day, second);
    AnchorInMonth(k, day, second);
    AnchorInMonth(k + 1, day, second);
  }
}
