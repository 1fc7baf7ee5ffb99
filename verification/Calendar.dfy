/**
 The proleptic Gregorian calendar behind Python's `datetime`.

 Day 1 of the day count is 0001-01-01, as in `date.toordinal`. Months are
 numbered consecutively, month `m` of year `y` being number `12 * y + m - 1`,
 so that the month after number `k` is number `k + 1` also across a new year.
 */
module Calendar {
  /** A UTC instant: a day, a second of that day and a microsecond of that second. */
  datatype Instant = Instant(day: int, second: int, micro: int) {
    predicate Valid() {
      0 <= second < 86_400 && 0 <= micro < 1_000_000
    }

    predicate Before(that: Instant) {
      || day < that.day
      || (day == that.day && second < that.second)
      || (day == that.day && second == that.second && micro < that.micro)
    }

    predicate AtOrBefore(that: Instant) {
      this == that || Before(that)
    }
  }

  predicate IsLeap(year: int) {
    year % 4 == 0 && (year % 100 != 0 || year % 400 == 0)
  }

  /** `calendar.monthrange(...)[1]` of month `k`. */
  function DaysInMonth(k: int): (days: int)
    ensures 28 <= days <= 31
  {
    var m := k % 12 + 1;
    if m == 2 then (if IsLeap(k / 12) then 29 else 28)
    else if m == 4 || m == 6 || m == 9 || m == 11 then 30
    else 31
  }

  /** The day number of the first day of month `k`, counted month by month from January of year 1. */
  function FirstDay(k: int): (day: int)
    ensures k >= 12 ==> day >= 1 + 28 * (k - 12)
    ensures k <= 12 ==> day <= 1 - 28 * (12 - k)
    decreases if k >= 12 then k - 12 else 12 - k
  {
    if k == 12 then 1
    else if k > 12 then FirstDay(k - 1) + DaysInMonth(k - 1)
    else FirstDay(k + 1) - DaysInMonth(k)
  }

  lemma MonthsAbut(k: int)
    ensures FirstDay(k + 1) == FirstDay(k) + DaysInMonth(k)
  {
  }

  lemma {:induction false} FirstDaysIncrease(j: int, k: int)
    requires j <= k
    ensures FirstDay(j) + 28 * (k - j) <= FirstDay(k)
    decreases k - j
  {
    if j < k {
      FirstDaysIncrease(j, k - 1);
      MonthsAbut(k - 1);
    }
  }

  /** `_days_before_year` of Python's `datetime`. */
  function DaysBeforeYear(year: int): int {
    var y := year - 1;
    y * 365 + y / 4 - y / 100 + y / 400
  }

  lemma MonthStep(year: int, m: nat)
    requires m < 12
    ensures FirstDay(12 * year + m + 1) - FirstDay(12 * year + m)
         == [31, if IsLeap(year) then 29 else 28, 31, 30, 31, 30, 31, 31, 30, 31, 30, 31][m]
  {
    MonthsAbut(12 * year + m);
    assert (12 * year + m) % 12 == m && (12 * year + m) / 12 == year;
  }

  lemma YearLength(year: int)
    ensures FirstDay(12 * year + 12) - FirstDay(12 * year) == if IsLeap(year) then 366 else 365
  {
    hide FirstDay;
    MonthStep(year, 0);
    MonthStep(year, 1);
    MonthStep(year, 2);
    MonthStep(year, 3);
    MonthStep(year, 4);
    MonthStep(year, 5);
    MonthStep(year, 6);
    MonthStep(year, 7);
    MonthStep(year, 8);
    MonthStep(year, 9);
    MonthStep(year, 10);
    MonthStep(year, 11);
  }

  lemma LeapDays(year: int)
    ensures DaysBeforeYear(year + 1) - DaysBeforeYear(year) == if IsLeap(year) then 366 else 365
  {
    var y := year;
    assert y / 4 - (y - 1) / 4 == if y % 4 == 0 then 1 else 0;
    assert y / 100 - (y - 1) / 100 == if y % 100 == 0 then 1 else 0;
    assert y / 400 - (y - 1) / 400 == if y % 400 == 0 then 1 else 0;
  }

  /** Counting month by month agrees with the closed form of the Gregorian day count. */
  lemma {:induction false} DayCountIsGregorian(year: int)
    ensures FirstDay(12 * year) == DaysBeforeYear(year) + 1
    decreases if year >= 1 then year - 1 else 1 - year
  {
    if year > 1 {
      DayCountIsGregorian(year - 1);
      YearLength(year - 1);
      LeapDays(year - 1);
    } else if year < 1 {
      DayCountIsGregorian(year + 1);
      YearLength(year);
      LeapDays(year);
    }
  }

  /** The month that holds a day, searched upward from a month that is not past it. */
  function MonthFrom(day: int, k: int): (month: int)
    requires FirstDay(k) <= day
    ensures FirstDay(month) <= day < FirstDay(month + 1)
    decreases day - FirstDay(k)
  {
    if day < FirstDay(k + 1) then k
    else
      MonthsAbut(k);
      MonthFrom(day, k + 1)
  }

  function MonthOf(day: int): (month: int)
    ensures FirstDay(month) <= day < FirstDay(month + 1)
  {
    MonthFrom(day, if day < 1 then 11 + day else 12)
  }

  lemma MonthIsUnique(day: int, k: int)
    requires FirstDay(k) <= day < FirstDay(k + 1)
    ensures MonthOf(day) == k
  {
    var month := MonthOf(day);
    if month < k {
      FirstDaysIncrease(month + 1, k);
    } else if k < month {
      FirstDaysIncrease(k + 1, month);
    }
  }

  lemma MonthsOrderDays(a: int, b: int)
    requires a <= b
    ensures MonthOf(a) <= MonthOf(b)
  {
    var j, k := MonthOf(a), MonthOf(b);
    if k < j {
      FirstDaysIncrease(k + 1, j);
    }
  }

  /** Day of the month, counted from 1 as `datetime.day` is. */
  function DayOfMonth(day: int): (d: int)
    ensures 1 <= d <= DaysInMonth(MonthOf(day))
  {
    MonthsAbut(MonthOf(day));
    day - FirstDay(MonthOf(day)) + 1
  }

  /** `datetime.weekday`: 0 is Monday. */
  function Weekday(day: int): (weekday: int)
    ensures 0 <= weekday < 7
  {
    (day + 6) % 7
  }

  /** 1 January of year 1 was a Monday, and the days of the week go round. */
  lemma WeekdayExact(day: int)
    ensures Weekday(1) == 0 && Weekday(day + 1) == (Weekday(day) + 1) % 7
  {
  }

  /** Days of a month are counted from 1, one by one. */
  lemma DayOfMonthExact(day: int)
    ensures DayOfMonth(FirstDay(MonthOf(day))) == 1
    ensures MonthOf(day + 1) == MonthOf(day) ==> DayOfMonth(day + 1) == DayOfMonth(day) + 1
    ensures MonthOf(day + 1) != MonthOf(day) ==> DayOfMonth(day) == DaysInMonth(MonthOf(day))
  {
    hide FirstDay, MonthOf, DaysInMonth;
    var k := MonthOf(day);
    MonthsAbut(k);
    MonthIsUnique(FirstDay(k), k);
    if day + 1 < FirstDay(k + 1) {
      MonthIsUnique(day + 1, k);
    }
  }

  /** The microseconds from the start of day 0. */
  function Micros(t: Instant): int {
    (t.day * 86_400 + t.second) * 1_000_000 + t.micro
  }

  /** One instant is before another exactly when fewer microseconds have passed. */
  lemma BeforeIsTime(a: Instant, b: Instant)
    requires a.Valid() && b.Valid()
    ensures a.Before(b) <==> Micros(a) < Micros(b)
    ensures a.AtOrBefore(b) <==> Micros(a) <= Micros(b)
  {
    assert a.day < b.day ==> a.day * 86_400 + 86_400 <= b.day * 86_400;
    assert b.day < a.day ==> b.day * 86_400 + 86_400 <= a.day * 86_400;
  }
}
