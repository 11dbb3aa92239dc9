/**
 * The proleptic Gregorian calendar and the time values of ECMAScript `Date`,
 * counted in whole seconds since 1970-01-01T00:00:00Z. A `JsDate` is either
 * such a time value or the invalid date (NaN). The local time zone is a fixed
 * offset in seconds, passed in by the caller.
 */
module Calendar {
  import opened Common

  const SecondsPerDay := 86400
  /** Days from 0001-01-01 to 1970-01-01. */
  const EpochOrdinal := 719162
  /** The largest magnitude a time value may have: 8.64e15 ms, in seconds. */
  const MaxTimeSeconds := 8_640_000_000_000

  predicate IsLeapYear(y: int) {
    (y % 4 == 0 && y % 100 != 0) || y % 400 == 0
  }

  function DaysInYear(y: int): int {
    if IsLeapYear(y) then 366 else 365
  }

  function DaysInMonth(y: int, m: int): int
    requires 1 <= m <= 12
  {
    if m == 2 then (if IsLeapYear(y) then 29 else 28)
    else if m == 4 || m == 6 || m == 9 || m == 11 then 30
    else 31
  }

  /** Days of year `y` before the first of month `m`; `m == 13` gives the whole year. */
  function DaysBeforeMonth(y: int, m: int): int
    requires 1 <= m <= 13
  {
    var common :=
      if m == 1 then 0 else if m == 2 then 31 else if m == 3 then 59
      else if m == 4 then 90 else if m == 5 then 120 else if m == 6 then 151
      else if m == 7 then 181 else if m == 8 then 212 else if m == 9 then 243
      else if m == 10 then 273 else if m == 11 then 304 else if m == 12 then 334
      else 365;
    common + if m > 2 && IsLeapYear(y) then 1 else 0
  }

  lemma {:induction false} MonthStep(y: int, m: int)
    requires 1 <= m <= 12
    ensures DaysBeforeMonth(y, m + 1) == DaysBeforeMonth(y, m) + DaysInMonth(y, m)
    ensures DaysBeforeMonth(y, 13) == DaysInYear(y)
  {
  }

  /**
   * Days from 0001-01-01 to the first of January of year `y` (negative before
   * year 1), counted a year at a time.
   */
  function DaysBeforeYear(y: int): int
    decreases if y >= 1 then y - 1 else 1 - y
  {
    if y == 1 then 0
    else if y > 1 then DaysBeforeYear(y - 1) + DaysInYear(y - 1)
    else DaysBeforeYear(y + 1) - DaysInYear(y)
  }

  lemma {:induction false} YearStep(y: int)
    ensures DaysBeforeYear(y + 1) == DaysBeforeYear(y) + DaysInYear(y)
  {
  }

  /** The closed form of `DaysBeforeYear` used by `DayFromYear` in ECMAScript. */
  function ClosedDaysBeforeYear(y: int): int {
    var k := y - 1;
    365 * k + k / 4 - k / 100 + k / 400
  }

  lemma {:induction false} ClosedStep(y: int)
    ensures ClosedDaysBeforeYear(y + 1) == ClosedDaysBeforeYear(y) + DaysInYear(y)
  {
    var k := y - 1;
    Step4(k);
    Step100(k);
    Step400(k);
  }

  lemma {:induction false} DaysBeforeYearClosed(y: int)
    ensures DaysBeforeYear(y) == ClosedDaysBeforeYear(y)
    decreases if y >= 1 then y - 1 else 1 - y
  {
    if y > 1 {
      DaysBeforeYearClosed(y - 1);
      ClosedStep(y - 1);
    } else if y < 1 {
      DaysBeforeYearClosed(y + 1);
      ClosedStep(y);
    }
  }

  lemma {:induction false} Step4(k: int)
    ensures (k + 1) / 4 - k / 4 == if (k + 1) % 4 == 0 then 1 else 0
  {
  }

  lemma {:induction false} Step100(k: int)
    ensures (k + 1) / 100 - k / 100 == if (k + 1) % 100 == 0 then 1 else 0
  {
  }

  lemma {:induction false} Step400(k: int)
    ensures (k + 1) / 400 - k / 400 == if (k + 1) % 400 == 0 then 1 else 0
  {
  }

  lemma {:induction false} YearsOrdered(y1: int, y2: int)
    requires y1 < y2
    ensures DaysBeforeYear(y1) + DaysInYear(y1) <= DaysBeforeYear(y2)
  {
    YearStep(y1);
    DaysBeforeYearClosed(y1 + 1);
    DaysBeforeYearClosed(y2);
    var k1, k2 := y1, y2 - 1;
    assert k1 <= k2;
    assert 100 * (k2 / 100) <= k2 && k1 - 100 < 100 * (k1 / 100);
    assert k2 / 100 - k1 / 100 <= k2 - k1 + 1;
    assert k1 / 4 <= k2 / 4 && k1 / 400 <= k2 / 400;
  }

  /** `400 * DaysBeforeYear(y)` is within a few hundred days of `146097 * (y - 1)`. */
  lemma {:induction false} DaysBeforeYearBounds(y: int)
    ensures 146097 * (y - 1) - 699 <= 400 * DaysBeforeYear(y) <= 146097 * (y - 1) + 396
  {
    DaysBeforeYearClosed(y);
    var k := y - 1;
    assert k - 3 <= 4 * (k / 4) <= k;
    assert k - 99 <= 100 * (k / 100) <= k;
    assert k - 399 <= 400 * (k / 400) <= k;
  }

  /** The year holding ordinal day `z` is one of three years around `400 * z / 146097 + 1`. */
  lemma {:induction false} YearEstimate(z: int)
    ensures DaysBeforeYear((400 * z) / 146097) <= z < DaysBeforeYear((400 * z) / 146097 + 3)
  {
    var q := (400 * z) / 146097;
    assert 146097 * q <= 400 * z < 146097 * q + 146097;
    DaysBeforeYearBounds(q);
    DaysBeforeYearBounds(q + 3);
  }

  datatype Date = Date(year: int, month: int, day: int)

  predicate ValidDate(d: Date) {
    1 <= d.month <= 12 && 1 <= d.day <= DaysInMonth(d.year, d.month)
  }

  /** The day number of a calendar date: days since 1970-01-01. */
  function DayNumber(d: Date): int
    requires ValidDate(d)
  {
    DaysBeforeYear(d.year) + DaysBeforeMonth(d.year, d.month) + d.day - 1 - EpochOrdinal
  }

  /** The month of year `y` holding day-of-year `doy`, searched upward from `m`. */
  function MonthOf(y: int, doy: int, m: int): (r: int)
    requires 1 <= m <= 12
    requires DaysBeforeMonth(y, m) <= doy < DaysBeforeMonth(y, 13)
    ensures m <= r <= 12 && DaysBeforeMonth(y, r) <= doy < DaysBeforeMonth(y, r + 1)
    decreases 12 - m
  {
    MonthStep(y, m);
    if doy < DaysBeforeMonth(y, m + 1) || m == 12 then m else MonthOf(y, doy, m + 1)
  }

  /** The year holding ordinal day `z`, searched upward from year `y`. */
  function YearFrom(z: int, y: int): (r: int)
    requires DaysBeforeYear(y) <= z
    ensures y <= r && DaysBeforeYear(r) <= z < DaysBeforeYear(r) + DaysInYear(r)
    decreases z - DaysBeforeYear(y)
  {
    if z < DaysBeforeYear(y) + DaysInYear(y) then y else YearFrom(z, y + 1)
  }

  /** The year holding ordinal day `z` (0 is 0001-01-01). */
  function YearOfOrdinal(z: int): (y: int)
    ensures DaysBeforeYear(y) <= z < DaysBeforeYear(y) + DaysInYear(y)
  {
    YearEstimate(z);
    YearFrom(z, (400 * z) / 146097)
  }

  /** The calendar date of a day number. */
  function CivilFromDays(u: int): (d: Date)
    ensures ValidDate(d) && DayNumber(d) == u
  {
    var z := u + EpochOrdinal;
    var y := YearOfOrdinal(z);
    var doy := z - DaysBeforeYear(y);
    MonthStep(y, 12);
    var m := MonthOf(y, doy, 1);
    MonthStep(y, m);
    Date(y, m, doy - DaysBeforeMonth(y, m) + 1)
  }

  /** Two valid dates with the same day number are the same date. */
  lemma {:induction false} DayNumberInjective(a: Date, b: Date)
    requires ValidDate(a) && ValidDate(b) && DayNumber(a) == DayNumber(b)
    ensures a == b
  {
    MonthStep(a.year, a.month);
    MonthStep(b.year, b.month);
    MonthStep(a.year, 12);
    MonthStep(b.year, 12);
    if a.year < b.year {
      YearsOrdered(a.year, b.year);
    } else if b.year < a.year {
      YearsOrdered(b.year, a.year);
    }
    assert a.year == b.year;
    if a.month < b.month {
      MonthsOrdered(a.year, a.month, b.month);
    } else if b.month < a.month {
      MonthsOrdered(a.year, b.month, a.month);
    }
  }

  lemma {:induction false} MonthsOrdered(y: int, m1: int, m2: int)
    requires 1 <= m1 < m2 <= 13
    ensures DaysBeforeMonth(y, m1) + (if m1 <= 12 then DaysInMonth(y, m1) else 0) <= DaysBeforeMonth(y, m2)
    decreases m2 - m1
  {
    MonthStep(y, m1);
    if m1 + 1 < m2 {
      MonthsOrdered(y, m1 + 1, m2);
    }
  }

  /** Converting a valid date to its day number and back returns the date. */
  lemma {:induction false} CivilOfDayNumber(d: Date)
    requires ValidDate(d)
    ensures CivilFromDays(DayNumber(d)) == d
  {
    DayNumberInjective(CivilFromDays(DayNumber(d)), d);
  }

  /** The next day number belongs to the next calendar date. */
  lemma {:induction false} DayNumberNext(d: Date)
    requires ValidDate(d)
    ensures var n := CivilFromDays(DayNumber(d) + 1);
      if d.day < DaysInMonth(d.year, d.month) then n == Date(d.year, d.month, d.day + 1)
      else if d.month < 12 then n == Date(d.year, d.month + 1, 1)
      else n == Date(d.year + 1, 1, 1)
  {
    var n := CivilFromDays(DayNumber(d) + 1);
    MonthStep(d.year, d.month);
    YearStep(d.year);
    if d.day < DaysInMonth(d.year, d.month) {
      DayNumberInjective(n, Date(d.year, d.month, d.day + 1));
    } else if d.month < 12 {
      DayNumberInjective(n, Date(d.year, d.month + 1, 1));
    } else {
      DayNumberInjective(n, Date(d.year + 1, 1, 1));
    }
  }

  /** `WeekDay` of ECMAScript: 0 is Sunday; 1970-01-01 was a Thursday. */
  function Weekday(u: int): (w: int)
    ensures 0 <= w < 7
  {
    (u + 4) % 7
  }

  /** `MakeDay(year, month, date)` of ECMAScript: the month is 0-based and may overflow either way. */
  function MakeDay(year: int, month: int, date: int): int {
    var ym := year + month / 12;
    var mn := month % 12;
    DayNumber(Date(ym, mn + 1, 1)) + date - 1
  }

  lemma {:induction false} MakeDayOfDate(d: Date)
    requires ValidDate(d)
    ensures MakeDay(d.year, d.month - 1, d.day) == DayNumber(d)
  {
  }

  function MakeTime(hour: int, minute: int, second: int): int {
    (hour * 60 + minute) * 60 + second
  }

  function MakeDate(day: int, time: int): int {
    day * SecondsPerDay + time
  }

  /** A `Date` object: a time value in seconds since the epoch, or the invalid date. */
  datatype JsDate = Time(utc: int) | InvalidDate

  function TimeClip(t: int): (r: JsDate)
    ensures r.Time? <==> -MaxTimeSeconds <= t <= MaxTimeSeconds
    ensures r.Time? ==> r.utc == t
  {
    if -MaxTimeSeconds <= t <= MaxTimeSeconds then Time(t) else InvalidDate
  }

  /** Years 0 to 99 given to the `Date` constructor or to `Date.UTC` mean 1900 to 1999. */
  function FullYear(y: int): int {
    if 0 <= y <= 99 then 1900 + y else y
  }

  /**
   * `new Date(y, mo, d, h, mi, s)` in a zone `offset` seconds ahead of UTC;
   * `None` is NaN. With `offset` 0 this is `new Date(Date.UTC(y, mo, d, h, mi, s))`.
   */
  function NewLocalDate(y: Option<int>, mo: Option<int>, d: Option<int>,
                        h: Option<int>, mi: Option<int>, s: Option<int>, offset: int): (r: JsDate)
    ensures (y.None? || mo.None? || d.None? || h.None? || mi.None? || s.None?) ==> r == InvalidDate
  {
    if y.None? || mo.None? || d.None? || h.None? || mi.None? || s.None? then InvalidDate
    else TimeClip(MakeDate(MakeDay(FullYear(y.value), mo.value, d.value),
                           MakeTime(h.value, mi.value, s.value)) - offset)
  }

  datatype DateTime = DateTime(date: Date, hour: int, minute: int, second: int)

  predicate ValidDateTime(dt: DateTime) {
    ValidDate(dt.date) && 0 <= dt.hour < 24 && 0 <= dt.minute < 60 && 0 <= dt.second < 60
  }

  /** Seconds since the epoch of a wall-clock reading taken as if it were UTC. */
  function Seconds(dt: DateTime): int
    requires ValidDate(dt.date)
  {
    MakeDate(DayNumber(dt.date), MakeTime(dt.hour, dt.minute, dt.second))
  }

  /** The wall-clock reading of time value `t` seen `offset` seconds ahead of UTC. */
  function WallClock(t: int, offset: int): (dt: DateTime)
    ensures ValidDateTime(dt)
    ensures Seconds(dt) == t + offset
  {
    var local := t + offset;
    var sod := local % SecondsPerDay;
    SplitDay(local);
    DateTime(CivilFromDays(local / SecondsPerDay), sod / 3600, (sod / 60) % 60, sod % 60)
  }

  /** A second count splits into whole days and an hour, minute and second of the day. */
  lemma {:induction false} SplitDay(local: int)
    ensures var sod := local % SecondsPerDay;
      0 <= sod / 3600 < 24 && 0 <= (sod / 60) % 60 < 60 && 0 <= sod % 60 < 60
      && local == (local / SecondsPerDay) * SecondsPerDay + MakeTime(sod / 3600, (sod / 60) % 60, sod % 60)
  {
    var sod := local % SecondsPerDay;
    assert sod == (sod / 60) * 60 + sod % 60;
    assert sod / 60 == (sod / 3600) * 60 + (sod / 60) % 60;
  }

  /** Reading back a valid wall-clock time gives the same reading. */
  lemma {:induction false} WallClockOfSeconds(dt: DateTime, offset: int)
    requires ValidDateTime(dt)
    ensures WallClock(Seconds(dt) - offset, offset) == dt
  {
    var r := WallClock(Seconds(dt) - offset, offset);
    var time := MakeTime(dt.hour, dt.minute, dt.second);
    assert 0 <= time < SecondsPerDay;
    assert Seconds(dt) / SecondsPerDay == DayNumber(dt.date);
    assert Seconds(dt) % SecondsPerDay == time;
    CivilOfDayNumber(dt.date);
  }

  /** `new Date(y, m - 1, d, h, mi, s)` of a valid local reading is that reading, shifted to UTC. */
  lemma {:induction false} NewLocalDateOf(dt: DateTime, offset: int)
    requires ValidDateTime(dt) && dt.date.year >= 100
    requires -MaxTimeSeconds <= Seconds(dt) - offset <= MaxTimeSeconds
    ensures NewLocalDate(Some(dt.date.year), Some(dt.date.month - 1), Some(dt.date.day),
                         Some(dt.hour), Some(dt.minute), Some(dt.second), offset)
         == Time(Seconds(dt) - offset)
  {
    MakeDayOfDate(dt.date);
  }

  /** A valid local reading of a year from 1000 to 9999, less than a day from UTC, is in a `Date`'s range. */
  lemma {:induction false} InTimeRange(dt: DateTime, offset: int)
    requires ValidDateTime(dt) && 1000 <= dt.date.year <= 9999
    requires -SecondsPerDay < offset < SecondsPerDay
    ensures -MaxTimeSeconds <= Seconds(dt) - offset <= MaxTimeSeconds
  {
    DaysBeforeYearBounds(dt.date.year);
    MonthStep(dt.date.year, dt.date.month);
    MonthStep(dt.date.year, 12);
  }

  /**
   * `new Date(y, m - 1, d, h, mi, s)` of a valid local reading is an instant
   * `t` whose local reading is again `y-m-d h:mi:s`.
   */
  lemma {:induction false} LocalInstant(dt: DateTime, offset: int) returns (t: int)
    requires ValidDateTime(dt) && 1000 <= dt.date.year <= 9999
    requires -SecondsPerDay < offset < SecondsPerDay
    ensures NewLocalDate(Some(dt.date.year), Some(dt.date.month - 1), Some(dt.date.day),
                         Some(dt.hour), Some(dt.minute), Some(dt.second), offset) == Time(t)
    ensures WallClock(t, offset) == dt
  {
    InTimeRange(dt, offset);
    NewLocalDateOf(dt, offset);
    t := Seconds(dt) - offset;
    WallClockOfSeconds(dt, offset);
  }

  /** `new Date(y, m - 1, d)` of a valid date is an instant whose local reading is that date at `00:00`. */
  lemma {:induction false} MidnightInstant(d: Date, offset: int) returns (t: int)
    requires ValidDate(d) && 1000 <= d.year <= 9999
    requires -SecondsPerDay < offset < SecondsPerDay
    ensures NewLocalDate(Some(d.year), Some(d.month - 1), Some(d.day), Some(0), Some(0), Some(0), offset) == Time(t)
    ensures WallClock(t, offset).date == d && WallClock(t, offset).hour == 0 && WallClock(t, offset).minute == 0
  {
    var dt := DateTime(d, 0, 0, 0);
    t := LocalInstant(dt, offset);
    var w := WallClock(t, offset);
    assert w == dt;
    assert w.date == d && w.hour == 0 && w.minute == 0;
  }
}
