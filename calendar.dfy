/** The proleptic Gregorian calendar over instants.

    An instant is a whole number of seconds since 1970-01-01T00:00Z (UTC; leap
    seconds are not counted, as in POSIX time and in pandas). Days are numbered
    from 1970-01-01 = day 0; `/` and `%` on `int` are floored here, so instants
    before 1970 fall on the right day too. */
module Calendar {

  const SecondsPerDay: int := 86400
  const SecondsPerWeek: int := 7 * SecondsPerDay

  /** The day an instant falls on (day 0 is 1970-01-01). */
  function DayNumber(t: int): int
  {
    t / SecondsPerDay
  }

  function SecondOfDay(t: int): (s: int)
    ensures 0 <= s < SecondsPerDay
  {
    t % SecondsPerDay
  }

  lemma DayNumberAndSecond(t: int)
    ensures t == DayNumber(t) * SecondsPerDay + SecondOfDay(t)
  {
  }

  lemma DayNumberOf(n: int, s: int)
    requires 0 <= s < SecondsPerDay
    ensures DayNumber(n * SecondsPerDay + s) == n && SecondOfDay(n * SecondsPerDay + s) == s
  {
  }

  /** `Timestamp.weekday()` and `dt.dayofweek`: Monday = 0, ..., Sunday = 6
      (1970-01-01 was a Thursday). */
  function Weekday(t: int): (w: int)
    ensures 0 <= w < 7
  {
    (DayNumber(t) + 3) % 7
  }

  /** `dt.hour` of a UTC timestamp. */
  function Hour(t: int): (h: int)
    ensures 0 <= h < 24
  {
    SecondOfDay(t) / 3600
  }

  predicate IsLeapYear(y: int)
  {
    y % 4 == 0 && (y % 100 != 0 || y % 400 == 0)
  }

  function DaysInYear(y: int): int
  {
    if IsLeapYear(y) then 366 else 365
  }

  function DaysInMonth(y: int, m: int): (n: int)
    requires 1 <= m <= 12
    ensures 28 <= n <= 31
  {
    if m == 2 then (if IsLeapYear(y) then 29 else 28)
    else if m == 4 || m == 6 || m == 9 || m == 11 then 30
    else 31
  }

  /** Days of year `y` before the first of month `m`; month 13 stands for the next year. */
  function DaysBeforeMonth(y: int, m: int): int
    requires 1 <= m <= 13
  {
    [0, 31, 59, 90, 120, 151, 181, 212, 243, 273, 304, 334, 365][m - 1]
      + (if m > 2 && IsLeapYear(y) then 1 else 0)
  }

  lemma DaysBeforeMonthStep(y: int, m: int)
    requires 1 <= m <= 12
    ensures DaysBeforeMonth(y, m + 1) == DaysBeforeMonth(y, m) + DaysInMonth(y, m)
    ensures DaysBeforeMonth(y, 13) == DaysInYear(y)
  {
  }

  /** Leap years among 1 .. x (counted with floored division, so it also steps
      correctly below year 1). */
  function LeapYearsThrough(x: int): int
  {
    x / 4 - x / 100 + x / 400
  }

  /** Days from 1970-01-01 to January 1 of year `y` (negative before 1970). */
  function DaysBeforeYear(y: int): int
  {
    365 * (y - 1970) + LeapYearsThrough(y - 1) - LeapYearsThrough(1969)
  }

  lemma FloorStep4(y: int)
    ensures y / 4 - (y - 1) / 4 == if y % 4 == 0 then 1 else 0
  {
  }

  lemma FloorStep100(y: int)
    ensures y / 100 - (y - 1) / 100 == if y % 100 == 0 then 1 else 0
  {
  }

  lemma FloorStep400(y: int)
    ensures y / 400 - (y - 1) / 400 == if y % 400 == 0 then 1 else 0
  {
  }

  lemma DivisibilityChain(y: int)
    ensures y % 400 == 0 ==> y % 100 == 0
    ensures y % 100 == 0 ==> y % 4 == 0
  {
  }

  lemma DaysBeforeYearStep(y: int)
    ensures DaysBeforeYear(y + 1) == DaysBeforeYear(y) + DaysInYear(y)
  {
    FloorStep4(y);
    FloorStep100(y);
    FloorStep400(y);
    DivisibilityChain(y);
  }

  lemma {:induction false} DaysBeforeYearMonotone(a: int, b: int)
    requires a <= b
    ensures DaysBeforeYear(a) + 365 * (b - a) <= DaysBeforeYear(b)
    decreases b - a
  {
    if a < b {
      DaysBeforeYearMonotone(a, b - 1);
      DaysBeforeYearStep(b - 1);
    }
  }

  /** Each day number lies in exactly one year. */
  lemma YearUnique(a: int, b: int, n: int)
    requires DaysBeforeYear(a) <= n < DaysBeforeYear(a + 1)
    requires DaysBeforeYear(b) <= n < DaysBeforeYear(b + 1)
    ensures a == b
  {
    if a < b {
      DaysBeforeYearMonotone(a + 1, b);
    } else if b < a {
      DaysBeforeYearMonotone(b + 1, a);
    }
  }

  function YearUp(y: int, n: int): (r: int)
    requires DaysBeforeYear(y) <= n
    ensures DaysBeforeYear(r) <= n < DaysBeforeYear(r + 1)
    decreases n - DaysBeforeYear(y)
  {
    DaysBeforeYearStep(y);
    if n < DaysBeforeYear(y + 1) then y else YearUp(y + 1, n)
  }

  function YearDown(y: int, n: int): (r: int)
    requires n < DaysBeforeYear(y + 1)
    ensures DaysBeforeYear(r) <= n < DaysBeforeYear(r + 1)
    decreases DaysBeforeYear(y + 1) - n
  {
    DaysBeforeYearStep(y);
    if DaysBeforeYear(y) <= n then y else YearDown(y - 1, n)
  }

  /** The year that day `n` falls in. */
  function YearOf(n: int): (y: int)
    ensures DaysBeforeYear(y) <= n < DaysBeforeYear(y + 1)
  {
    if n >= 0 then YearUp(1970, n) else YearDown(1969, n)
  }

  function MonthFrom(y: int, k: int, m: int): (r: int)
    requires 1 <= m <= 12 && DaysBeforeMonth(y, m) <= k < DaysInYear(y)
    ensures m <= r <= 12 && DaysBeforeMonth(y, r) <= k < DaysBeforeMonth(y, r + 1)
    decreases 12 - m
  {
    if k < DaysBeforeMonth(y, m + 1) then m else MonthFrom(y, k, m + 1)
  }

  lemma MonthUnique(y: int, a: int, b: int, k: int)
    requires 1 <= a <= 12 && 1 <= b <= 12
    requires DaysBeforeMonth(y, a) <= k < DaysBeforeMonth(y, a + 1)
    requires DaysBeforeMonth(y, b) <= k < DaysBeforeMonth(y, b + 1)
    ensures a == b
  {
  }

  /** A civil date and time of day in UTC (`Timestamp` fields year, month, day
      and the seconds elapsed since midnight). */
  datatype DateTime = DateTime(year: int, month: int, day: int, second: int)

  predicate ValidDateTime(dt: DateTime)
  {
    && 1 <= dt.month <= 12
    && 1 <= dt.day <= DaysInMonth(dt.year, dt.month)
    && 0 <= dt.second < SecondsPerDay
  }

  function DaysFromCivil(y: int, m: int, d: int): int
    requires 1 <= m <= 12
  {
    DaysBeforeYear(y) + DaysBeforeMonth(y, m) + d - 1
  }

  function ToInstant(dt: DateTime): int
    requires 1 <= dt.month <= 12
  {
    DaysFromCivil(dt.year, dt.month, dt.day) * SecondsPerDay + dt.second
  }

  /** The civil date and time of an instant; it converts back to that instant. */
  function FromInstant(t: int): (dt: DateTime)
    ensures ValidDateTime(dt) && ToInstant(dt) == t
  {
    var n := DayNumber(t);
    var y := YearOf(n);
    DaysBeforeYearStep(y);
    var k := n - DaysBeforeYear(y);
    var m := MonthFrom(y, k, 1);
    DaysBeforeMonthStep(y, m);
    DateTime(y, m, k - DaysBeforeMonth(y, m) + 1, SecondOfDay(t))
  }

  /** Converting a valid date to an instant and back gives the same date. */
  lemma FromToInstant(dt: DateTime)
    requires ValidDateTime(dt)
    ensures FromInstant(ToInstant(dt)) == dt
  {
    var t := ToInstant(dt);
    var r := FromInstant(t);
    var n, m := DaysFromCivil(dt.year, dt.month, dt.day), DaysFromCivil(r.year, r.month, r.day);
    DayNumberOf(n, dt.second);
    DayNumberOf(m, r.second);
    assert t == n * SecondsPerDay + dt.second == m * SecondsPerDay + r.second;
    assert m == n && r.second == dt.second;
    CivilInYear(dt);
    CivilInYear(r);
    YearUnique(r.year, dt.year, n);
    MonthUnique(dt.year, r.month, dt.month, n - DaysBeforeYear(dt.year));
    assert r.year == dt.year && r.month == dt.month && r.day == dt.day;
  }

  /** The day number of a valid date lies in its year and its month. */
  lemma CivilInYear(dt: DateTime)
    requires ValidDateTime(dt)
    ensures DaysBeforeYear(dt.year) <= DaysFromCivil(dt.year, dt.month, dt.day) < DaysBeforeYear(dt.year + 1)
    ensures DaysBeforeMonth(dt.year, dt.month) <= DaysFromCivil(dt.year, dt.month, dt.day) - DaysBeforeYear(dt.year)
            < DaysBeforeMonth(dt.year, dt.month + 1)
  {
    DaysBeforeMonthStep(dt.year, dt.month);
    DaysBeforeYearStep(dt.year);
  }

  /** Two valid dates are in the same order as their instants. */
  lemma ToInstantInjective(a: DateTime, b: DateTime)
    requires ValidDateTime(a) && ValidDateTime(b) && ToInstant(a) == ToInstant(b)
    ensures a == b
  {
    FromToInstant(a);
    FromToInstant(b);
  }

  /** `dt.dayofyear`: 1 for January 1. */
  function DayOfYear(t: int): (d: int)
    ensures 1 <= d <= 366
  {
    var dt := FromInstant(t);
    DaysBeforeMonthStep(dt.year, dt.month);
    DaysBeforeMonth(dt.year, dt.month) + dt.day
  }

  lemma DayOfYearOfDate(dt: DateTime)
    requires ValidDateTime(dt)
    ensures DayOfYear(ToInstant(dt)) == DaysBeforeMonth(dt.year, dt.month) + dt.day
  {
    FromToInstant(dt);
  }

  /** The day number of the Thursday in the Monday-to-Sunday week of `t`; by
      ISO 8601 a week belongs to the year its Thursday falls in. */
  function WeekThursday(t: int): int
  {
    DayNumber(t) - Weekday(t) + 3
  }

  /** `dt.isocalendar().week`: the ISO 8601 week number. */
  function IsoWeek(t: int): (w: int)
    ensures 1 <= w <= 53
  {
    var th := WeekThursday(t);
    var y := YearOf(th);
    DaysBeforeYearStep(y);
    (th - DaysBeforeYear(y)) / 7 + 1
  }

  /** Week 1 of every ISO year is the week holding January 4. */
  lemma IsoWeekOfJanuaryFourth(y: int)
    ensures IsoWeek(ToInstant(DateTime(y, 1, 4, 0))) == 1
  {
    var t := ToInstant(DateTime(y, 1, 4, 0));
    DayNumberOf(DaysFromCivil(y, 1, 4), 0);
    DaysBeforeYearStep(y);
    var th := WeekThursday(t);
    assert DaysBeforeYear(y) <= th < DaysBeforeYear(y + 1);
    YearUnique(YearOf(th), y, th);
  }

  /** Every instant of one Monday-to-Sunday week has the same ISO week number. */
  lemma IsoWeekConstantOnWeek(t: int, u: int)
    requires DayNumber(t) - Weekday(t) == DayNumber(u) - Weekday(u)
    ensures IsoWeek(t) == IsoWeek(u)
  {
  }

  /** `current_date - timedelta(days=current_date.weekday())`: the Monday of
      the week of `t`, at the same time of day. */
  function WeekStart(t: int): (s: int)
    ensures s <= t < s + SecondsPerWeek
    ensures Weekday(s) == 0
    ensures SecondOfDay(s) == SecondOfDay(t)
    ensures DayNumber(s) == DayNumber(t) - Weekday(t)
  {
    var s := t - Weekday(t) * SecondsPerDay;
    DayNumberOf(DayNumber(t) - Weekday(t), SecondOfDay(t));
    s
  }

  function Min(a: int, b: int): int
  {
    if a <= b then a else b
  }

  /** `dt + pd.DateOffset(months=k)`: the month moves by `k` and the day is
      clipped to the length of the month reached; the time of day is kept. */
  function AddMonths(dt: DateTime, k: int): (r: DateTime)
    requires ValidDateTime(dt)
    ensures ValidDateTime(r)
  {
    var index := dt.year * 12 + (dt.month - 1) + k;
    var y, m := index / 12, index % 12 + 1;
    DateTime(y, m, Min(dt.day, DaysInMonth(y, m)), dt.second)
  }

  /** The instant `t` moved by `k` calendar months. */
  function ShiftMonths(t: int, k: int): int
  {
    ToInstant(AddMonths(FromInstant(t), k))
  }

  /** `t.replace(day=1)`: the first of the month of `t`, same time of day. */
  function FirstOfMonth(t: int): int
  {
    ToInstant(FromInstant(t).(day := 1))
  }

  /** The month after (y, m), December rolling over to January of year y + 1. */
  function NextMonth(y: int, m: int): (r: (int, int))
    requires 1 <= m <= 12
    ensures 1 <= r.1 <= 12
  {
    if m == 12 then (y + 1, 1) else (y, m + 1)
  }

  function PreviousMonth(y: int, m: int): (r: (int, int))
    requires 1 <= m <= 12
    ensures 1 <= r.1 <= 12
  {
    if m == 1 then (y - 1, 12) else (y, m - 1)
  }

  lemma PreviousOfNextMonth(y: int, m: int)
    requires 1 <= m <= 12
    ensures PreviousMonth(NextMonth(y, m).0, NextMonth(y, m).1) == (y, m)
  {
  }

  lemma AddOneMonth(dt: DateTime)
    requires ValidDateTime(dt)
    ensures var (y, m) := NextMonth(dt.year, dt.month);
            AddMonths(dt, 1).year == y && AddMonths(dt, 1).month == m
  {
  }

  lemma SubtractOneMonth(dt: DateTime)
    requires ValidDateTime(dt)
    ensures var (y, m) := PreviousMonth(dt.year, dt.month);
            AddMonths(dt, -1).year == y && AddMonths(dt, -1).month == m
  {
  }

  /** The first of the month after (y, m) lies exactly one month-length later. */
  lemma MonthLength(y: int, m: int, s: int)
    requires 1 <= m <= 12 && 0 <= s < SecondsPerDay
    ensures var (ny, nm) := NextMonth(y, m);
            ToInstant(DateTime(ny, nm, 1, s))
              == ToInstant(DateTime(y, m, 1, s)) + DaysInMonth(y, m) * SecondsPerDay
  {
    DaysBeforeYearStep(y);
    DaysBeforeMonthStep(y, m);
  }
}
