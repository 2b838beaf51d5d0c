/** Naive (time-zone-less) Gregorian date-times, as Python's `datetime` represents them
    without microseconds: the value that `parse_date` returns, `is_within_next_7_days`
    compares and `generate_calendar` shifts by one hour. */
module Civil {

  const MinYear := 1
  const MaxYear := 9999
  const SecondsPerDay := 86400
  const SecondsPerHour := 3600

  datatype DateTime = DateTime(year: int, month: int, day: int, hour: int, minute: int, second: int)

  predicate IsLeap(y: int) {
    y % 4 == 0 && (y % 100 != 0 || y % 400 == 0)
  }

  function DaysInMonth(y: int, m: int): (n: int)
    requires 1 <= m <= 12
    ensures 28 <= n <= 31
    ensures n == 29 <==> m == 2 && IsLeap(y)
  {
    if m == 2 then (if IsLeap(y) then 29 else 28)
    else if m == 4 || m == 6 || m == 9 || m == 11 then 30
    else 31
  }

  function DaysInYear(y: int): int {
    if IsLeap(y) then 366 else 365
  }

  /** A calendar day of a year from 1 on; the year has no upper bound here, so that
      `now + 7 days` can be stated even where Python would overflow. */
  predicate IsDate(y: int, m: int, d: int) {
    y >= MinYear && 1 <= m <= 12 && 1 <= d <= DaysInMonth(y, m)
  }

  predicate WellFormed(t: DateTime) {
    IsDate(t.year, t.month, t.day) &&
    0 <= t.hour < 24 && 0 <= t.minute < 60 && 0 <= t.second < 60
  }

  /** A value Python's `datetime` can hold: years 1 to 9999. */
  predicate Valid(t: DateTime) {
    WellFormed(t) && t.year <= MaxYear
  }

  /** Days in the years before `y`, as `_days_before_year` computes them. */
  function DaysBeforeYear(y: int): int
    requires y >= MinYear
  {
    var y1 := y - 1;
    y1 * 365 + y1 / 4 - y1 / 100 + y1 / 400
  }

  /** Days in the months of year `y` before month `m`, as `_days_before_month` computes them. */
  function DaysBeforeMonth(y: int, m: int): int
    requires 1 <= m <= 12
  {
    (if m == 1 then 0 else if m == 2 then 31 else if m == 3 then 59
     else if m == 4 then 90 else if m == 5 then 120 else if m == 6 then 151
     else if m == 7 then 181 else if m == 8 then 212 else if m == 9 then 243
     else if m == 10 then 273 else if m == 11 then 304 else 334)
    + (if m > 2 && IsLeap(y) then 1 else 0)
  }

  /** Python's proleptic Gregorian ordinal (`toordinal`): 0001-01-01 is day 1. */
  function Ordinal(y: int, m: int, d: int): int
    requires IsDate(y, m, d)
  {
    DaysBeforeYear(y) + DaysBeforeMonth(y, m) + d
  }

  /** Seconds since 0001-01-01T00:00:00 minus one day: the instant a date-time denotes. */
  function ToSeconds(t: DateTime): int
    requires WellFormed(t)
  {
    Ordinal(t.year, t.month, t.day) * SecondsPerDay
    + t.hour * SecondsPerHour + t.minute * 60 + t.second
  }

  /** Python compares `datetime` values field by field, most significant first. */
  predicate Before(a: DateTime, b: DateTime) {
    a.year < b.year || (a.year == b.year &&
    (a.month < b.month || (a.month == b.month &&
    (a.day < b.day || (a.day == b.day &&
    (a.hour < b.hour || (a.hour == b.hour &&
    (a.minute < b.minute || (a.minute == b.minute && a.second < b.second)))))))))
  }

  predicate AtOrBefore(a: DateTime, b: DateTime) {
    a == b || Before(a, b)
  }

  /** The calendar day after `(y, m, d)`: day, month and year roll over in turn. */
  function NextDay(y: int, m: int, d: int): (r: (int, int, int))
    requires IsDate(y, m, d)
    ensures IsDate(r.0, r.1, r.2)
  {
    if d < DaysInMonth(y, m) then (y, m, d + 1)
    else if m < 12 then (y, m + 1, 1)
    else (y + 1, 1, 1)
  }

  /** The same time of day on the next calendar day. */
  function Tomorrow(t: DateTime): (r: DateTime)
    requires WellFormed(t)
    ensures WellFormed(r) && (r.hour, r.minute, r.second) == (t.hour, t.minute, t.second)
  {
    var (y, m, d) := NextDay(t.year, t.month, t.day);
    t.(year := y, month := m, day := d)
  }

  /** `t + timedelta(days=n)`: the same time of day, `n` calendar days later. */
  function AddDays(t: DateTime, n: nat): (r: DateTime)
    requires WellFormed(t)
    ensures WellFormed(r) && (r.hour, r.minute, r.second) == (t.hour, t.minute, t.second)
  {
    if n == 0 then t else Tomorrow(AddDays(t, n - 1))
  }

  /** `t + timedelta(hours=1)`: the hour advances, rolling over into the next day. */
  function AddHour(t: DateTime): (r: DateTime)
    requires WellFormed(t)
    ensures WellFormed(r) && (r.minute, r.second) == (t.minute, t.second)
  {
    if t.hour < 23 then t.(hour := t.hour + 1)
    else Tomorrow(t).(hour := 0)
  }

  /** The next calendar day is one day later on the proleptic Gregorian count. */
  lemma NextDayOrdinal(y: int, m: int, d: int)
    requires IsDate(y, m, d)
    ensures var r := NextDay(y, m, d); Ordinal(r.0, r.1, r.2) == Ordinal(y, m, d) + 1
  {
    MonthStep(y, m);
    if d == DaysInMonth(y, m) && m == 12 {
      YearStep(y);
    }
  }

  /** `Tomorrow` is exactly one day (86400 seconds) later. */
  lemma TomorrowSeconds(t: DateTime)
    requires WellFormed(t)
    ensures ToSeconds(Tomorrow(t)) == ToSeconds(t) + SecondsPerDay
  {
    NextDayOrdinal(t.year, t.month, t.day);
  }

  /** `t + timedelta(days=n)` is exactly `n * 86400` seconds later. */
  lemma {:induction false} AddDaysSeconds(t: DateTime, n: nat)
    requires WellFormed(t)
    ensures ToSeconds(AddDays(t, n)) == ToSeconds(t) + n * SecondsPerDay
  {
    if n > 0 {
      AddDaysSeconds(t, n - 1);
      TomorrowSeconds(AddDays(t, n - 1));
    }
  }

  /** `t + timedelta(hours=1)` is exactly 3600 seconds later. */
  lemma AddHourSeconds(t: DateTime)
    requires WellFormed(t)
    ensures ToSeconds(AddHour(t)) == ToSeconds(t) + SecondsPerHour
  {
    if t.hour == 23 {
      TomorrowSeconds(t);
    }
  }

  /** The last hour Python's `datetime` can represent: 9999-12-31 from 23:00. */
  predicate LastHour(t: DateTime) {
    t.year == MaxYear && t.month == 12 && t.day == 31 && t.hour == 23
  }

  /** `t + timedelta(hours=1)` stays representable (no `OverflowError`) exactly when `t` is
      not in the last representable hour. */
  lemma AddHourOverflow(t: DateTime)
    requires Valid(t)
    ensures Valid(AddHour(t)) <==> !LastHour(t)
    ensures AddHour(t).year > MaxYear <==> LastHour(t)
  {
  }

  /** Adding an hour moves to the next year exactly from the last hour of December 31, and
      leaves the year alone otherwise. */
  lemma AddHourYear(t: DateTime)
    requires WellFormed(t)
    ensures t.month == 12 && t.day == 31 && t.hour == 23 ==> AddHour(t).year == t.year + 1
    ensures !(t.month == 12 && t.day == 31 && t.hour == 23) ==> AddHour(t).year == t.year
  {
  }

  // ---------------------------------------------------------------------------
  // Facts about the ordinal.

  /** The ordinal of January 1 of the next year is one year's worth of days later. */
  lemma YearStep(y: int)
    requires y >= MinYear
    ensures DaysBeforeYear(y + 1) == DaysBeforeYear(y) + DaysInYear(y)
    ensures DaysBeforeMonth(y, 12) + 31 == DaysInYear(y)
  {
    QuadStep(y);
    CenturyStep(y);
    QuadCenturyStep(y);
  }

  /** How the leap-day counts in `DaysBeforeYear` grow from one year to the next. */
  lemma QuadStep(y: int)
    ensures y / 4 - (y - 1) / 4 == if y % 4 == 0 then 1 else 0
  {
    if y % 4 == 0 {
      assert y - 1 == 4 * (y / 4 - 1) + 3;
    } else {
      assert y - 1 == 4 * (y / 4) + (y % 4 - 1);
    }
  }

  lemma CenturyStep(y: int)
    ensures y / 100 - (y - 1) / 100 == if y % 100 == 0 then 1 else 0
    ensures y % 100 == 0 ==> y % 4 == 0
  {
    CenturyCount(y);
    CenturyLeap(y);
  }

  lemma CenturyCount(y: int)
    ensures y / 100 - (y - 1) / 100 == if y % 100 == 0 then 1 else 0
  {
    if y % 100 == 0 {
      assert y - 1 == 100 * (y / 100 - 1) + 99;
    } else {
      assert y - 1 == 100 * (y / 100) + (y % 100 - 1);
    }
  }

  lemma CenturyLeap(y: int)
    ensures y % 100 == 0 ==> y % 4 == 0
  {
    if y % 100 == 0 {
      assert y == 4 * (25 * (y / 100));
    }
  }

  lemma QuadCenturyStep(y: int)
    ensures y / 400 - (y - 1) / 400 == if y % 400 == 0 then 1 else 0
    ensures y % 400 == 0 ==> y % 100 == 0
  {
    QuadCenturyCount(y);
    QuadCenturyLeap(y);
  }

  lemma QuadCenturyCount(y: int)
    ensures y / 400 - (y - 1) / 400 == if y % 400 == 0 then 1 else 0
  {
    if y % 400 == 0 {
      assert y - 1 == 400 * (y / 400 - 1) + 399;
    } else {
      assert y - 1 == 400 * (y / 400) + (y % 400 - 1);
    }
  }

  lemma QuadCenturyLeap(y: int)
    ensures y % 400 == 0 ==> y % 100 == 0
  {
    if y % 400 == 0 {
      assert y == 100 * (4 * (y / 400));
    }
  }

  lemma MonthStep(y: int, m: int)
    requires 1 <= m <= 12
    ensures m < 12 ==> DaysBeforeMonth(y, m + 1) == DaysBeforeMonth(y, m) + DaysInMonth(y, m)
    ensures DaysBeforeMonth(y, m) + DaysInMonth(y, m) <= DaysInYear(y)
  {
  }

  lemma {:induction false} YearsMonotone(y1: int, y2: int)
    requires MinYear <= y1 < y2
    ensures DaysBeforeYear(y1) + DaysInYear(y1) <= DaysBeforeYear(y2)
    decreases y2 - y1
  {
    YearStep(y1);
    if y1 + 1 < y2 {
      YearsMonotone(y1 + 1, y2);
      YearStep(y1 + 1);
    }
  }

  lemma MonthsMonotone(y: int, m1: int, m2: int)
    requires 1 <= m1 < m2 <= 12
    ensures DaysBeforeMonth(y, m1) + DaysInMonth(y, m1) <= DaysBeforeMonth(y, m2)
  {
  }

  /** A later calendar day has a larger ordinal. */
  lemma OrdinalMonotone(a: DateTime, b: DateTime)
    requires WellFormed(a) && WellFormed(b)
    requires a.year < b.year || (a.year == b.year && (a.month < b.month || (a.month == b.month && a.day < b.day)))
    ensures Ordinal(a.year, a.month, a.day) < Ordinal(b.year, b.month, b.day)
  {
    MonthStep(a.year, a.month);
    if a.year < b.year {
      YearsMonotone(a.year, b.year);
    } else if a.month < b.month {
      MonthsMonotone(a.year, a.month, b.month);
    }
  }

  /** Python's field-by-field order on date-times is the order of the instants they denote;
      in particular distinct date-times denote distinct instants. */
  lemma {:induction false} BeforeIsEarlier(a: DateTime, b: DateTime)
    requires WellFormed(a) && WellFormed(b)
    ensures Before(a, b) <==> ToSeconds(a) < ToSeconds(b)
    ensures a == b <==> ToSeconds(a) == ToSeconds(b)
  {
    if Before(a, b) {
      BeforeEarlier(a, b);
    } else if Before(b, a) {
      BeforeEarlier(b, a);
    }
  }

  lemma BeforeEarlier(a: DateTime, b: DateTime)
    requires WellFormed(a) && WellFormed(b) && Before(a, b)
    ensures ToSeconds(a) < ToSeconds(b)
  {
    var da, db := Ordinal(a.year, a.month, a.day), Ordinal(b.year, b.month, b.day);
    var ta, tb := a.hour * 3600 + a.minute * 60 + a.second, b.hour * 3600 + b.minute * 60 + b.second;
    assert 0 <= ta < SecondsPerDay && 0 <= tb < SecondsPerDay;
    if a.year != b.year || a.month != b.month || a.day != b.day {
      OrdinalMonotone(a, b);
      assert da + 1 <= db;
    } else {
      assert da == db;
      assert ta < tb;
    }
  }

  lemma AtOrBeforeIsEarlier(a: DateTime, b: DateTime)
    requires WellFormed(a) && WellFormed(b)
    ensures AtOrBefore(a, b) <==> ToSeconds(a) <= ToSeconds(b)
  {
    BeforeIsEarlier(a, b);
  }
}
