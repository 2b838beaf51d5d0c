/** `is_within_next_7_days`: whether a service date-time lies in the inclusive week that
    starts at the current time. The wall clock is a parameter here. */
module Window {
  import opened Civil

  const WindowDays := 7

  /** `now <= dt <= now + timedelta(days=7)`, with Python's field-by-field comparison;
      it holds exactly when `dt` is at most seven days (604800 seconds) after `now`
      and not before it. */
  function IsWithinNext7Days(now: DateTime, dt: DateTime): (r: bool)
    requires WellFormed(now) && WellFormed(dt)
    ensures r <==> ToSeconds(now) <= ToSeconds(dt) <= ToSeconds(now) + WindowDays * SecondsPerDay
  {
    var weekLater := AddDays(now, WindowDays);
    AddDaysSeconds(now, WindowDays);
    AtOrBeforeIsEarlier(now, dt);
    AtOrBeforeIsEarlier(dt, weekLater);
    AtOrBefore(now, dt) && AtOrBefore(dt, weekLater)
  }

  /** Both ends of the window are inside it; one second beyond either end is outside. */
  lemma WindowEnds(now: DateTime, dt: DateTime)
    requires WellFormed(now) && WellFormed(dt)
    ensures IsWithinNext7Days(now, now)
    ensures IsWithinNext7Days(now, AddDays(now, WindowDays))
    ensures ToSeconds(dt) == ToSeconds(now) - 1 ==> !IsWithinNext7Days(now, dt)
    ensures ToSeconds(dt) == ToSeconds(now) + WindowDays * SecondsPerDay + 1 ==> !IsWithinNext7Days(now, dt)
  {
    AddDaysSeconds(now, WindowDays);
  }

  /** Every date-time in the window lies in the year of `now` or in the January after it.
      So when `now` is before the last representable year, a date-time in the window can
      still be moved an hour forward without leaving the range of `datetime`. */
  lemma {:induction false} WindowYears(now: DateTime, dt: DateTime)
    requires WellFormed(now) && WellFormed(dt) && IsWithinNext7Days(now, dt)
    ensures dt.year == now.year || (dt.year == now.year + 1 && dt.month == 1)
  {
    var w := AddDays(now, WindowDays);
    DaysAheadYears(now, WindowDays);
    assert Near(w, now.year, WindowDays);
    AtOrBeforeIsEarlier(dt, w);
    AtOrBeforeIsEarlier(now, dt);
    if dt.year > w.year || (dt.year == w.year && dt.month > w.month) {
      BeforeIsEarlier(w, dt);
    }
    if dt.year < now.year {
      BeforeIsEarlier(dt, now);
    }
  }

  /** `t` is in year `y0`, or among the first `n` days of the January after it. */
  predicate Near(t: DateTime, y0: int, n: nat) {
    t.year == y0 || (t.year == y0 + 1 && t.month == 1 && t.day <= n)
  }

  /** `n` days after `now`, for `n` under a month, is in the same year or early in January of
      the next one. */
  lemma {:induction false} DaysAheadYears(now: DateTime, n: nat)
    requires WellFormed(now) && n < 28
    ensures Near(AddDays(now, n), now.year, n)
  {
    if n > 0 {
      DaysAheadYears(now, n - 1);
      var p := AddDays(now, n - 1);
      NextDayYears(p, now.year, n);
      assert AddDays(now, n) == Tomorrow(p);
    }
  }

  /** One day forward from a date-time that is in year `y0`, or in the first `n - 1` days
      of the next January, stays in year `y0` or in the first `n` days of that January. */
  lemma NextDayYears(t: DateTime, y0: int, n: nat)
    requires WellFormed(t) && 0 < n < 28 && Near(t, y0, n - 1)
    ensures Near(Tomorrow(t), y0, n)
  {
    if t.month == 12 && t.day == DaysInMonth(t.year, t.month) {
      assert Tomorrow(t).year == t.year + 1;
    }
  }
}
