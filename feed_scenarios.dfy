/** Worked examples of the window, the feed record and the calendar event, on literal
    date-times. */
module FeedScenarios {
  import opened Wrappers
  import opened Decimal
  import opened Civil
  import opened IsoFormat
  import opened Window
  import opened ICalendar
  import opened Numerals

  /** `strftime("%Y%m%dT%H%M%S")` from the numerals of the fields. */
  lemma StampOfPads(t: DateTime, y: string, mo: string, d: string, h: string, mi: string, se: string)
    requires Valid(t)
    requires Pad(t.year, 4) == y && Pad(t.month, 2) == mo && Pad(t.day, 2) == d
    requires Pad(t.hour, 2) == h && Pad(t.minute, 2) == mi && Pad(t.second, 2) == se
    ensures Stamp(t) == y + mo + d + "T" + h + mi + se
  {
  }

  /** `isoformat()` from the numerals of the fields. */
  lemma IsoOfPads(t: DateTime, y: string, mo: string, d: string, h: string, mi: string, se: string)
    requires Valid(t)
    requires Pad(t.year, 4) == y && Pad(t.month, 2) == mo && Pad(t.day, 2) == d
    requires Pad(t.hour, 2) == h && Pad(t.minute, 2) == mi && Pad(t.second, 2) == se
    ensures Iso(t) == y + "-" + mo + "-" + d + "T" + h + ":" + mi + ":" + se
  {
  }

  /** A week from 2026-01-20 11:00 ends at 2026-01-27 11:00, included; a second later is
      out, and so is a second before the start. */
  lemma WindowExample()
    ensures var now := DateTime(2026, 1, 20, 11, 0, 0);
      IsWithinNext7Days(now, now) &&
      IsWithinNext7Days(now, DateTime(2026, 1, 27, 11, 0, 0)) &&
      !IsWithinNext7Days(now, DateTime(2026, 1, 27, 11, 0, 1)) &&
      !IsWithinNext7Days(now, DateTime(2026, 1, 20, 10, 59, 59))
  {
    var now := DateTime(2026, 1, 20, 11, 0, 0);
    assert AddDays(now, WindowDays) == DateTime(2026, 1, 27, 11, 0, 0) by {
      assert AddDays(now, 3) == DateTime(2026, 1, 23, 11, 0, 0);
    }
  }

  /** The window runs across the turn of the year: from 2025-12-28 09:00 it reaches
      2026-01-04 09:00. */
  lemma YearEndWindowExample()
    ensures var now := DateTime(2025, 12, 28, 9, 0, 0);
      IsWithinNext7Days(now, DateTime(2026, 1, 3, 0, 0, 0)) &&
      IsWithinNext7Days(now, DateTime(2026, 1, 4, 9, 0, 0)) &&
      !IsWithinNext7Days(now, DateTime(2026, 1, 4, 9, 0, 1))
  {
    var now := DateTime(2025, 12, 28, 9, 0, 0);
    assert AddDays(now, WindowDays) == DateTime(2026, 1, 4, 9, 0, 0) by {
      assert AddDays(now, 3) == DateTime(2025, 12, 31, 9, 0, 0);
      assert AddDays(now, 4) == DateTime(2026, 1, 1, 9, 0, 0);
    }
  }

  /** The feed publishes 2026-01-20 11:00 as `2026-01-20T11:00:00`. */
  lemma IsoExample()
    ensures Iso(DateTime(2026, 1, 20, 11, 0, 0)) == "2026-01-20T11:00:00"
  {
    Year2026();
    MorningNumerals();
    IsoOfPads(DateTime(2026, 1, 20, 11, 0, 0), "2026", "01", "20", "11", "00", "00");
  }

  /** The event for a service at 2026-01-20 11:00 runs from `20260120T110000` to
      `20260120T120000`. */
  lemma StampExample()
    ensures var start := DateTime(2026, 1, 20, 11, 0, 0);
      Stamp(start) == "20260120T110000" && Stamp(AddHour(start)) == "20260120T120000"
  {
    assert AddHour(DateTime(2026, 1, 20, 11, 0, 0)) == DateTime(2026, 1, 20, 12, 0, 0);
    Year2026();
    MorningNumerals();
    StampOfPads(DateTime(2026, 1, 20, 11, 0, 0), "2026", "01", "20", "11", "00", "00");
    StampOfPads(DateTime(2026, 1, 20, 12, 0, 0), "2026", "01", "20", "12", "00", "00");
  }

  /** A service at 2025-12-31 23:30 ends at 00:30 on New Year's Day. */
  lemma NewYearStampExample()
    ensures var start := DateTime(2025, 12, 31, 23, 30, 0);
      AddHour(start) == DateTime(2026, 1, 1, 0, 30, 0) &&
      Stamp(start) == "20251231T233000" && Stamp(AddHour(start)) == "20260101T003000"
  {
    assert AddHour(DateTime(2025, 12, 31, 23, 30, 0)) == DateTime(2026, 1, 1, 0, 30, 0);
    NewYearStamps();
  }

  lemma NewYearStamps()
    ensures Stamp(DateTime(2025, 12, 31, 23, 30, 0)) == "20251231T233000"
    ensures Stamp(DateTime(2026, 1, 1, 0, 30, 0)) == "20260101T003000"
  {
    OldYearStamp();
    NewDayStamp();
  }

  lemma OldYearStamp()
    ensures Stamp(DateTime(2025, 12, 31, 23, 30, 0)) == "20251231T233000"
  {
    Year2025();
    MorningNumerals();
    EveningNumerals();
    StampOfPads(DateTime(2025, 12, 31, 23, 30, 0), "2025", "12", "31", "23", "30", "00");
  }

  lemma NewDayStamp()
    ensures Stamp(DateTime(2026, 1, 1, 0, 30, 0)) == "20260101T003000"
  {
    Year2026();
    MorningNumerals();
    EveningNumerals();
    StampOfPads(DateTime(2026, 1, 1, 0, 30, 0), "2026", "01", "01", "00", "30", "00");
  }

  /** A record in the last hour of year 9999 has no end, so the calendar fails. */
  lemma LastHourExample()
    ensures EndOf(DateTime(9999, 12, 31, 23, 30, 0)).None?
    ensures EndOf(DateTime(9999, 12, 31, 22, 30, 0)) == Some(DateTime(9999, 12, 31, 23, 30, 0))
  {
  }

  /** A record with a readable date becomes an event from that date to an hour later; a
      record without a date, or with a date that does not read, is skipped; a record
      without a name is printed with the empty name. */
  lemma EntryExamples()
    ensures var start := DateTime(2026, 1, 20, 11, 0, 0);
      EntryOf(Obit(Some("Jane Doe"), Some("2026-01-20T11:00:00"))) ==
        Entry("Jane Doe", Some(Times(start, Some(DateTime(2026, 1, 20, 12, 0, 0)))))
    ensures EntryOf(Obit(Some("John Roe"), None)) == Entry("John Roe", None)
    ensures EntryOf(Obit(None, Some("tomorrow"))) == Entry("", None)
  {
    IsoExample();
    FromIsoIso(DateTime(2026, 1, 20, 11, 0, 0));
  }
}
