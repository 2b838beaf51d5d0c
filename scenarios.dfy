/** Concrete scenarios: worked examples of the general lemmas, stated on literal texts and
    date-times. */
module Scenarios {
  import opened Wrappers
  import opened Decimal
  import opened Civil
  import opened DateParser
  import opened Numerals

  // The assembled texts are established in small steps of their own, from the numerals of
  // Numerals, so that no proof below evaluates the parser on a literal character by character.

  lemma TimedTextOf(m: int, d: nat, y: nat, h12: nat, minute: nat, pm: bool,
                    month: string, ds: string, ys: string, hs: string, ms: string)
    requires 1 <= m <= 12 && d < 100 && h12 < 100
    requires MonthName(m) == month && Unpadded(d) == ds && Pad(y, 4) == ys
    requires Unpadded(h12) == hs && Pad(minute, 2) == ms
    ensures TimedText(m, d, y, h12, minute, pm) ==
      month + (" " + (ds + (", " + ys))) + (" " + (hs + (":" + (ms + (" " + (if pm then "PM" else "AM"))))))
  {
  }

  lemma DateTextOf(m: int, d: nat, y: nat, month: string, ds: string, ys: string)
    requires 1 <= m <= 12 && d < 100
    requires MonthName(m) == month && Unpadded(d) == ds && Pad(y, 4) == ys
    ensures DateText(m, d, y) == month + (" " + (ds + (", " + ys)))
  {
  }

  lemma ListingText()
    ensures TimedText(1, 20, 2026, 11, 0, false) == "January 20, 2026 11:00 AM"
  {
    Year2026();
    UnpaddedNumerals();
    MorningNumerals();
    TimedTextOf(1, 20, 2026, 11, 0, false, "January", "20", "2026", "11", "00");
    assert "January" + (" " + ("20" + (", " + "2026"))) + (" " + ("11" + (":" + ("00" + (" " + "AM")))))
      == "January 20, 2026 11:00 AM";
  }

  lemma MidnightText()
    ensures TimedText(2, 29, 2028, 12, 0, false) == "February 29, 2028 12:00 AM"
  {
    Year2028();
    UnpaddedNumerals();
    MorningNumerals();
    TimedTextOf(2, 29, 2028, 12, 0, false, "February", "29", "2028", "12", "00");
    assert "February" + (" " + ("29" + (", " + "2028"))) + (" " + ("12" + (":" + ("00" + (" " + "AM")))))
      == "February 29, 2028 12:00 AM";
  }

  lemma NoonText()
    ensures TimedText(3, 1, 2026, 12, 30, true) == "March 1, 2026 12:30 PM"
  {
    Year2026();
    UnpaddedNumerals();
    EveningNumerals();
    TimedTextOf(3, 1, 2026, 12, 30, true, "March", "1", "2026", "12", "30");
    assert "March" + (" " + ("1" + (", " + "2026"))) + (" " + ("12" + (":" + ("30" + (" " + "PM")))))
      == "March 1, 2026 12:30 PM";
  }

  lemma CommonYearLeapDayText()
    ensures TimedText(2, 29, 2025, 10, 0, false) == "February 29, 2025 10:00 AM"
  {
    Year2025();
    UnpaddedNumerals();
    MorningNumerals();
    TimedTextOf(2, 29, 2025, 10, 0, false, "February", "29", "2025", "10", "00");
    assert "February" + (" " + ("29" + (", " + "2025"))) + (" " + ("10" + (":" + ("00" + (" " + "AM")))))
      == "February 29, 2025 10:00 AM";
  }

  lemma DateTexts()
    ensures DateText(1, 20, 2026) == "January 20, 2026"
    ensures DateText(2, 30, 2026) == "February 30, 2026"
    ensures DateText(2, 29, 2025) == "February 29, 2025"
  {
    Year2025();
    Year2026();
    UnpaddedNumerals();
    DateTextOf(1, 20, 2026, "January", "20", "2026");
    assert "January" + (" " + ("20" + (", " + "2026"))) == "January 20, 2026";
    DateTextOf(2, 30, 2026, "February", "30", "2026");
    assert "February" + (" " + ("30" + (", " + "2026"))) == "February 30, 2026";
    DateTextOf(2, 29, 2025, "February", "29", "2025");
    assert "February" + (" " + ("29" + (", " + "2025"))) == "February 29, 2025";
  }

  /** The listing's own form of a morning service. */
  lemma ParseListingExample()
    ensures ParseDate("January 20, 2026 11:00 AM") == Some(DateTime(2026, 1, 20, 11, 0, 0))
  {
    ListingText();
    ParseTimedText(1, 20, 2026, 11, 0, false);
  }

  /** 12 AM is hour 0, here on a leap day. */
  lemma ParseMidnightExample()
    ensures ParseDate("February 29, 2028 12:00 AM") == Some(DateTime(2028, 2, 29, 0, 0, 0))
  {
    MidnightText();
    assert IsLeap(2028) && IsDate(2028, 2, 29) && Hour24(12, false) == 0;
    ParseTimedText(2, 29, 2028, 12, 0, false);
  }

  /** 12 PM is hour 12. */
  lemma ParseNoonExample()
    ensures ParseDate("March 1, 2026 12:30 PM") == Some(DateTime(2026, 3, 1, 12, 30, 0))
  {
    NoonText();
    ParseTimedText(3, 1, 2026, 12, 30, true);
  }

  /** A date without a time is read as midnight. */
  lemma ParseDateOnlyExample()
    ensures ParseDate("January 20, 2026") == Some(DateTime(2026, 1, 20, 0, 0, 0))
  {
    DateTexts();
    ParseDateText(1, 20, 2026);
  }

  /** February 30 does not exist: the text gives `None`, not an error. */
  lemma ParseFebruary30Example()
    ensures ParseDate("February 30, 2026") == None
  {
    DateTexts();
    ParseDateText(2, 30, 2026);
  }

  /** 2025 is a common year: February 29, 2025 gives `None`, with or without a time. */
  lemma ParseCommonYearLeapDayExample()
    ensures ParseDate("February 29, 2025") == None
    ensures ParseDate("February 29, 2025 10:00 AM") == None
  {
    DateTexts();
    ParseDateText(2, 29, 2025);
    CommonYearLeapDayText();
    ParseTimedText(2, 29, 2025, 10, 0, false);
  }
}
