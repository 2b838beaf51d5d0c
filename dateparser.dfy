/** `parse_date`: `datetime.strptime` tried with "%B %d, %Y %I:%M %p" and then
    "%B %d, %Y"; the first template that reads the whole text wins, and text that
    neither reads gives `None`. */
module DateParser {
  import opened Wrappers
  import opened Decimal
  import opened Civil
  import opened Sequences

  /** The two templates, in the order `parse_date` tries them. */
  datatype Template = DateAndTime | DateOnly

  const Templates: seq<Template> := [DateAndTime, DateOnly]

  const MonthNames: seq<string> := ["January", "February", "March", "April", "May", "June",
    "July", "August", "September", "October", "November", "December"]

  function MonthName(m: int): string
    requires 1 <= m <= 12
  {
    MonthNames[m - 1]
  }

  /** `%B`: the number of the month a full English month name names. */
  function MonthNumber(word: string): (r: Option<int>)
    ensures r.Some? ==> 1 <= r.value <= 12 && MonthName(r.value) == word
    ensures r.None? ==> forall m :: 1 <= m <= 12 ==> MonthName(m) != word
  {
    MonthFrom(word, 1)
  }

  function MonthFrom(word: string, m: int): (r: Option<int>)
    requires 1 <= m <= 13
    ensures r.Some? ==> m <= r.value <= 12 && MonthName(r.value) == word
    ensures r.None? ==> forall k :: m <= k <= 12 ==> MonthName(k) != word
    decreases 13 - m
  {
    if m == 13 then None
    else if MonthName(m) == word then Some(m)
    else MonthFrom(word, m + 1)
  }

  /** The text up to the first space, and the rest. */
  function SpanWord(s: string): (r: (string, string))
    ensures r.0 + r.1 == s && ' ' !in r.0
    ensures r.1 == [] || r.1[0] == ' '
  {
    if s == [] || s[0] == ' ' then ([], s)
    else
      var (w, rest) := SpanWord(s[1..]);
      ([s[0]] + w, rest)
  }

  /** The literal `lit` at the front of `s`, and what follows it. */
  function Expect(s: string, lit: string): (r: Option<string>)
    ensures r.Some? <==> |lit| <= |s| && s[..|lit|] == lit
    ensures r.Some? ==> s == lit + r.value
  {
    if |lit| <= |s| && s[..|lit|] == lit then Some(s[|lit|..]) else None
  }

  /** A numeral field (`%d`, `%Y`, `%I`, `%M`): the leading run of digits, which must be
      between `minLen` and `maxLen` digits long and denote a number in `lo..hi`. */
  function Field(s: string, minLen: nat, maxLen: nat, lo: int, hi: int): (r: Option<(int, string)>)
    ensures r.Some? ==> lo <= r.value.0 <= hi && |r.value.1| < |s|
  {
    var (digits, rest) := SpanDigits(s);
    if minLen <= |digits| <= maxLen && 1 <= |digits| && lo <= Value(digits) <= hi
    then Some((Value(digits), rest)) else None
  }

  /** `%p`: the meridiem, `true` for PM. */
  function Meridiem(s: string): (r: Option<bool>)
    ensures r.Some? <==> s == "AM" || s == "PM"
    ensures r.Some? ==> (r.value <==> s == "PM")
  {
    if s == "AM" then Some(false) else if s == "PM" then Some(true) else None
  }

  /** The 24-hour clock hour of `h12` o'clock AM or PM: 12 AM is 0, 12 PM is 12. */
  function Hour24(h12: int, pm: bool): (h: int)
    requires 1 <= h12 <= 12
    ensures 0 <= h < 24
    ensures h % 12 == h12 % 12
    ensures h >= 12 <==> pm
  {
    if pm then (if h12 == 12 then 12 else h12 + 12)
    else (if h12 == 12 then 0 else h12)
  }

  /** The `%B %d, %Y` prefix both templates share: month, day and year, and the text after
      the year. */
  function ReadDate(s: string): (r: Option<(int, int, int, string)>)
    ensures r.Some? ==> 0 <= r.value.0 <= 9999 && 1 <= r.value.1 <= 12 && 1 <= r.value.2 <= 31
    ensures r.Some? ==> r.value.3 == [] || !IsDigit(r.value.3[0])
  {
    var (word, r0) := SpanWord(s);
    var month :- MonthNumber(word);
    var r1 :- Expect(r0, " ");
    var dayField :- Field(r1, 1, 2, 1, 31);
    var r2 :- Expect(dayField.1, ", ");
    var yearField :- Field(r2, 4, 4, 0, 9999);
    Some((yearField.0, month, dayField.0, yearField.1))
  }

  /** The ` %I:%M %p` clock that follows the year in the date-and-time template, as a
      24-hour clock hour and a minute. */
  function ReadClock(s: string): (r: Option<(int, int)>)
    ensures r.Some? ==> 0 <= r.value.0 < 24 && 0 <= r.value.1 < 60
  {
    var r1 :- Expect(s, " ");
    var hourField :- Field(r1, 1, 2, 1, 12);
    var r2 :- Expect(hourField.1, ":");
    var minuteField :- Field(r2, 1, 2, 0, 59);
    var r3 :- Expect(minuteField.1, " ");
    var pm :- Meridiem(r3);
    Some((Hour24(hourField.0, pm), minuteField.0))
  }

  /** `datetime.strptime(s, template)`, with `None` where Python raises `ValueError`:
      the text must be read completely and name a real date-time. */
  function Strptime(s: string, template: Template): (r: Option<DateTime>)
    ensures r.Some? ==> Valid(r.value) && r.value.second == 0
    ensures r.Some? && template == DateOnly ==> r.value.hour == 0 && r.value.minute == 0
  {
    var date :- ReadDate(s);
    var clock :- match template
      case DateOnly => if date.3 == [] then Some((0, 0)) else None
      case DateAndTime => ReadClock(date.3);
    var t := DateTime(date.0, date.1, date.2, clock.0, clock.1, 0);
    if Valid(t) then Some(t) else None
  }

  /** The first template in `templates` that reads `s`, tried in order: `None` exactly when
      none reads it, and otherwise what the first one that reads it gives. */
  function FirstMatch(s: string, templates: seq<Template>): (r: Option<DateTime>)
    ensures r.None? <==> forall i :: 0 <= i < |templates| ==> Strptime(s, templates[i]).None?
    ensures forall i :: (0 <= i < |templates| && Strptime(s, templates[i]).Some? &&
                         forall j :: 0 <= j < i ==> Strptime(s, templates[j]).None?)
                        ==> r == Strptime(s, templates[i])
  {
    if templates == [] then None
    else
      match Strptime(s, templates[0])
      case Some(t) => Some(t)
      case None => FirstMatch(s, templates[1..])
  }

  /** `parse_date(date_str)`. */
  function ParseDate(s: string): (r: Option<DateTime>)
    ensures r.Some? ==> Valid(r.value) && r.value.second == 0
  {
    FirstMatch(s, Templates)
  }

  /** `parse_date` tries the date-and-time template first and falls back to the date-only one. */
  lemma ParseDateOrder(s: string)
    ensures Strptime(s, DateAndTime).Some? ==> ParseDate(s) == Strptime(s, DateAndTime)
    ensures Strptime(s, DateAndTime).None? ==> ParseDate(s) == Strptime(s, DateOnly)
  {
    assert Templates[0] == DateAndTime && Templates[1] == DateOnly;
  }

  /** No text is read by both templates, so the order in which they are tried decides
      nothing beyond which one is reported. */
  lemma TemplatesDisjoint(s: string)
    ensures Strptime(s, DateAndTime).None? || Strptime(s, DateOnly).None?
  {
  }

  /** The text a listing shows for a service without a time: "January 20, 2026". */
  function DateText(m: int, d: nat, y: nat): string
    requires 1 <= m <= 12 && d < 100
  {
    MonthName(m) + (" " + (Unpadded(d) + (", " + Pad(y, 4))))
  }

  /** The clock a listing shows after the date: " 11:00 AM". */
  function ClockText(h12: nat, minute: nat, pm: bool): string
    requires h12 < 100
  {
    " " + (Unpadded(h12) + (":" + (Pad(minute, 2) + (" " + (if pm then "PM" else "AM")))))
  }

  /** The text a listing shows for a service with a time: "January 20, 2026 11:00 AM". */
  function TimedText(m: int, d: nat, y: nat, h12: nat, minute: nat, pm: bool): string
    requires 1 <= m <= 12 && d < 100 && h12 < 100
  {
    DateText(m, d, y) + ClockText(h12, minute, pm)
  }

  lemma MonthNumberName(m: int)
    requires 1 <= m <= 12
    ensures MonthNumber(MonthName(m)) == Some(m)
    ensures ' ' !in MonthName(m)
  {
  }

  lemma {:induction false} SpanWordOf(w: string, rest: string)
    requires ' ' !in w && (rest == [] || rest[0] == ' ')
    ensures SpanWord(w + rest) == (w, rest)
  {
    if w != [] {
      var t := w + rest;
      assert t[0] == w[0] && t[1..] == w[1..] + rest;
      SpanWordOf(w[1..], rest);
      assert [w[0]] + w[1..] == w;
    } else {
      assert w + rest == rest;
    }
  }

  lemma ExpectOf(lit: string, rest: string)
    ensures Expect(lit + rest, lit) == Some(rest)
  {
    assert (lit + rest)[..|lit|] == lit;
    assert (lit + rest)[|lit|..] == rest;
  }

  lemma FieldOf(digits: string, rest: string, minLen: nat, maxLen: nat, lo: int, hi: int)
    requires AllDigits(digits) && 1 <= |digits| && minLen <= |digits| <= maxLen
    requires rest == [] || !IsDigit(rest[0])
    ensures Field(digits + rest, minLen, maxLen, lo, hi) ==
      if lo <= Value(digits) <= hi then Some((Value(digits), rest)) else None
  {
    SpanDigitsOf(digits, rest);
  }

  /** The shared prefix reads back the month, day and year it was written from, leaving the
      rest of the text. */
  lemma ReadDateText(m: int, d: nat, y: nat, rest: string)
    requires 1 <= m <= 12 && 1 <= d <= 31 && y <= 9999
    requires rest == [] || rest[0] == ' '
    ensures ReadDate(DateText(m, d, y) + rest) == Some((y, m, d, rest))
  {
    var r4 := Pad(y, 4) + rest;
    var r3 := ", " + r4;
    var r2 := Unpadded(d) + r3;
    var r1 := " " + r2;
    Associative(", ", Pad(y, 4), rest);
    Associative(Unpadded(d), ", " + Pad(y, 4), rest);
    Associative(" ", Unpadded(d) + (", " + Pad(y, 4)), rest);
    Associative(MonthName(m), " " + (Unpadded(d) + (", " + Pad(y, 4))), rest);
    assert DateText(m, d, y) + rest == MonthName(m) + r1;
    assert Pow10(4) == 10000;
    MonthNumberName(m);
    SpanWordOf(MonthName(m), r1);
    ExpectOf(" ", r2);
    ValueUnpadded(d);
    FieldOf(Unpadded(d), r3, 1, 2, 1, 31);
    ExpectOf(", ", r4);
    ValuePad(y, 4);
    FieldOf(Pad(y, 4), rest, 4, 4, 0, 9999);
  }

  /** The clock reads back as the 24-hour time it denotes. */
  lemma ReadClockText(h12: nat, minute: nat, pm: bool)
    requires 1 <= h12 <= 12 && minute <= 59
    ensures ReadClock(ClockText(h12, minute, pm)) == Some((Hour24(h12, pm), minute))
  {
    var mer := if pm then "PM" else "AM";
    var r9 := " " + mer;
    var r8 := Pad(minute, 2) + r9;
    var r7 := ":" + r8;
    var r6 := Unpadded(h12) + r7;
    assert ClockText(h12, minute, pm) == " " + r6;
    assert Pow10(2) == 100;
    ExpectOf(" ", r6);
    ValueUnpadded(h12);
    FieldOf(Unpadded(h12), r7, 1, 2, 1, 12);
    ExpectOf(":", r8);
    ValuePad(minute, 2);
    FieldOf(Pad(minute, 2), r9, 1, 2, 0, 59);
    ExpectOf(" ", mer);
  }

  /** A date in the listing's timed form is read exactly when it names a real day; the
      clock is converted to 24 hours and the seconds are zero. Calendar-invalid days
      such as February 30, or February 29 of a common year, give `None`. */
  lemma ParseTimedText(m: int, d: nat, y: nat, h12: nat, minute: nat, pm: bool)
    requires 1 <= m <= 12 && 1 <= d <= 31 && y <= 9999 && 1 <= h12 <= 12 && minute <= 59
    ensures ParseDate(TimedText(m, d, y, h12, minute, pm)) ==
      if IsDate(y, m, d) then Some(DateTime(y, m, d, Hour24(h12, pm), minute, 0)) else None
  {
    var s := TimedText(m, d, y, h12, minute, pm);
    ReadDateText(m, d, y, ClockText(h12, minute, pm));
    ReadClockText(h12, minute, pm);
    ParseDateOrder(s);
  }

  /** A date in the listing's date-only form is read as midnight of that day, exactly
      when it names a real day. */
  lemma ParseDateText(m: int, d: nat, y: nat)
    requires 1 <= m <= 12 && 1 <= d <= 31 && y <= 9999
    ensures ParseDate(DateText(m, d, y)) ==
      if IsDate(y, m, d) then Some(DateTime(y, m, d, 0, 0, 0)) else None
  {
    var s := DateText(m, d, y);
    assert s + [] == s;
    ReadDateText(m, d, y, []);
    assert Expect([], " ").None?;
    ParseDateOrder(s);
  }
}
