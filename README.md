# Obituary service feed and calendar, modelled in Dafny

The repository is a small Flask application (`main.py`) with two endpoints.

- `/api/obits` fetches a funeral home's obituary listing. It reads each `.obit-item` and keeps the items whose `.obit-name` and `.service-date` elements are both present, whose date text parses (`parse_date`), and whose date falls within the coming seven days (`is_within_next_7_days`). It returns the kept items as JSON records `{name, date}`, where `date` is the `isoformat()` of the parsed date.
- `/calendar.ics` reads those records back. For each record it builds an iCalendar VEVENT that starts at the service date and lasts one hour, then joins the lines with CRLF.

This project models the logic between the HTTP calls:

- **DateParser**: `parse_date`. It tries `strptime` with `"%B %d, %Y %I:%M %p"`, then with `"%B %d, %Y"`.
- **Window**: `is_within_next_7_days`. The current time is a parameter.
- **Feed**: the item loop of `get_obits`. It is an imperative method proved against a specification function.
- **ICalendar**: the line building and the join of `generate_calendar`. This is also a method proved against a specification function.
- **Pipeline**: lemmas that connect the two endpoints.

Python's `datetime` is modelled in **Civil**. This covers:

- years 1 to 9999;
- field-by-field ordering, proved to agree with ordering by seconds since 0001-01-01;
- day rollover for `timedelta(days=7)` and `timedelta(hours=1)`;
- the `OverflowError` past 9999-12-31.

The `isoformat()`, `fromisoformat()` and `strftime("%Y%m%dT%H%M%S")` texts are modelled in **IsoFormat**, and the digit strings in **Decimal**.

Three points of `main.py` that are easy to misread:

- **Empty names are kept.** An item whose name element is present but whose text is empty is still kept, because `if not name_el` only tests that the element exists.
- **An hour past 9999-12-31 fails the whole calendar.** The date arithmetic for DTEND (`main.py:74`) sits outside the inner `try`. When a record's start is in the last representable hour, the `OverflowError` reaches the outer handler and the whole response becomes the error text. This is `Outcome.Failed`.
- **Unparseable records are skipped.** A record whose date is missing or does not parse is skipped, as the inner `except` does.

## Model

| member | source | states |
|---|---|---|
| DateParser.MonthNumber | main.py:94 | `%B` accepts exactly the twelve full English month names and returns the number of the month named |
| DateParser.Meridiem | main.py:94 | `%p` accepts exactly `AM` and `PM`, and yields PM only for `PM` |
| DateParser.Hour24 | main.py:94 | `%I` with `%p` gives an hour in 0..23 that agrees with the 12-hour value modulo 12 and is at least 12 exactly for PM (so 12 AM is 0 and 12 PM is 12) |
| DateParser.Field | main.py:94 | a numeral field reads a value within its bounds and consumes at least one character |
| DateParser.ReadDate | main.py:94 | the shared `%B %d, %Y` prefix yields a year in 0..9999, a month in 1..12 and a day in 1..31, and stops before a non-digit |
| DateParser.ReadClock | main.py:94 | the ` %I:%M %p` clock yields a 24-hour time with hour < 24 and minute < 60 |
| DateParser.Strptime | main.py:96 | a successful `strptime` gives a valid `datetime` with zero seconds, and midnight for the date-only template |
| DateParser.FirstMatch | main.py:94-99 | the loop returns None exactly when every template fails, and otherwise the result of the first template that succeeds |
| DateParser.ParseDate | main.py:93-99 | a parsed date is a valid `datetime` with zero seconds |
| DateParser.ParseDateOrder | main.py:94-98 | `parse_date` gives the date-and-time reading when it succeeds and the date-only reading otherwise |
| DateParser.TemplatesDisjoint | main.py:94 | no text is accepted by both templates |
| DateParser.ReadDateText | main.py:94 | the prefix reads back the month, day and year it was written from |
| DateParser.ReadClockText | main.py:94 | the clock text reads back as the 24-hour time it denotes |
| DateParser.ParseTimedText | main.py:93-99 | "Month D, YYYY H:MM AM/PM" parses exactly when it names a real calendar day, to that day at the 24-hour time |
| DateParser.ParseDateText | main.py:93-99 | "Month D, YYYY" parses exactly when it names a real calendar day, to midnight of that day |
| DateParser.MonthNumberName | main.py:94 | month names and month numbers are inverse |
| Scenarios.ParseListingExample | main.py:93-99 | "January 20, 2026 11:00 AM" parses to 2026-01-20 11:00 |
| Scenarios.ParseMidnightExample | main.py:93-99 | "February 29, 2028 12:00 AM" parses to midnight of a leap day |
| Scenarios.ParseNoonExample | main.py:93-99 | "March 1, 2026 12:30 PM" parses to 12:30 |
| Scenarios.ParseDateOnlyExample | main.py:93-99 | "January 20, 2026" falls back to the date-only template and parses to midnight |
| Scenarios.ParseFebruary30Example | main.py:93-99 | a day the month does not have is rejected |
| Scenarios.ParseCommonYearLeapDayExample | main.py:93-99 | February 29 of a common year is rejected in both forms |
| Civil.DaysInMonth | main.py:103 | every month has 28 to 31 days |
| Civil.NextDay | main.py:103 | the day after a calendar day is a calendar day |
| Civil.NextDayOrdinal | main.py:103 | the next day has the next proleptic Gregorian ordinal |
| Civil.TomorrowSeconds | main.py:103 | adding a day adds 86400 seconds |
| Civil.AddDaysSeconds | main.py:103 | `t + timedelta(days=n)` lies exactly n·86400 seconds after `t` |
| Civil.AddDays | main.py:103 | `t + timedelta(days=n)`: a well-formed date-time with the same time of day; AddDaysSeconds gives its meaning |
| Civil.AddHour | main.py:74 | `t + timedelta(hours=1)`: a well-formed date-time with the same minutes and seconds; AddHourSeconds and AddHourOverflow give its meaning |
| Civil.AddHourSeconds | main.py:74 | `t + timedelta(hours=1)` lies exactly 3600 seconds after `t` |
| Civil.AddHourOverflow | main.py:74 | adding an hour leaves the range of `datetime` exactly in the last hour of 9999-12-31 |
| Civil.AddHourYear | main.py:74 | adding an hour moves to the next year exactly from 23:00 on December 31, and keeps the year otherwise |
| Civil.Before | main.py:104 | Python's field-by-field `<` on datetimes; BeforeIsEarlier states that it orders by instant |
| Civil.AtOrBefore | main.py:104 | Python's `<=` on datetimes; AtOrBeforeIsEarlier states that it orders by instant |
| Civil.BeforeIsEarlier | main.py:104 | Python's field-by-field `<` on datetimes holds exactly when the first is earlier in seconds, and equality exactly when the seconds agree |
| Civil.AtOrBeforeIsEarlier | main.py:104 | `<=` on datetimes holds exactly when the first is not later in seconds |
| Window.IsWithinNext7Days | main.py:101-104 | the check holds exactly when `dt` is no earlier than `now` and at most 604800 seconds after it |
| Window.WindowEnds | main.py:103-104 | both ends of the window are inside it, and one second beyond either end is outside |
| Window.WindowYears | main.py:101-104 | a date in the window is in the year of `now` or in the January after it |
| FeedScenarios.WindowExample | main.py:101-104 | the week from 2026-01-20 11:00 includes 2026-01-27 11:00:00 but not 11:00:01, and not 10:59:59 the day before |
| FeedScenarios.YearEndWindowExample | main.py:101-104 | the week from 2025-12-28 09:00 runs into 2026 and ends at 2026-01-04 09:00 |
| IsoFormat.Iso | main.py:45 | `isoformat()` of a date-time without microseconds has 19 characters |
| IsoFormat.FromIso | main.py:70 | a date-time that `fromisoformat` accepts is a valid `datetime` |
| IsoFormat.FromIsoIso | main.py:45 | the date string the feed publishes reads back, through `fromisoformat`, as the date-time it was written from |
| IsoFormat.IsoFromIso | main.py:70 | a 19-character string that `fromisoformat` accepts is exactly the `isoformat()` of what it reads as |
| IsoFormat.IsoFields | main.py:45 | each field of `isoformat()` is the zero-padded field of the date-time, at its fixed position, with the separators in place |
| IsoFormat.Stamp | main.py:73-74 | `%Y%m%dT%H%M%S` gives eight digits, a `T` and six digits |
| IsoFormat.StampFields | main.py:73-74 | each field of the stamp is the zero-padded field of the date-time, at its fixed position |
| IsoFormat.ReadStampStamp | main.py:73-74 | the DTSTART and DTEND text determines the date-time it was written from |
| FeedScenarios.IsoExample | main.py:45 | 2026-01-20 11:00 is published as `2026-01-20T11:00:00` |
| FeedScenarios.StampExample | main.py:73-74 | a service at 2026-01-20 11:00 gives the stamps `20260120T110000` and `20260120T120000` |
| FeedScenarios.NewYearStampExample | main.py:73-74 | a service at 2025-12-31 23:30 ends at `20260101T003000` |
| Decimal.ValuePad | main.py:73 | a zero-padded numeral reads back as its number |
| Decimal.PadValue | main.py:70 | a digit string is the zero-padded form of its own value |
| Feed.Qualifies | main.py:35-42 | the item has both elements, its date parses, and the date is in the window; Emit yields a record exactly for such items |
| Feed.Emit | main.py:32-46 | an item yields a record exactly when it has both elements, its date parses and lies in the window; the record carries the item's name, and its date reads back as the parsed date |
| Feed.Visit | main.py:32-46 | one loop pass appends the item's record when the item yields one, and otherwise leaves the list unchanged |
| Feed.Services | main.py:31-46 | the records the loop appends, item by item; ServicesAreKept states that they are exactly the qualifying items' records in order |
| Feed.GetObits | main.py:29-46 | the loop returns exactly `Services(items, now)`, whose meaning ServicesAreKept and KeptIndices state |
| Feed.KeptIndices | main.py:31-46 | the qualifying positions, strictly increasing, with every qualifying item among them |
| Feed.ServicesAreKept | main.py:29-46 | the j-th record is what the j-th qualifying item yields, and there are as many records as qualifying items |
| Feed.ServicesInWindow | main.py:42-46 | every returned date reads back as a date-time in the coming week |
| Feed.ServicesAppend | main.py:31-46 | the records for two listings one after the other are the records of the first followed by those of the second |
| Feed.ServicesBound | main.py:31-46 | there are never more records than items |
| ICalendar.NameOf | main.py:68 | `obit.get("name", "")`: the record's name, or the empty name; EntryExamples shows both cases |
| ICalendar.StartOf | main.py:69-72 | a start the record yields is a valid `datetime` |
| ICalendar.EndOf | main.py:74 | the end is the start plus 3600 seconds, and is missing (OverflowError) exactly in the last representable hour |
| ICalendar.Entries | main.py:67-74 | what the loop computes from each record, one entry per record, with valid dates |
| ICalendar.Event | main.py:76-83 | each record adds six lines |
| ICalendar.EventTimes | main.py:76-83 | the event's lines open and close the VEVENT and carry the name; DTSTART reads back as the start; DTEND reads back as one hour later |
| ICalendar.Calendar | main.py:61-91 | the response for the records: `Failed` when the end of some record overflows, otherwise the CRLF join of header, events and footer; BlocksFail and CalendarLines state it |
| ICalendar.GenerateCalendar | main.py:61-91 | the loop builds exactly `Calendar(obits)`, whose meaning BlocksFail and CalendarLines state |
| ICalendar.BlocksStep | main.py:67-83 | one more record extends the lines built so far, or keeps the failure |
| ICalendar.BlocksFailPersists | main.py:74 | once the end of a record overflows, the whole response fails |
| ICalendar.BlocksFail | main.py:74 | the response fails exactly when some record's end overflows |
| ICalendar.BlocksShape | main.py:67-83 | the event lines are six lines per record with a start and an end, in record order |
| ICalendar.DatedAll | main.py:67-72 | when every record has a date that can be moved an hour, every record gets an event |
| ICalendar.DatedEntries | main.py:69-72 | the records that get an event have valid dates, and there are no more of them than records |
| ICalendar.Join | main.py:87 | `"\r\n".join(lines)`; SplitJoin states that splitting at CRLF gives the lines back |
| ICalendar.Split | main.py:87 | splitting at CRLF gives at least one line |
| ICalendar.SplitJoin | main.py:87 | splitting the CRLF join of lines without carriage returns gives back the lines |
| ICalendar.SplitDocument | main.py:61-87 | the document splits back into header, event lines and footer |
| ICalendar.EventUnbroken | main.py:76-83 | the event lines hold no carriage return when the name holds none |
| ICalendar.CalendarLines | main.py:61-87 | a successful calendar's lines are the header, six lines per dated record in order, and the footer |
| FeedScenarios.LastHourExample | main.py:74 | a service at 9999-12-31 23:30 has no end; one at 22:30 ends at 23:30 |
| FeedScenarios.EntryExamples | main.py:67-74 | a record with a date gets an hour-long entry; a record without one, or with a date that does not parse, gets none, and a missing name becomes "" |
| Pipeline.WindowEndFits | main.py:74 | when the current year is before 9999, an hour can be added to any date in the window |
| Pipeline.CalendarOfFeed | main.py:29-87 | the calendar of the feed never fails, and it has one event per published record, with the same name and the published start, when the current year is before 9999 |
| Pipeline.FeedDocument | main.py:29-87 | the calendar of the feed is a document of 4 + 6·n lines laid out record by record, provided the current year is before 9999 and no name holds a carriage return |

## Left out

- The HTTP fetches (`requests`), the HTML parsing and CSS selection (BeautifulSoup), JSON encoding and decoding, and Flask's responses are not modelled. Items arrive as the optional texts of their two elements, and records arrive as optional name and date strings.
- The `favicon` and `home` routes return fixed responses (an empty 204 and a short HTML page) and are not modelled.
- The wall clock (`datetime.now()`) is a parameter. One value of `now` serves the whole loop, whereas the source reads the clock once per item.
- Window.IsWithinNext7Days: does not model the `OverflowError` that `now + timedelta(days=7)` raises when `now` is within a week of the end of year 9999. The model extends the calendar past 9999 there.
- Microseconds are not modelled. `datetime.now()` carries them, but parsed dates never do, so `isoformat()` always has its 19-character form here.
- DateParser.ParseDate: `strptime`'s case-insensitive month names and AM/PM, its handling of whitespace, and its non-ASCII digits are not modelled. Month names must be written in their canonical case, and `AM`/`PM` in upper case.
- IsoFormat.FromIso: accepts `YYYY-MM-DD`, `YYYY-MM-DDTHH:MM` and `YYYY-MM-DDTHH:MM:SS` only. The other forms Python accepts (fractions, offsets, week dates, other separators) are not modelled; they never occur in the feed's own records.
- IsoFormat.Stamp: always writes four year digits. Python's `%Y` for years below 1000 is platform-dependent. Those years cannot reach the calendar from the feed, because the window starts at the current time; `parse_date` itself reads "0999" as year 999.
- Records whose name is not a string, such as a JSON `null` that Python would print as `None`, are not modelled; a missing name becomes "".
- The text of the error responses (`str(e)`) is not modelled. A failed calendar is the single outcome `Failed`. In `get_obits` the fetch and, in the last week of year 9999, `now + timedelta(days=7)` can raise; neither is modelled (see the Window.IsWithinNext7Days line above).
