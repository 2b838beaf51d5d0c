/** The `/calendar.ics` endpoint (`generate_calendar`): the records of the obituary feed
    become an iCalendar (RFC 5545) document with one one-hour VEVENT per record whose date
    `fromisoformat` accepts. Fetching the feed over HTTP is outside this model: the decoded
    JSON array arrives as a sequence of `Obit` values. */
module ICalendar {
  import opened Wrappers
  import opened Decimal
  import opened Civil
  import opened IsoFormat
  import opened Sequences

  /** One JSON object of the feed: its `name` and `date` members, `None` where absent. */
  datatype Obit = Obit(name: Option<string>, date: Option<string>)

  /** A record as the loop sees it: the name it prints and, when its date reads, the
      event's times. */
  datatype Entry = Entry(name: string, times: Option<Times>)

  /** The start of an event and its end one hour later; `None` for the end where computing it
      raises `OverflowError`. */
  datatype Times = Times(start: DateTime, end: Option<DateTime>)

  /** A record that becomes an event: its name, start and end. */
  datatype Dated = Dated(name: string, start: DateTime, end: DateTime)

  /** The response: the calendar text, or the plain-text error response that the
      endpoint's catch-all handler sends (its message is not modelled). */
  datatype Outcome = Document(text: string) | Failed

  const LineBreak := "\r\n"
  const Header: seq<string> := ["BEGIN:VCALENDAR", "VERSION:2.0", "PRODID:-//Obit Calendar Feed//EN"]
  const Footer := "END:VCALENDAR"
  const StartTag := "DTSTART;TZID=America/New_York:"
  const EndTag := "DTEND;TZID=America/New_York:"

  // ---------------------------------------------------------------------------
  // One record.

  /** `obit.get("name", "")`. */
  function NameOf(obit: Obit): string {
    if obit.name.Some? then obit.name.value else ""
  }

  /** `datetime.fromisoformat(obit.get("date"))`; a missing date fails like a malformed one. */
  function StartOf(obit: Obit): (r: Option<DateTime>)
    ensures r.Some? ==> Valid(r.value)
  {
    if obit.date.Some? then FromIso(obit.date.value) else None
  }

  /** `date + timedelta(hours=1)`, or `None` where the sum leaves the years Python can hold. */
  function EndOf(start: DateTime): (r: Option<DateTime>)
    requires Valid(start)
    ensures r.Some? ==> Valid(r.value) && ToSeconds(r.value) == ToSeconds(start) + SecondsPerHour
    ensures r.None? <==> LastHour(start)
  {
    AddHourOverflow(start);
    AddHourSeconds(start);
    var end := AddHour(start);
    if end.year > MaxYear then None else Some(end)
  }

  /** What the loop computes from one record. */
  function EntryOf(obit: Obit): Entry {
    match StartOf(obit)
    case None => Entry(NameOf(obit), None)
    case Some(start) => Entry(NameOf(obit), Some(Times(start, EndOf(start))))
  }

  /** Every date-time an entry carries is one Python can hold. */
  predicate WellDated(entries: seq<Entry>) {
    forall i :: 0 <= i < |entries| && entries[i].times.Some? ==>
      Valid(entries[i].times.value.start) &&
      (entries[i].times.value.end.Some? ==> Valid(entries[i].times.value.end.value))
  }

  /** What the loop computes from each record. */
  function Entries(obits: seq<Obit>): (r: seq<Entry>)
    ensures |r| == |obits| && WellDated(r)
    ensures forall i :: 0 <= i < |obits| ==> r[i] == EntryOf(obits[i])
  {
    seq(|obits|, i requires 0 <= i < |obits| => EntryOf(obits[i]))
  }

  /** The date-time after `tag` on a property line, as a calendar client reads it. */
  function StampAfter(line: string, tag: string): Option<DateTime> {
    if tag <= line then ReadStamp(line[|tag|..]) else None
  }

  /** The six lines of the event for a service from `start` to `end`. */
  function Event(name: string, start: DateTime, end: DateTime): (r: seq<string>)
    requires Valid(start) && Valid(end)
    ensures |r| == 6
  {
    ["BEGIN:VEVENT",
     "SUMMARY:" + name,
     StartTag + Stamp(start),
     EndTag + Stamp(end),
     "DESCRIPTION:Service for " + name,
     "END:VEVENT"]
  }

  /** The event of a record is a VEVENT block summarised and described by the name; a
      client reads its start as the record's date and its end as one hour later, both in
      the America/New_York zone. */
  lemma EventTimes(name: string, start: DateTime)
    requires Valid(start) && EndOf(start).Some?
    ensures var r := Event(name, start, EndOf(start).value);
      r[0] == "BEGIN:VEVENT" && r[5] == "END:VEVENT" &&
      r[1] == "SUMMARY:" + name && r[4] == "DESCRIPTION:Service for " + name &&
      StampAfter(r[2], StartTag) == Some(start) &&
      StampAfter(r[3], EndTag).Some? &&
      ToSeconds(StampAfter(r[3], EndTag).value) == ToSeconds(start) + SecondsPerHour
  {
    var end := EndOf(start).value;
    var dtStart := Stamp(start);
    var dtEnd := Stamp(end);
    ReadStampStamp(start);
    ReadStampStamp(end);
    assert (StartTag + dtStart)[|StartTag|..] == dtStart;
    assert (EndTag + dtEnd)[|EndTag|..] == dtEnd;
  }

  // ---------------------------------------------------------------------------
  // The document.

  /** One pass of the loop: the lines so far, with the event of the entry added if its date
      read, or `None` if adding its hour overflows. */
  function Extend(lines: seq<string>, entry: Entry): Option<seq<string>>
    requires WellDated([entry])
  {
    assert [entry][0] == entry;
    match entry.times
    case None => Some(lines)
    case Some(Times(_, None)) => None
    case Some(Times(start, Some(end))) => Some(lines + Event(entry.name, start, end))
  }

  /** The event lines for the entries, or `None` when a start lies in the last hour of year
      9999 so that adding the hour overflows (which aborts the whole response). */
  function Blocks(entries: seq<Entry>): Option<seq<string>>
    requires WellDated(entries)
  {
    if entries == [] then Some([])
    else
      var n := |entries| - 1;
      assert WellDated(entries[..n]) by {
        assert forall i :: 0 <= i < n ==> entries[..n][i] == entries[i];
      }
      var prev :- Blocks(entries[..n]);
      assert WellDated([entries[n]]) by {
        assert [entries[n]][0] == entries[n];
      }
      Extend(prev, entries[n])
  }

  /** `sep.join(lines)`. */
  function Join(lines: seq<string>, sep: string): string {
    if lines == [] then ""
    else if |lines| == 1 then lines[0]
    else lines[0] + sep + Join(lines[1..], sep)
  }

  /** The whole response for `obits`. */
  function Calendar(obits: seq<Obit>): Outcome {
    match Blocks(Entries(obits))
    case None => Failed
    case Some(blocks) => Document(Join(Header + blocks + [Footer], LineBreak))
  }

  /** The lines of `generate_calendar`, gathered by its loop. */
  method GenerateCalendar(obits: seq<Obit>) returns (r: Outcome)
    ensures r == Calendar(obits)
  {
    var lines := Header;
    ghost var entries := Entries(obits);
    ghost var events: seq<string> := [];
    var i := 0;
    while i < |obits|
      invariant 0 <= i <= |obits|
      invariant Blocks(entries[..i]) == Some(events) && lines == Header + events
    {
      var obit := obits[i];
      BlocksStep(entries, i);
      var name := NameOf(obit);
      var date := StartOf(obit);
      if date.Some? {
        var end := AddHour(date.value);
        if end.year > MaxYear {
          BlocksFailPersists(entries, i + 1);
          return Failed;
        }
        var event := Event(name, date.value, end);
        Associative(Header, events, event);
        lines := lines + event;
        events := events + event;
      }
      i := i + 1;
    }
    assert entries[..|obits|] == entries;
    lines := lines + [Footer];
    r := Document(Join(lines, LineBreak));
  }

  /** The event lines of the first `i + 1` entries are those of the first `i` extended by
      entry `i`. */
  lemma BlocksStep(entries: seq<Entry>, i: nat)
    requires WellDated(entries) && i < |entries|
    ensures WellDated(entries[..i]) && WellDated(entries[..i + 1])
    ensures Blocks(entries[..i + 1]) ==
      (match Blocks(entries[..i]) case None => None case Some(prev) => Extend(prev, entries[i]))
  {
    assert forall k :: 0 <= k < i ==> entries[..i][k] == entries[k];
    assert forall k :: 0 <= k <= i ==> entries[..i + 1][k] == entries[k];
    assert entries[..i + 1][..i] == entries[..i];
    assert [entries[i]][0] == entries[i];
  }

  /** Once a prefix of the entries makes the response fail, all of them do. */
  lemma {:induction false} BlocksFailPersists(entries: seq<Entry>, k: nat)
    requires WellDated(entries) && k <= |entries|
    requires WellDated(entries[..k]) && Blocks(entries[..k]).None?
    ensures Blocks(entries).None?
  {
    if k < |entries| {
      var n := |entries| - 1;
      BlocksStep(entries, n);
      assert entries[..n][..k] == entries[..k];
      BlocksFailPersists(entries[..n], k);
      assert entries[..n + 1] == entries;
    } else {
      assert entries[..k] == entries;
    }
  }

  // ---------------------------------------------------------------------------
  // The events of a feed.

  /** The entries that become events, in feed order. */
  function DatedEntries(entries: seq<Entry>): (r: seq<Dated>)
    requires WellDated(entries)
    ensures forall j :: 0 <= j < |r| ==> Valid(r[j].start) && Valid(r[j].end)
    ensures |r| <= |entries|
  {
    if entries == [] then []
    else
      var n := |entries| - 1;
      assert WellDated(entries[..n]) by {
        assert forall i :: 0 <= i < n ==> entries[..n][i] == entries[i];
      }
      DatedEntries(entries[..n]) + DatedOf(entries[n])
  }

  /** The event an entry becomes, if any. */
  function DatedOf(e: Entry): seq<Dated> {
    match e.times
    case Some(Times(start, Some(end))) => [Dated(e.name, start, end)]
    case _ => []
  }

  /** The end of an entry whose date read overflows. */
  predicate Overflows(e: Entry) {
    e.times.Some? && e.times.value.end.None?
  }

  /** The response fails exactly when the end of some record overflows. */
  lemma {:induction false} BlocksFail(entries: seq<Entry>)
    requires WellDated(entries)
    ensures Blocks(entries).None? <==> exists i :: 0 <= i < |entries| && Overflows(entries[i])
  {
    if entries != [] {
      var n := |entries| - 1;
      BlocksStep(entries, n);
      assert entries[..n + 1] == entries;
      BlocksFail(entries[..n]);
      if exists i :: 0 <= i < n && Overflows(entries[..n][i]) {
        var i :| 0 <= i < n && Overflows(entries[..n][i]);
        assert entries[..n][i] == entries[i];
      }
      if i :| 0 <= i < |entries| && Overflows(entries[i]) {
        if i < n {
          assert entries[..n][i] == entries[i];
        }
      }
    }
  }

  /** The lines `b` are the events `d`, six lines each, in order. */
  predicate Shaped(b: seq<string>, d: seq<Dated>)
    requires forall j :: 0 <= j < |d| ==> Valid(d[j].start) && Valid(d[j].end)
  {
    |b| == 6 * |d| &&
    forall j :: 0 <= j < |d| ==> b[6 * j..6 * j + 6] == Event(d[j].name, d[j].start, d[j].end)
  }

  /** When the response succeeds, its event lines are six per readable record, in feed order. */
  lemma {:induction false} BlocksShape(entries: seq<Entry>)
    requires WellDated(entries) && Blocks(entries).Some?
    ensures Shaped(Blocks(entries).value, DatedEntries(entries))
  {
    if entries != [] {
      var n := |entries| - 1;
      BlocksStep(entries, n);
      assert entries[..n + 1] == entries;
      BlocksShape(entries[..n]);
      var d := DatedEntries(entries[..n]);
      var e := DatedOf(entries[n]);
      assert DatedEntries(entries) == d + e;
      var prev := Blocks(entries[..n]).value;
      var b := Blocks(entries).value;
      match entries[n].times
      case None =>
        assert e == [] && b == prev && d + e == d;
      case Some(Times(start, end)) =>
        var x := Dated(entries[n].name, start, end.value);
        assert b == prev + Event(x.name, x.start, x.end) && e == [x];
        ShapedExtend(prev, d, x);
    }
  }

  /** Appending an event's lines to lines shaped as events adds that event. */
  lemma ShapedExtend(b: seq<string>, d: seq<Dated>, x: Dated)
    requires forall j :: 0 <= j < |d| ==> Valid(d[j].start) && Valid(d[j].end)
    requires Valid(x.start) && Valid(x.end) && Shaped(b, d)
    ensures Shaped(b + Event(x.name, x.start, x.end), d + [x])
  {
    var event := Event(x.name, x.start, x.end);
    SixLineBlocks(b, event, |d|);
    var de := d + [x];
    forall j | 0 <= j < |de|
      ensures (b + event)[6 * j..6 * j + 6] == Event(de[j].name, de[j].start, de[j].end)
    {
      if j < |d| {
        assert de[j] == d[j];
      } else {
        assert de[j] == x;
      }
    }
  }

  /** When every entry's date read and its end could be computed, each entry becomes one
      event, in order. */
  lemma {:induction false} DatedAll(entries: seq<Entry>)
    requires WellDated(entries)
    requires forall i :: 0 <= i < |entries| ==> entries[i].times.Some? && entries[i].times.value.end.Some?
    ensures |DatedEntries(entries)| == |entries|
    ensures forall i :: 0 <= i < |entries| ==>
      DatedEntries(entries)[i] == Dated(entries[i].name, entries[i].times.value.start, entries[i].times.value.end.value)
  {
    if entries != [] {
      var n := |entries| - 1;
      assert forall i :: 0 <= i < n ==> entries[..n][i] == entries[i];
      DatedAll(entries[..n]);
      var d := DatedEntries(entries[..n]);
      var de: seq<Dated> := d + DatedOf(entries[n]);
      assert DatedEntries(entries) == de;
      assert forall i :: 0 <= i < n ==> de[i] == d[i];
    }
  }

  /** Appending a six-line block after `m` six-line blocks keeps those and adds one. */
  lemma SixLineBlocks(prev: seq<string>, e: seq<string>, m: nat)
    requires |prev| == 6 * m && |e| == 6
    ensures (prev + e)[6 * m..6 * m + 6] == e
    ensures forall j :: 0 <= j < m ==> (prev + e)[6 * j..6 * j + 6] == prev[6 * j..6 * j + 6]
  {
  }

  // ---------------------------------------------------------------------------
  // The document as a sequence of content lines.

  /** `text.split("\r\n")`, as a calendar client cuts the document into content lines. */
  function Split(text: string): (r: seq<string>)
    ensures |r| >= 1
  {
    if |text| >= 2 && text[0] == '\r' && text[1] == '\n' then [""] + Split(text[2..])
    else if text == [] then [""]
    else
      var rest := Split(text[1..]);
      [[text[0]] + rest[0]] + rest[1..]
  }

  /** No carriage return: a line `split` keeps whole. */
  predicate Unbroken(line: string) {
    forall i :: 0 <= i < |line| ==> line[i] != '\r'
  }

  /** A line without a carriage return splits into itself. */
  lemma {:induction false} SplitUnbroken(line: string)
    requires Unbroken(line)
    ensures Split(line) == [line]
  {
    if line != [] {
      SplitUnbroken(line[1..]);
      assert [line[0]] + line[1..] == line;
    }
  }

  /** A line ended by CRLF splits off in front of whatever follows. */
  lemma {:induction false} SplitAfterBreak(line: string, rest: string)
    requires Unbroken(line)
    ensures Split(line + LineBreak + rest) == [line] + Split(rest)
  {
    if line == [] {
      assert line + LineBreak + rest == ['\r', '\n'] + rest;
      assert (['\r', '\n'] + rest)[2..] == rest;
    } else {
      SplitAfterBreak(line[1..], rest);
      var t := line + LineBreak + rest;
      assert t[1..] == line[1..] + LineBreak + rest;
      assert [line[0]] + line[1..] == line;
    }
  }

  /** Splitting the joined lines at CRLF gives the lines back, as long as none holds a
      carriage return of its own. */
  lemma {:induction false} SplitJoin(lines: seq<string>)
    requires lines != [] && forall k :: 0 <= k < |lines| ==> Unbroken(lines[k])
    ensures Split(Join(lines, LineBreak)) == lines
  {
    if |lines| == 1 {
      SplitUnbroken(lines[0]);
    } else {
      SplitJoin(lines[1..]);
      SplitAfterBreak(lines[0], Join(lines[1..], LineBreak));
      assert [lines[0]] + lines[1..] == lines;
    }
  }

  /** A `strftime` stamp holds digits and one `T`. */
  lemma StampUnbroken(t: DateTime)
    requires Valid(t)
    ensures Unbroken(Stamp(t))
  {
    var s := Stamp(t);
    assert s == s[..8] + [s[8]] + s[9..];
    forall k | 0 <= k < 8
      ensures s[..8][k] != '\r'
    {
      assert IsDigit(s[..8][k]);
    }
    forall k | 0 <= k < |s[9..]|
      ensures s[9..][k] != '\r'
    {
      assert IsDigit(s[9..][k]);
    }
  }

  /** The opening and closing lines of the document hold no carriage return. */
  lemma FrameUnbroken()
    ensures forall k :: 0 <= k < |Header + [Footer]| ==> Unbroken((Header + [Footer])[k])
  {
  }

  /** The fixed text of an event holds no carriage return. */
  lemma EventTextUnbroken()
    ensures Unbroken(StartTag) && Unbroken(EndTag)
    ensures Unbroken("BEGIN:VEVENT") && Unbroken("END:VEVENT")
    ensures Unbroken("SUMMARY:") && Unbroken("DESCRIPTION:Service for ")
  {
  }

  /** The six lines of an event hold no carriage return when the name holds none. */
  lemma EventUnbroken(name: string, start: DateTime, end: DateTime)
    requires Valid(start) && Valid(end) && Unbroken(name)
    ensures forall k :: 0 <= k < 6 ==> Unbroken(Event(name, start, end)[k])
  {
    StampUnbroken(start);
    StampUnbroken(end);
    EventTextUnbroken();
    var e := Event(name, start, end);
    assert e[1] == "SUMMARY:" + name && e[4] == "DESCRIPTION:Service for " + name;
    assert e[2] == StartTag + Stamp(start) && e[3] == EndTag + Stamp(end);
  }

  /** Event lines built from names without carriage returns hold none. */
  lemma AllUnbroken(b: seq<string>, d: seq<Dated>)
    requires forall j :: 0 <= j < |d| ==> Valid(d[j].start) && Valid(d[j].end)
    requires forall j :: 0 <= j < |d| ==> Unbroken(d[j].name)
    requires Shaped(b, d)
    ensures forall k :: 0 <= k < |b| ==> Unbroken(b[k])
  {
    forall k | 0 <= k < |b|
      ensures Unbroken(b[k])
    {
      var j := k / 6;
      EventUnbroken(d[j].name, d[j].start, d[j].end);
      assert b[k] == b[6 * j..6 * j + 6][k - 6 * j];
    }
  }

  /** Each entry that becomes an event keeps its name, so it has no carriage return if no
      name of the entries has one. */
  lemma {:induction false} DatedUnbroken(entries: seq<Entry>)
    requires WellDated(entries)
    requires forall k :: 0 <= k < |entries| ==> Unbroken(entries[k].name)
    ensures forall j :: 0 <= j < |DatedEntries(entries)| ==> Unbroken(DatedEntries(entries)[j].name)
  {
    if entries != [] {
      var n := |entries| - 1;
      assert forall k :: 0 <= k < n ==> entries[..n][k] == entries[k];
      DatedUnbroken(entries[..n]);
    }
  }

  /** The content lines of a calendar holding the events `d`: the three header lines, six
      lines per event in order, and the closing line. */
  predicate LaidOut(lines: seq<string>, d: seq<Dated>)
    requires forall j :: 0 <= j < |d| ==> Valid(d[j].start) && Valid(d[j].end)
  {
    |lines| == 4 + 6 * |d| &&
    lines[..3] == Header && lines[|lines| - 1] == Footer &&
    forall j :: 0 <= j < |d| ==> lines[3 + 6 * j..9 + 6 * j] == Event(d[j].name, d[j].start, d[j].end)
  }

  /** When the response succeeds, a client splitting the document at CRLF sees the three
      header lines, six lines per event in feed order, and the closing line, provided no
      record's name holds a carriage return. */
  lemma CalendarLines(obits: seq<Obit>)
    requires Calendar(obits).Document?
    requires forall k :: 0 <= k < |obits| ==> Unbroken(NameOf(obits[k]))
    ensures LaidOut(Split(Calendar(obits).text), DatedEntries(Entries(obits)))
  {
    var entries := Entries(obits);
    assert forall k :: 0 <= k < |entries| ==> entries[k].name == NameOf(obits[k]);
    EventLines(entries);
    LinesOfEvents(Blocks(entries).value, DatedEntries(entries));
  }

  /** The event lines of a successful response, and that their names hold no carriage return. */
  lemma EventLines(entries: seq<Entry>)
    requires WellDated(entries) && Blocks(entries).Some?
    requires forall k :: 0 <= k < |entries| ==> Unbroken(entries[k].name)
    ensures Shaped(Blocks(entries).value, DatedEntries(entries))
    ensures forall j :: 0 <= j < |DatedEntries(entries)| ==> Unbroken(DatedEntries(entries)[j].name)
  {
    BlocksShape(entries);
    DatedUnbroken(entries);
  }

  /** The content lines of a document whose event lines are the events `d`, six each. */
  lemma LinesOfEvents(b: seq<string>, d: seq<Dated>)
    requires forall j :: 0 <= j < |d| ==> Valid(d[j].start) && Valid(d[j].end)
    requires forall j :: 0 <= j < |d| ==> Unbroken(d[j].name)
    requires Shaped(b, d)
    ensures LaidOut(Split(Join(Header + b + [Footer], LineBreak)), d)
  {
    AllUnbroken(b, d);
    SplitDocument(b);
    Ends(Header, b, [Footer]);
    forall j | 0 <= j < |d|
      ensures (Header + b + [Footer])[3 + 6 * j..9 + 6 * j] == b[6 * j..6 * j + 6]
    {
      MiddleSlice(Header, b, [Footer], 6 * j, 6);
    }
  }

  /** A document whose event lines hold no carriage return splits back into its lines. */
  lemma SplitDocument(b: seq<string>)
    requires forall k :: 0 <= k < |b| ==> Unbroken(b[k])
    ensures Split(Join(Header + b + [Footer], LineBreak)) == Header + b + [Footer]
  {
    FrameUnbroken();
    UnbrokenAround(Header, b, [Footer]);
    SplitJoin(Header + b + [Footer]);
  }

  /** Lines around unbroken lines, all unbroken, make unbroken lines. */
  lemma UnbrokenAround(h: seq<string>, b: seq<string>, f: seq<string>)
    requires forall k :: 0 <= k < |h + f| ==> Unbroken((h + f)[k])
    requires forall k :: 0 <= k < |b| ==> Unbroken(b[k])
    ensures forall k :: 0 <= k < |h + b + f| ==> Unbroken((h + b + f)[k])
  {
    forall k | 0 <= k < |h + b + f|
      ensures Unbroken((h + b + f)[k])
    {
      if k < |h| {
        assert (h + b + f)[k] == (h + f)[k];
      } else if k >= |h| + |b| {
        assert (h + b + f)[k] == (h + f)[k - |b|];
      }
    }
  }
}
