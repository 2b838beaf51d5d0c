/** The two endpoints together: `/calendar.ics` reads the records that `/api/obits` returns. */
module Pipeline {
  import opened Wrappers
  import opened Civil
  import opened IsoFormat
  import opened Window
  import opened Feed
  import opened ICalendar

  /** The feed's records after `jsonify` and `response.json()`: both members present. */
  function AsObits(services: seq<Service>): (r: seq<Obit>)
    ensures |r| == |services|
    ensures forall j :: 0 <= j < |services| ==> r[j] == Obit(Some(services[j].name), Some(services[j].date))
  {
    seq(|services|, j requires 0 <= j < |services| => Obit(Some(services[j].name), Some(services[j].date)))
  }

  /** A service in the coming week starts before the last hour of year 9999 when the current
      year is not the last one, so its calendar event gets an end. */
  lemma WindowEndFits(now: DateTime, dt: DateTime)
    requires WellFormed(now) && now.year < MaxYear && Valid(dt) && IsWithinNext7Days(now, dt)
    ensures EndOf(dt).Some?
  {
    WindowYears(now, dt);
  }

  /** Every record the feed publishes becomes exactly one calendar event, in the same order,
      with the same name and starting at the published date, as long as the current year is
      not 9999. */
  lemma {:induction false} CalendarOfFeed(items: seq<Item>, now: DateTime)
    requires WellFormed(now) && now.year < MaxYear
    ensures var services := Services(items, now);
      var entries := Entries(AsObits(services));
      Blocks(entries).Some? && |DatedEntries(entries)| == |services| &&
      forall j :: 0 <= j < |services| ==>
        DatedEntries(entries)[j].name == services[j].name &&
        FromIso(services[j].date) == Some(DatedEntries(entries)[j].start)
  {
    var services := Services(items, now);
    var obits := AsObits(services);
    var entries := Entries(obits);
    ServicesInWindow(items, now);
    forall i | 0 <= i < |entries|
      ensures entries[i].times.Some? && entries[i].times.value.end.Some?
      ensures entries[i].name == services[i].name
      ensures FromIso(services[i].date) == Some(entries[i].times.value.start)
    {
      assert services[i] in services;
      var dt := FromIso(services[i].date).value;
      WindowEndFits(now, dt);
      assert entries[i] == EntryOf(obits[i]);
    }
    DatedAll(entries);
    BlocksFail(entries);
  }

  /** The calendar built from the feed is a document whose content lines are the header, six
      lines per published record in feed order, and the closing line, provided no listed
      name holds a carriage return. */
  lemma FeedDocument(items: seq<Item>, now: DateTime)
    requires WellFormed(now) && now.year < MaxYear
    requires forall k :: 0 <= k < |items| && items[k].name.Some? ==> Unbroken(items[k].name.value)
    ensures var services := Services(items, now);
      var calendar := Calendar(AsObits(services));
      calendar.Document? &&
      |Split(calendar.text)| == 4 + 6 * |services| &&
      LaidOut(Split(calendar.text), DatedEntries(Entries(AsObits(services))))
  {
    CalendarOfFeed(items, now);
    FeedNames(items, now);
    CalendarLines(AsObits(Services(items, now)));
  }

  /** The records the calendar reads carry the published names. */
  lemma FeedNames(items: seq<Item>, now: DateTime)
    requires WellFormed(now)
    requires forall k :: 0 <= k < |items| && items[k].name.Some? ==> Unbroken(items[k].name.value)
    ensures var obits := AsObits(Services(items, now));
      forall k :: 0 <= k < |obits| ==> Unbroken(NameOf(obits[k]))
  {
    var services := Services(items, now);
    var obits := AsObits(services);
    ServiceNames(items, now);
    assert forall k :: 0 <= k < |obits| ==> NameOf(obits[k]) == services[k].name;
  }

  /** Every published name is the name of some listing item. */
  lemma ServiceNames(items: seq<Item>, now: DateTime)
    requires WellFormed(now)
    requires forall k :: 0 <= k < |items| && items[k].name.Some? ==> Unbroken(items[k].name.value)
    ensures forall j :: 0 <= j < |Services(items, now)| ==> Unbroken(Services(items, now)[j].name)
  {
    ServicesAreKept(items, now);
    var idx := KeptIndices(items, now);
    forall j | 0 <= j < |Services(items, now)|
      ensures Unbroken(Services(items, now)[j].name)
    {
      assert Emit(items[idx[j]], now) == Some(Services(items, now)[j]);
    }
  }
}
