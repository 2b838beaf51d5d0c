/** The item filter of the `/api/obits` endpoint (`get_obits`): every listing item that has a
    name element and a service-date element whose text parses and falls in the coming week
    becomes one `{name, date}` record, in listing order. The HTML fetch and the CSS selection
    are outside this model: the items arrive as the texts of their two elements. */
module Feed {
  import opened Wrappers
  import opened Civil
  import opened IsoFormat
  import opened DateParser
  import opened Window

  /** One `.obit-item`: the stripped texts of its `.obit-name` and `.service-date` elements,
      `None` where the element is missing. */
  datatype Item = Item(name: Option<string>, serviceDate: Option<string>)

  /** One record of the JSON array the endpoint returns; `date` is an `isoformat` string. */
  datatype Service = Service(name: string, date: string)

  /** The item has both elements, its date text parses, and the date is in the coming week. */
  predicate Qualifies(item: Item, now: DateTime)
    requires WellFormed(now)
  {
    item.name.Some? && item.serviceDate.Some? &&
    var parsed := ParseDate(item.serviceDate.value);
    parsed.Some? && IsWithinNext7Days(now, parsed.value)
  }

  /** What one loop iteration appends for `item`, if anything. */
  function Emit(item: Item, now: DateTime): (r: Option<Service>)
    requires WellFormed(now)
    ensures r.Some? <==> Qualifies(item, now)
    ensures r.Some? ==> r.value.name == item.name.value
    ensures r.Some? ==> FromIso(r.value.date) == ParseDate(item.serviceDate.value)
  {
    if item.name.None? || item.serviceDate.None? then None
    else
      match ParseDate(item.serviceDate.value)
      case None => None
      case Some(dt) =>
        if IsWithinNext7Days(now, dt) then
          FromIsoIso(dt);
          Some(Service(item.name.value, Iso(dt)))
        else None
  }

  /** The records the endpoint returns for `items`. */
  function Services(items: seq<Item>, now: DateTime): seq<Service>
    requires WellFormed(now)
  {
    if items == [] then []
    else
      var last := items[|items| - 1];
      Services(items[..|items| - 1], now) + (if Emit(last, now).Some? then [Emit(last, now).value] else [])
  }

  /** The `for item in items` loop of `get_obits`. */
  method GetObits(items: seq<Item>, now: DateTime) returns (services: seq<Service>)
    requires WellFormed(now)
    ensures services == Services(items, now)
  {
    services := [];
    var i := 0;
    while i < |items|
      invariant 0 <= i <= |items|
      invariant services == Services(items[..i], now)
    {
      ServicesStep(items, i, now);
      services := Visit(services, items[i], now);
      i := i + 1;
    }
    assert items[..|items|] == items;
  }

  /** One pass of the loop body: `services` with the record for `item` appended when the
      item has a name and a date that parses and lies in the coming week. */
  method Visit(services: seq<Service>, item: Item, now: DateTime) returns (next: seq<Service>)
    requires WellFormed(now)
    ensures next == services + (if Emit(item, now).Some? then [Emit(item, now).value] else [])
  {
    next := services;
    if item.name.Some? && item.serviceDate.Some? {
      var name := item.name.value;
      var dateText := item.serviceDate.value;
      var parsed := ParseDate(dateText);
      if parsed.Some? && IsWithinNext7Days(now, parsed.value) {
        next := services + [Service(name, Iso(parsed.value))];
      }
    }
  }

  lemma ServicesStep(items: seq<Item>, i: nat, now: DateTime)
    requires WellFormed(now) && i < |items|
    ensures Services(items[..i + 1], now) ==
      Services(items[..i], now) + (if Emit(items[i], now).Some? then [Emit(items[i], now).value] else [])
  {
    assert items[..i + 1][..i] == items[..i];
  }

  /** Whether each item qualifies. */
  function Verdicts(items: seq<Item>, now: DateTime): (v: seq<bool>)
    requires WellFormed(now)
    ensures |v| == |items| && forall i :: 0 <= i < |items| ==> (v[i] <==> Qualifies(items[i], now))
  {
    seq(|items|, i requires 0 <= i < |items| => Qualifies(items[i], now))
  }

  /** The positions holding `true`, in increasing order. */
  function Positions(flags: seq<bool>): (r: seq<nat>)
    ensures forall j :: 0 <= j < |r| ==> r[j] < |flags| && flags[r[j]]
    ensures forall j, k :: 0 <= j < k < |r| ==> r[j] < r[k]
    ensures forall i :: 0 <= i < |flags| && flags[i] ==> i in r
  {
    if flags == [] then []
    else
      var n := |flags| - 1;
      var prev := Positions(flags[..n]);
      if flags[n] then prev + [n] else prev
  }

  /** The positions of the qualifying items, in increasing order. */
  function KeptIndices(items: seq<Item>, now: DateTime): (r: seq<nat>)
    requires WellFormed(now)
    ensures forall j :: 0 <= j < |r| ==> r[j] < |items| && Qualifies(items[r[j]], now)
    ensures forall j, k :: 0 <= j < k < |r| ==> r[j] < r[k]
    ensures forall i :: 0 <= i < |items| && Qualifies(items[i], now) ==> i in r
  {
    Positions(Verdicts(items, now))
  }

  /** The records are exactly the qualifying items, in listing order: the `j`-th record
      comes from the `j`-th qualifying item. */
  lemma ServicesAreKept(items: seq<Item>, now: DateTime)
    requires WellFormed(now)
    ensures |Services(items, now)| == |KeptIndices(items, now)|
    ensures forall j :: 0 <= j < |Services(items, now)| ==>
      Emit(items[KeptIndices(items, now)[j]], now) == Some(Services(items, now)[j])
  {
    var emits := Emits(items, now);
    ServicesPresent(items, now);
    PresentAt(emits);
    assert Presence(emits) == Verdicts(items, now);
  }

  /** What each item yields. */
  function Emits(items: seq<Item>, now: DateTime): (r: seq<Option<Service>>)
    requires WellFormed(now)
    ensures |r| == |items| && forall i :: 0 <= i < |items| ==> r[i] == Emit(items[i], now)
  {
    seq(|items|, i requires 0 <= i < |items| => Emit(items[i], now))
  }

  /** The values present in `opts`, in order. */
  function Present<T>(opts: seq<Option<T>>): seq<T> {
    if opts == [] then []
    else
      var n := |opts| - 1;
      Present(opts[..n]) + (if opts[n].Some? then [opts[n].value] else [])
  }

  /** Which entries of `opts` are present. */
  function Presence<T>(opts: seq<Option<T>>): (r: seq<bool>)
    ensures |r| == |opts| && forall i :: 0 <= i < |opts| ==> (r[i] <==> opts[i].Some?)
  {
    seq(|opts|, i requires 0 <= i < |opts| => opts[i].Some?)
  }

  /** The records are the values the items yield. */
  lemma {:induction false} ServicesPresent(items: seq<Item>, now: DateTime)
    requires WellFormed(now)
    ensures Services(items, now) == Present(Emits(items, now))
  {
    if items != [] {
      var n := |items| - 1;
      ServicesPresent(items[..n], now);
      assert Emits(items, now)[..n] == Emits(items[..n], now);
    }
  }

  /** The `j`-th present value sits at the `j`-th present position. */
  lemma {:induction false} PresentAt<T>(opts: seq<Option<T>>)
    ensures |Present(opts)| == |Positions(Presence(opts))|
    ensures forall j :: 0 <= j < |Present(opts)| ==> opts[Positions(Presence(opts))[j]] == Some(Present(opts)[j])
  {
    if opts != [] {
      var n := |opts| - 1;
      var front := opts[..n];
      PresentAt(front);
      var flags := Presence(opts);
      assert flags[..n] == Presence(front);
      var pos := Positions(Presence(front));
      assert Positions(flags) == pos + (if flags[n] then [n] else []);
      assert Present(opts) == Present(front) + (if opts[n].Some? then [opts[n].value] else []);
      forall j | 0 <= j < |pos|
        ensures opts[pos[j]] == Some(Present(front)[j])
      {
        assert front[pos[j]] == opts[pos[j]];
      }
    }
  }

  /** Every returned record reads back, through `fromisoformat`, as a date-time that lies in
      the coming week and is the parsed service date of the item it came from. */
  lemma ServicesInWindow(items: seq<Item>, now: DateTime)
    requires WellFormed(now)
    ensures forall s :: s in Services(items, now) ==>
      FromIso(s.date).Some? && IsWithinNext7Days(now, FromIso(s.date).value)
  {
    ServicesAreKept(items, now);
    var r := Services(items, now);
    var idx := KeptIndices(items, now);
    forall s | s in r
      ensures FromIso(s.date).Some? && IsWithinNext7Days(now, FromIso(s.date).value)
    {
      var j :| 0 <= j < |r| && r[j] == s;
      assert Emit(items[idx[j]], now) == Some(s);
    }
  }

  /** The filter treats the listing item by item: the records for two listings one after
      the other are the records of the first followed by those of the second. */
  lemma {:induction false} ServicesAppend(a: seq<Item>, b: seq<Item>, now: DateTime)
    requires WellFormed(now)
    ensures Services(a + b, now) == Services(a, now) + Services(b, now)
  {
    if b != [] {
      var n := |b| - 1;
      assert (a + b)[..|a + b| - 1] == a + b[..n];
      assert (a + b)[|a + b| - 1] == b[n];
      ServicesAppend(a, b[..n], now);
    } else {
      assert a + b == a;
    }
  }

  /** No more records than items. */
  lemma ServicesBound(items: seq<Item>, now: DateTime)
    requires WellFormed(now)
    ensures |Services(items, now)| <= |items|
  {
    ServicesAreKept(items, now);
    KeptIndicesBound(KeptIndices(items, now), |items|);
  }

  /** A strictly increasing sequence of indices below `n` has at most `n` entries. */
  lemma {:induction false} KeptIndicesBound(r: seq<nat>, n: nat)
    requires forall j :: 0 <= j < |r| ==> r[j] < n
    requires forall j, k :: 0 <= j < k < |r| ==> r[j] < r[k]
    ensures |r| <= n
  {
    if r != [] {
      var m := |r| - 1;
      KeptIndicesBound(r[..m], r[m]);
    }
  }
}
