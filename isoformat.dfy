/** The three textual forms a date-time takes in main.py: `isoformat()` (the feed's `date`
    field), `fromisoformat` (how the calendar reads it back) and
    `strftime("%Y%m%dT%H%M%S")` (the DTSTART / DTEND value). */
module IsoFormat {
  import opened Wrappers
  import opened Decimal
  import opened Civil

  /** `datetime.isoformat()` for a value without microseconds: `YYYY-MM-DDTHH:MM:SS`. */
  function Iso(t: DateTime): (s: string)
    requires Valid(t)
    ensures |s| == 19
  {
    Pad(t.year, 4) + "-" + Pad(t.month, 2) + "-" + Pad(t.day, 2) + "T"
    + Pad(t.hour, 2) + ":" + Pad(t.minute, 2) + ":" + Pad(t.second, 2)
  }

  /** The number written by the `w` characters of `s` from index `i`, if they are all digits. */
  function NumberAt(s: string, i: nat, w: nat): (r: Option<nat>)
    requires i + w <= |s|
    ensures r.Some? ==> r.value < Pow10(w)
  {
    if AllDigits(s[i..i + w]) then (ValueBound(s[i..i + w]); Some(Value(s[i..i + w]))) else None
  }

  /** `datetime.fromisoformat` restricted to `YYYY-MM-DD`, `YYYY-MM-DDTHH:MM` and
      `YYYY-MM-DDTHH:MM:SS`; a string of another shape, or naming no real date-time,
      gives `None` (Python raises `ValueError`). */
  function FromIso(s: string): (r: Option<DateTime>)
    ensures r.Some? ==> Valid(r.value)
  {
    if !(|s| == 10 || |s| == 16 || |s| == 19) || s[4] != '-' || s[7] != '-' then None
    else if |s| > 10 && (s[10] != 'T' || s[13] != ':' || (|s| == 19 && s[16] != ':')) then None
    else
      var year :- NumberAt(s, 0, 4);
      var month :- NumberAt(s, 5, 2);
      var day :- NumberAt(s, 8, 2);
      var hour :- if |s| == 10 then Some(0) else NumberAt(s, 11, 2);
      var minute :- if |s| == 10 then Some(0) else NumberAt(s, 14, 2);
      var second :- if |s| == 19 then NumberAt(s, 17, 2) else Some(0);
      var t := DateTime(year, month, day, hour, minute, second);
      if Valid(t) then Some(t) else None
  }

  /** `strftime("%Y%m%dT%H%M%S")`: the DATE-TIME value of section 3.3.5 of RFC 5545. */
  function Stamp(t: DateTime): (s: string)
    requires Valid(t)
    ensures |s| == 15 && s[8] == 'T' && AllDigits(s[..8]) && AllDigits(s[9..])
  {
    Pad(t.year, 4) + Pad(t.month, 2) + Pad(t.day, 2) + "T"
    + Pad(t.hour, 2) + Pad(t.minute, 2) + Pad(t.second, 2)
  }

  /** How a calendar client reads a local DATE-TIME (`YYYYMMDD` `T` `HHMMSS`) back. */
  function ReadStamp(s: string): (r: Option<DateTime>)
    ensures r.Some? ==> Valid(r.value)
  {
    if |s| != 15 || s[8] != 'T' then None
    else
      var year :- NumberAt(s, 0, 4);
      var month :- NumberAt(s, 4, 2);
      var day :- NumberAt(s, 6, 2);
      var hour :- NumberAt(s, 9, 2);
      var minute :- NumberAt(s, 11, 2);
      var second :- NumberAt(s, 13, 2);
      var t := DateTime(year, month, day, hour, minute, second);
      if Valid(t) then Some(t) else None
  }

  lemma NumberAtPad(s: string, i: nat, n: nat, w: nat)
    requires i + w <= |s| && n < Pow10(w) && s[i..i + w] == Pad(n, w)
    ensures NumberAt(s, i, w) == Some(n)
  {
    ValuePad(n, w);
  }

  /** Where each field of `isoformat()` sits in its text. */
  lemma IsoFields(t: DateTime)
    requires Valid(t)
    ensures Iso(t)[0..4] == Pad(t.year, 4) && Iso(t)[5..7] == Pad(t.month, 2) && Iso(t)[8..10] == Pad(t.day, 2)
    ensures Iso(t)[11..13] == Pad(t.hour, 2) && Iso(t)[14..16] == Pad(t.minute, 2)
    ensures Iso(t)[17..19] == Pad(t.second, 2)
    ensures Iso(t)[4] == '-' && Iso(t)[7] == '-' && Iso(t)[10] == 'T' && Iso(t)[13] == ':' && Iso(t)[16] == ':'
  {
    IsoLayout(Pad(t.year, 4), Pad(t.month, 2), Pad(t.day, 2), Pad(t.hour, 2), Pad(t.minute, 2), Pad(t.second, 2));
  }

  lemma IsoLayout(y: string, mo: string, d: string, h: string, mi: string, se: string)
    requires |y| == 4 && |mo| == 2 && |d| == 2 && |h| == 2 && |mi| == 2 && |se| == 2
    ensures var s := y + "-" + mo + "-" + d + "T" + h + ":" + mi + ":" + se;
      s[0..4] == y && s[5..7] == mo && s[8..10] == d && s[11..13] == h && s[14..16] == mi && s[17..19] == se &&
      s[4] == '-' && s[7] == '-' && s[10] == 'T' && s[13] == ':' && s[16] == ':'
  {
  }

  /** The feed's date string always reads back as the date-time it was written from. */
  lemma FromIsoIso(t: DateTime)
    requires Valid(t)
    ensures FromIso(Iso(t)) == Some(t)
  {
    IsoFields(t);
    FromIsoOfPads(Iso(t), t);
  }

  /** A 19-character text laid out as `isoformat()` lays out `t` reads back as `t`. */
  lemma FromIsoOfPads(s: string, t: DateTime)
    requires Valid(t) && |s| == 19
    requires s[0..4] == Pad(t.year, 4) && s[5..7] == Pad(t.month, 2) && s[8..10] == Pad(t.day, 2)
    requires s[11..13] == Pad(t.hour, 2) && s[14..16] == Pad(t.minute, 2) && s[17..19] == Pad(t.second, 2)
    requires s[4] == '-' && s[7] == '-' && s[10] == 'T' && s[13] == ':' && s[16] == ':'
    ensures FromIso(s) == Some(t)
  {
    assert Pow10(2) == 100 && Pow10(4) == 10000;
    NumberAtPad(s, 0, t.year, 4);
    NumberAtPad(s, 5, t.month, 2);
    NumberAtPad(s, 8, t.day, 2);
    NumberAtPad(s, 11, t.hour, 2);
    NumberAtPad(s, 14, t.minute, 2);
    NumberAtPad(s, 17, t.second, 2);
    FromIsoOfFields(s, t);
  }

  lemma FromIsoOfFields(s: string, t: DateTime)
    requires Valid(t) && |s| == 19
    requires s[4] == '-' && s[7] == '-' && s[10] == 'T' && s[13] == ':' && s[16] == ':'
    requires NumberAt(s, 0, 4) == Some(t.year) && NumberAt(s, 5, 2) == Some(t.month)
    requires NumberAt(s, 8, 2) == Some(t.day) && NumberAt(s, 11, 2) == Some(t.hour)
    requires NumberAt(s, 14, 2) == Some(t.minute) && NumberAt(s, 17, 2) == Some(t.second)
    ensures FromIso(s) == Some(t)
  {
  }

  /** Where each field of the DTSTART / DTEND value sits in its text. */
  lemma StampFields(t: DateTime)
    requires Valid(t)
    ensures Stamp(t)[0..4] == Pad(t.year, 4) && Stamp(t)[4..6] == Pad(t.month, 2) && Stamp(t)[6..8] == Pad(t.day, 2)
    ensures Stamp(t)[9..11] == Pad(t.hour, 2) && Stamp(t)[11..13] == Pad(t.minute, 2)
    ensures Stamp(t)[13..15] == Pad(t.second, 2) && Stamp(t)[8] == 'T'
  {
    StampLayout(Pad(t.year, 4), Pad(t.month, 2), Pad(t.day, 2), Pad(t.hour, 2), Pad(t.minute, 2), Pad(t.second, 2));
  }

  lemma StampLayout(y: string, mo: string, d: string, h: string, mi: string, se: string)
    requires |y| == 4 && |mo| == 2 && |d| == 2 && |h| == 2 && |mi| == 2 && |se| == 2
    ensures var s := y + mo + d + "T" + h + mi + se;
      s[0..4] == y && s[4..6] == mo && s[6..8] == d && s[9..11] == h && s[11..13] == mi && s[13..15] == se &&
      s[8] == 'T'
  {
  }

  /** The DTSTART / DTEND text determines the date-time it was written from. */
  lemma ReadStampStamp(t: DateTime)
    requires Valid(t)
    ensures ReadStamp(Stamp(t)) == Some(t)
  {
    var s := Stamp(t);
    StampFields(t);
    assert Pow10(2) == 100 && Pow10(4) == 10000;
    NumberAtPad(s, 0, t.year, 4);
    NumberAtPad(s, 4, t.month, 2);
    NumberAtPad(s, 6, t.day, 2);
    NumberAtPad(s, 9, t.hour, 2);
    NumberAtPad(s, 11, t.minute, 2);
    NumberAtPad(s, 13, t.second, 2);
  }

  lemma PadNumberAt(s: string, i: nat, w: nat)
    requires i + w <= |s| && NumberAt(s, i, w).Some?
    ensures s[i..i + w] == Pad(NumberAt(s, i, w).value, w)
  {
    PadValue(s[i..i + w]);
  }

  /** Two strings that agree on every field and separator of the `isoformat()` layout are equal. */
  lemma SameLayout(r: string, s: string)
    requires |r| == |s| == 19
    requires r[0..4] == s[0..4] && r[5..7] == s[5..7] && r[8..10] == s[8..10]
    requires r[11..13] == s[11..13] && r[14..16] == s[14..16] && r[17..19] == s[17..19]
    requires r[4] == s[4] && r[7] == s[7] && r[10] == s[10] && r[13] == s[13] && r[16] == s[16]
    ensures r == s
  {
    forall k | 0 <= k < 19
      ensures r[k] == s[k]
    {
      if k < 4 { assert r[k] == r[0..4][k] && s[k] == s[0..4][k]; }
      else if 5 <= k < 7 { assert r[k] == r[5..7][k - 5] && s[k] == s[5..7][k - 5]; }
      else if 8 <= k < 10 { assert r[k] == r[8..10][k - 8] && s[k] == s[8..10][k - 8]; }
      else if 11 <= k < 13 { assert r[k] == r[11..13][k - 11] && s[k] == s[11..13][k - 11]; }
      else if 14 <= k < 16 { assert r[k] == r[14..16][k - 14] && s[k] == s[14..16][k - 14]; }
      else if 17 <= k { assert r[k] == r[17..19][k - 17] && s[k] == s[17..19][k - 17]; }
    }
  }

  /** Conversely, a full-length string that `fromisoformat` accepts is exactly the
      `isoformat()` of the value it reads: the two are inverse on the feed's strings. */
  lemma IsoFromIso(s: string)
    requires |s| == 19 && FromIso(s).Some?
    ensures Iso(FromIso(s).value) == s
  {
    var t := FromIso(s).value;
    PadNumberAt(s, 0, 4);
    PadNumberAt(s, 5, 2);
    PadNumberAt(s, 8, 2);
    PadNumberAt(s, 11, 2);
    PadNumberAt(s, 14, 2);
    PadNumberAt(s, 17, 2);
    IsoFields(t);
    SameLayout(Iso(t), s);
  }
}
