/** ASCII decimal digits: the numerals that `strptime`, `strftime`, `isoformat` and
    `fromisoformat` read and write. */
module Decimal {

  predicate IsDigit(c: char) {
    '0' <= c <= '9'
  }

  predicate AllDigits(s: seq<char>) {
    forall i :: 0 <= i < |s| ==> IsDigit(s[i])
  }

  function DigitValue(c: char): (v: nat)
    requires IsDigit(c)
    ensures v < 10
  {
    (c as int) - ('0' as int)
  }

  function DigitChar(v: nat): (c: char)
    requires v < 10
    ensures IsDigit(c) && DigitValue(c) == v
  {
    (('0' as int) + v) as char
  }

  /** The number a string of decimal digits denotes (most significant digit first). */
  function Value(s: seq<char>): nat
    requires AllDigits(s)
  {
    if s == [] then 0 else Value(s[..|s| - 1]) * 10 + DigitValue(s[|s| - 1])
  }

  function Pow10(w: nat): (p: nat)
    ensures p >= 1
  {
    if w == 0 then 1 else 10 * Pow10(w - 1)
  }

  /** `n` written with exactly `w` digits, zero-padded on the left (`%02d`, `%04d`). */
  function Pad(n: nat, w: nat): (s: seq<char>)
    ensures |s| == w && AllDigits(s)
  {
    if w == 0 then [] else Pad(n / 10, w - 1) + [DigitChar(n % 10)]
  }

  /** `n` written without leading zeros, for the one- and two-digit numbers the parser sees. */
  function Unpadded(n: nat): (s: seq<char>)
    requires n < 100
    ensures AllDigits(s) && (|s| == 1 <==> n < 10) && 1 <= |s| <= 2
  {
    if n < 10 then Pad(n, 1) else Pad(n, 2)
  }

  /** A numeral of `w` digits denotes a number below `10^w`. */
  lemma {:induction false} ValueBound(s: seq<char>)
    requires AllDigits(s)
    ensures Value(s) < Pow10(|s|)
  {
    if s != [] {
      ValueBound(s[..|s| - 1]);
    }
  }

  /** Reading back a padded numeral gives the number, whenever it fits in the width. */
  lemma {:induction false} ValuePad(n: nat, w: nat)
    requires n < Pow10(w)
    ensures Value(Pad(n, w)) == n
  {
    if w > 0 {
      var s := Pad(n, w);
      assert s[..|s| - 1] == Pad(n / 10, w - 1);
      ValuePad(n / 10, w - 1);
    }
  }

  lemma ValueUnpadded(n: nat)
    requires n < 100
    ensures Value(Unpadded(n)) == n
  {
    ValuePad(n, if n < 10 then 1 else 2);
  }

  /** The leading run of digits of `s`, and what follows it. */
  function SpanDigits(s: seq<char>): (r: (seq<char>, seq<char>))
    ensures AllDigits(r.0) && r.0 + r.1 == s
    ensures r.1 == [] || !IsDigit(r.1[0])
  {
    if s == [] || !IsDigit(s[0]) then ([], s)
    else
      var (d, rest) := SpanDigits(s[1..]);
      assert ([s[0]] + d) + rest == [s[0]] + s[1..] == s;
      ([s[0]] + d, rest)
  }

  /** A numeral followed by a non-digit splits exactly at its end. */
  lemma {:induction false} SpanDigitsOf(d: seq<char>, rest: seq<char>)
    requires AllDigits(d)
    requires rest == [] || !IsDigit(rest[0])
    ensures SpanDigits(d + rest) == (d, rest)
  {
    if d != [] {
      var t := d + rest;
      assert t[0] == d[0] && t[1..] == d[1..] + rest;
      SpanDigitsOf(d[1..], rest);
      assert [d[0]] + d[1..] == d;
    } else {
      assert d + rest == rest;
    }
  }

  /** A numeral is the padded form of its own value: reading digits loses nothing. */
  lemma {:induction false} PadValue(s: seq<char>)
    requires AllDigits(s)
    ensures Pad(Value(s), |s|) == s
  {
    if s != [] {
      var init, last := s[..|s| - 1], s[|s| - 1];
      PadValue(init);
      var n := Value(s);
      assert n / 10 == Value(init) && n % 10 == DigitValue(last);
      assert DigitChar(DigitValue(last)) == last;
      assert s == init + [last];
    }
  }
}
