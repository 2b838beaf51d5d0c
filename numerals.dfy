/** The literal numerals the worked examples need, each established once from the
    digits it is built of, so that no example evaluates `Pad` on a literal itself. */
module Numerals {
  import opened Decimal

  lemma Year2025()
    ensures Pad(2025, 4) == "2025"
  {
    assert Pad(2, 1) == "2";
    assert Pad(20, 2) == "20";
    assert Pad(202, 3) == "202";
  }

  lemma Year2026()
    ensures Pad(2026, 4) == "2026"
  {
    assert Pad(2, 1) == "2";
    assert Pad(20, 2) == "20";
    assert Pad(202, 3) == "202";
  }

  lemma Year2028()
    ensures Pad(2028, 4) == "2028"
  {
    assert Pad(2, 1) == "2";
    assert Pad(20, 2) == "20";
    assert Pad(202, 3) == "202";
  }

  /** Two-digit fields up to noon. */
  lemma MorningNumerals()
    ensures Pad(0, 2) == "00" && Pad(1, 2) == "01" && Pad(11, 2) == "11" && Pad(12, 2) == "12"
    ensures Pad(20, 2) == "20"
  {
    assert Pad(0, 1) == "0" && Pad(1, 1) == "1" && Pad(2, 1) == "2";
  }

  /** Two-digit fields from the afternoon and the end of the month. */
  lemma EveningNumerals()
    ensures Pad(23, 2) == "23" && Pad(30, 2) == "30" && Pad(31, 2) == "31"
  {
    assert Pad(2, 1) == "2" && Pad(3, 1) == "3";
  }

  /** Days and hours as a listing writes them, without leading zeros. */
  lemma UnpaddedNumerals()
    ensures Unpadded(1) == "1" && Unpadded(10) == "10" && Unpadded(11) == "11" && Unpadded(12) == "12"
    ensures Unpadded(20) == "20" && Unpadded(29) == "29" && Unpadded(30) == "30"
  {
    assert Pad(0, 1) == "0" && Pad(1, 1) == "1" && Pad(2, 1) == "2" && Pad(3, 1) == "3";
  }
}
