/**
 * The two spellings of a calendar month used by the dashboard: the grouping
 * key `"MM/YYYY"` and the payment-map key `"YYYY-MM"`.
 */
module MonthKeys {
  import opened Wrappers
  import opened Text
  import opened Calendar

  datatype YearMonth = YearMonth(year: nat, month: Month)

  /**
   * `${String(month).padStart(2, "0")}/${year}`: the grouping key of a
   * month, two digits, a `/` and the digits of the year.
   */
  function MonthKey(month: Month, year: nat): (key: string)
    ensures |key| >= 4 && key[2] == '/' && AllDigits(key[..2]) && AllDigits(key[3..])
  {
    ParseNatPadStart(NatToString(month), 2);
    var mm, yyyy := PadStart(NatToString(month), 2), NatToString(year);
    assert |NatToString(month)| <= 2 by {
      if month >= 10 {
        assert NatToString(month) == NatToString(month / 10) + [DigitChar(month % 10)];
      }
    }
    assert (mm + "/" + yyyy)[..2] == mm && (mm + "/" + yyyy)[3..] == yyyy;
    mm + "/" + yyyy
  }

  /**
   * Reads a month key back: exactly two `/`-separated runs of digits, the
   * first naming a month 1 to 12.
   */
  function ParseMonthKey(key: string): Option<YearMonth> {
    var parts := Split(key, '/');
    if |parts| != 2 || parts[0] == [] || parts[1] == [] || !AllDigits(parts[0]) || !AllDigits(parts[1])
    then None
    else
      var m := ParseNat(parts[0]);
      if 1 <= m <= 12 then Some(YearMonth(ParseNat(parts[1]), m)) else None
  }

  /** Every key the grouping produces reads back as the month and year it was made from. */
  lemma ParseMonthKeyRoundTrip(month: Month, year: nat)
    ensures ParseMonthKey(MonthKey(month, year)) == Some(YearMonth(year, month))
  {
    var mm := PadStart(NatToString(month), 2);
    var yyyy := NatToString(year);
    ParseNatPadStart(NatToString(month), 2);
    ParseNatToString(month);
    ParseNatToString(year);
    DigitsHaveNoSeparator(mm, '/');
    DigitsHaveNoSeparator(yyyy, '/');
    SplitPair(mm, '/', yyyy);
  }

  /** Distinct months have distinct grouping keys. */
  lemma MonthKeyInjective(m1: Month, y1: nat, m2: Month, y2: nat)
    requires MonthKey(m1, y1) == MonthKey(m2, y2)
    ensures m1 == m2 && y1 == y2
  {
    ParseMonthKeyRoundTrip(m1, y1);
    ParseMonthKeyRoundTrip(m2, y2);
  }

  /** `${year}-${month.padStart(2, "0")}`: the key of a month in a record's payment map. */
  function YearMonthKey(year: nat, month: Month): string {
    NatToString(year) + "-" + PadStart(NatToString(month), 2)
  }

  /**
   * The inline conversion of the active tab's key: split at `/`, take the
   * first two pieces as month and year (a missing year piece prints as
   * `undefined`), and pad the month to two digits.
   */
  function ToYearMonthKey(key: string): (anoMes: string)
    ensures ParseMonthKey(key).Some?
            && key == MonthKey(ParseMonthKey(key).value.month, ParseMonthKey(key).value.year)
            ==> anoMes == YearMonthKey(ParseMonthKey(key).value.year, ParseMonthKey(key).value.month)
  {
    MonthKeyParts(key);
    var parts := Split(key, '/');
    var mesNumero := parts[0];
    var ano := if |parts| >= 2 then parts[1] else "undefined";
    ano + "-" + PadStart(mesNumero, 2)
  }

  /** A key spelled as the grouping spells it splits into its padded month and its year. */
  lemma MonthKeyParts(key: string)
    ensures ParseMonthKey(key).Some?
            && key == MonthKey(ParseMonthKey(key).value.month, ParseMonthKey(key).value.year)
            ==> var mm := PadStart(NatToString(ParseMonthKey(key).value.month), 2);
                Split(key, '/') == [mm, NatToString(ParseMonthKey(key).value.year)] && PadStart(mm, 2) == mm
  {
    var ym := ParseMonthKey(key);
    if ym.Some? && key == MonthKey(ym.value.month, ym.value.year) {
      var mm := PadStart(NatToString(ym.value.month), 2);
      var yyyy := NatToString(ym.value.year);
      ParseNatPadStart(NatToString(ym.value.month), 2);
      DigitsHaveNoSeparator(mm, '/');
      DigitsHaveNoSeparator(yyyy, '/');
      SplitPair(mm, '/', yyyy);
    }
  }

  /** The conversion turns the grouping key of a month into its payment-map key. */
  lemma ToYearMonthKeyOfMonthKey(month: Month, year: nat)
    ensures ToYearMonthKey(MonthKey(month, year)) == YearMonthKey(year, month)
  {
    ParseMonthKeyRoundTrip(month, year);
  }

  /** Distinct months never share an entry of the payment map. */
  lemma YearMonthKeyInjective(y1: nat, m1: Month, y2: nat, m2: Month)
    requires YearMonthKey(y1, m1) == YearMonthKey(y2, m2)
    ensures y1 == y2 && m1 == m2
  {
    var a1, b1 := NatToString(y1), PadStart(NatToString(m1), 2);
    var a2, b2 := NatToString(y2), PadStart(NatToString(m2), 2);
    ParseNatPadStart(NatToString(m1), 2);
    ParseNatPadStart(NatToString(m2), 2);
    DigitsHaveNoSeparator(a1, '-');
    DigitsHaveNoSeparator(b1, '-');
    DigitsHaveNoSeparator(a2, '-');
    DigitsHaveNoSeparator(b2, '-');
    SplitPair(a1, '-', b1);
    SplitPair(a2, '-', b2);
    assert [a1, b1] == [a2, b2];
    ParseNatToString(y1);
    ParseNatToString(y2);
    ParseNatToString(m1);
    ParseNatToString(m2);
  }

  lemma MarchKey()
    ensures MonthKey(3, 2025) == "03/2025"
  {
    MarchSpellings();
    assert "03" + ['/'] + "2025" == "03/2025";
  }

  lemma MarchConversion()
    ensures ToYearMonthKey("03/2025") == "2025-03"
  {
    assert "03" + ['/'] + "2025" == "03/2025";
    SplitPair("03", '/', "2025");
  }

  lemma MarchSpellings()
    ensures NatToString(2025) == "2025" && PadStart(NatToString(3), 2) == "03"
  {
    assert NatToString(2025) == "2025";
  }
}
