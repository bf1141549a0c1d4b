/**
 * The two date conversions the firmware path uses: `datetime.strptime(s, "%Y-%m-%d")` on
 * the scraped release and patch dates, and `strftime("%Y-%m-%d")` when the notification
 * text is built.
 *
 * The parser follows the regular expression Python builds for this format: the year takes
 * exactly four digits, the month is the first of `1[0-2]`, `0[1-9]`, `[1-9]` that is
 * followed by `-`, the day is the first of `3[01]`, `[12]\d`, `0[1-9]`, `[1-9]`, ` [1-9]`
 * that matches, and the match must reach the end of the string. The fields must then name
 * a real calendar day (year 1 to 9999, leap years included).
 */
module Dates {

  import opened Wrappers
  import opened Strings

  datatype Date = Date(year: int, month: int, day: int)

  predicate IsLeapYear(y: int) {
    (y % 4 == 0 && y % 100 != 0) || y % 400 == 0
  }

  function DaysInMonth(y: int, m: int): (r: int)
    requires 1 <= m <= 12
    ensures 28 <= r <= 31
  {
    if m == 2 then (if IsLeapYear(y) then 29 else 28)
    else if m == 4 || m == 6 || m == 9 || m == 11 then 30
    else 31
  }

  /** A date `datetime` accepts. */
  predicate ValidDate(d: Date) {
    1 <= d.year <= 9999 && 1 <= d.month <= 12 && 1 <= d.day <= DaysInMonth(d.year, d.month)
  }

  predicate InRange(c: char, lo: char, hi: char) {
    lo <= c <= hi
  }

  /**
   * The `%m` group when it is followed by `-`: its value and the number of characters it
   * takes. At most one alternative can be followed by `-`, so the order does not matter here.
   */
  function MatchMonth(t: string): (r: Option<(int, nat)>)
    ensures r.Some? ==> 1 <= r.value.1 <= 2 && r.value.1 < |t| && t[r.value.1] == '-'
    ensures r.Some? ==> 1 <= r.value.0 <= 12
    ensures r.Some? ==> AllDigits(t[..r.value.1]) && r.value.0 == DigitsValue(t[..r.value.1])
  {
    if |t| >= 3 && t[0] == '1' && InRange(t[1], '0', '2') && t[2] == '-' then
      TwoDigits(t[..2]);
      Some((10 + DigitValue(t[1]), 2))
    else if |t| >= 3 && t[0] == '0' && InRange(t[1], '1', '9') && t[2] == '-' then
      TwoDigits(t[..2]);
      Some((DigitValue(t[1]), 2))
    else if |t| >= 2 && InRange(t[0], '1', '9') && t[1] == '-' then
      assert t[..1][..0] == [];
      Some((DigitValue(t[0]), 1))
    else
      None
  }

  /** The `%d` group: the first alternative that matches at the start of `t`. */
  function MatchDay(t: string): (r: Option<(int, nat)>)
    ensures r.Some? ==> 1 <= r.value.1 <= 2 && r.value.1 <= |t|
    ensures r.Some? ==> 1 <= r.value.0 <= 31
  {
    if |t| >= 2 && t[0] == '3' && InRange(t[1], '0', '1') then
      Some((30 + DigitValue(t[1]), 2))
    else if |t| >= 2 && InRange(t[0], '1', '2') && IsDigit(t[1]) then
      Some((10 * DigitValue(t[0]) + DigitValue(t[1]), 2))
    else if |t| >= 2 && t[0] == '0' && InRange(t[1], '1', '9') then
      Some((DigitValue(t[1]), 2))
    else if |t| >= 1 && InRange(t[0], '1', '9') then
      Some((DigitValue(t[0]), 1))
    else if |t| >= 2 && t[0] == ' ' && InRange(t[1], '1', '9') then
      Some((DigitValue(t[1]), 2))
    else
      None
  }

  /** `datetime.strptime(s, "%Y-%m-%d")`, with `None` for the `ValueError` cases. */
  function ParseDate(s: string): (r: Option<Date>)
    ensures r.Some? ==> ValidDate(r.value)
    ensures r.Some? ==> |s| >= 8 && AllDigits(s[..4]) && s[4] == '-'
  {
    if |s| < 5 || !AllDigits(s[..4]) || s[4] != '-' then None
    else
      var year := DigitsValue(s[..4]);
      var rest := s[5..];
      match MatchMonth(rest)
      case None => None
      case Some((month, ml)) =>
        var tail := rest[ml + 1..];
        match MatchDay(tail)
        case None => None
        case Some((day, dl)) =>
          if dl != |tail| then None
          else
            var d := Date(year, month, day);
            if ValidDate(d) then Some(d) else None
  }

  /** `v` as exactly two decimal digits, the `%02d` form. */
  function TwoDigitString(v: nat): (r: string)
    requires v < 100
    ensures |r| == 2 && AllDigits(r) && DigitsValue(r) == v
  {
    var r := [DigitChar(v / 10), DigitChar(v % 10)];
    TwoDigits(r);
    r
  }

  /** `strftime("%Y-%m-%d")`: four-digit year, two-digit month and day. */
  function FormatDate(d: Date): (r: string)
    requires ValidDate(d)
    ensures |r| == 10 && r[4] == '-' && r[7] == '-'
    ensures AllDigits(r[..4]) && DigitsValue(r[..4]) == d.year
    ensures AllDigits(r[5..7]) && DigitsValue(r[5..7]) == d.month
    ensures AllDigits(r[8..]) && DigitsValue(r[8..]) == d.day
  {
    NatToStringLength(d.year as nat, 4);
    var y := ZeroPad(d.year as nat, 4);
    var r := y + "-" + TwoDigitString(d.month as nat) + "-" + TwoDigitString(d.day as nat);
    assert r[..4] == y && r[5..7] == TwoDigitString(d.month as nat) && r[8..] == TwoDigitString(d.day as nat);
    r
  }

  /** A two-digit string's value is read from its two characters. */
  lemma TwoDigits(t: string)
    requires |t| == 2 && AllDigits(t)
    ensures DigitsValue(t) == 10 * DigitValue(t[0]) + DigitValue(t[1])
  {
    assert t[..1][..0] == [];
    assert DigitsValue(t[..1]) == DigitValue(t[0]);
  }

  lemma MatchPaddedMonth(m: int, tail: string)
    requires 1 <= m <= 12
    ensures MatchMonth(TwoDigitString(m as nat) + "-" + tail) == Some((m, 2))
  {
  }

  lemma MatchPaddedDay(d: int)
    requires 1 <= d <= 31
    ensures MatchDay(TwoDigitString(d as nat)) == Some((d, 2))
  {
  }

  /** Parsing what `FormatDate` printed gives the date back. */
  lemma ParseFormat(d: Date)
    requires ValidDate(d)
    ensures ParseDate(FormatDate(d)) == Some(d)
  {
    var s := FormatDate(d);
    var mm, dd := TwoDigitString(d.month as nat), TwoDigitString(d.day as nat);
    assert s[5..] == mm + "-" + dd;
    MatchPaddedMonth(d.month, dd);
    assert s[5..][3..] == dd;
    MatchPaddedDay(d.day);
  }

  /** A four-digit string's value is read from its four characters. */
  lemma FourDigits(t: string)
    requires |t| == 4 && AllDigits(t)
    ensures DigitsValue(t) == 1000 * DigitValue(t[0]) + 100 * DigitValue(t[1])
                              + 10 * DigitValue(t[2]) + DigitValue(t[3])
  {
    assert t[..3][..2] == t[..2];
    TwoDigits(t[..2]);
  }

  /** A zero-padded date. */
  lemma ExampleParsePadded()
    ensures ParseDate("2024-01-05") == Some(Date(2024, 1, 5))
  {
    FourDigits("2024");
    assert "2024-01-05"[..4] == "2024" && "2024-01-05"[5..] == "01-05";
    assert MatchMonth("01-05") == Some((1, 2));
    assert "01-05"[3..] == "05";
    assert MatchDay("05") == Some((5, 2));
  }

  /** Python also accepts an unpadded month and day. */
  lemma ExampleParseUnpadded()
    ensures ParseDate("2024-1-5") == Some(Date(2024, 1, 5))
  {
    FourDigits("2024");
    assert "2024-1-5"[..4] == "2024" && "2024-1-5"[5..] == "1-5";
    assert MatchMonth("1-5") == Some((1, 1));
    assert "1-5"[2..] == "5";
    assert MatchDay("5") == Some((5, 1));
  }

  /** A day may also be written as a space and a digit. */
  lemma ExampleParseSpaceDay()
    ensures ParseDate("2024-01- 5") == Some(Date(2024, 1, 5))
  {
    FourDigits("2024");
    assert "2024-01- 5"[..4] == "2024" && "2024-01- 5"[5..] == "01- 5";
    assert MatchMonth("01- 5") == Some((1, 2));
    assert "01- 5"[3..] == " 5";
    assert MatchDay(" 5") == Some((5, 2));
  }

  /** The 29th of February exists only in leap years. */
  lemma ExampleParseNoLeapDay()
    ensures ParseDate("2023-02-29") == None
  {
    FourDigits("2023");
    assert "2023-02-29"[..4] == "2023" && "2023-02-29"[5..] == "02-29";
    assert MatchMonth("02-29") == Some((2, 2));
    assert "02-29"[3..] == "29";
    assert MatchDay("29") == Some((29, 2));
    assert !ValidDate(Date(2023, 2, 29));
  }

  lemma ExampleParseLeapDay()
    ensures ParseDate("2024-02-29") == Some(Date(2024, 2, 29))
  {
    FourDigits("2024");
    assert "2024-02-29"[..4] == "2024" && "2024-02-29"[5..] == "02-29";
    assert MatchMonth("02-29") == Some((2, 2));
    assert "02-29"[3..] == "29";
    assert MatchDay("29") == Some((29, 2));
    assert ValidDate(Date(2024, 2, 29));
  }

  /** Unconverted trailing data is an error. */
  lemma ExampleParseTrailingSpace()
    ensures ParseDate("2024-01-05 ") == None
  {
    FourDigits("2024");
    assert "2024-01-05 "[..4] == "2024" && "2024-01-05 "[5..] == "01-05 ";
    assert MatchMonth("01-05 ") == Some((1, 2));
    assert "01-05 "[3..] == "05 ";
    assert MatchDay("05 ") == Some((5, 2));
  }

  /** Year 0 is out of range. */
  lemma ExampleParseYearZero()
    ensures ParseDate("0000-01-05") == None
  {
    FourDigits("0000");
    assert "0000-01-05"[..4] == "0000" && "0000-01-05"[5..] == "01-05";
    assert MatchMonth("01-05") == Some((1, 2));
    assert "01-05"[3..] == "05";
    assert MatchDay("05") == Some((5, 2));
    assert !ValidDate(Date(0, 1, 5));
  }
}
