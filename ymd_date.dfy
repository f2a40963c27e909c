/** The `date_format:Y-m-d` validation rule that guards the `--expires`
    option. The rule parses a string leniently with the format `Y-m-d`
    (one-digit fields and out-of-range days roll over) and then accepts it
    only when formatting the parsed date gives the string back. `ValidYmd`
    abstracts the whole rule by its set of accepted strings: the strict
    `YYYY-MM-DD` parser `ParseYmd` stands in for the lenient parse followed
    by the comparison, and `FormatYmd` is the printer. Dates are on the
    proleptic Gregorian calendar. */
module YmdDate {
  import opened Optional

  datatype Date = Date(year: nat, month: nat, day: nat)

  predicate IsLeapYear(year: nat) {
    year % 4 == 0 && (year % 100 != 0 || year % 400 == 0)
  }

  function DaysInMonth(year: nat, month: nat): (n: nat)
    requires 1 <= month <= 12
  {
    if month == 2 then (if IsLeapYear(year) then 29 else 28)
    else if month == 4 || month == 6 || month == 9 || month == 11 then 30
    else 31
  }

  /** A calendar date whose year `Y` prints with four digits. */
  predicate IsCalendarDate(d: Date) {
    d.year <= 9999 && 1 <= d.month <= 12 && 1 <= d.day <= DaysInMonth(d.year, d.month)
  }

  predicate IsDigit(c: char) {
    '0' <= c <= '9'
  }

  predicate AllDigits(s: string) {
    forall i :: 0 <= i < |s| ==> IsDigit(s[i])
  }

  function Pow10(k: nat): (p: nat)
    ensures p >= 1
  {
    if k == 0 then 1 else 10 * Pow10(k - 1)
  }

  function DigitChar(d: nat): (c: char)
    requires d < 10
    ensures IsDigit(c)
  {
    ('0' as int + d) as char
  }

  /** The number a string of decimal digits denotes. */
  function DigitsValue(s: string): (n: nat)
    requires AllDigits(s)
    ensures n < Pow10(|s|)
  {
    if s == [] then 0
    else DigitsValue(s[..|s| - 1]) * 10 + (s[|s| - 1] as int - '0' as int)
  }

  /** The `width` lowest decimal digits of `n`, zero-padded on the left. */
  function PadDigits(n: nat, width: nat): (s: string)
    ensures |s| == width && AllDigits(s)
  {
    if width == 0 then ""
    else PadDigits(n / 10, width - 1) + [DigitChar(n % 10)]
  }

  lemma {:induction false} DigitsValueOfPad(n: nat, width: nat)
    requires n < Pow10(width)
    ensures DigitsValue(PadDigits(n, width)) == n
  {
    if width > 0 {
      var s := PadDigits(n, width);
      assert s[..|s| - 1] == PadDigits(n / 10, width - 1);
      DigitsValueOfPad(n / 10, width - 1);
    }
  }

  lemma {:induction false} PadOfDigitsValue(s: string)
    requires AllDigits(s)
    ensures PadDigits(DigitsValue(s), |s|) == s
  {
    if s != [] {
      var init := s[..|s| - 1];
      var n := DigitsValue(s);
      var last := s[|s| - 1] as int - '0' as int;
      assert n == DigitsValue(init) * 10 + last;
      assert n / 10 == DigitsValue(init) && n % 10 == last;
      PadOfDigitsValue(init);
      assert s == init + [s[|s| - 1]];
    }
  }

  /** Parse `s` as `YYYY-MM-DD`; `None` when the shape or the date is wrong. */
  function ParseYmd(s: string): (r: Option<Date>)
    ensures r.Some? ==> IsCalendarDate(r.value)
  {
    if |s| == 10 && s[4] == '-' && s[7] == '-'
       && AllDigits(s[..4]) && AllDigits(s[5..7]) && AllDigits(s[8..])
    then
      var d := Date(DigitsValue(s[..4]), DigitsValue(s[5..7]), DigitsValue(s[8..]));
      if IsCalendarDate(d) then Some(d) else None
    else None
  }

  /** Print a date with the format `Y-m-d`. */
  function FormatYmd(d: Date): (s: string)
    requires IsCalendarDate(d)
    ensures |s| == 10 && s[4] == '-' && s[7] == '-'
  {
    PadDigits(d.year, 4) + "-" + PadDigits(d.month, 2) + "-" + PadDigits(d.day, 2)
  }

  /** The strings the `date_format:Y-m-d` rule accepts: a four-digit year,
      a two-digit month and a two-digit day naming a calendar date. */
  predicate ValidYmd(s: string)
    ensures ValidYmd(s) ==> |s| == 10 && s[4] == '-' && s[7] == '-'
    ensures ValidYmd(s) ==> AllDigits(s[..4]) && AllDigits(s[5..7]) && AllDigits(s[8..])
  {
    ParseYmd(s).Some?
  }

  lemma FormatYmdParts(d: Date)
    requires IsCalendarDate(d)
    ensures var s := FormatYmd(d);
      s[..4] == PadDigits(d.year, 4) && s[5..7] == PadDigits(d.month, 2) && s[8..] == PadDigits(d.day, 2)
  {
  }

  /** Parsing a formatted calendar date gives the date back. */
  lemma ParseFormatRoundTrip(d: Date)
    requires IsCalendarDate(d)
    ensures ParseYmd(FormatYmd(d)) == Some(d)
  {
    FormatYmdParts(d);
    assert Pow10(4) == 10000 && Pow10(2) == 100;
    DigitsValueOfPad(d.year, 4);
    DigitsValueOfPad(d.month, 2);
    DigitsValueOfPad(d.day, 2);
  }

  /** The strict parser and the printer are inverse: a string `ParseYmd`
      accepts is exactly the formatting of the date it yields. */
  lemma FormatParseRoundTrip(s: string)
    requires ParseYmd(s).Some?
    ensures FormatYmd(ParseYmd(s).value) == s
  {
    PadOfDigitsValue(s[..4]);
    PadOfDigitsValue(s[5..7]);
    PadOfDigitsValue(s[8..]);
    assert s == s[..4] + "-" + s[5..7] + "-" + s[8..];
  }

  /** The rule accepts a string if and only if it is the `Y-m-d` form of a
      calendar date. */
  lemma ValidYmdIffFormatted(s: string)
    ensures ValidYmd(s) <==> exists d :: IsCalendarDate(d) && FormatYmd(d) == s
  {
    if ValidYmd(s) {
      FormatParseRoundTrip(s);
    }
    if exists d :: IsCalendarDate(d) && FormatYmd(d) == s {
      var d :| IsCalendarDate(d) && FormatYmd(d) == s;
      ParseFormatRoundTrip(d);
    }
  }

  /** The ISO order is accepted. */
  lemma AcceptsIsoDate()
    ensures ValidYmd("2024-12-31")
  {
    var s := "2024-12-31";
    assert s[..4] == "2024" && s[5..7] == "12" && s[8..] == "31";
    assert "2024"[..3] == "202" && "202"[..2] == "20" && "20"[..1] == "2" && "2"[..0] == "";
    assert "12"[..1] == "1" && "31"[..1] == "3" && "1"[..0] == "" && "3"[..0] == "";
    assert DigitsValue("2024") == 2024;
    assert DigitsValue("12") == 12;
    assert DigitsValue("31") == 31;
  }

  /** Day-first input is rejected. */
  lemma RejectsDayFirst()
    ensures !ValidYmd("31-12-2024")
  {
  }

  /** A day the month does not have is rejected: 2023 is not a leap year. */
  lemma RejectsMissingDay()
    ensures !ValidYmd("2023-02-29")
  {
    var s := "2023-02-29";
    assert s[..4] == "2023" && s[5..7] == "02" && s[8..] == "29";
    assert "2023"[..3] == "202" && "202"[..2] == "20" && "20"[..1] == "2" && "2"[..0] == "";
    assert "02"[..1] == "0" && "29"[..1] == "2" && "0"[..0] == "";
    assert DigitsValue("2023") == 2023;
    assert DigitsValue("02") == 2;
    assert DigitsValue("29") == 29;
  }
}
