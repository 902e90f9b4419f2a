/**
 * Dates as the record store writes them: `YYYY-MM-DD`, zero-padded.
 *
 * `ParseDate` is `datetime.strptime(s, "%Y-%m-%d")` restricted to the
 * zero-padded form; `FormatDate` is `strftime("%Y-%m-%d")`.
 */
module DateFormat {
  import opened Wrappers
  import opened Calendar
  import opened Text

  /** Ten characters: four digits, a dash, two digits, a dash, two digits. */
  predicate IsDateShape(s: string) {
    && |s| == 10 && s[4] == '-' && s[7] == '-'
    && IsDigits(s[..4]) && IsDigits(s[5..7]) && IsDigits(s[8..])
  }

  /** `strftime("%Y-%m-%d")` of a date `datetime` can represent. */
  function FormatDate(d: Date): (s: string)
    requires InDatetimeRange(d)
    ensures IsDateShape(s)
  {
    PadDigits(d.year, 4) + "-" + PadDigits(d.month, 2) + "-" + PadDigits(d.day, 2)
  }

  /**
   * `strptime(s, "%Y-%m-%d")`: `None` stands for the `ValueError` raised on a
   * string of another shape, a year 0000, a month outside 1..12 or a day past
   * the end of its month (February 29 outside leap years included).
   */
  function ParseDate(s: string): (r: Option<Date>)
    ensures r.Some? ==> InDatetimeRange(r.value)
    ensures r.Some? ==> IsDateShape(s)
  {
    if IsDateShape(s) then
      var d := Date(DigitsValue(s[..4]), DigitsValue(s[5..7]), DigitsValue(s[8..]));
      if InDatetimeRange(d) then Some(d) else None
    else
      None
  }

  /** Parsing what `FormatDate` wrote gives back the date. */
  lemma ParseFormat(d: Date)
    requires InDatetimeRange(d)
    ensures ParseDate(FormatDate(d)) == Some(d)
  {
    var s := FormatDate(d);
    assert s[..4] == PadDigits(d.year, 4);
    assert s[5..7] == PadDigits(d.month, 2);
    assert s[8..] == PadDigits(d.day, 2);
    PadDigitsValue(d.year, 4);
    PadDigitsValue(d.month, 2);
    PadDigitsValue(d.day, 2);
  }

  /** Every string that parses is already in the zero-padded form `FormatDate` writes. */
  lemma FormatParse(s: string)
    requires ParseDate(s).Some?
    ensures FormatDate(ParseDate(s).value) == s
  {
    DigitsValuePad(s[..4]);
    DigitsValuePad(s[5..7]);
    DigitsValuePad(s[8..]);
    assert s == s[..4] + "-" + s[5..7] + "-" + s[8..];
  }

  /** The zero-padded spelling of a day that is not on the calendar, such as February 29 of a common year, is refused. */
  lemma ParseDateRejects(y: nat, m: nat, d: nat)
    requires y < 10000 && m < 100 && d < 100
    requires !IsValid(Date(y, m, d))
    ensures ParseDate(PadDigits(y, 4) + "-" + PadDigits(m, 2) + "-" + PadDigits(d, 2)).None?
  {
    var s := PadDigits(y, 4) + "-" + PadDigits(m, 2) + "-" + PadDigits(d, 2);
    assert s[..4] == PadDigits(y, 4) && s[5..7] == PadDigits(m, 2) && s[8..] == PadDigits(d, 2);
    PadDigitsValue(y, 4);
    PadDigitsValue(m, 2);
    PadDigitsValue(d, 2);
  }

  /** Exactly the valid calendar dates of years 0001..9999 parse: the iff of `strptime`'s checks. */
  lemma ParseDateAccepts(s: string)
    requires IsDateShape(s)
    ensures ParseDate(s).Some? <==>
      var y, m, d := DigitsValue(s[..4]), DigitsValue(s[5..7]), DigitsValue(s[8..]);
      && 1 <= y && 1 <= m <= 12 && 1 <= d
      && (m == 2 ==> d <= (if IsLeapYear(y) then 29 else 28))
      && (m == 4 || m == 6 || m == 9 || m == 11 ==> d <= 30)
      && d <= 31
  {
    assert DigitsValue(s[..4]) < Pow10(4) == 10000;
  }
}
