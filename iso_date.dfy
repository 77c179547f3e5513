/** Date-only strings in the calendar-date complete representation, extended
    format, of ISO 8601 (section 4.1.2.2): `YYYY-MM-DD`, the value an HTML
    date input produces. This is the part of date-fns `parseISO` the stored
    `vencimento` field goes through. */
module IsoDate {
  import opened Wrappers
  import opened Calendar

  predicate IsDigit(c: char) {
    '0' <= c <= '9'
  }

  function DigitValue(c: char): (v: int)
    requires IsDigit(c)
    ensures 0 <= v <= 9
  {
    c as int - '0' as int
  }

  function DigitChar(v: int): (c: char)
    requires 0 <= v <= 9
    ensures IsDigit(c) && DigitValue(c) == v
  {
    ('0' as int + v) as char
  }

  /** The string has the shape `DDDD-DD-DD` with D a decimal digit. */
  predicate HasDateShape(s: string) {
    |s| == 10 && s[4] == '-' && s[7] == '-'
    && IsDigit(s[0]) && IsDigit(s[1]) && IsDigit(s[2]) && IsDigit(s[3])
    && IsDigit(s[5]) && IsDigit(s[6]) && IsDigit(s[8]) && IsDigit(s[9])
  }

  /** Parses `YYYY-MM-DD`. A string of another shape, or naming a day that
      does not exist (month 13, 2023-02-29), gives None: the source's
      `isNaN(parseISO(...))` case. */
  function ParseIsoDate(s: string): (r: Option<Date>)
    ensures r.Some? ==> ValidDate(r.value) && 0 <= r.value.year <= 9999
    ensures r.Some? ==> HasDateShape(s)
  {
    if !HasDateShape(s) then None
    else
      var d := Date(
        1000 * DigitValue(s[0]) + 100 * DigitValue(s[1]) + 10 * DigitValue(s[2]) + DigitValue(s[3]),
        10 * DigitValue(s[5]) + DigitValue(s[6]),
        10 * DigitValue(s[8]) + DigitValue(s[9]));
      if ValidDate(d) then Some(d) else None
  }

  /** Writes a date with a four-digit year as `YYYY-MM-DD`. */
  function FormatIsoDate(d: Date): (s: string)
    requires ValidDate(d) && 0 <= d.year <= 9999
    ensures HasDateShape(s)
  {
    [DigitChar(d.year / 10 / 10 / 10), DigitChar(d.year / 10 / 10 % 10), DigitChar(d.year / 10 % 10), DigitChar(d.year % 10),
     '-', DigitChar(d.month / 10), DigitChar(d.month % 10),
     '-', DigitChar(d.day / 10), DigitChar(d.day % 10)]
  }

  lemma TensAndUnits(q: int, u: int)
    requires 0 <= u <= 9
    ensures (10 * q + u) / 10 == q && (10 * q + u) % 10 == u
  {
  }

  /** Every representable date is read back from its own text. */
  lemma ParseFormatRoundTrip(d: Date)
    requires ValidDate(d) && 0 <= d.year <= 9999
    ensures ParseIsoDate(FormatIsoDate(d)) == Some(d)
  {
    var s := FormatIsoDate(d);
    assert 1000 * DigitValue(s[0]) + 100 * DigitValue(s[1]) + 10 * DigitValue(s[2]) + DigitValue(s[3]) == d.year;
    assert 10 * DigitValue(s[5]) + DigitValue(s[6]) == d.month;
    assert 10 * DigitValue(s[8]) + DigitValue(s[9]) == d.day;
  }

  /** A string that parses is exactly the text of the date it denotes, so
      two different strings never name the same due date. */
  lemma FormatParseRoundTrip(s: string)
    requires ParseIsoDate(s).Some?
    ensures FormatIsoDate(ParseIsoDate(s).value) == s
  {
    var d := ParseIsoDate(s).value;
    var d0, d1, d2, d3 := DigitValue(s[0]), DigitValue(s[1]), DigitValue(s[2]), DigitValue(s[3]);
    TensAndUnits(100 * d0 + 10 * d1 + d2, d3);
    TensAndUnits(10 * d0 + d1, d2);
    TensAndUnits(d0, d1);
    TensAndUnits(0, d0);
    TensAndUnits(DigitValue(s[5]), DigitValue(s[6]));
    TensAndUnits(DigitValue(s[8]), DigitValue(s[9]));
    var t := FormatIsoDate(d);
    forall i | 0 <= i < 10
      ensures t[i] == s[i]
    {
    }
  }

  /** Empty and malformed strings have no date. */
  lemma ParseIsoDateRejects()
    ensures ParseIsoDate("") == None
    ensures ParseIsoDate("2023-02-29") == None
    ensures ParseIsoDate("2024-13-01") == None
    ensures ParseIsoDate("2024-02-29") == Some(Date(2024, 2, 29))
  {
    assert !HasDateShape("");
  }
}
