/**
 * Calendar dates as Python's `datetime.date` holds them, their ISO 8601
 * extended calendar-date text `YYYY-MM-DD` (ISO 8601:2004 section
 * 4.1.2.2) and the parse back from it.
 */
module Dates {
  import opened Common
  import opened Text

  datatype Date = Date(year: int, month: int, day: int)

  /** The Gregorian rule: every fourth year, except centuries not divisible by 400. */
  predicate IsLeapYear(y: int)
  {
    y % 4 == 0 && (y % 100 != 0 || y % 400 == 0)
  }

  function DaysInMonth(y: int, m: int): (n: int)
    requires 1 <= m <= 12
    ensures 28 <= n <= 31
    ensures m == 2 ==> (n == 29 <==> IsLeapYear(y))
  {
    if m == 2 then (if IsLeapYear(y) then 29 else 28)
    else if m == 4 || m == 6 || m == 9 || m == 11 then 30
    else 31
  }

  /** What `date(year, month, day)` accepts: years 1 to 9999 and real days of real months. */
  predicate IsValid(d: Date)
  {
    && 1 <= d.year <= 9999
    && 1 <= d.month <= 12
    && 1 <= d.day <= DaysInMonth(d.year, d.month)
  }

  /** A `datetime.date` value: it cannot hold an impossible day. */
  type CalendarDate = d: Date | IsValid(d) witness Date(1, 1, 1)

  /** `d.isoformat()`: four-digit year, two-digit month and day, joined by hyphens. */
  function IsoFormat(d: CalendarDate): (s: string)
    ensures |s| == 10 && s[4] == '-' && s[7] == '-'
    ensures AllDigits(s[..4]) && AllDigits(s[5..7]) && AllDigits(s[8..])
    ensures DigitsValue(s[..4]) == d.year
    ensures DigitsValue(s[5..7]) == d.month && DigitsValue(s[8..]) == d.day
  {
    FieldWidth(d.year, 4);
    FieldWidth(d.month, 2);
    FieldWidth(d.day, 2);
    var y := ZFill(NatToString(d.year), 4);
    var m := ZFill(NatToString(d.month), 2);
    var dd := ZFill(NatToString(d.day), 2);
    var s := y + "-" + m + "-" + dd;
    assert s[..4] == y && s[5..7] == m && s[8..] == dd;
    s
  }

  /** A field below 10^width is padded to exactly width digits that denote it. */
  lemma FieldWidth(n: nat, width: nat)
    requires 1 <= width && n < Pow10(width)
    ensures |ZFill(NatToString(n), width)| == width
    ensures AllDigits(ZFill(NatToString(n), width))
    ensures DigitsValue(ZFill(NatToString(n), width)) == n
  {
    NatToStringLength(n, width);
    ZFillNat(n, width);
  }

  /**
   * `date.fromisoformat(s)`: exactly `YYYY-MM-DD` in ASCII digits naming a
   * real day; anything else raises ValueError.
   */
  function FromIsoFormat(s: string): (r: Result<CalendarDate>)
    ensures r.Err? ==> r.error == ValueError
    ensures r.Ok? ==> IsoFormat(r.value) == s
  {
    if IsoShaped(s) then
      var d := Date(DigitsValue(s[..4]), DigitsValue(s[5..7]), DigitsValue(s[8..]));
      if IsValid(d) then IsoOfParsed(s); Ok(d) else Err(ValueError)
    else Err(ValueError)
  }

  /** Ten characters: four digits, a hyphen, two digits, a hyphen, two digits. */
  predicate IsoShaped(s: string)
  {
    |s| == 10 && s[4] == '-' && s[7] == '-'
    && AllDigits(s[..4]) && AllDigits(s[5..7]) && AllDigits(s[8..])
  }

  /** Every date survives being written as ISO text and parsed back. */
  lemma IsoRoundTrip(d: CalendarDate)
    ensures FromIsoFormat(IsoFormat(d)) == Ok(d)
  {
  }

  /** Text of the right shape naming a real day is exactly the ISO form of that day. */
  lemma IsoOfParsed(s: string)
    requires IsoShaped(s)
    requires IsValid(Date(DigitsValue(s[..4]), DigitsValue(s[5..7]), DigitsValue(s[8..])))
    ensures IsoFormat(Date(DigitsValue(s[..4]), DigitsValue(s[5..7]), DigitsValue(s[8..]))) == s
  {
    var t := IsoFormat(Date(DigitsValue(s[..4]), DigitsValue(s[5..7]), DigitsValue(s[8..])));
    DigitsValueInjective(t[..4], s[..4]);
    DigitsValueInjective(t[5..7], s[5..7]);
    DigitsValueInjective(t[8..], s[8..]);
    SplitAtHyphens(s);
    SplitAtHyphens(t);
  }

  lemma SplitAtHyphens(s: string)
    requires |s| == 10 && s[4] == '-' && s[7] == '-'
    ensures s == s[..4] + "-" + s[5..7] + "-" + s[8..]
  {
  }

  /** February 29th exists exactly in leap years. */
  lemma LeapDay(y: int)
    requires 1 <= y <= 9999
    ensures IsValid(Date(y, 2, 29)) <==> IsLeapYear(y)
  {
  }
}
