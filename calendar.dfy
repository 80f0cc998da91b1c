/** Calendar dates and their "DD/MM/YYYY" rendering, the form in which the
    entry form keeps the date of a draft. */
module Calendar {
  import opened Wrappers
  import opened Decimal

  datatype CalendarDate = CalendarDate(year: int, month: int, day: int)

  predicate IsLeapYear(year: int) {
    year % 4 == 0 && (year % 100 != 0 || year % 400 == 0)
  }

  function DaysInMonth(year: int, month: int): (n: int)
    requires 1 <= month <= 12
    ensures 28 <= n <= 31
  {
    if month == 2 then (if IsLeapYear(year) then 29 else 28)
    else if month in {4, 6, 9, 11} then 30
    else 31
  }

  /** A day the date picker can hand over, with a four-digit year. */
  predicate ValidDate(d: CalendarDate) {
    && 0 <= d.year <= 9999
    && 1 <= d.month <= 12
    && 1 <= d.day <= DaysInMonth(d.year, d.month)
  }

  /** format('DD/MM/YYYY'): day and month padded to two digits, the year to four. */
  function FormatDate(d: CalendarDate): (s: string)
    requires ValidDate(d)
    ensures |s| == 10 && s[2] == '/' && s[5] == '/'
    ensures ParseNumber(s[..2]) == Some(d.day) && ParseNumber(s[3..5]) == Some(d.month)
    ensures ParseNumber(s[6..8]) == Some(d.year / 100) && ParseNumber(s[8..]) == Some(d.year % 100)
  {
    ParsePad2(d.day);
    ParsePad2(d.month);
    ParsePad2(d.year / 100);
    ParsePad2(d.year % 100);
    var s := Pad2(d.day) + "/" + Pad2(d.month) + "/" + Pad2(d.year / 100) + Pad2(d.year % 100);
    assert s[..2] == Pad2(d.day) && s[3..5] == Pad2(d.month);
    assert s[6..8] == Pad2(d.year / 100) && s[8..] == Pad2(d.year % 100);
    s
  }

  /** Reading "DD/MM/YYYY" back; anything that is not a valid date so written is None. */
  function ParseDate(s: string): (r: Option<CalendarDate>)
    ensures r.Some? ==> ValidDate(r.value)
  {
    if |s| != 10 || s[2] != '/' || s[5] != '/' then None
    else
      match (ParseNumber(s[..2]), ParseNumber(s[3..5]), ParseNumber(s[6..8]), ParseNumber(s[8..]))
      case (Some(day), Some(month), Some(century), Some(rest)) =>
        var d := CalendarDate(100 * century + rest, month, day);
        if ValidDate(d) then Some(d) else None
      case _ => None
  }

  /** A rendered date reads back as the same date. */
  lemma ParseFormattedDate(d: CalendarDate)
    requires ValidDate(d)
    ensures ParseDate(FormatDate(d)) == Some(d)
  {
    var s := FormatDate(d);
    ParsePad2(d.day);
    ParsePad2(d.month);
    ParsePad2(d.year / 100);
    ParsePad2(d.year % 100);
    assert s[..2] == Pad2(d.day);
    assert s[3..5] == Pad2(d.month);
    assert s[6..8] == Pad2(d.year / 100);
    assert s[8..] == Pad2(d.year % 100);
  }

  /** A string that reads as a date is exactly that date's rendering. */
  lemma FormattedParsedDate(s: string)
    requires ParseDate(s).Some?
    ensures FormatDate(ParseDate(s).value) == s
  {
    var d := ParseDate(s).value;
    Pad2OfParse(s[..2]);
    Pad2OfParse(s[3..5]);
    Pad2OfParse(s[6..8]);
    Pad2OfParse(s[8..]);
    var century, rest := ParseNumber(s[6..8]).value, ParseNumber(s[8..]).value;
    assert d.year / 100 == century && d.year % 100 == rest;
    assert s == s[..2] + "/" + s[3..5] + "/" + s[6..8] + s[8..];
  }
}
