/** Times of day as the entry form handles them: parsed from the text of
    the start and end inputs, shifted by a number of minutes, subtracted,
    and rendered back as zero-padded "HH:MM". */
module Clock {
  import opened Wrappers
  import opened Decimal

  const MinutesPerDay: int := 1440
  const MsPerMinute: int := 60000

  /** A time of day, as minutes since midnight. */
  type Minute = m: int | 0 <= m < MinutesPerDay

  /** Reading an input's text with the "HH:mm" format: one or two digits of
      hours below 24, a colon, one or two digits of minutes below 60.
      Anything else is an invalid time (None). */
  function ParseClock(s: string): (r: Option<Minute>)
    ensures r.Some? ==> 3 <= |s| <= 5 && (s[1] == ':' || s[2] == ':')
    ensures r.Some? ==>
      var colon := if s[1] == ':' then 1 else 2;
      && ParseNumber(s[..colon]).Some? && ParseNumber(s[colon + 1..]).Some?
      && ParseNumber(s[..colon]).value < 24 && ParseNumber(s[colon + 1..]).value < 60
      && r.value == 60 * ParseNumber(s[..colon]).value + ParseNumber(s[colon + 1..]).value
  {
    var colon := if 2 <= |s| && s[1] == ':' then 1 else if 3 <= |s| && s[2] == ':' then 2 else 0;
    if colon == 0 then None
    else
      match (ParseNumber(s[..colon]), ParseNumber(s[colon + 1..]))
      case (Some(h), Some(m)) => if h < 24 && m < 60 then Some(h * 60 + m) else None
      case _ => None
  }

  /** Any one- or two-digit hour below 24, a colon and any one- or two-digit
      minute below 60 read as that hour and minute: "9:30", "09:5" and
      "09:30" are all valid. */
  lemma ParseClockReads(hours: string, minutes: string, h: nat, m: nat)
    requires ParseNumber(hours) == Some(h) && ParseNumber(minutes) == Some(m)
    requires h < 24 && m < 60
    ensures ParseClock(hours + ":" + minutes) == Some(h * 60 + m)
  {
    var s := hours + ":" + minutes;
    var colon := |hours|;
    assert s[colon] == ':';
    assert s[..colon] == hours && s[colon + 1..] == minutes;
    if colon == 2 {
      assert s[1] != ':' by { assert s[1] == hours[1] && IsDigit(hours[1]); }
    }
  }

  /** A typed one-digit hour is normalised to two digits. */
  lemma ShortHourNormalised(h: nat, m: nat)
    requires h < 10 && m < 60
    ensures ParseClock([Digit(h)] + ":" + Pad2(m)) == Some(h * 60 + m)
    ensures FormattedHoursAndMinutes(ParseClock([Digit(h)] + ":" + Pad2(m))) == Pad2(h) + ":" + Pad2(m)
  {
    ParsePad2(m);
    ParseClockReads([Digit(h)], Pad2(m), h, m);
    FormattedHourAndMinute(h, m);
  }

  /** A typed one-digit minute is normalised to two digits. */
  lemma ShortMinuteNormalised(h: nat, m: nat)
    requires h < 24 && m < 10
    ensures ParseClock(Pad2(h) + ":" + [Digit(m)]) == Some(h * 60 + m)
    ensures FormattedHoursAndMinutes(ParseClock(Pad2(h) + ":" + [Digit(m)])) == Pad2(h) + ":" + Pad2(m)
  {
    ParsePad2(h);
    ParseClockReads(Pad2(h), [Digit(m)], h, m);
    FormattedHourAndMinute(h, m);
  }

  /** The hours and the minutes of a time, each padded to two digits and
      joined by a colon; an invalid time has NaN hours and NaN minutes. */
  function FormattedHoursAndMinutes(t: Option<Minute>): (s: string)
    ensures t.Some? ==> |s| == 5 && s[2] == ':'
    ensures t.Some? ==> IsDigit(s[0]) && IsDigit(s[1]) && IsDigit(s[3]) && IsDigit(s[4])
    ensures t.None? ==> s == "NaN:NaN"
  {
    match t
    case Some(m) => Pad2(m / 60) + ":" + Pad2(m % 60)
    case None => "NaN:NaN"
  }

  /** Hour h and minute m render as h and m, each zero-padded. */
  lemma FormattedHourAndMinute(h: nat, m: nat)
    requires h < 24 && m < 60
    ensures FormattedHoursAndMinutes(Some(h * 60 + m)) == Pad2(h) + ":" + Pad2(m)
  {
    assert (h * 60 + m) / 60 == h && (h * 60 + m) % 60 == m;
  }

  /** Reading a rendered time gives that time back; "NaN:NaN" stays invalid. */
  lemma ParseFormatted(t: Option<Minute>)
    ensures ParseClock(FormattedHoursAndMinutes(t)) == t
  {
    var s := FormattedHoursAndMinutes(t);
    if t.Some? {
      var h, m := t.value / 60, t.value % 60;
      ParsePad2(h);
      ParsePad2(m);
      assert s[..2] == Pad2(h) && s[3..] == Pad2(m);
    } else {
      assert s[1] == 'a' && s[2] == 'N';
    }
  }

  /** A five-character time that reads as valid is already in rendered form. */
  lemma FormattedParsed(s: string)
    requires |s| == 5 && ParseClock(s).Some?
    ensures FormattedHoursAndMinutes(ParseClock(s)) == s
  {
    assert s[1] != ':';
    var h, m := ParseNumber(s[..2]).value, ParseNumber(s[3..]).value;
    Pad2OfParse(s[..2]);
    Pad2OfParse(s[3..]);
    FormattedHourAndMinute(h, m);
    assert s == s[..2] + ":" + s[3..];
  }

  /** Re-rendering is idempotent: the normalised text of a time reads as the
      same time as the text it came from. */
  lemma NormalisePreservesTime(s: string)
    ensures ParseClock(FormattedHoursAndMinutes(ParseClock(s))) == ParseClock(s)
  {
    ParseFormatted(ParseClock(s));
  }

  /** Adding minutes to a time and keeping only its hours and minutes: the
      result is the same clock reading modulo a day. */
  function AddMinutes(t: Minute, delta: nat): (r: Minute)
    ensures (t + delta - r) % MinutesPerDay == 0
    ensures t + delta < MinutesPerDay ==> r == t + delta
    ensures MinutesPerDay <= t + delta < 2 * MinutesPerDay ==> r == t + delta - MinutesPerDay
  {
    (t + delta) % MinutesPerDay
  }

  /** The difference `end - start` in milliseconds, with no wrap past midnight. */
  function DiffMs(start: Minute, end: Minute): (ms: int)
    ensures ms < 0 <==> end < start
    ensures ms == 0 <==> end == start
    ensures ms % MsPerMinute == 0
  {
    (end - start) * MsPerMinute
  }
}
