/** Decimal digits and the two-digit zero padding the entry form applies
    to hours, minutes, days and months. */
module Decimal {
  import opened Wrappers

  predicate IsDigit(c: char) {
    '0' <= c <= '9'
  }

  function DigitValue(c: char): (n: nat)
    requires IsDigit(c)
    ensures n < 10
  {
    (c as int) - ('0' as int)
  }

  function Digit(n: nat): (c: char)
    requires n < 10
    ensures IsDigit(c) && DigitValue(c) == n
  {
    (('0' as int) + n) as char
  }

  lemma DigitOfValue(c: char)
    requires IsDigit(c)
    ensures Digit(DigitValue(c)) == c
  {
  }

  /** `${n}`, with a '0' put in front when n < 10: always two digits
      whose decimal value is n. */
  function Pad2(n: nat): (s: string)
    requires n < 100
    ensures |s| == 2 && IsDigit(s[0]) && IsDigit(s[1])
    ensures 10 * DigitValue(s[0]) + DigitValue(s[1]) == n
  {
    if n < 10 then ['0', Digit(n)] else [Digit(n / 10), Digit(n % 10)]
  }

  /** The value of a string of one or two decimal digits. */
  function ParseNumber(s: string): (r: Option<nat>)
    ensures r.Some? ==> r.value < 100
    ensures r.Some? <==> (1 <= |s| <= 2 && forall i :: 0 <= i < |s| ==> IsDigit(s[i]))
    ensures r.Some? && |s| == 1 ==> r.value == DigitValue(s[0])
    ensures r.Some? && |s| == 2 ==> r.value == 10 * DigitValue(s[0]) + DigitValue(s[1])
  {
    if |s| == 1 && IsDigit(s[0]) then Some(DigitValue(s[0]))
    else if |s| == 2 && IsDigit(s[0]) && IsDigit(s[1]) then Some(10 * DigitValue(s[0]) + DigitValue(s[1]))
    else None
  }

  /** Padding and parsing are inverse: a padded number reads back as itself ... */
  lemma ParsePad2(n: nat)
    requires n < 100
    ensures ParseNumber(Pad2(n)) == Some(n)
  {
  }

  /** ... and every two-digit string is the padding of the number it denotes. */
  lemma Pad2OfParse(s: string)
    requires |s| == 2 && ParseNumber(s).Some?
    ensures Pad2(ParseNumber(s).value) == s
  {
    var n := ParseNumber(s).value;
    var hi, lo := DigitValue(s[0]), DigitValue(s[1]);
    assert n == 10 * hi + lo;
    DigitOfValue(s[0]);
    DigitOfValue(s[1]);
    if n < 10 {
      assert hi == 0;
      assert s[0] == '0';
    } else {
      assert n / 10 == hi && n % 10 == lo;
    }
  }
}
