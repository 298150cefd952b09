/** Rendering of a duration in seconds as "M:SS", as app.py formats its times: the floor
    quotient by 60 as a decimal integer, a colon, and the floor remainder's whole seconds as
    two digits; and a reader that inverts it. */
module TimeFormat {

  datatype Option<T> = None | Some(value: T)

  /** Whole minutes and the remaining whole seconds of a duration. */
  datatype Clock = Clock(minutes: int, seconds: int)

  predicate IsDigit(c: char) {
    '0' <= c <= '9'
  }

  function DigitChar(d: int): (c: char)
    requires 0 <= d <= 9
    ensures IsDigit(c)
  {
    ('0' as int + d) as char
  }

  function DigitValue(c: char): (d: int)
    requires IsDigit(c)
    ensures 0 <= d <= 9
  {
    c as int - '0' as int
  }

  predicate AllDigits(s: string) {
    forall i :: 0 <= i < |s| ==> IsDigit(s[i])
  }

  /** A run of decimal digits as Python's `str` writes a non-negative integer: at least one
      digit, and no leading zero unless the number is 0 itself. */
  ghost predicate CanonicalDigits(s: string) {
    |s| >= 1 && AllDigits(s) && (|s| > 1 ==> s[0] != '0')
  }

  /** Python's `str` of any integer: canonical digits, or a minus sign before the canonical
      digits of a non-zero number. */
  ghost predicate CanonicalInt(s: string) {
    CanonicalDigits(s) || (|s| > 1 && s[0] == '-' && CanonicalDigits(s[1..]) && s[1] != '0')
  }

  /** Decimal digits of n, most significant first, without leading zeros (Python's `str`). */
  function NatToDecimal(n: nat): (s: string)
    ensures CanonicalDigits(s)
    ensures s[0] == '0' <==> n == 0
  {
    if n < 10 then [DigitChar(n)] else NatToDecimal(n / 10) + [DigitChar(n % 10)]
  }

  /** The number a string of decimal digits denotes. */
  function DecimalValue(s: string): nat
    requires AllDigits(s)
  {
    if |s| == 0 then 0
    else DecimalValue(s[..|s| - 1]) * 10 + DigitValue(s[|s| - 1])
  }

  lemma {:induction false} NatToDecimalRoundTrip(n: nat)
    ensures DecimalValue(NatToDecimal(n)) == n
  {
    if n >= 10 {
      var s := NatToDecimal(n);
      NatToDecimalRoundTrip(n / 10);
      assert s[..|s| - 1] == NatToDecimal(n / 10);
      assert DigitValue(DigitChar(n % 10)) == n % 10;
    }
  }

  /** Python's `str` of an integer: a minus sign before the digits of a negative number. */
  function IntToDecimal(i: int): (s: string)
    ensures CanonicalInt(s)
    ensures s[0] == '-' <==> i < 0
  {
    if i < 0 then "-" + NatToDecimal(-i) else NatToDecimal(i)
  }

  /** Reads back what `IntToDecimal` writes. */
  function ParseInt(s: string): Option<int> {
    if |s| > 1 && s[0] == '-' && AllDigits(s[1..]) then Some(-(DecimalValue(s[1..]) as int))
    else if |s| > 0 && AllDigits(s) then Some(DecimalValue(s) as int)
    else None
  }

  lemma IntToDecimalRoundTrip(i: int)
    ensures ParseInt(IntToDecimal(i)) == Some(i)
  {
    var s := IntToDecimal(i);
    if i < 0 {
      var digits := NatToDecimal(-i);
      assert s == "-" + digits;
      assert s[1..] == digits;
      assert |s| > 1 && s[0] == '-' && AllDigits(s[1..]);
      NatToDecimalRoundTrip(-i);
    } else {
      assert s == NatToDecimal(i);
      NatToDecimalRoundTrip(i);
      assert IsDigit(s[0]) && !IsDigit('-');
      assert s[0] != '-';
    }
  }

  /** Digits that do not start with '0' denote a positive number. */
  lemma {:induction false} LeadingDigitPositive(s: string)
    requires |s| >= 1 && AllDigits(s) && s[0] != '0'
    ensures DecimalValue(s) >= 1
  {
    if |s| > 1 {
      LeadingDigitPositive(s[..|s| - 1]);
    }
  }

  /** Canonical digits are exactly what `NatToDecimal` writes for the number they denote. */
  lemma {:induction false} CanonicalDigitsUnique(s: string)
    requires CanonicalDigits(s)
    ensures NatToDecimal(DecimalValue(s)) == s
  {
    var d := DigitValue(s[|s| - 1]);
    assert DigitChar(d) == s[|s| - 1];
    if |s| > 1 {
      var front := s[..|s| - 1];
      LeadingDigitPositive(front);
      CanonicalDigitsUnique(front);
      assert DecimalValue(s) / 10 == DecimalValue(front) && DecimalValue(s) % 10 == d;
      assert s == front + [s[|s| - 1]];
    }
  }

  /** A canonical integer text is the only one that reads back as its value: `ParseInt`
      inverts `IntToDecimal` on canonical texts. */
  lemma ParseIntCanonical(s: string, i: int)
    requires CanonicalInt(s)
    requires ParseInt(s) == Some(i)
    ensures IntToDecimal(i) == s
  {
    if s[0] == '-' {
      LeadingDigitPositive(s[1..]);
      CanonicalDigitsUnique(s[1..]);
      assert s == "-" + s[1..];
    } else {
      assert !(|s| > 1 && s[0] == '-');
      CanonicalDigitsUnique(s);
    }
  }

  /** Python's `f"{n:02d}"` for 0 <= n < 100: two digits, zero-padded. */
  function TwoDigits(n: int): (s: string)
    requires 0 <= n < 100
    ensures |s| == 2 && AllDigits(s)
    ensures 10 * DigitValue(s[0]) + DigitValue(s[1]) == n
  {
    [DigitChar(n / 10), DigitChar(n % 10)]
  }

  const SecondsPerMinute: real := 60.0

  /** `int(d // 60)`: floor division of the duration by 60. */
  function Minutes(d: real): int {
    (d / SecondsPerMinute).Floor
  }

  /** `int(d % 60)`: Python's float modulo takes the sign of the divisor, so the remainder
      lies in [0, 60) even for negative d, and `int` then drops its fraction. */
  function Seconds(d: real): (s: int)
    ensures 0 <= s < 60
    ensures SecondsPerMinute * Minutes(d) as real + s as real <= d < SecondsPerMinute * Minutes(d) as real + s as real + 1.0
  {
    var rem := d - SecondsPerMinute * Minutes(d) as real;
    assert 0.0 <= rem < SecondsPerMinute;
    rem.Floor
  }

  /** The shape of an "M:SS" text: the minutes as Python's `str` writes an integer, a colon,
      and two digits. */
  ghost predicate ClockText(s: string) {
    |s| >= 4 && s[|s| - 3] == ':' && CanonicalInt(s[..|s| - 3]) && IsDigit(s[|s| - 2]) && IsDigit(s[|s| - 1])
  }

  /** A duration in seconds as minutes, a colon and two-digit seconds. */
  function FormatMinSec(d: real): (s: string)
    ensures ClockText(s)
  {
    IntToDecimal(Minutes(d)) + ":" + TwoDigits(Seconds(d))
  }

  /** Splits "M:SS" into minutes and seconds; None when the text is not of that shape. */
  function ParseMinSec(s: string): Option<Clock> {
    if |s| < 4 || s[|s| - 3] != ':' || !IsDigit(s[|s| - 2]) || !IsDigit(s[|s| - 1]) then None
    else
      match ParseInt(s[..|s| - 3])
      case None => None
      case Some(m) => Some(Clock(m, 10 * DigitValue(s[|s| - 2]) + DigitValue(s[|s| - 1])))
  }

  /** Reading back a formatted duration gives floor(d / 60) minutes and a seconds field in
      0..59, and together they count the whole seconds of d: 60 * M + SS == floor(d). */
  lemma FormatMinSecRoundTrip(d: real)
    ensures ParseMinSec(FormatMinSec(d)) == Some(Clock(Minutes(d), Seconds(d)))
    ensures 0 <= Seconds(d) <= 59
    ensures 60 * Minutes(d) + Seconds(d) == d.Floor
  {
    var m := IntToDecimal(Minutes(d));
    var s := FormatMinSec(d);
    assert s[..|s| - 3] == m;
    IntToDecimalRoundTrip(Minutes(d));
  }

  /** The rendering is the only text of the "M:SS" shape that reads back as the duration's
      minutes and seconds: no other spelling, such as one with a leading zero, qualifies. */
  lemma FormatMinSecUnique(d: real, s: string)
    requires ClockText(s)
    requires ParseMinSec(s) == Some(Clock(Minutes(d), Seconds(d)))
    ensures s == FormatMinSec(d)
  {
    var m := s[..|s| - 3];
    ParseIntCanonical(m, Minutes(d));
    var tens := DigitValue(s[|s| - 2]);
    var ones := DigitValue(s[|s| - 1]);
    assert 10 * tens + ones == Seconds(d);
    assert tens == Seconds(d) / 10 && ones == Seconds(d) % 10;
    assert DigitChar(tens) == s[|s| - 2] && DigitChar(ones) == s[|s| - 1];
    assert s == m + ":" + [s[|s| - 2], s[|s| - 1]];
  }

  /** 125 seconds reads "2:05", 59 seconds "0:59". */
  lemma FormatExamples()
    ensures FormatMinSec(125.0) == "2:05"
    ensures FormatMinSec(59.0) == "0:59"
  {
    assert Minutes(125.0) == 2 && Seconds(125.0) == 5;
    assert Minutes(59.0) == 0 && Seconds(59.0) == 59;
  }
}
