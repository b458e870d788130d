/** The digit formatting of the timer display: a number is written in decimal
    and padded on the left with '0' to at least two characters, so that each
    of hours, minutes and seconds fills two digit cards. */
module Display {

  predicate IsDigit(c: char) {
    '0' <= c <= '9'
  }

  function DigitChar(d: int): (c: char)
    requires 0 <= d <= 9
    ensures IsDigit(c)
  {
    ('0' as int + d) as char
  }

  function DigitValue(c: char): int {
    c as int - '0' as int
  }

  /** The decimal digits of a natural number, most significant first, with no
      leading zeros. */
  function NaturalDigits(n: nat): (s: string)
    decreases n
  {
    if n < 10 then [DigitChar(n)] else NaturalDigits(n / 10) + [DigitChar(n % 10)]
  }

  /** The decimal text of an integer, as a number's toString gives it for
      integers below the range where it switches to exponent notation. */
  function NumberToString(n: int): string {
    if n < 0 then "-" + NaturalDigits(-n) else NaturalDigits(n)
  }

  /** Left padding of `s` with `fill` up to `width` characters; a string
      already that long is returned as it is. */
  function PadStart(s: string, width: nat, fill: char): (r: string)
    ensures |r| == if |s| >= width then |s| else width
    ensures r[|r| - |s|..] == s
    ensures forall i :: 0 <= i < |r| - |s| ==> r[i] == fill
  {
    if |s| >= width then s else seq(width - |s|, _ => fill) + s
  }

  /** The two-character form of one clock component. */
  function FormatDigit(digit: int): string {
    PadStart(NumberToString(digit), 2, '0')
  }

  /** The number a string of decimal digits denotes. */
  function DecimalValue(s: string): int
    decreases |s|
  {
    if s == [] then 0 else DecimalValue(s[..|s| - 1]) * 10 + DigitValue(s[|s| - 1])
  }

  /** The digits of n are digits, one of them exactly when n < 10 and at most
      two when n < 100. */
  lemma {:induction false} NaturalDigitsShape(n: nat)
    decreases n
    ensures forall i :: 0 <= i < |NaturalDigits(n)| ==> IsDigit(NaturalDigits(n)[i])
    ensures |NaturalDigits(n)| == 1 <==> n < 10
    ensures n < 100 ==> |NaturalDigits(n)| <= 2
    ensures n >= 100 ==> |NaturalDigits(n)| >= 3
  {
    if n >= 10 {
      NaturalDigitsShape(n / 10);
    }
  }

  /** Reading the digits of n back gives n. */
  lemma {:induction false} NaturalDigitsRoundTrip(n: nat)
    decreases n
    ensures DecimalValue(NaturalDigits(n)) == n
  {
    if n >= 10 {
      var s := NaturalDigits(n);
      assert s[..|s| - 1] == NaturalDigits(n / 10);
      NaturalDigitsRoundTrip(n / 10);
    }
  }

  /** For a clock component from 0 to 99 the formatted text is two decimal
      digits, begins with '0' exactly when the component is below 10, and
      denotes the component. */
  lemma FormatDigitTwoDigits(d: int)
    requires 0 <= d <= 99
    ensures |FormatDigit(d)| == 2
    ensures IsDigit(FormatDigit(d)[0]) && IsDigit(FormatDigit(d)[1])
    ensures FormatDigit(d)[0] == '0' <==> d < 10
    ensures DecimalValue(FormatDigit(d)) == d
  {
    var s := NaturalDigits(d);
    NaturalDigitsShape(d);
    NaturalDigitsRoundTrip(d);
    var r := FormatDigit(d);
    if d < 10 {
      assert r == ['0'] + s;
      assert r[..1] == ['0'];
    } else {
      assert r == s;
    }
  }

  /** A component of 100 or more is not padded and keeps all its digits. */
  lemma FormatDigitWide(d: int)
    requires d >= 100
    ensures FormatDigit(d) == NaturalDigits(d)
    ensures |FormatDigit(d)| >= 3
    ensures DecimalValue(FormatDigit(d)) == d
  {
    NaturalDigitsShape(d);
    NaturalDigitsRoundTrip(d);
  }
}
