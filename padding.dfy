/** The two-digit rendering of each timer field: `value.toString().padStart(2, '0')`. */
module Padding {

  predicate IsDigit(c: char) {
    '0' <= c <= '9'
  }

  /** The decimal digit character for d. */
  function Digit(d: nat): (c: char)
    requires d < 10
    ensures IsDigit(c) && c as int - '0' as int == d
  {
    ('0' as int + d) as char
  }

  /** The value of a decimal digit character. */
  function DigitValue(c: char): (d: nat)
    requires IsDigit(c)
    ensures d < 10 && Digit(d) == c
  {
    c as int - '0' as int
  }

  predicate AllDigits(s: string) {
    forall i :: 0 <= i < |s| ==> IsDigit(s[i])
  }

  /** Number.prototype.toString on a non-negative integer below 1e21 (the
      timer's fields are at most 59): its decimal digits, most significant
      first, without leading zeros. */
  function NatToString(n: nat): (s: string)
    ensures 1 <= |s| && AllDigits(s)
    ensures s[0] == '0' ==> n == 0
    ensures |s| == 1 <==> n < 10
    decreases n
  {
    if n < 10 then [Digit(n)] else NatToString(n / 10) + [Digit(n % 10)]
  }

  /** The value of a string of decimal digits; the empty string reads as 0. */
  function ParseDecimal(s: string): nat
    requires AllDigits(s)
  {
    if s == [] then 0 else 10 * ParseDecimal(s[..|s| - 1]) + DigitValue(s[|s| - 1])
  }

  /** String.prototype.padStart with a one-character filler: prefixes `fill`
      until the string is `width` long; a string already that long is kept. */
  function PadStart(s: string, width: nat, fill: char): (r: string)
    ensures |s| >= width ==> r == s
    ensures |s| < width ==> |r| == width
    ensures |r| >= |s| && r[|r| - |s|..] == s
    ensures forall i :: 0 <= i < |r| - |s| ==> r[i] == fill
    ensures IsDigit(fill) && AllDigits(s) ==> AllDigits(r)
    decreases width - |s|
  {
    if |s| >= width then s else PadStart([fill] + s, width, fill)
  }

  /** What the timer renders for one field. */
  function PadTwo(value: nat): (r: string)
    ensures AllDigits(r)
  {
    PadStart(NatToString(value), 2, '0')
  }

  /** Reading back what NatToString wrote gives the number. */
  lemma {:induction false} ParseNatToString(n: nat)
    ensures ParseDecimal(NatToString(n)) == n
    decreases n
  {
    var s := NatToString(n);
    if n < 10 {
      assert s == [Digit(n)];
      assert s[..0] == [];
    } else {
      ParseNatToString(n / 10);
      var p := NatToString(n / 10);
      assert s == p + [Digit(n % 10)];
      assert s[..|s| - 1] == p;
    }
  }

  /** Leading zeros do not change the value read. */
  lemma {:induction false} ParseLeadingZero(s: string)
    requires AllDigits(s)
    ensures ParseDecimal(['0'] + s) == ParseDecimal(s)
    decreases |s|
  {
    if s == [] {
      assert (['0'] + s)[..0] == [];
    } else {
      var init := s[..|s| - 1];
      ParseLeadingZero(init);
      assert (['0'] + s)[..|s|] == ['0'] + init;
    }
  }

  /** The shape of a padded field: at least two characters; a single digit
      gets one '0' in front, anything longer is left unchanged. */
  lemma PadTwoShape(value: nat)
    ensures |PadTwo(value)| >= 2 && AllDigits(PadTwo(value))
    ensures value < 10 ==> PadTwo(value) == ['0', Digit(value)]
    ensures value >= 10 ==> PadTwo(value) == NatToString(value)
  {
  }

  /** Reading back a padded field gives the value: padding loses nothing. */
  lemma PadTwoRoundTrip(value: nat)
    ensures ParseDecimal(PadTwo(value)) == value
  {
    var s := NatToString(value);
    PadTwoShape(value);
    ParseNatToString(value);
    if value < 10 {
      assert s == [Digit(value)];
      assert PadTwo(value) == ['0'] + s;
      ParseLeadingZero(s);
    }
  }
}
