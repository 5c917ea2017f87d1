/** Decimal text of integers, as PHP's `sprintf('%s', $n)` renders an `int`:
    an optional minus sign followed by the digits, no leading zeros. */
module Decimal {

  predicate IsDigit(c: char)
  {
    '0' <= c <= '9'
  }

  function DigitChar(d: nat): (c: char)
    requires d < 10
    ensures IsDigit(c) && DigitValue(c) == d
  {
    (('0' as int) + d) as char
  }

  function DigitValue(c: char): nat
  {
    if IsDigit(c) then (c as int) - ('0' as int) else 0
  }

  /** A non-empty run of digits without leading zeros: the only shape
      `NatToDecimal` produces. */
  predicate IsCanonical(s: string)
  {
    && |s| > 0
    && (forall k :: 0 <= k < |s| ==> IsDigit(s[k]))
    && (s[0] == '0' ==> |s| == 1)
  }

  /** The value of a run of digits, most significant first. */
  function ParseNat(s: string): nat
  {
    if |s| == 0 then 0 else ParseNat(s[..|s| - 1]) * 10 + DigitValue(s[|s| - 1])
  }

  /** A minus sign in front negates the value. */
  function ParseInt(s: string): int
  {
    if |s| > 0 && s[0] == '-' then -(ParseNat(s[1..]) as int) else ParseNat(s)
  }

  /** The decimal digits of `n`; reading them back gives `n`. */
  function NatToDecimal(n: nat): (r: string)
    ensures IsCanonical(r)
    ensures ParseNat(r) == n
  {
    if n < 10 then
      [DigitChar(n)]
    else
      var high := NatToDecimal(n / 10);
      var r := high + [DigitChar(n % 10)];
      assert r[..|r| - 1] == high;
      r
  }

  /** The text `%s` gives for an integer; reading it back gives `i`, and it
      holds no space, so it is one word of the surrounding text. */
  function IntToDecimal(i: int): (r: string)
    ensures |r| > 0 && ' ' !in r
    ensures ParseInt(r) == i
  {
    if i < 0 then
      var digits := NatToDecimal(-i);
      assert ("-" + digits)[1..] == digits;
      "-" + digits
    else
      NatToDecimal(i)
  }

  /** The converse round trip: a canonical digit run is the rendering of its
      own value, so the rendering of a natural number is unique. */
  lemma {:induction false} CanonicalRoundTrip(s: string)
    requires IsCanonical(s)
    ensures NatToDecimal(ParseNat(s)) == s
  {
    var last := s[|s| - 1];
    if |s| == 1 {
      assert DigitChar(DigitValue(last)) == last;
    } else {
      var high := s[..|s| - 1];
      assert high[0] == s[0];
      CanonicalRoundTrip(high);
      var n := ParseNat(s);
      assert n / 10 == ParseNat(high) && n % 10 == DigitValue(last);
      assert DigitChar(DigitValue(last)) == last;
      assert s == high + [last];
    }
  }

  /** The converse round trip for signed text: a canonical digit run, with
      or without a minus sign in front, is the rendering of its own value
      (for "-0", which `%s` never produces, only the unsigned form holds). */
  lemma IntCanonicalRoundTrip(d: string)
    requires IsCanonical(d)
    ensures IntToDecimal(ParseInt(d)) == d
    ensures d != "0" ==> IntToDecimal(ParseInt("-" + d)) == "-" + d
  {
    CanonicalRoundTrip(d);
    var signed := "-" + d;
    assert signed[1..] == d;
    assert ParseInt(signed) == -(ParseNat(d) as int);
  }
}
