/**
 * Decimal rendering of integers as strconv.Itoa and the %d verb produce it,
 * fixed-width zero padding, and reading digits back (the partner that shows
 * every rendering loses nothing).
 */
module Decimal {
  import opened Wrappers

  predicate IsDigit(c: char) { '0' <= c <= '9' }

  predicate AllDigits(s: string) { forall k :: 0 <= k < |s| ==> IsDigit(s[k]) }

  function DigitValue(c: char): (d: nat)
    requires IsDigit(c)
    ensures d < 10
  {
    (c as int) - ('0' as int)
  }

  function DigitChar(d: nat): (c: char)
    requires d < 10
    ensures IsDigit(c) && DigitValue(c) == d
  {
    ('0' as int + d) as char
  }

  function Pow10(k: nat): (p: nat)
    ensures p >= 1
  {
    if k == 0 then 1 else 10 * Pow10(k - 1)
  }

  /** The value of a string of decimal digits, most significant first. */
  function ParseDigits(s: string): nat
    requires AllDigits(s)
  {
    if s == [] then 0 else 10 * ParseDigits(s[..|s| - 1]) + DigitValue(s[|s| - 1])
  }

  /** The shortest decimal rendering of `n`: no sign and no leading zero. */
  function NatToString(n: nat): (s: string)
    ensures |s| >= 1 && AllDigits(s)
    ensures |s| > 1 ==> s[0] != '0'
  {
    if n < 10 then [DigitChar(n)] else NatToString(n / 10) + [DigitChar(n % 10)]
  }

  /** Rendering with a leading '-' for negative values, as %d and strconv.Itoa do. */
  function IntToString(i: int): (s: string)
    ensures |s| >= 1 && ' ' !in s && '\n' !in s
  {
    if i < 0 then "-" + NatToString(-i) else NatToString(i)
  }

  /** The last `width` decimal digits of `n`, padded on the left with zeros. */
  function Pad(n: nat, width: nat): (s: string)
    ensures |s| == width && AllDigits(s)
  {
    if width == 0 then "" else Pad(n / 10, width - 1) + [DigitChar(n % 10)]
  }

  /** Reading a rendering of an integer back; None for anything else. */
  function ParseInt(s: string): (r: Option<int>)
    ensures r.Some? ==> |s| >= 1
  {
    if |s| >= 1 && AllDigits(s) then Some(ParseDigits(s))
    else if |s| >= 2 && s[0] == '-' && AllDigits(s[1..]) then
      var magnitude: int := ParseDigits(s[1..]);
      Some(-magnitude)
    else None
  }

  /** Digits are neither spaces nor newlines. */
  lemma DigitsArePlain(s: string)
    requires AllDigits(s)
    ensures ' ' !in s && '\n' !in s
  {
  }

  lemma ParseDigitsSnoc(s: string, c: char)
    requires AllDigits(s) && IsDigit(c)
    ensures AllDigits(s + [c]) && ParseDigits(s + [c]) == 10 * ParseDigits(s) + DigitValue(c)
  {
    assert (s + [c])[..|s|] == s;
  }

  /** Reading back the rendering of a natural number gives the number. */
  lemma {:induction false} ParseNatToString(n: nat)
    ensures ParseDigits(NatToString(n)) == n
  {
    if n >= 10 {
      ParseNatToString(n / 10);
      ParseDigitsSnoc(NatToString(n / 10), DigitChar(n % 10));
    }
  }

  /** Reading back a padded rendering of a number that fits the width gives the number. */
  lemma {:induction false} ParsePad(n: nat, width: nat)
    requires n < Pow10(width)
    ensures ParseDigits(Pad(n, width)) == n
  {
    if width > 0 {
      ParsePad(n / 10, width - 1);
      ParseDigitsSnoc(Pad(n / 10, width - 1), DigitChar(n % 10));
    }
  }

  /**
   * Rendering 10^width + x for x < 10^width gives a '1' followed by the
   * width-digit padding of x: the "add a power of ten, drop the first
   * character" way of zero padding is correct.
   */
  lemma {:induction false} NatToStringLeadingOne(x: nat, width: nat)
    requires x < Pow10(width)
    ensures NatToString(Pow10(width) + x) == "1" + Pad(x, width)
  {
    if width > 0 {
      var n := Pow10(width) + x;
      assert n / 10 == Pow10(width - 1) + x / 10 && n % 10 == x % 10;
      NatToStringLeadingOne(x / 10, width - 1);
      assert ("1" + Pad(x / 10, width - 1)) + [DigitChar(x % 10)] == "1" + Pad(x, width);
    }
  }

  /** Reading back the rendering of any integer gives the integer. */
  lemma ParseIntToString(i: int)
    ensures ParseInt(IntToString(i)) == Some(i)
  {
    if i < 0 {
      var digits := NatToString(-i);
      assert IntToString(i) == "-" + digits;
      ParseNatToString(-i);
      ParseNegative(digits);
    } else {
      var digits := NatToString(i);
      assert IntToString(i) == digits;
      ParseNatToString(i);
      assert ParseInt(digits) == Some(i);
    }
  }

  /** A '-' followed by digits reads as the negated value of the digits. */
  lemma ParseNegative(digits: string)
    requires |digits| >= 1 && AllDigits(digits)
    ensures ParseInt("-" + digits) == Some(-(ParseDigits(digits) as int))
  {
    var s := "-" + digits;
    assert s[1..] == digits;
    assert !AllDigits(s) by { assert !IsDigit(s[0]); }
  }
}
