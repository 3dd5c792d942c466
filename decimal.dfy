/**
 * Base-10 numerals: the rendering Swift performs for `String(n)` and
 * `String(n, radix: 10)`, its inverse, and left padding with zeros as the
 * `%0Nd` format does.
 */
module Decimal {

  function Pow10(k: nat): (r: nat)
    ensures r >= 1
  {
    if k == 0 then 1 else 10 * Pow10(k - 1)
  }

  predicate IsDigit(c: char) {
    '0' <= c <= '9'
  }

  predicate AllDigits(s: string) {
    forall i :: 0 <= i < |s| ==> IsDigit(s[i])
  }

  function DigitChar(d: nat): (c: char)
    requires d < 10
    ensures IsDigit(c) && DigitValue(c) == d
  {
    (d + '0' as int) as char
  }

  function DigitValue(c: char): (d: nat)
    requires IsDigit(c)
    ensures d < 10
  {
    c as int - '0' as int
  }

  /**
   * The shortest decimal numeral of n: "0" for zero, otherwise no leading
   * zero.
   */
  function Numeral(n: nat): (s: string)
    ensures 1 <= |s| && AllDigits(s)
    ensures n == 0 <==> s[0] == '0'
  {
    if n < 10 then [DigitChar(n)] else Numeral(n / 10) + [DigitChar(n % 10)]
  }

  /** The number a string of decimal digits denotes, most significant first. */
  function Parse(s: string): (n: nat)
    requires AllDigits(s)
  {
    if s == [] then 0 else Parse(s[..|s| - 1]) * 10 + DigitValue(s[|s| - 1])
  }

  /** Reading back a numeral gives the number it was made from. */
  lemma {:induction false} ParseNumeral(n: nat)
    ensures Parse(Numeral(n)) == n
  {
    if n >= 10 {
      var s := Numeral(n);
      assert s[..|s| - 1] == Numeral(n / 10);
      ParseNumeral(n / 10);
    }
  }

  /** A numeral fits in d characters exactly when n is below 10^d. */
  lemma {:induction false} NumeralFits(n: nat, d: nat)
    requires d >= 1
    ensures |Numeral(n)| <= d <==> n < Pow10(d)
  {
    if n >= 10 {
      if d == 1 {
        assert Pow10(1) == 10;
      } else {
        NumeralFits(n / 10, d - 1);
        assert n / 10 < Pow10(d - 1) <==> n < 10 * Pow10(d - 1);
      }
    } else {
      Pow10AtLeast(d);
    }
  }

  lemma {:induction false} Pow10AtLeast(d: nat)
    requires d >= 1
    ensures Pow10(d) >= 10
  {
    if d > 1 {
      Pow10AtLeast(d - 1);
    }
  }

  lemma {:induction false} Pow10Mono(a: nat, b: nat)
    requires a <= b
    ensures Pow10(a) <= Pow10(b)
  {
    if a < b {
      Pow10Mono(a, b - 1);
    }
  }

  function Repeat(c: char, k: nat): (s: string)
    ensures |s| == k && forall i :: 0 <= i < k ==> s[i] == c
  {
    seq(k, _ => c)
  }

  /**
   * s widened to at least `width` characters by prefixing `pad`; a string
   * already that wide is returned unchanged.
   */
  function PadLeft(s: string, width: nat, pad: char): (r: string)
    ensures |r| == if |s| >= width then |s| else width
    ensures r[|r| - |s|..] == s
    ensures forall i :: 0 <= i < |r| - |s| ==> r[i] == pad
  {
    if |s| >= width then s else Repeat(pad, width - |s|) + s
  }

  /**
   * The numeral of m zero-padded to `width` is still a numeral of m, and
   * is exactly `width` long when m has at most `width` decimal places.
   */
  lemma PaddedNumeral(m: nat, width: nat)
    ensures AllDigits(PadLeft(Numeral(m), width, '0'))
    ensures Parse(PadLeft(Numeral(m), width, '0')) == m
    ensures 1 <= width && m < Pow10(width) ==> |PadLeft(Numeral(m), width, '0')| == width
    ensures width == 0 ==> PadLeft(Numeral(m), width, '0') == Numeral(m)
  {
    var n := Numeral(m);
    var k := |PadLeft(n, width, '0')| - |n|;
    assert PadLeft(n, width, '0') == Repeat('0', k) + n;
    ParseNumeral(m);
    ParseLeadingZeros(k, n);
    if 1 <= width {
      NumeralFits(m, width);
    }
  }

  /**
   * Padding a numeral of m to `width` leaves it unchanged exactly when m
   * already has `width` decimal places (one place always suffices).
   */
  lemma PaddingNeededIff(m: nat, width: nat)
    requires 1 <= width && m < Pow10(width)
    ensures PadLeft(Numeral(m), width, '0') == Numeral(m) <==> width == 1 || Pow10(width - 1) <= m
  {
    var n := Numeral(m);
    NumeralFits(m, width);
    assert PadLeft(n, width, '0') == n <==> |n| == width;
    if width > 1 {
      NumeralFits(m, width - 1);
    }
  }

  /** Leading zeros do not change the number a digit string denotes. */
  lemma {:induction false} ParseLeadingZeros(k: nat, s: string)
    requires AllDigits(s)
    ensures AllDigits(Repeat('0', k) + s)
    ensures Parse(Repeat('0', k) + s) == Parse(s)
  {
    var t := Repeat('0', k) + s;
    if s == [] {
      ParseZeros(k);
      assert t == Repeat('0', k);
    } else {
      var pre := s[..|s| - 1];
      ParseLeadingZeros(k, pre);
      assert t[..|t| - 1] == Repeat('0', k) + pre;
    }
  }

  lemma {:induction false} ParseZeros(k: nat)
    ensures Parse(Repeat('0', k)) == 0
  {
    if k > 0 {
      assert Repeat('0', k)[..k - 1] == Repeat('0', k - 1);
      ParseZeros(k - 1);
    }
  }

  /** The digit characters of s, in order; every other character dropped. */
  function Digits(s: string): (r: string)
    ensures AllDigits(r) && |r| <= |s|
  {
    if s == [] then []
    else if IsDigit(s[|s| - 1]) then Digits(s[..|s| - 1]) + [s[|s| - 1]]
    else Digits(s[..|s| - 1])
  }

  lemma {:induction false} DigitsAppend(a: string, b: string)
    ensures Digits(a + b) == Digits(a) + Digits(b)
  {
    if b == [] {
      assert a + b == a;
    } else {
      DigitsAppend(a, b[..|b| - 1]);
      assert (a + b)[..|a + b| - 1] == a + b[..|b| - 1];
      assert (a + b)[|a + b| - 1] == b[|b| - 1];
    }
  }

  lemma {:induction false} DigitsOfDigits(s: string)
    requires AllDigits(s)
    ensures Digits(s) == s
  {
    if s != [] {
      DigitsOfDigits(s[..|s| - 1]);
    }
  }

  lemma {:induction false} DigitsOfNonDigits(s: string)
    requires forall i :: 0 <= i < |s| ==> !IsDigit(s[i])
    ensures Digits(s) == []
  {
    if s != [] {
      DigitsOfNonDigits(s[..|s| - 1]);
    }
  }
}
