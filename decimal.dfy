/** Decimal text for integers: the rendering Python's format specification
    "06d" gives a listing code, and a reference reader that turns such text
    back into a number. */
module Decimal {
  import opened Wrappers

  /** Width a listing code is padded to. */
  const CodeWidth: nat := 6

  function Max(a: int, b: int): int {
    if a < b then b else a
  }

  function Pow10(k: nat): (p: nat)
    ensures p >= 1
  {
    if k == 0 then 1 else 10 * Pow10(k - 1)
  }

  predicate IsDigit(c: char) {
    '0' <= c <= '9'
  }

  predicate AllDigits(s: string) {
    forall i :: 0 <= i < |s| ==> IsDigit(s[i])
  }

  function DigitValue(c: char): nat
    requires IsDigit(c)
  {
    c as int - '0' as int
  }

  function DigitChar(d: nat): (c: char)
    requires d < 10
    ensures IsDigit(c) && DigitValue(c) == d
  {
    ('0' as int + d) as char
  }

  /** The digits of n, most significant first, as Python's str() writes a
      non-negative int: only zero itself starts with '0'. */
  function Digits(n: nat): (s: string)
    ensures 1 <= |s| && AllDigits(s)
    ensures s[0] == '0' <==> n == 0
  {
    if n < 10 then [DigitChar(n)] else Digits(n / 10) + [DigitChar(n % 10)]
  }

  /** r is s with zero or more '0' characters put in front of it. */
  predicate ZeroPadded(r: string, s: string) {
    |s| <= |r| && r[|r| - |s|..] == s && forall i :: 0 <= i < |r| - |s| ==> r[i] == '0'
  }

  function PadLeft(s: string, width: nat): (r: string)
    ensures |r| == Max(width, |s|)
  {
    if |s| >= width then s else seq(width - |s|, _ => '0') + s
  }

  /** Padding only puts '0' characters in front of the text. */
  lemma PadLeftZeroPadded(s: string, width: nat)
    ensures ZeroPadded(PadLeft(s, width), s)
  {
    if |s| < width {
      var z := seq(width - |s|, _ => '0');
      assert (z + s)[|z|..] == s;
    }
  }

  /** Format specification 06d: the sign, if any, then the digits of |x| zero-filled so
      that the whole text is at least six characters wide. */
  function FormatCode(x: int): (r: string)
    ensures |r| >= CodeWidth
  {
    if x >= 0 then PadLeft(Digits(x), CodeWidth) else "-" + PadLeft(Digits(-x), CodeWidth - 1)
  }

  /** 06d only puts '0' characters in front of the digits (after the sign
      of a negative number), and the text is max(6, digits) wide, so wider
      codes are not truncated. */
  lemma FormatCodeShape(x: int)
    ensures x >= 0 ==> |FormatCode(x)| == Max(CodeWidth, |Digits(x)|) && ZeroPadded(FormatCode(x), Digits(x))
    ensures x < 0 ==>
      |FormatCode(x)| == Max(CodeWidth, 1 + |Digits(-x)|) && FormatCode(x)[0] == '-' &&
      ZeroPadded(FormatCode(x)[1..], Digits(-x))
  {
    if x >= 0 {
      PadLeftZeroPadded(Digits(x), CodeWidth);
    } else {
      PadLeftZeroPadded(Digits(-x), CodeWidth - 1);
      var p := PadLeft(Digits(-x), CodeWidth - 1);
      assert FormatCode(x) == "-" + p;
      assert ("-" + p)[1..] == p;
    }
  }

  /** The value of a string of decimal digits (the empty string reads as 0). */
  function ParseDigits(s: string): nat
    requires AllDigits(s)
  {
    if s == [] then 0 else 10 * ParseDigits(s[..|s| - 1]) + DigitValue(s[|s| - 1])
  }

  /** Reference reader for integer text: an optional '-' followed by one or
      more decimal digits; anything else is not an integer. */
  function ReadInt(s: string): Option<int> {
    if 2 <= |s| && s[0] == '-' && AllDigits(s[1..]) then Some(-(ParseDigits(s[1..]) as int))
    else if 1 <= |s| && AllDigits(s) then Some(ParseDigits(s))
    else None
  }

  lemma {:induction false} ParseDigitsOfDigits(n: nat)
    ensures ParseDigits(Digits(n)) == n
  {
    if n >= 10 {
      var s, c := Digits(n / 10), DigitChar(n % 10);
      assert Digits(n) == s + [c];
      assert (s + [c])[..|s|] == s;
      ParseDigitsOfDigits(n / 10);
    }
  }

  /** Leading zeros do not change the value of a digit string. */
  lemma {:induction false} ParseZeroPadded(r: string, s: string)
    requires AllDigits(s) && ZeroPadded(r, s)
    ensures AllDigits(r) && ParseDigits(r) == ParseDigits(s)
    decreases |r|
  {
    assert AllDigits(r) by {
      forall i | 0 <= i < |r| ensures IsDigit(r[i]) {
        if i >= |r| - |s| {
          assert r[i] == s[i - (|r| - |s|)];
        }
      }
    }
    if |s| > 0 {
      var r', s' := r[..|r| - 1], s[..|s| - 1];
      assert r'[|r'| - |s'|..] == r[|r| - |s|..][..|s'|];
      ParseZeroPadded(r', s');
    } else if |r| > 0 {
      ParseZeroPadded(r[..|r| - 1], s);
    }
  }

  /** Reading a formatted code back gives the number it was formatted from,
      negative numbers included. */
  lemma FormatCodeRoundTrip(x: int)
    ensures ReadInt(FormatCode(x)) == Some(x)
  {
    if x >= 0 {
      PaddedDigitsValue(x, CodeWidth);
      ReadDigits(FormatCode(x));
    } else {
      var p := PadLeft(Digits(-x), CodeWidth - 1);
      assert FormatCode(x) == "-" + p;
      PaddedDigitsValue(-x, CodeWidth - 1);
      ReadNegated(p);
    }
  }

  /** The zero-padded digits of n are digits and read as n. */
  lemma PaddedDigitsValue(n: nat, width: nat)
    ensures 1 <= |PadLeft(Digits(n), width)|
    ensures AllDigits(PadLeft(Digits(n), width)) && ParseDigits(PadLeft(Digits(n), width)) == n
  {
    PadLeftZeroPadded(Digits(n), width);
    ParseZeroPadded(PadLeft(Digits(n), width), Digits(n));
    ParseDigitsOfDigits(n);
  }

  lemma ReadDigits(s: string)
    requires 1 <= |s| && AllDigits(s)
    ensures ReadInt(s) == Some(ParseDigits(s) as int)
  {
    assert IsDigit(s[0]);
  }

  lemma ReadNegated(p: string)
    requires 1 <= |p| && AllDigits(p)
    ensures ReadInt("-" + p) == Some(-(ParseDigits(p) as int))
  {
    assert ("-" + p)[1..] == p;
  }

  /** Formatting is one-to-one: two codes that print the same are equal. */
  lemma FormatCodeInjective(x: int, y: int)
    requires FormatCode(x) == FormatCode(y)
    ensures x == y
  {
    FormatCodeRoundTrip(x);
    FormatCodeRoundTrip(y);
  }

  /** A number has at most k digits exactly when it is below 10^k. */
  lemma {:induction false} DigitsFit(n: nat, k: nat)
    requires 1 <= k
    ensures |Digits(n)| <= k <==> n < Pow10(k)
  {
    if n >= 10 {
      if k == 1 {
        assert Pow10(1) == 10;
      } else {
        DigitsFit(n / 10, k - 1);
      }
    } else {
      assert Pow10(k) >= 10 by { PowerAtLeastTen(k); }
    }
  }

  lemma {:induction false} PowerAtLeastTen(k: nat)
    requires 1 <= k
    ensures Pow10(k) >= 10
  {
    if k > 1 {
      PowerAtLeastTen(k - 1);
    }
  }

  /** A code is rendered as exactly six decimal digits, reading back as the
      code, exactly when it lies in 0 .. 999999; wider codes keep every digit. */
  lemma SixDigitCode(x: nat)
    ensures |FormatCode(x)| == CodeWidth <==> x < 1000000
    ensures x < 1000000 ==> AllDigits(FormatCode(x)) && ParseDigits(FormatCode(x)) == x
  {
    DigitsFit(x, CodeWidth);
    FormatCodeShape(x);
    assert Pow10(CodeWidth) == 1000000;
    ParseZeroPadded(FormatCode(x), Digits(x));
    ParseDigitsOfDigits(x);
  }
}
