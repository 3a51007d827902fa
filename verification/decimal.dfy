/** Decimal text for non-negative integers: what `Number.prototype.toString`
    and `String.prototype.padStart` produce for the values the screens
    format, and the digit value that reads such text back. */
module Decimal {

  predicate IsDigit(c: char) {
    '0' <= c <= '9'
  }

  predicate AllDigits(s: string) {
    forall i :: 0 <= i < |s| ==> IsDigit(s[i])
  }

  function DigitChar(d: nat): (c: char)
    requires d < 10
    ensures IsDigit(c) && c as int - '0' as int == d
  {
    (48 + d) as char
  }

  function DigitValue(c: char): (d: nat)
    requires IsDigit(c)
    ensures d < 10
  {
    c as int - '0' as int
  }

  /** `n.toString()`: the shortest decimal numeral of `n`. */
  function NatToString(n: nat): (s: string)
    ensures |s| >= 1 && AllDigits(s)
    ensures s[0] == '0' ==> n == 0
    decreases n
  {
    if n < 10 then [DigitChar(n)] else NatToString(n / 10) + [DigitChar(n % 10)]
  }

  /** The number a string of decimal digits denotes (leading zeros allowed). */
  function Value(s: string): nat
    requires AllDigits(s)
  {
    if s == [] then 0 else Value(s[..|s| - 1]) * 10 + DigitValue(s[|s| - 1])
  }

  /** `s.padStart(width, fill)`: `fill` is put in front until `s` is `width` long. */
  function PadStart(s: string, width: nat, fill: char): (r: string)
    ensures |r| == if |s| < width then width else |s|
    ensures r[|r| - |s|..] == s
    ensures forall i :: 0 <= i < |r| - |s| ==> r[i] == fill
  {
    if |s| >= width then s else seq(width - |s|, _ => fill) + s
  }

  lemma {:induction false} ValueOfNatToString(n: nat)
    ensures Value(NatToString(n)) == n
    decreases n
  {
    var s := NatToString(n);
    if n >= 10 {
      ValueOfNatToString(n / 10);
      assert s[..|s| - 1] == NatToString(n / 10);
    }
  }

  /** The numeral of `n` is one digit below 10, two digits below 100 and
      at least three from 100 on. */
  lemma {:induction false} NatToStringLength(n: nat)
    ensures n < 10 ==> |NatToString(n)| == 1
    ensures 10 <= n < 100 ==> |NatToString(n)| == 2
    ensures 100 <= n ==> |NatToString(n)| >= 3
    decreases n
  {
    if n >= 10 {
      NatToStringLength(n / 10);
    }
  }

  lemma NatToStringInjective(a: nat, b: nat)
    requires NatToString(a) == NatToString(b)
    ensures a == b
  {
    ValueOfNatToString(a);
    ValueOfNatToString(b);
  }

  /** A leading zero does not change the value of a digit string. */
  lemma {:induction false} ValueLeadingZero(s: string)
    requires AllDigits(s)
    ensures AllDigits(['0'] + s) && Value(['0'] + s) == Value(s)
    decreases |s|
  {
    var t := ['0'] + s;
    assert AllDigits(t) by {
      forall i | 0 <= i < |t| ensures IsDigit(t[i]) {
        if i > 0 { assert t[i] == s[i - 1]; }
      }
    }
    if s != [] {
      var init := s[..|s| - 1];
      ValueLeadingZero(init);
      assert t[..|t| - 1] == ['0'] + init;
    }
  }

  /** Padding with zeros keeps the digits and the value. */
  lemma {:induction false} ValueOfZeroPadded(s: string, width: nat)
    requires AllDigits(s)
    ensures AllDigits(PadStart(s, width, '0'))
    ensures Value(PadStart(s, width, '0')) == Value(s)
    decreases width - |s|
  {
    if |s| < width {
      ValueLeadingZero(s);
      ValueOfZeroPadded(['0'] + s, width);
      assert PadStart(s, width, '0') == PadStart(['0'] + s, width, '0');
    }
  }
}
