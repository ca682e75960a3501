/** Decimal rendering of non-negative integers, as Python's `str.format` prints an `int`. */
module Decimal {

  predicate IsDigit(c: char) {
    '0' <= c <= '9'
  }

  predicate AllDigits(s: string) {
    forall i :: 0 <= i < |s| ==> IsDigit(s[i])
  }

  function DigitChar(d: nat): (c: char)
    requires d < 10
    ensures IsDigit(c)
  {
    ('0' as int + d) as char
  }

  function DigitValue(c: char): (d: nat)
    requires IsDigit(c)
    ensures d < 10
    ensures DigitChar(d) == c
  {
    c as int - '0' as int
  }

  /** The canonical decimal text of `n`: only digits, and no leading zero unless `n` is 0. */
  function FromNat(n: nat): (s: string)
    ensures |s| >= 1 && AllDigits(s)
    ensures s[0] == '0' <==> n == 0
    ensures |s| > 1 ==> s[0] != '0'
    decreases n
  {
    if n < 10 then [DigitChar(n)] else FromNat(n / 10) + [DigitChar(n % 10)]
  }

  /** The value a string of decimal digits denotes. */
  function ToNat(s: string): nat
    requires AllDigits(s)
    decreases |s|
  {
    if |s| == 0 then 0 else ToNat(s[..|s| - 1]) * 10 + DigitValue(s[|s| - 1])
  }

  /** Reading back the rendering of `n` gives `n`. */
  lemma {:induction false} ToNatFromNat(n: nat)
    ensures ToNat(FromNat(n)) == n
    decreases n
  {
    var s := FromNat(n);
    if n >= 10 {
      assert s[..|s| - 1] == FromNat(n / 10);
      ToNatFromNat(n / 10);
    }
  }

  /** A digit string without a leading zero denotes a positive number. */
  lemma {:induction false} ToNatPositive(s: string)
    requires |s| >= 1 && AllDigits(s) && s[0] != '0'
    ensures ToNat(s) >= 1
    decreases |s|
  {
    if |s| > 1 {
      var p := s[..|s| - 1];
      assert p[0] == s[0];
      ToNatPositive(p);
    }
  }

  /** Every canonical digit string is the rendering of the number it denotes. */
  lemma {:induction false} FromNatToNat(s: string)
    requires |s| >= 1 && AllDigits(s)
    requires |s| > 1 ==> s[0] != '0'
    ensures FromNat(ToNat(s)) == s
    decreases |s|
  {
    var d := DigitValue(s[|s| - 1]);
    if |s| > 1 {
      var p := s[..|s| - 1];
      assert p[0] == s[0];
      ToNatPositive(p);
      FromNatToNat(p);
      var n := ToNat(s);
      assert n == ToNat(p) * 10 + d;
      assert n / 10 == ToNat(p) && n % 10 == d;
      assert s == p + [s[|s| - 1]];
    }
  }
}
