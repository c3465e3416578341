/**
 * Decimal digit strings: the zero-padded fields that a date's ISO rendering
 * is made of, and the decimal text of an integer that a template literal
 * produces when it interpolates a number.
 */
module Decimal {

  predicate IsDigit(c: char) {
    '0' <= c <= '9'
  }

  predicate AllDigits(s: string) {
    forall i :: 0 <= i < |s| ==> IsDigit(s[i])
  }

  function DigitValue(c: char): (v: nat)
    requires IsDigit(c)
    ensures v < 10
  {
    c as int - '0' as int
  }

  function DigitChar(v: nat): (c: char)
    requires v < 10
    ensures IsDigit(c) && DigitValue(c) == v
  {
    ('0' as int + v) as char
  }

  function Pow10(w: nat): (p: nat)
    ensures p >= 1
  {
    if w == 0 then 1 else 10 * Pow10(w - 1)
  }

  /** The number a digit string denotes, most significant digit first. */
  function ValueOf(s: string): (v: nat)
    requires AllDigits(s)
    ensures v < Pow10(|s|)
  {
    if s == [] then 0 else 10 * ValueOf(s[..|s| - 1]) + DigitValue(s[|s| - 1])
  }

  /** The low `w` decimal digits of `n`, padded on the left with zeros. */
  function Digits(n: nat, w: nat): (s: string)
    ensures |s| == w && AllDigits(s)
  {
    if w == 0 then [] else Digits(n / 10, w - 1) + [DigitChar(n % 10)]
  }

  /** Reading back a padded rendering gives the number, when it fits. */
  lemma {:induction false} ValueOfDigits(n: nat, w: nat)
    requires n < Pow10(w)
    ensures ValueOf(Digits(n, w)) == n
  {
    if w > 0 {
      var s := Digits(n, w);
      assert s[..w - 1] == Digits(n / 10, w - 1);
      ValueOfDigits(n / 10, w - 1);
    }
  }

  /** Rendering the value of a digit string at its own width gives it back. */
  lemma {:induction false} DigitsOfValue(s: string)
    requires AllDigits(s)
    ensures Digits(ValueOf(s), |s|) == s
  {
    if s != [] {
      var p, c := s[..|s| - 1], s[|s| - 1];
      var v := ValueOf(s);
      assert v == 10 * ValueOf(p) + DigitValue(c);
      assert v / 10 == ValueOf(p) && v % 10 == DigitValue(c);
      assert DigitChar(v % 10) == c;
      DigitsOfValue(p);
      assert Digits(v, |s|) == Digits(v / 10, |p|) + [DigitChar(v % 10)];
      assert s == p + [c];
    }
  }

  /** The value of a two-digit string, tens first. */
  lemma TwoDigitValue(t: string)
    requires |t| == 2 && AllDigits(t)
    ensures ValueOf(t) == 10 * DigitValue(t[0]) + DigitValue(t[1])
  {
    assert t[..1][..0] == [];
  }

  lemma TwoDigits(n: nat)
    requires n < 100
    ensures Digits(n, 2) == [DigitChar(n / 10), DigitChar(n % 10)]
  {
    var q := n / 10;
    assert q < 10 && q % 10 == q;
    assert Digits(q, 1) == [] + [DigitChar(q % 10)];
  }

  lemma FourDigits(n: nat)
    requires n < 10000
    ensures Digits(n, 4) ==
      [DigitChar(n / 10 / 10 / 10), DigitChar(n / 10 / 10 % 10), DigitChar(n / 10 % 10), DigitChar(n % 10)]
  {
    var q := n / 10;
    assert Digits(q, 3) == Digits(q / 10, 2) + [DigitChar(q % 10)];
    TwoDigits(q / 10);
  }

  /** The shortest decimal text of a natural number, as `String(n)` gives it. */
  function NatToString(n: nat): (s: string)
    ensures |s| >= 1 && AllDigits(s) && ValueOf(s) == n
    ensures |s| > 1 ==> s[0] != '0'
  {
    if n < 10 then [DigitChar(n)]
    else
      var s := NatToString(n / 10) + [DigitChar(n % 10)];
      assert s[..|s| - 1] == NatToString(n / 10);
      s
  }

  /** The decimal text of an integer, with a leading minus sign when negative. */
  function IntToString(i: int): (s: string)
    ensures |s| >= 1
    ensures s[0] == '-' <==> i < 0
    ensures i < 0 ==> AllDigits(s[1..]) && ValueOf(s[1..]) == -i
    ensures i >= 0 ==> AllDigits(s) && ValueOf(s) == i
    ensures i >= 0 ==> |s| == 1 || s[0] != '0'
    ensures i < 0 ==> |s| >= 2 && (|s| == 2 || s[1] != '0')
  {
    if i < 0 then "-" + NatToString(-i) else NatToString(i)
  }

  /** `String(i)` tells integers apart. */
  lemma IntToStringInjective(i: int, j: int)
    ensures IntToString(i) == IntToString(j) <==> i == j
  {
    if IntToString(i) == IntToString(j) {
      var s := IntToString(i);
      assert s[0] == '-' <==> j < 0;
    }
  }
}
