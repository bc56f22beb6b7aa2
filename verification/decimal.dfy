/**
 * Decimal rendering of integers, as Python's `f"{n}"` produces it, and the
 * parser that inverts it on canonical numerals.
 */
module Decimal {

  predicate IsDigit(c: char) {
    '0' <= c <= '9'
  }

  predicate AllDigits(s: string) {
    forall i :: 0 <= i < |s| ==> IsDigit(s[i])
  }

  /** A non-empty run of digits without a leading zero (except "0" itself). */
  predicate Canonical(s: string) {
    |s| >= 1 && AllDigits(s) && (s[0] == '0' ==> |s| == 1)
  }

  function DigitChar(d: nat): (c: char)
    requires d < 10
    ensures IsDigit(c)
    ensures c == '0' <==> d == 0
  {
    (d + '0' as int) as char
  }

  function DigitValue(c: char): (d: nat)
    requires IsDigit(c)
    ensures d < 10
    ensures DigitChar(d) == c
  {
    c as int - '0' as int
  }

  /** The decimal numeral of a natural number, most significant digit first. */
  function Digits(n: nat): (r: string)
    ensures Canonical(r)
    ensures r[0] == '0' <==> n == 0
    decreases n
  {
    if n < 10 then [DigitChar(n)] else Digits(n / 10) + [DigitChar(n % 10)]
  }

  /** Python's `str(n)` for any integer: a minus sign, then the digits of |n|. */
  function Render(n: int): (r: string)
    ensures |r| >= 1
    ensures n >= 0 ==> Canonical(r)
    ensures n < 0 ==> |r| >= 2 && r[0] == '-' && AllDigits(r[1..])
  {
    if n < 0 then "-" + Digits(-n) else Digits(n)
  }

  /** The digits Render writes read back as |n|, with a sign exactly for negative n. */
  lemma RenderValue(n: int)
    ensures n >= 0 ==> ParseDigits(Render(n)) == n
    ensures n < 0 ==> Canonical(Render(n)[1..]) && ParseDigits(Render(n)[1..]) == -n
  {
    if n < 0 {
      assert Render(n)[1..] == Digits(-n);
      ParseOfDigits(-n);
    } else {
      ParseOfDigits(n);
    }
  }

  /** The value of a run of digits, read most significant digit first. */
  function ParseDigits(s: string): nat
    requires AllDigits(s)
    decreases |s|
  {
    if |s| == 0 then 0 else ParseDigits(s[..|s| - 1]) * 10 + DigitValue(s[|s| - 1])
  }

  /** Parsing undoes rendering. */
  lemma {:induction false} ParseOfDigits(n: nat)
    ensures ParseDigits(Digits(n)) == n
    decreases n
  {
    if n >= 10 {
      var p := Digits(n / 10);
      ParseOfDigits(n / 10);
      assert (p + [DigitChar(n % 10)])[..|p|] == p;
    } else {
      assert Digits(n)[..0] == [];
    }
  }

  /** Rendering undoes parsing, on canonical numerals. */
  lemma {:induction false} DigitsOfParse(s: string)
    requires Canonical(s)
    ensures Digits(ParseDigits(s)) == s
    decreases |s|
  {
    if |s| == 1 {
      assert s[..0] == [];
      assert s == [s[0]];
    } else {
      var pre := s[..|s| - 1];
      assert pre[0] == s[0];
      DigitsOfParse(pre);
      var p := ParseDigits(pre);
      var d := DigitValue(s[|s| - 1]);
      assert p != 0;
      var n := p * 10 + d;
      assert n / 10 == p && n % 10 == d;
      assert s == pre + [s[|s| - 1]];
    }
  }

  /** Distinct natural numbers have distinct numerals. */
  lemma DigitsInjective(a: nat, b: nat)
    ensures Digits(a) == Digits(b) ==> a == b
  {
    ParseOfDigits(a);
    ParseOfDigits(b);
  }
}
