// Decimal digit strings and the numbers they denote.

module Decimal {

  predicate IsDigit(c: char) {
    '0' <= c <= '9'
  }

  predicate AllDigits(s: string) {
    forall i :: 0 <= i < |s| ==> IsDigit(s[i])
  }

  function DigitValue(c: char): nat
    requires IsDigit(c)
  {
    (c - '0') as nat
  }

  function DigitChar(d: nat): (c: char)
    requires d < 10
    ensures IsDigit(c) && DigitValue(c) == d
  {
    '0' + d as char
  }

  // The number that a string of digits denotes, most significant digit first.
  function Value(s: string): nat
    requires AllDigits(s)
  {
    if s == [] then 0 else 10 * Value(s[..|s| - 1]) + DigitValue(s[|s| - 1])
  }

  function Pow10(n: nat): (p: nat)
    ensures p > 0
  {
    if n == 0 then 1 else 10 * Pow10(n - 1)
  }

  lemma {:induction false} ValueConcat(s: string, t: string)
    requires AllDigits(s) && AllDigits(t)
    ensures AllDigits(s + t) && Value(s + t) == Value(s) * Pow10(|t|) + Value(t)
  {
    if t == [] {
      assert s + t == s;
    } else {
      var u := t[..|t| - 1];
      ValueConcat(s, u);
      assert (s + t)[..|s + t| - 1] == s + u && (s + t)[|s + t| - 1] == t[|t| - 1];
      MulTen(Value(s), Pow10(|u|));
    }
  }

  lemma MulTen(a: int, b: int)
    ensures a * (10 * b) == 10 * (a * b)
  {
  }

  // ----- canonical notation -----

  // The digits of n, without leading zeros; "0" for zero.
  function Digits(n: nat): (s: string)
    ensures AllDigits(s) && |s| > 0
    ensures Value(s) == n
    ensures n > 0 ==> s[0] != '0'
  {
    if n < 10 then
      assert [DigitChar(n)][..0] == [];
      [DigitChar(n)]
    else
      var hi := Digits(n / 10);
      var s := hi + [DigitChar(n % 10)];
      assert s[..|s| - 1] == hi;
      s
  }

  // Canonical notation of an integer.
  function Text(v: int): string {
    if v < 0 then "-" + Digits(0 - v) else Digits(v)
  }

  // Canonical notation is the only digit string of a number that has no
  // leading zero.
  lemma {:induction false} DigitsUnique(s: string)
    requires AllDigits(s) && |s| > 0 && (|s| > 1 ==> s[0] != '0')
    ensures Digits(Value(s)) == s
  {
    var hi, lo := s[..|s| - 1], s[|s| - 1];
    if |s| == 1 {
      assert hi == [];
    } else {
      DigitsUnique(hi);
      PositiveValue(hi);
      assert Value(s) / 10 == Value(hi) && Value(s) % 10 == DigitValue(lo);
      assert s == hi + [lo];
    }
  }

  lemma {:induction false} PositiveValue(s: string)
    requires AllDigits(s) && |s| > 0 && s[0] != '0'
    ensures Value(s) > 0
  {
    if |s| > 1 {
      PositiveValue(s[..|s| - 1]);
    } else {
      assert s[..0] == [];
    }
  }

  // A number below 10^n has at most n digits.
  lemma {:induction false} DigitsLength(n: nat, k: nat)
    requires k > 0 && n < Pow10(k)
    ensures |Digits(n)| <= k
  {
    if n >= 10 {
      DigitsLength(n / 10, k - 1);
    }
  }
}
