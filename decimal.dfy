/**
 * Decimal text of integers, as `itoa(v, buf, 10)` and the `%d` conversion of
 * `sprintf` produce it, together with a reader for the digits so that the
 * formatting can be checked by its inverse.
 */
module Decimal {

  /** The character of a digit 0..9. */
  function DigitChar(d: nat): (c: char)
    requires d < 10
    ensures '0' <= c <= '9'
    ensures c as int - '0' as int == d
  {
    (d + '0' as int) as char
  }

  predicate IsDigit(c: char) {
    '0' <= c <= '9'
  }

  predicate AllDigits(s: string) {
    forall i :: 0 <= i < |s| ==> IsDigit(s[i])
  }

  /** Number of decimal digits `itoa` writes for a non-negative value (at least one). */
  function NumDigits(n: nat): (k: nat)
    ensures k >= 1
  {
    if n < 10 then 1 else 1 + NumDigits(n / 10)
  }

  /** `itoa(n, buf, 10)` for a non-negative `n`: the digits, most significant first, no sign. */
  function Itoa(n: nat): (s: string)
    ensures |s| == NumDigits(n)
    ensures AllDigits(s)
    ensures s[0] != '0' || n == 0
  {
    if n < 10 then [DigitChar(n)] else Itoa(n / 10) + [DigitChar(n % 10)]
  }

  /** The value of a string of decimal digits. */
  function Value(s: string): (v: nat)
    requires AllDigits(s)
  {
    if s == [] then 0 else 10 * Value(s[..|s| - 1]) + (s[|s| - 1] as int - '0' as int)
  }

  /** Reading the digits back gives the number: `itoa` loses nothing. */
  lemma {:induction false} ValueOfItoa(n: nat)
    ensures Value(Itoa(n)) == n
  {
    if n >= 10 {
      var s := Itoa(n);
      assert s[..|s| - 1] == Itoa(n / 10);
      ValueOfItoa(n / 10);
    }
  }

  /** Different values never print the same way. */
  lemma ItoaInjective(m: nat, n: nat)
    requires Itoa(m) == Itoa(n)
    ensures m == n
  {
    ValueOfItoa(m);
    ValueOfItoa(n);
  }

  /** A value below 10^k has at most k digits (k >= 1: zero still prints one digit). */
  lemma {:induction false} NumDigitsBound(n: nat, k: nat, p: nat)
    requires k >= 1
    requires p == Pow10(k)
    requires n < p
    ensures NumDigits(n) <= k
  {
    if n >= 10 {
      assert Pow10(1) == 10;
      assert p == 10 * Pow10(k - 1);
      NumDigitsBound(n / 10, k - 1, Pow10(k - 1));
    }
  }

  /** Exactly k digits for the values 10^(k-1) .. 10^k - 1. */
  lemma {:induction false} NumDigitsExact(n: nat, k: nat)
    requires k >= 1
    requires Pow10(k - 1) <= n < Pow10(k)
    ensures NumDigits(n) == k
  {
    if k > 1 {
      assert Pow10(k - 1) == 10 * Pow10(k - 2);
      assert Pow10(k) == 10 * Pow10(k - 1);
      NumDigitsExact(n / 10, k - 1);
    } else {
      assert Pow10(1) == 10;
    }
  }

  function Pow10(k: nat): (p: nat)
    ensures p >= 1
  {
    if k == 0 then 1 else 10 * Pow10(k - 1)
  }

  /** Every uint16_t prints in at most five digits. */
  lemma U16Digits(n: nat)
    requires n < 0x1_0000
    ensures NumDigits(n) <= 5
    ensures |Itoa(n)| <= 5
  {
    assert Pow10(5) == 100000 by {
      assert Pow10(1) == 10;
      assert Pow10(2) == 100;
      assert Pow10(3) == 1000;
      assert Pow10(4) == 10000;
    }
    NumDigitsBound(n, 5, 100000);
  }

  /** `%d` of a signed int: a minus sign before the digits of a negative value. */
  function FormatInt(i: int): (s: string)
    ensures i >= 0 ==> s == Itoa(i)
    ensures i < 0 ==> s == "-" + Itoa(-i)
    ensures |s| >= 1
  {
    if i >= 0 then Itoa(i) else "-" + Itoa(-i)
  }

  /**
   * `%d` reads back: the text starts with '-' exactly for a negative value,
   * and the digits after the sign are the magnitude.
   */
  lemma FormatIntReadsBack(i: int)
    ensures var s := FormatInt(i);
      && (s[0] == '-' <==> i < 0)
      && AllDigits(if i < 0 then s[1..] else s)
      && Value(if i < 0 then s[1..] else s) as int == (if i < 0 then -i else i)
  {
    var s := FormatInt(i);
    if i < 0 {
      assert s[1..] == Itoa(-i);
      ValueOfItoa(-i);
    } else {
      assert IsDigit(s[0]);
      ValueOfItoa(i);
    }
  }

  /** Different values never print the same way under `%d`. */
  lemma FormatIntInjective(i: int, j: int)
    requires FormatInt(i) == FormatInt(j)
    ensures i == j
  {
    FormatIntReadsBack(i);
    FormatIntReadsBack(j);
  }

  /** Every int32_t prints in at most eleven characters ("-2147483648"). */
  lemma I32Width(i: int)
    requires -0x8000_0000 <= i < 0x8000_0000
    ensures |FormatInt(i)| <= 11
  {
    assert Pow10(10) == 10000000000 by {
      assert Pow10(1) == 10;
      assert Pow10(2) == 100;
      assert Pow10(3) == 1000;
      assert Pow10(4) == 10000;
      assert Pow10(5) == 100000;
      assert Pow10(6) == 1000000;
      assert Pow10(7) == 10000000;
      assert Pow10(8) == 100000000;
      assert Pow10(9) == 1000000000;
    }
    if i >= 0 {
      NumDigitsBound(i, 10, 10000000000);
    } else {
      NumDigitsBound(-i, 10, 10000000000);
    }
  }
}
