/** Decimal text for integers: Python's `str(n)` / f"{n}" and the `02d` format
    specification used for week numbers and for `%H`/`%M` in time strings. */
module Digits {

  predicate IsDigit(c: char) {
    '0' <= c <= '9'
  }

  predicate AllDigits(s: string) {
    forall k :: 0 <= k < |s| ==> IsDigit(s[k])
  }

  function DigitChar(d: nat): (c: char)
    requires d < 10
    ensures IsDigit(c)
  {
    (('0' as int) + d) as char
  }

  function DigitValue(c: char): (d: nat)
    requires IsDigit(c)
    ensures d < 10
    ensures DigitChar(d) == c
  {
    (c as int) - ('0' as int)
  }

  lemma DigitValueOfChar(d: nat)
    requires d < 10
    ensures DigitValue(DigitChar(d)) == d
  {
  }

  /** Value of the two-digit decimal numeral `hi lo`. */
  function TwoDigitValue(hi: char, lo: char): (n: nat)
    requires IsDigit(hi) && IsDigit(lo)
    ensures n < 100
  {
    10 * DigitValue(hi) + DigitValue(lo)
  }

  /** Shortest decimal numeral of `n` (Python `str(n)` for n >= 0). */
  function Dec(n: nat): (s: string)
    ensures |s| >= 1 && AllDigits(s)
    ensures |s| > 1 ==> s[0] != '0'
  {
    if n < 10 then [DigitChar(n)] else Dec(n / 10) + [DigitChar(n % 10)]
  }

  /** Value of a digit string, read most significant digit first. */
  function ParseDigits(s: string): nat
    requires AllDigits(s)
  {
    if s == [] then 0 else ParseDigits(s[..|s| - 1]) * 10 + DigitValue(s[|s| - 1])
  }

  lemma {:induction false} ParseDec(n: nat)
    ensures ParseDigits(Dec(n)) == n
  {
    if n >= 10 {
      var s := Dec(n);
      assert s[..|s| - 1] == Dec(n / 10);
      ParseDec(n / 10);
    }
  }

  /** Python `str(i)` for any integer: a minus sign for negative values. */
  function IntString(i: int): (s: string)
  {
    if i < 0 then "-" + Dec(-i) else Dec(i)
  }

  predicate IsIntString(s: string) {
    if |s| > 0 && s[0] == '-' then |s| > 1 && AllDigits(s[1..]) else |s| > 0 && AllDigits(s)
  }

  function ParseInt(s: string): int
    requires IsIntString(s)
  {
    if s[0] == '-' then -(ParseDigits(s[1..]) as int) else ParseDigits(s)
  }

  /** ParseInt inverts IntString, so distinct integers print differently. */
  lemma IntStringRoundTrip(i: int)
    ensures IsIntString(IntString(i)) && ParseInt(IntString(i)) == i
  {
    if i < 0 {
      assert IntString(i)[1..] == Dec(-i);
      ParseDec(-i);
    } else {
      ParseDec(i);
    }
  }

  /** The format specification `02d` for a non-negative value: at least two
      digits, padded with a leading zero. Below 100 it is exactly the two
      decimal digits of `n`. */
  function ZeroPad2(n: nat): (s: string)
    ensures |s| >= 2 && AllDigits(s)
    ensures n < 100 ==> s == [DigitChar(n / 10), DigitChar(n % 10)]
  {
    if n < 10 then "0" + Dec(n)
    else
      assert n < 100 ==> Dec(n) == Dec(n / 10) + [DigitChar(n % 10)] == [DigitChar(n / 10), DigitChar(n % 10)];
      Dec(n)
  }

  /** Reading a two-character `02d` numeral back gives the value. */
  lemma ZeroPad2RoundTrip(n: nat)
    requires n < 100
    ensures TwoDigitValue(ZeroPad2(n)[0], ZeroPad2(n)[1]) == n
  {
    DigitValueOfChar(n / 10);
    DigitValueOfChar(n % 10);
  }
}
