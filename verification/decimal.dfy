/**
 Python's `str(n)` for integers, as interpolated into the query's
 `LIMIT`/`OFFSET` suffix, and a parser that reads it back.
 */
module Decimal {
  import opened Wrappers

  predicate IsDigit(c: char) { '0' <= c <= '9' }

  function DigitChar(d: nat): (c: char)
    requires d < 10
    ensures IsDigit(c)
  {
    ('0' as int + d) as char
  }

  function DigitValue(c: char): (d: nat)
    requires IsDigit(c)
    ensures d < 10
  {
    c as int - '0' as int
  }

  /** Decimal digits of `n`, most significant first, without leading zeros. */
  function NatToString(n: nat): (r: string)
    ensures |r| >= 1
    ensures forall i :: 0 <= i < |r| ==> IsDigit(r[i])
    ensures r[0] == '0' ==> r == "0"
    ensures r == "0" <==> n == 0
    decreases n
  {
    if n < 10 then [DigitChar(n)] else NatToString(n / 10) + [DigitChar(n % 10)]
  }

  /**
   `str(n)`: a minus sign for negative numbers, then the digits of the
   magnitude, at least one and without leading zeros; `0` only for zero.
   */
  function IntToString(n: int): (r: string)
    ensures ' ' !in r
    ensures |r| >= 1
    ensures n < 0 <==> r[0] == '-'
    ensures var digits := if n < 0 then r[1..] else r;
      && |digits| >= 1
      && (forall i :: 0 <= i < |digits| ==> IsDigit(digits[i]))
      && (digits[0] == '0' ==> digits == "0")
      && (digits == "0" <==> n == 0)
  {
    if n < 0 then "-" + NatToString(-n) else NatToString(n)
  }

  /** The value of a run of digits, read most significant first (0 for the empty run). */
  function DigitsValue(s: string): nat
    requires forall i :: 0 <= i < |s| ==> IsDigit(s[i])
  {
    if |s| == 0 then 0
    else DigitsValue(s[..|s| - 1]) * 10 + DigitValue(s[|s| - 1])
  }

  /**
   `int(s)` on an optional `-` followed by at least one digit, and `None` on
   anything else. It accepts more than `str` produces (leading zeros, `-0`);
   `IntToString` states the canonical form.
   */
  function ParseInt(s: string): Option<int>
  {
    if |s| > 0 && s[0] == '-' then
      var t := s[1..];
      if |t| > 0 && forall i :: 0 <= i < |t| ==> IsDigit(t[i]) then Some(0 - DigitsValue(t) as int) else None
    else if |s| > 0 && forall i :: 0 <= i < |s| ==> IsDigit(s[i]) then Some(DigitsValue(s) as int)
    else None
  }

  lemma {:induction false} DigitsValueOfNat(n: nat)
    ensures DigitsValue(NatToString(n)) == n
    decreases n
  {
    var r := NatToString(n);
    if n >= 10 {
      DigitsValueOfNat(n / 10);
      assert r[..|r| - 1] == NatToString(n / 10);
    }
  }

  /** The digits of `n` read back as `n`. */
  lemma ParseNatString(n: nat)
    ensures ParseInt(NatToString(n)) == Some(n)
  {
    var digits := NatToString(n);
    DigitsValueOfNat(n);
    assert digits[0] != '-' by { assert IsDigit(digits[0]); }
  }

  /** A minus sign before the digits of `m` reads back as `-m`. */
  lemma ParseNegatedString(m: nat)
    ensures ParseInt("-" + NatToString(m)) == Some(0 - m)
  {
    var digits := NatToString(m);
    DigitsValueOfNat(m);
    assert ("-" + digits)[1..] == digits;
  }

  /** Reading back the decimal text of `n` gives `n`. */
  lemma ParseIntToString(n: int)
    ensures ParseInt(IntToString(n)) == Some(n)
  {
    if n < 0 {
      ParseNegatedString(-n);
    } else {
      ParseNatString(n);
    }
  }
}
