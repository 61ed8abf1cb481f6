/**
 * Decimal text and integers: `stoi` restricted to all-digit text, which is
 * the only text the simplifier hands it, and `to_string` of an int.
 * Integers are mathematical: 32-bit overflow is not modelled.
 */
module Decimal {
  import opened Tokens

  function DigitValue(c: char): (d: nat)
    requires IsDigit(c)
    ensures d < 10
  {
    (c as int - '0' as int) as nat
  }

  function DigitChar(d: nat): (c: char)
    requires d < 10
    ensures IsDigit(c) && DigitValue(c) == d
  {
    ('0' as int + d) as char
  }

  /** The value of a run of digits, read most significant digit first
      (leading zeros are allowed, as `stoi` allows them). */
  function Stoi(s: string): nat
    requires IsNumber(s) || |s| == 0
    decreases |s|
  {
    if |s| == 0 then 0
    else Stoi(s[..|s| - 1]) * 10 + DigitValue(s[|s| - 1])
  }

  /** Canonical decimal text of a natural number: digits, no leading zero. */
  function NatToString(n: nat): (s: string)
    ensures IsNumber(s)
    ensures s[0] != '0' || n == 0
    decreases n
  {
    if n < 10 then [DigitChar(n)]
    else NatToString(n / 10) + [DigitChar(n % 10)]
  }

  /** `to_string` of an int: a minus sign before the digits of a negative value. */
  function IntToString(v: int): (s: string)
    ensures v >= 0 ==> IsNumber(s)
    ensures v < 0 ==> |s| >= 2 && s[0] == '-' && IsNumber(s[1..])
  {
    if v < 0 then "-" + NatToString(-v) else NatToString(v)
  }

  /** Reading back the text `to_string` produced gives the number again. */
  lemma {:induction false} StoiNatToString(n: nat)
    ensures Stoi(NatToString(n)) == n
    decreases n
  {
    if n >= 10 {
      var s := NatToString(n);
      StoiNatToString(n / 10);
      assert s[..|s| - 1] == NatToString(n / 10);
    }
  }

  /** Writing the value of a canonical digit run gives the same text back. */
  lemma {:induction false} NatToStringStoi(s: string)
    requires IsNumber(s)
    requires s[0] != '0' || |s| == 1
    ensures NatToString(Stoi(s)) == s
    decreases |s|
  {
    if |s| > 1 {
      var p := s[..|s| - 1];
      assert p[0] == s[0];
      NatToStringStoi(p);
      StoiPositive(p);
      assert s == p + [s[|s| - 1]];
    }
  }

  lemma {:induction false} StoiPositive(s: string)
    requires IsNumber(s)
    requires s[0] != '0'
    ensures Stoi(s) > 0
    decreases |s|
  {
    if |s| > 1 {
      StoiPositive(s[..|s| - 1]);
    }
  }

  /** Text `to_string` may write: a digit run, or a minus sign before one. */
  predicate IsSignedNumber(s: string) {
    IsNumber(s) || (|s| >= 2 && s[0] == '-' && IsNumber(s[1..]))
  }

  /** The value such text denotes. */
  function SignedValue(s: string): int
    requires IsSignedNumber(s)
  {
    if IsNumber(s) then Stoi(s) as int else -(Stoi(s[1..]) as int)
  }

  /** Reading back `to_string` of any int, negative or not, gives the int. */
  lemma IntToStringValue(v: int)
    ensures SignedValue(IntToString(v)) == v
  {
    if v < 0 {
      var s := IntToString(v);
      assert !IsNumber(s) by { assert !IsDigit(s[0]); }
      assert s[1..] == NatToString(-v);
      StoiNatToString(-v);
    } else {
      StoiNatToString(v);
    }
  }
}
