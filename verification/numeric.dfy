/**
 * Decimal text for integers: the behaviour of Rust's `str::parse` for integer
 * types and of `to_string` on integers, as far as the converter relies on them.
 */
module Numeric {
  import opened Wrappers

  const U8Max: nat := 0xFF
  /** `usize` on a 64-bit target. */
  const UsizeMax: nat := 0xFFFF_FFFF_FFFF_FFFF
  const I32Min: int := -0x8000_0000
  const I32Max: int := 0x7FFF_FFFF

  predicate IsDigit(c: char) {
    '0' <= c <= '9'
  }

  predicate IsDigits(s: string) {
    forall i :: 0 <= i < |s| ==> IsDigit(s[i])
  }

  function DigitValue(c: char): nat
    requires IsDigit(c)
  {
    c as int - '0' as int
  }

  function DigitChar(d: nat): (c: char)
    requires d < 10
    ensures IsDigit(c) && DigitValue(c) == d
  {
    ('0' as int + d) as char
  }

  /** The value of a run of decimal digits, most significant first; leading zeros are allowed. */
  function DigitsValue(s: string): nat
    requires IsDigits(s)
    decreases |s|
  {
    if s == [] then 0 else DigitsValue(s[..|s| - 1]) * 10 + DigitValue(s[|s| - 1])
  }

  /**
   * `s.parse::<uN>()` for the unsigned type whose largest value is `max`:
   * an optional `+`, then at least one ASCII digit, and a value that fits.
   * A `-` sign, an empty string and any other character are errors.
   */
  function ParseUnsigned(s: string, max: nat): (r: Option<nat>)
    ensures r.Some? ==> r.value <= max
    ensures r.Some? ==> s != [] && s[0] != '-'
    ensures r.Some? ==> || (s != [] && IsDigits(s) && r.value == DigitsValue(s))
                        || (|s| > 1 && s[0] == '+' && IsDigits(s[1..]) && r.value == DigitsValue(s[1..]))
    ensures s != [] && IsDigits(s) ==> (r.Some? <==> DigitsValue(s) <= max)
    ensures |s| > 1 && s[0] == '+' && IsDigits(s[1..]) ==> (r.Some? <==> DigitsValue(s[1..]) <= max)
  {
    var digits := if |s| > 0 && s[0] == '+' then s[1..] else s;
    if digits != [] && IsDigits(digits) && DigitsValue(digits) <= max then Some(DigitsValue(digits)) else None
  }

  /**
   * `s.parse::<iN>()` for the signed type with range `[min, max]`: an optional
   * `+` or `-`, then at least one ASCII digit, and a value in range.
   */
  function ParseSigned(s: string, min: int, max: int): (r: Option<int>)
    ensures r.Some? ==> min <= r.value <= max
    ensures r.Some? && r.value < 0 ==> s != [] && s[0] == '-'
    ensures r.Some? ==> || (s != [] && IsDigits(s) && r.value == DigitsValue(s))
                        || (|s| > 1 && s[0] == '+' && IsDigits(s[1..]) && r.value == DigitsValue(s[1..]))
                        || (|s| > 1 && s[0] == '-' && IsDigits(s[1..]) && r.value == 0 - DigitsValue(s[1..]))
    ensures s != [] && IsDigits(s) ==> (r.Some? <==> min <= DigitsValue(s) <= max)
    ensures |s| > 1 && s[0] == '+' && IsDigits(s[1..]) ==> (r.Some? <==> min <= DigitsValue(s[1..]) <= max)
    ensures |s| > 1 && s[0] == '-' && IsDigits(s[1..]) ==> (r.Some? <==> min <= 0 - DigitsValue(s[1..]) <= max)
  {
    var negative := |s| > 0 && s[0] == '-';
    var digits := if |s| > 0 && (s[0] == '-' || s[0] == '+') then s[1..] else s;
    if digits == [] || !IsDigits(digits) then None
    else
      var magnitude: int := DigitsValue(digits);
      var v := if negative then -magnitude else magnitude;
      if min <= v <= max then Some(v) else None
  }

  /** `n.to_string()` for an unsigned integer: shortest decimal form. */
  function NatToString(n: nat): (s: string)
    ensures s != [] && IsDigits(s)
    ensures s[0] == '0' ==> n == 0
    decreases n
  {
    if n < 10 then [DigitChar(n)] else NatToString(n / 10) + [DigitChar(n % 10)]
  }

  /** `i.to_string()` for a signed integer. */
  function IntToString(i: int): (s: string)
    ensures s != []
    ensures s[0] == '-' <==> i < 0
    ensures var digits := if i < 0 then s[1..] else s;
            digits != [] && IsDigits(digits) && (digits[0] == '0' ==> i == 0)
  {
    if i < 0 then "-" + NatToString(-i) else NatToString(i)
  }

  lemma {:induction false} DigitsValueOfNatToString(n: nat)
    ensures DigitsValue(NatToString(n)) == n
    decreases n
  {
    if n >= 10 {
      var s := NatToString(n);
      assert s[..|s| - 1] == NatToString(n / 10);
      DigitsValueOfNatToString(n / 10);
    }
  }

  /** Parsing what `to_string` printed gives the number back, whenever it fits the type. */
  lemma ParseNatToString(n: nat, max: nat)
    requires n <= max
    ensures ParseUnsigned(NatToString(n), max) == Some(n)
  {
    DigitsValueOfNatToString(n);
  }

  lemma ParseIntToString(i: int, min: int, max: int)
    requires min <= i <= max
    ensures ParseSigned(IntToString(i), min, max) == Some(i)
  {
    var s := IntToString(i);
    if i < 0 {
      assert s[1..] == NatToString(-i);
      DigitsValueOfNatToString(-i);
    } else {
      DigitsValueOfNatToString(i);
    }
  }

  /** Distinct numbers print as distinct strings. */
  lemma NatToStringInjective(a: nat, b: nat)
    requires a != b
    ensures NatToString(a) != NatToString(b)
  {
    DigitsValueOfNatToString(a);
    DigitsValueOfNatToString(b);
  }
}
