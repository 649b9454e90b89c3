/**
 * Text forms of the primitive values the runtime serializes: the integer
 * types `i8` to `u64` as their decimal `to_string`, booleans as `true` and
 * `false`. The same text serves as a text node and as an attribute value.
 */
module Decimal {

  datatype IntKind = I8 | U8 | I16 | U16 | I32 | U32 | I64 | U64

  function MinOf(k: IntKind): int
  {
    match k
    case I8 => -0x80
    case I16 => -0x8000
    case I32 => -0x8000_0000
    case I64 => -0x8000_0000_0000_0000
    case _ => 0
  }

  function MaxOf(k: IntKind): int
  {
    match k
    case I8 => 0x7F
    case U8 => 0xFF
    case I16 => 0x7FFF
    case U16 => 0xFFFF
    case I32 => 0x7FFF_FFFF
    case U32 => 0xFFFF_FFFF
    case I64 => 0x7FFF_FFFF_FFFF_FFFF
    case U64 => 0xFFFF_FFFF_FFFF_FFFF
  }

  /** The values a Rust integer of kind `k` can hold. */
  predicate InRange(k: IntKind, n: int)
  {
    MinOf(k) <= n <= MaxOf(k)
  }

  predicate IsDigit(c: char)
  {
    '0' <= c <= '9'
  }

  function DigitChar(d: nat): (c: char)
    requires d < 10
    ensures IsDigit(c)
  {
    ('0' as int + d) as char
  }

  /** The decimal digits of `n`, most significant first, without leading zeros. */
  function NatToString(n: nat): (s: string)
    ensures |s| >= 1
    ensures forall i :: 0 <= i < |s| ==> IsDigit(s[i])
    ensures s[0] == '0' ==> n == 0 && s == "0"
  {
    if n < 10 then [DigitChar(n)] else NatToString(n / 10) + [DigitChar(n % 10)]
  }

  /** What Rust's `to_string` gives for an integer: a minus sign for negatives, then the digits. */
  function IntToString(n: int): string
  {
    if n < 0 then "-" + NatToString(-n) else NatToString(n)
  }

  /** Rust's `to_string` for `bool`. */
  function BoolToString(b: bool): string
  {
    if b then "true" else "false"
  }

  // ---------------------------------------------------------------------------
  // The inverse: reading the decimal text back.

  function ParseDigits(s: string): nat
    requires forall i :: 0 <= i < |s| ==> IsDigit(s[i])
  {
    if s == [] then 0
    else
      assert IsDigit(s[|s| - 1]);
      ParseDigits(s[..|s| - 1]) * 10 + (s[|s| - 1] as int - '0' as int)
  }

  /** Digits, possibly after one leading minus sign. */
  predicate IsIntText(s: string)
  {
    if |s| >= 1 && s[0] == '-' then IsDigits(s[1..]) else IsDigits(s)
  }

  predicate IsDigits(s: string)
  {
    |s| >= 1 && forall i :: 0 <= i < |s| ==> IsDigit(s[i])
  }

  function ParseInt(s: string): int
    requires IsIntText(s)
  {
    if s[0] == '-' then -(ParseDigits(s[1..]) as int) else ParseDigits(s)
  }

  lemma {:induction false} NatRoundTrip(n: nat)
    ensures ParseDigits(NatToString(n)) == n
  {
    if n >= 10 {
      var s := NatToString(n);
      assert s[..|s| - 1] == NatToString(n / 10);
      NatRoundTrip(n / 10);
    }
  }

  /** The integer text reads back as the integer: nothing is lost or altered by `to_string`. */
  lemma IntRoundTrip(n: int)
    ensures IsIntText(IntToString(n)) && ParseInt(IntToString(n)) == n
  {
    var s := IntToString(n);
    if n < 0 {
      assert s[1..] == NatToString(-n);
      NatRoundTrip(-n);
    } else {
      NatRoundTrip(n);
    }
  }

  /** Different integers never share a text form. */
  lemma IntToStringInjective(m: int, n: int)
    requires IntToString(m) == IntToString(n)
    ensures m == n
  {
    IntRoundTrip(m);
    IntRoundTrip(n);
  }
}
