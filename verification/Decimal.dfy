/** Decimal numerals: what `strtol`/`strtoll` read and what `lexical_cast<std::string>` writes. */
module Decimal {
  import opened Bytes

  const LONG_MAX: int := 0x7FFF_FFFF_FFFF_FFFF
  const LONG_MIN: int := -0x8000_0000_0000_0000

  predicate InLong(i: int) {
    LONG_MIN <= i <= LONG_MAX
  }

  /** Out-of-range values saturate, as the C standard asks of `strtol`. */
  function Clamp(i: int): int {
    if i < LONG_MIN then LONG_MIN else if i > LONG_MAX then LONG_MAX else i
  }

  /** The value of the longest digit prefix of `s`, continuing from `acc`. */
  function DigitPrefix(s: seq<byte>, acc: nat): nat {
    if s == [] || !IsDigit(s[0]) then acc
    else DigitPrefix(s[1..], 10 * acc + (s[0] - 48))
  }

  /** `strtol(s, 0, 10)` on a buffer of digits and minus signs (64-bit `long`). */
  function StrToL(s: seq<byte>): int {
    if s != [] && s[0] == MINUS then Clamp(0 - DigitPrefix(s[1..], 0))
    else Clamp(DigitPrefix(s, 0))
  }

  function Digits(n: nat): (s: seq<byte>)
    ensures s != [] && forall k :: 0 <= k < |s| ==> IsDigit(s[k])
  {
    if n < 10 then [48 + n] else Digits(n / 10) + [48 + n % 10]
  }

  function Decimal(i: int): (s: seq<byte>)
    ensures s != [] && AllNumeric(s)
  {
    if i < 0 then [MINUS] + Digits(-i) else Digits(i)
  }

  lemma {:induction false} DigitPrefixSnoc(s: seq<byte>, d: byte, acc: nat)
    requires forall k :: 0 <= k < |s| ==> IsDigit(s[k])
    requires IsDigit(d)
    ensures DigitPrefix(s + [d], acc) == 10 * DigitPrefix(s, acc) + (d - 48)
  {
    if s == [] {
      assert (s + [d])[1..] == [];
    } else {
      assert (s + [d])[1..] == s[1..] + [d];
      DigitPrefixSnoc(s[1..], d, 10 * acc + (s[0] - 48));
    }
  }

  lemma {:induction false} DigitPrefixOfDigits(n: nat)
    ensures DigitPrefix(Digits(n), 0) == n
  {
    if n < 10 {
      assert Digits(n)[1..] == [];
    } else {
      DigitPrefixOfDigits(n / 10);
      DigitPrefixSnoc(Digits(n / 10), 48 + n % 10, 0);
    }
  }

  /** Reading back a written 64-bit number gives the number. */
  lemma StrToLOfDecimal(i: int)
    requires InLong(i)
    ensures StrToL(Decimal(i)) == i
  {
    if i < 0 {
      DigitPrefixOfDigits(-i);
      assert Decimal(i)[1..] == Digits(-i);
    } else {
      DigitPrefixOfDigits(i);
      assert Digits(i)[0] != MINUS;
    }
  }
}
