/** Octets and the few characters the wire formats name. */
module Bytes {
  type byte = x: int | 0 <= x < 256

  const CR: byte := 13
  const LF: byte := 10
  const MINUS: byte := 45
  const CRLF: seq<byte> := [CR, LF]

  predicate IsDigit(c: byte) {
    48 <= c <= 57
  }

  /** The value a signed 8-bit `char` holds for an octet. */
  function SignedChar(c: byte): int {
    if c < 128 then c else c - 256
  }

  /** `RedisParser::isChar` applied to the sign-extended octet. */
  predicate IsChar(c: byte) {
    0 <= SignedChar(c) <= 127
  }

  /** `RedisParser::isControl` applied to the sign-extended octet. */
  predicate IsControl(c: byte) {
    0 <= SignedChar(c) <= 31 || SignedChar(c) == 127
  }

  /** What a simple string or an error line may contain. */
  predicate IsText(c: byte) {
    IsChar(c) && !IsControl(c)
  }

  /** What the parser collects for a size or an integer: digits and minus signs, in any order. */
  predicate IsNumeric(c: byte) {
    IsDigit(c) || c == MINUS
  }

  ghost predicate AllText(s: seq<byte>) {
    forall k :: 0 <= k < |s| ==> IsText(s[k])
  }

  ghost predicate AllNumeric(s: seq<byte>) {
    forall k :: 0 <= k < |s| ==> IsNumeric(s[k])
  }
}
