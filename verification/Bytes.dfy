/** Bytes and the character classes of the wire format. */
module Bytes {
  type Byte = b: int | 0 <= b < 256

  const TAB: Byte := 9
  const NEWLINE: Byte := 10
  const RETURN: Byte := 13
  const SPACE: Byte := 32
  const BANG: Byte := 33
  const QUOTE: Byte := 34
  const AMPERSAND: Byte := 38
  const APOSTROPHE: Byte := 39
  const MINUS: Byte := 45
  const ZERO: Byte := 48
  const UPPER_A: Byte := 65
  const OPEN_BRACKET: Byte := 91
  const BACKSLASH: Byte := 92
  const CLOSE_BRACKET: Byte := 93
  const UNDERSCORE: Byte := 95
  const LOWER_A: Byte := 97
  const LOWER_N: Byte := 110
  const LOWER_R: Byte := 114
  const LOWER_T: Byte := 116
  const LOWER_X: Byte := 120
  const OPEN_BRACE: Byte := 123
  const BAR: Byte := 124
  const CLOSE_BRACE: Byte := 125

  /** The bytes of a text. */
  function Ascii(text: string): (bytes: seq<Byte>)
    requires forall k :: 0 <= k < |text| ==> text[k] < 128 as char
    ensures |bytes| == |text| && forall k :: 0 <= k < |text| ==> bytes[k] == text[k] as int
  {
    seq(|text|, i requires 0 <= i < |text| => text[i] as int)
  }

  /** What a buffer reports when its input has ended. */
  const EOF := -1

  predicate IsWhitespace(c: int) {
    c == TAB || c == RETURN || c == SPACE
  }

  predicate IsDigit(c: int) {
    ZERO <= c <= ZERO + 9
  }

  predicate IsLeader(c: int) {
    UPPER_A <= c <= UPPER_A + 25 || LOWER_A <= c <= LOWER_A + 25 || c == UNDERSCORE
  }

  predicate IsFollower(c: int) {
    IsLeader(c) || IsDigit(c)
  }

  /** The value of a hex digit, or -1. */
  function HexDigitValue(c: int): int {
    if IsDigit(c) then c - ZERO
    else if UPPER_A <= c <= UPPER_A + 5 then c - UPPER_A + 10
    else if LOWER_A <= c <= LOWER_A + 5 then c - LOWER_A + 10
    else -1
  }

  /** The first byte of the input, or `EOF`. */
  function Peek(s: seq<Byte>): int {
    if s == [] then EOF else s[0]
  }
}
