/** Bytes and the character classes that the printers and parsers rest on. */
module Symbols {
  type byte = b: int | 0 <= b < 256

  type int64 = n: int | -0x8000_0000_0000_0000 <= n < 0x8000_0000_0000_0000

  const MAX_INT64: int64 := 0x7FFF_FFFF_FFFF_FFFF

  const TAB: byte := 0x09
  const LF: byte := 0x0A
  const CR: byte := 0x0D
  const SP: byte := 0x20
  const HASH: byte := 0x23
  const PERCENT: byte := 0x25
  const LPAREN: byte := 0x28
  const RPAREN: byte := 0x29
  const PLUS: byte := 0x2B
  const MINUS: byte := 0x2D
  const DOT: byte := 0x2E
  const SLASH: byte := 0x2F
  const ZERO: byte := 0x30
  const LESS: byte := 0x3C
  const GREATER: byte := 0x3E
  const UPPER_E: byte := 0x45
  const UPPER_R: byte := 0x52
  const LBRACKET: byte := 0x5B
  const BACKSLASH: byte := 0x5C
  const RBRACKET: byte := 0x5D
  const LOWER_E: byte := 0x65

  const NULL_TEXT: seq<byte> := [0x6E, 0x75, 0x6C, 0x6C]
  const TRUE_TEXT: seq<byte> := [0x74, 0x72, 0x75, 0x65]
  const FALSE_TEXT: seq<byte> := [0x66, 0x61, 0x6C, 0x73, 0x65]

  /** Table 1 of section 7.2.2 of PDF 32000-1. */
  predicate IsWhiteSpace(c: byte) {
    c == 0x00 || c == 0x09 || c == 0x0A || c == 0x0C || c == 0x0D || c == 0x20
  }

  /** The class \s of Go's regular expressions: NUL is not in it. */
  predicate IsRegexSpace(c: byte) {
    c == 0x09 || c == 0x0A || c == 0x0C || c == 0x0D || c == 0x20
  }

  predicate IsDecimalDigit(c: byte) {
    0x30 <= c <= 0x39
  }

  predicate IsFloatDigit(c: byte) {
    IsDecimalDigit(c) || c == DOT
  }

  predicate IsOctalDigit(c: byte) {
    0x30 <= c <= 0x37
  }

  predicate IsPrintable(c: byte) {
    0x21 <= c <= 0x7E
  }

  predicate IsDelimiter(c: byte) {
    c == 0x28 || c == 0x29 || c == 0x3C || c == 0x3E || c == 0x5B || c == 0x5D ||
    c == 0x7B || c == 0x7D || c == 0x2F || c == 0x25
  }

  predicate IsHexDigit(c: byte) {
    IsDecimalDigit(c) || 0x41 <= c <= 0x46 || 0x61 <= c <= 0x66
  }

  function HexValue(c: byte): (v: int)
    requires IsHexDigit(c)
    ensures 0 <= v < 16
  {
    if c <= 0x39 then c - 0x30 else if c <= 0x46 then c - 0x37 else c - 0x57
  }

  /** Lower-case hexadecimal digit, as encoding/hex and the verb %x print it. */
  function HexDigit(v: int): (c: byte)
    requires 0 <= v < 16
    ensures IsHexDigit(c) && HexValue(c) == v
  {
    if v < 10 then 0x30 + v else 0x57 + v
  }

  /** The longest run of white space at the front is dropped. */
  function SkipSpaces(s: seq<byte>): (r: seq<byte>)
    ensures |r| <= |s|
    ensures r != [] ==> !IsWhiteSpace(r[0])
  {
    if s != [] && IsWhiteSpace(s[0]) then SkipSpaces(s[1..]) else s
  }

  /** Drops everything up to, and not including, the next end of line. */
  function SkipLine(s: seq<byte>): (r: seq<byte>)
    ensures |r| <= |s|
    ensures r != [] ==> r[0] == CR || r[0] == LF
  {
    if s == [] || s[0] == CR || s[0] == LF then s else SkipLine(s[1..])
  }

  /** White space and any number of comments are dropped. */
  function SkipComments(s: seq<byte>): (r: seq<byte>)
    ensures |r| <= |s|
    ensures r != [] ==> !IsWhiteSpace(r[0]) && r[0] != PERCENT
    decreases |s|
  {
    var t := SkipSpaces(s);
    if t != [] && t[0] == PERCENT then SkipComments(SkipLine(t[1..])) else t
  }
}
