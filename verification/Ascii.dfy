/** Bytes, the ASCII codes the JSON reader and writer compare against, and the
    UTF-8 encoding of one code point (section 3 of RFC 3629). */
module Ascii {
  type byte = x: int | 0 <= x < 256

  const QUOTE: byte := 34
  const PLUS: byte := 43
  const COMMA: byte := 44
  const MINUS: byte := 45
  const DOT: byte := 46
  const SLASH: byte := 47
  const COLON: byte := 58
  const LBRACKET: byte := 91
  const BACKSLASH: byte := 92
  const RBRACKET: byte := 93
  const LBRACE: byte := 123
  const RBRACE: byte := 125
  const BACKSPACE: byte := 8
  const TAB: byte := 9
  const LF: byte := 10
  const FORM_FEED: byte := 12
  const CR: byte := 13
  const BLANK: byte := 32

  const TRUE_TEXT: seq<byte> := [116, 114, 117, 101]
  const FALSE_TEXT: seq<byte> := [102, 97, 108, 115, 101]
  const NULL_TEXT: seq<byte> := [110, 117, 108, 108]

  /** The four JSON blanks of section 2 of RFC 8259. */
  predicate IsWs(c: int) {
    c == BLANK || c == TAB || c == LF || c == CR
  }

  predicate IsDigit(c: int) {
    48 <= c <= 57
  }

  /** The value of one hexadecimal digit, or -1. */
  function Digit2Int(c: int): (d: int)
    ensures -1 <= d < 16
  {
    if 48 <= c <= 57 then c - 48
    else if 97 <= c <= 102 then c - 97 + 10
    else if 65 <= c <= 70 then c - 65 + 10
    else -1
  }

  /** UTF-8 form of one code point; the bit-ors of the source have disjoint operands and are written as sums. */
  function Utf8(uni: int): (r: seq<byte>)
    requires 0 <= uni < 0x110000
    ensures 1 <= |r| <= 4
  {
    if uni < 0x80 then [uni]
    else if uni < 0x800 then [0xC0 + uni / 0x40, 0x80 + uni % 0x40]
    else if uni < 0x10000 then [0xE0 + uni / 0x1000, 0x80 + uni / 0x40 % 0x40, 0x80 + uni % 0x40]
    else [0xF0 + uni / 0x40000, 0x80 + uni / 0x1000 % 0x40, 0x80 + uni / 0x40 % 0x40, 0x80 + uni % 0x40]
  }
}
