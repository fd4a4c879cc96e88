/** Bytes, the few byte values the lexer treats specially, and Go's conversion of a byte to a string. */
module Bytes {
  import opened Wrappers

  /** Go's `byte`: an unsigned 8-bit value. */
  newtype byte = x: int | 0 <= x < 0x100

  /** A Go byte slice, or a Go string viewed as the bytes it holds. */
  type Bytes = seq<byte>

  const NUL: byte := 0x00
  const TAB: byte := 0x09
  const LF: byte := 0x0A
  const CR: byte := 0x0D
  const SP: byte := 0x20

  /** Go's `string(b)` for a byte `b`: the conversion goes through the rune with value `b`,
      so the result is the UTF-8 encoding of code point `b` (one byte below 0x80, two above). */
  function RuneString(b: byte): (s: Bytes)
    ensures |s| == if b < 0x80 then 1 else 2
    ensures DecodeRune(s) == Some(b)
  {
    if b < 0x80 then [b]
    else [(0xC0 + b as int / 64) as byte, (0x80 + b as int % 64) as byte]
  }

  /** Decodes a one- or two-byte UTF-8 sequence whose code point fits in a byte. */
  function DecodeRune(s: Bytes): Option<byte>
  {
    if |s| == 1 && s[0] < 0x80 then Some(s[0])
    else if |s| == 2 && 0xC2 <= s[0] <= 0xC3 && 0x80 <= s[1] < 0xC0 then
      Some(((s[0] as int - 0xC0) * 64 + (s[1] as int - 0x80)) as byte)
    else None
  }

  /** `RuneString` is onto the sequences `DecodeRune` accepts: together with the round trip in
      its contract, the two are inverse bijections between bytes and their encodings. */
  lemma DecodeRuneInverse(s: Bytes, b: byte)
    requires DecodeRune(s) == Some(b)
    ensures RuneString(b) == s
  {
    if |s| == 2 {
      var v := (s[0] as int - 0xC0) * 64 + (s[1] as int - 0x80);
      assert v / 64 == s[0] as int - 0xC0;
      assert v % 64 == s[1] as int - 0x80;
    }
  }
}
