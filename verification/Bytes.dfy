/** Bytes, byte strings and the small sequence vocabulary that the channel modules share. */
module Bytes {

  type Byte = x: int | 0 <= x < 256

  const NUL: Byte := 0
  const LF: Byte := 10
  const CR: Byte := 13
  const CRLF: seq<Byte> := [CR, LF]

  function Min(a: nat, b: nat): nat {
    if a < b then a else b
  }

  /** The bytes of a string literal of single-byte characters. */
  function Ascii(s: string): (r: seq<Byte>)
    ensures |r| == |s|
  {
    seq(|s|, i requires 0 <= i < |s| => s[i] as int % 256)
  }

  /** Lines of text, each with its line end, and an empty line. */
  function Lines(lines: seq<string>): (r: seq<Byte>)
    ensures |r| >= 2
  {
    if lines == [] then CRLF else Ascii(lines[0]) + CRLF + Lines(lines[1..])
  }

  /** A buffer after its first |s| bytes have been overwritten by s. */
  function Overlay(buf: seq<Byte>, s: seq<Byte>): (r: seq<Byte>)
    requires |s| <= |buf|
    ensures |r| == |buf|
  {
    s + buf[|s|..]
  }

  /** C's conversion of a plain (signed) char to int. */
  function SignedChar(b: Byte): (r: int)
    ensures -128 <= r < 128 && (r - b) % 256 == 0
  {
    if b < 128 then b else b - 256
  }
}
