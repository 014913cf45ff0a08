/** Bytes, 16- and 32-bit words and their little-endian layout. */
module Bytes {

  type byte = x: int | 0 <= x < 0x100

  type u16 = x: int | 0 <= x < 0x1_0000

  type u32 = x: int | 0 <= x < 0x1_0000_0000

  type i16 = x: int | -0x8000 <= x < 0x8000

  function Zeros(n: nat): (z: seq<byte>)
    ensures |z| == n && forall i :: 0 <= i < n ==> z[i] == 0
  {
    seq(n, _ => 0)
  }

  /** Least significant byte first. */
  function Le16(w: u16): (b: seq<byte>)
    ensures |b| == 2
  {
    [w % 0x100, w / 0x100]
  }

  function Le16At(b: seq<byte>, at: nat): (w: u16)
    requires at + 2 <= |b|
  {
    b[at] as int + 0x100 * b[at + 1] as int
  }

  function Le32(w: u32): (b: seq<byte>)
    ensures |b| == 4
  {
    Le16(w % 0x1_0000) + Le16(w / 0x1_0000)
  }

  function Le32At(b: seq<byte>, at: nat): (w: u32)
    requires at + 4 <= |b|
  {
    Le16At(b, at) as int + 0x1_0000 * Le16At(b, at + 2) as int
  }

  /** The two bytes weigh what the word does. */
  lemma Le16Weighs(w: u16)
    ensures Le16(w)[0] as int + 0x100 * Le16(w)[1] as int == w
  {
  }

  lemma Le16RoundTrip(w: u16, b: seq<byte>, at: nat)
    requires at + 2 <= |b|
    ensures b[at..at + 2] == Le16(w) <==> Le16At(b, at) == w
  {
  }

  lemma Le32RoundTrip(w: u32, b: seq<byte>, at: nat)
    requires at + 4 <= |b|
    ensures b[at..at + 4] == Le32(w) <==> Le32At(b, at) == w
  {
    assert b[at..at + 4] == b[at..at + 2] + b[at + 2..at + 4];
    Le16RoundTrip(w % 0x1_0000, b, at);
    Le16RoundTrip(w / 0x1_0000, b, at + 2);
  }
}
