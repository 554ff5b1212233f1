/** Bytes, and the little-endian integers of `encoding/binary`. */
module Bytes {
  type byte = x: int | 0 <= x < 256

  const U16 := 0x1_0000
  const U32 := 0x1_0000_0000

  /** The low 16 bits, least significant byte first. */
  function Put16(n: nat): (b: seq<byte>)
    ensures |b| == 2
  {
    [n % 256, n / 256 % 256]
  }

  function Get16(b: seq<byte>): nat
    requires |b| == 2
  {
    b[0] as int + 256 * b[1] as int
  }

  /** The low 32 bits. */
  function Put32(n: nat): (b: seq<byte>)
    ensures |b| == 4
  {
    Put16(n % U16) + Put16(n / U16 % U16)
  }

  function Get32(b: seq<byte>): nat
    requires |b| == 4
  {
    Get16(b[..2]) + U16 * Get16(b[2..])
  }

  lemma GetPut16(n: nat)
    ensures Get16(Put16(n)) == n % U16
  {
    assert n == n / U16 * U16 + n % U16;
    assert n / 256 == n / U16 * 256 + n % U16 / 256;
  }

  lemma GetPut32(n: nat)
    ensures Get32(Put32(n)) == n % U32
  {
    hide Get16, Put16;
    var b := Put32(n);
    assert b[..2] == Put16(n % U16) && b[2..] == Put16(n / U16 % U16);
    GetPut16(n % U16);
    GetPut16(n / U16 % U16);
    assert n == n / U16 * U16 + n % U16;
    assert n / U16 == n / U16 / U16 * U16 + n / U16 % U16;
    assert n / U16 / U16 == n / U32;
    assert n % U32 == n / U16 % U16 * U16 + n % U16;
  }
}
