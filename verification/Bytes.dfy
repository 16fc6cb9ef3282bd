/** Bytes, little-endian words and the 8-byte payload of a CAN frame. */
module Bytes {

  type byte = b: int | 0 <= b < 0x100

  type uint16 = w: int | 0 <= w < 0x1_0000

  type uint32 = w: int | 0 <= w < 0x1_0000_0000

  /** The payload of a CAN frame as the SDO protocol uses it: always eight bytes. */
  type Frame = f: seq<byte> | |f| == 8 witness [0, 0, 0, 0, 0, 0, 0, 0]

  function Min(a: int, b: int): int {
    if a <= b then a else b
  }

  function Max(a: int, b: int): int {
    if a >= b then a else b
  }

  function Zeros(n: nat): (z: seq<byte>)
    ensures |z| == n
  {
    seq(n, _ => 0)
  }

  function Encode16(w: uint16): (s: seq<byte>)
    ensures |s| == 2
  {
    [w % 0x100, w / 0x100]
  }

  function Decode16(s: seq<byte>): uint16
    requires |s| == 2
  {
    (s[0] as int) + 0x100 * (s[1] as int)
  }

  function Encode32(w: uint32): (s: seq<byte>)
    ensures |s| == 4
  {
    [w % 0x100, w / 0x100 % 0x100, w / 0x1_0000 % 0x100, w / 0x100_0000]
  }

  function Decode32(s: seq<byte>): uint32
    requires |s| == 4
  {
    (s[0] as int) + 0x100 * (s[1] as int) + 0x1_0000 * (s[2] as int) + 0x100_0000 * (s[3] as int)
  }

  lemma Decode16Encode16(w: uint16)
    ensures Decode16(Encode16(w)) == w
  {
  }

  lemma Decode32Encode32(w: uint32)
    ensures Decode32(Encode32(w)) == w
  {
    var q1 := w / 0x100;
    var q2 := w / 0x1_0000;
    var q3 := w / 0x100_0000;
    assert q2 == q1 / 0x100 && q3 == q2 / 0x100;
  }
}
