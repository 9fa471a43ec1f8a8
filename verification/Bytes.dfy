/** Little-endian fields in byte sequences. */
module Bytes {

  type byte = bv8

  function WriteU16(v: bv16): (s: seq<byte>)
    ensures |s| == 2
  {
    [(v & 0xFF) as byte, ((v >> 8) & 0xFF) as byte]
  }

  function WriteU32(v: bv32): (s: seq<byte>)
    ensures |s| == 4
  {
    [(v & 0xFF) as byte, ((v >> 8) & 0xFF) as byte, ((v >> 16) & 0xFF) as byte, ((v >> 24) & 0xFF) as byte]
  }

  function WriteU64(v: bv64): (s: seq<byte>)
    ensures |s| == 8
  {
    WriteU32((v & 0xFFFF_FFFF) as bv32) + WriteU32((v >> 32) as bv32)
  }

  function ReadU16(s: seq<byte>): bv16
    requires |s| == 2
  {
    (s[0] as bv16) | ((s[1] as bv16) << 8)
  }

  function ReadU32(s: seq<byte>): bv32
    requires |s| == 4
  {
    (s[0] as bv32) | ((s[1] as bv32) << 8) | ((s[2] as bv32) << 16) | ((s[3] as bv32) << 24)
  }

  function ReadU64(s: seq<byte>): bv64
    requires |s| == 8
  {
    (ReadU32(s[..4]) as bv64) | ((ReadU32(s[4..]) as bv64) << 32)
  }

  lemma ReadWriteU16(v: bv16)
    ensures ReadU16(WriteU16(v)) == v
  {
  }

  lemma WriteReadU16(s: seq<byte>)
    requires |s| == 2
    ensures WriteU16(ReadU16(s)) == s
  {
  }

  lemma ReadWriteU32(v: bv32)
    ensures ReadU32(WriteU32(v)) == v
  {
  }

  lemma WriteReadU32(s: seq<byte>)
    requires |s| == 4
    ensures WriteU32(ReadU32(s)) == s
  {
    LowBytesOfWord(s[0], s[1], s[2], s[3]);
  }

  lemma LowBytesOfWord(a: byte, b: byte, c: byte, d: byte)
    ensures var w := (a as bv32) | ((b as bv32) << 8) | ((c as bv32) << 16) | ((d as bv32) << 24);
            && (w & 0xFF) as byte == a && ((w >> 8) & 0xFF) as byte == b
            && ((w >> 16) & 0xFF) as byte == c && ((w >> 24) & 0xFF) as byte == d
  {
  }

  lemma ReadWriteU64(v: bv64)
    ensures ReadU64(WriteU64(v)) == v
  {
    var low, high := (v & 0xFFFF_FFFF) as bv32, (v >> 32) as bv32;
    ReadWriteU32(low);
    ReadWriteU32(high);
    assert WriteU64(v)[..4] == WriteU32(low) && WriteU64(v)[4..] == WriteU32(high);
    HalvesMakeWord(v);
  }

  lemma HalvesMakeWord(v: bv64)
    ensures (((v & 0xFFFF_FFFF) as bv32) as bv64) | ((((v >> 32) as bv32) as bv64) << 32) == v
  {
  }

  lemma WriteReadU64(s: seq<byte>)
    requires |s| == 8
    ensures WriteU64(ReadU64(s)) == s
  {
    var low, high := ReadU32(s[..4]), ReadU32(s[4..]);
    WriteReadU32(s[..4]);
    WriteReadU32(s[4..]);
    WordHasHalves(low, high);
    assert s == s[..4] + s[4..];
  }

  lemma WordHasHalves(low: bv32, high: bv32)
    ensures var v := (low as bv64) | ((high as bv64) << 32);
            (v & 0xFFFF_FFFF) as bv32 == low && (v >> 32) as bv32 == high
  {
  }
}
