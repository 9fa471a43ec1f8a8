/**
 * The CRC-32 of frames and records: the nested byte and bit loop, the register
 * it computes, and the remainder of section 3.2.9 of IEEE 802.3 it stands for.
 */
module Crc32 {
  import opened Bytes
  import opened Gf2

  const POLYNOMIAL: bv32 := 0xEDB8_8320
  const ALL_ONES: bv32 := 0xFFFF_FFFF

  // ---------- the register ----------

  /** One shift of the register, with the masked polynomial. */
  function BitStep(crc: bv32): bv32 {
    (crc >> 1) ^ (POLYNOMIAL & (0 - (crc & 1)))
  }

  function Steps(crc: bv32, n: nat): bv32 {
    if n == 0 then crc else BitStep(Steps(crc, n - 1))
  }

  function ByteStep(crc: bv32, b: byte): bv32 {
    Steps(Xor(crc, b as bv32), 8)
  }

  function Register(start: bv32, data: seq<byte>): bv32 {
    if data == [] then start
    else ByteStep(Register(start, data[..|data| - 1]), data[|data| - 1])
  }

  function Checksum(data: seq<byte>): bv32 {
    Xor(Register(ALL_ONES, data), ALL_ONES)
  }

  /** The loop over the first size bytes of a buffer. */
  method Compute(data: array<byte>, size: nat) returns (crc: bv32)
    requires size <= data.Length
    ensures crc == Checksum(data[..size])
  {
    crc := ALL_ONES;
    for index := 0 to size
      invariant crc == Register(ALL_ONES, data[..index])
    {
      ghost var before := crc;
      crc := crc ^ (data[index] as bv32);
      ghost var loaded := crc;
      for bit := 0 to 8
        invariant crc == Steps(loaded, bit)
      {
        var mask: bv32 := 0 - (crc & 1);
        crc := (crc >> 1) ^ (POLYNOMIAL & mask);
      }
      assert data[..index + 1][..index] == data[..index];
    }
    crc := crc ^ ALL_ONES;
  }

  // ---------- the register is injective in everything it is fed ----------

  lemma BitStepInjective(a: bv32, b: bv32)
    requires BitStep(a) == BitStep(b)
    ensures a == b
  {
  }

  lemma {:induction false} StepsInjective(a: bv32, b: bv32, n: nat)
    requires Steps(a, n) == Steps(b, n)
    ensures a == b
  {
    if n > 0 {
      BitStepInjective(Steps(a, n - 1), Steps(b, n - 1));
      StepsInjective(a, b, n - 1);
    }
  }

  /** The mask selects the polynomial exactly when the low bit is set. */
  lemma StepByLowBit(crc: bv32)
    ensures BitStep(crc) == (if LowBit(crc) then Xor(Half(crc), POLYNOMIAL) else Half(crc))
  {
    assert crc & 1 == 0 || crc & 1 == 1;
  }

  lemma BitStepLinear(a: bv32, b: bv32)
    ensures BitStep(Xor(a, b)) == Xor(BitStep(a), BitStep(b))
  {
    hide BitStep;
    hide Xor;
    hide LowBit;
    hide Half;
    StepByLowBit(a);
    StepByLowBit(b);
    StepByLowBit(Xor(a, b));
    HalfOfXor(a, b);
    LowBitOfXor(a, b);
    SumOfSums(Half(a), Half(b), POLYNOMIAL);
  }

  /** The generator added to both summands cancels; added to one it is added to the sum. */
  lemma SumOfSums(p: bv32, q: bv32, g: bv32)
    ensures Xor(Xor(p, g), Xor(q, g)) == Xor(p, q)
    ensures Xor(Xor(p, g), q) == Xor(Xor(p, q), g)
    ensures Xor(p, Xor(q, g)) == Xor(Xor(p, q), g)
  {
    hide Xor;
    XorAssociative(p, g, q);
    XorAssociative(p, q, g);
    XorCommutes(g, q);
    XorAssociative(p, g, Xor(q, g));
    XorCommutes(q, g);
    XorTwice(g, q);
  }

  /** The register is linear: differences evolve on their own. */
  lemma {:induction false} StepsLinear(a: bv32, b: bv32, n: nat)
    ensures Steps(Xor(a, b), n) == Xor(Steps(a, n), Steps(b, n))
  {
    hide BitStep;
    hide Xor;
    if n > 0 {
      StepsLinear(a, b, n - 1);
      BitStepLinear(Steps(a, n - 1), Steps(b, n - 1));
    }
  }

  lemma {:induction false} StepsAdd(a: bv32, m: nat, n: nat)
    ensures Steps(Steps(a, m), n) == Steps(a, m + n)
  {
    hide BitStep;
    if n > 0 {
      StepsAdd(a, m, n - 1);
    }
  }

  // ---------- the register bit by bit ----------

  function Feed(crc: bv32, bit: bool): bv32 {
    BitStep(Xor(crc, LowValue(bit)))
  }

  function BitRegister(start: bv32, bits: seq<bool>): bv32 {
    if bits == [] then start else Feed(BitRegister(start, bits[..|bits| - 1]), bits[|bits| - 1])
  }

  /** A byte's bits in the order they are fed, least significant first. */
  function BitsOfByte(b: byte): (bits: seq<bool>)
    ensures |bits| == 8
  {
    Bits(b as bv32, 8)
  }

  function BitsOf(data: seq<byte>): (bits: seq<bool>)
    ensures |bits| == 8 * |data|
  {
    if data == [] then [] else BitsOf(data[..|data| - 1]) + BitsOfByte(data[|data| - 1])
  }

  lemma {:induction false} BitRegisterSplit(start: bv32, a: seq<bool>, b: seq<bool>)
    ensures BitRegister(start, a + b) == BitRegister(BitRegister(start, a), b)
  {
    hide Feed;
    if b == [] {
      assert a + b == a;
    } else {
      assert (a + b)[..|a + b| - 1] == a + b[..|b| - 1];
      BitRegisterSplit(start, a, b[..|b| - 1]);
    }
  }

  /** Loading a word and shifting once is feeding its low bit and keeping the rest loaded. */
  lemma ShiftIn(crc: bv32, w: bv32)
    ensures BitStep(Xor(crc, w)) == Xor(Feed(crc, LowBit(w)), Half(w))
  {
    hide BitStep;
    hide Xor;
    hide LowBit;
    hide LowValue;
    hide Half;
    hide Double;
    var low, rest := LowValue(LowBit(w)), Double(Half(w));
    WordParts(w);
    XorAssociative(crc, low, rest);
    BitStepLinear(Xor(crc, low), rest);
    StepByLowBit(rest);
  }

  /** Shifting a loaded word n times feeds its n lowest bits and keeps the rest loaded. */
  lemma {:induction false} ShiftsFeed(crc: bv32, w: bv32, n: nat)
    ensures Steps(Xor(crc, w), n) == Xor(BitRegister(crc, Bits(w, n)), Shifted(w, n))
  {
    hide BitStep;
    hide Feed;
    hide Xor;
    hide LowBit;
    hide Half;
    if n > 0 {
      ShiftsFeed(crc, w, n - 1);
      assert Bits(w, n)[..n - 1] == Bits(w, n - 1);
      ShiftIn(BitRegister(crc, Bits(w, n - 1)), Shifted(w, n - 1));
    }
  }

  /** Eight bits fed one by one are one turn of the byte loop. */
  lemma EightBits(crc: bv32, b: byte)
    ensures BitRegister(crc, BitsOfByte(b)) == ByteStep(crc, b)
  {
    hide Steps;
    hide BitRegister;
    hide Bits;
    hide Xor;
    hide Shifted;
    ShiftsFeed(crc, b as bv32, 8);
    XorZero(BitRegister(crc, BitsOfByte(b)));
    ByteFits(b);
    ByteRunsOut(b as bv32, 8);
    NothingLeft(Shifted(b as bv32, 8));
  }
}
