/**
 * 32-bit words as polynomials over GF(2): addition is exclusive or, and a shift
 * multiplies or divides by x. The facts below are about the words alone; the
 * proofs built on them need not look inside the operations again.
 */
module Gf2 {

  function Xor(a: bv32, b: bv32): bv32 {
    a ^ b
  }

  function LowBit(w: bv32): bool {
    w & 1 == 1
  }

  function LowValue(bit: bool): bv32 {
    if bit then 1 else 0
  }

  function Half(w: bv32): bv32 {
    w >> 1
  }

  function Double(w: bv32): bv32 {
    w << 1
  }

  predicate TopSet(w: bv32) {
    w >= 0x8000_0000
  }

  function LowByte(w: bv32): bv8 {
    (w & 0xFF) as bv8
  }

  lemma XorZero(a: bv32)
    ensures Xor(a, 0) == a && Xor(0, a) == a
  {
  }

  lemma XorTwice(a: bv32, b: bv32)
    ensures Xor(a, Xor(a, b)) == b
  {
  }

  lemma PlainAssociative(a: bv32, b: bv32, c: bv32)
    ensures (a ^ b) ^ c == a ^ (b ^ c)
  {
  }

  lemma XorAssociative(a: bv32, b: bv32, c: bv32)
    ensures Xor(Xor(a, b), c) == Xor(a, Xor(b, c))
  {
    PlainAssociative(a, b, c);
  }

  lemma XorCommutes(a: bv32, b: bv32)
    ensures Xor(a, b) == Xor(b, a)
  {
  }

  lemma HalfOfXor(a: bv32, b: bv32)
    ensures Half(Xor(a, b)) == Xor(Half(a), Half(b))
  {
  }

  lemma LowBitOfXor(a: bv32, b: bv32)
    ensures LowBit(Xor(a, b)) <==> LowBit(a) != LowBit(b)
  {
  }

  lemma DoubleOfXor(a: bv32, b: bv32)
    ensures Double(Xor(a, b)) == Xor(Double(a), Double(b))
  {
  }

  lemma TopOfXor(a: bv32, b: bv32)
    ensures TopSet(Xor(a, b)) <==> TopSet(a) != TopSet(b)
  {
  }

  /** A word is its low bit and twice its half. */
  lemma WordParts(w: bv32)
    ensures w == Xor(LowValue(LowBit(w)), Double(Half(w)))
    ensures !LowBit(Double(Half(w)))
    ensures Half(Double(Half(w))) == Half(w)
  {
  }

  /** Putting a bit below a word that leaves room, and taking it off again. */
  lemma JoinedParts(bit: bool, w: bv32)
    requires !TopSet(w)
    ensures LowBit(Xor(LowValue(bit), Double(w))) == bit
    ensures Half(Xor(LowValue(bit), Double(w))) == w
  {
  }

  /** w has at most 8 - k bits. */
  predicate Within(w: bv32, k: nat)
    requires k <= 8
  {
    w <= LowMask(k)
  }

  lemma HalfBound(w: bv32, k: nat)
    requires k < 8 && Within(w, k)
    ensures Within(Half(w), k + 1)
  {
  }

  /** The mask of the bits that are left of a byte after k halvings. */
  function LowMask(k: nat): bv32
    requires k <= 8
  {
    if k == 0 then 0xFF else if k == 1 then 0x7F else if k == 2 then 0x3F else if k == 3 then 0x1F
    else if k == 4 then 0xF else if k == 5 then 7 else if k == 6 then 3 else if k == 7 then 1 else 0
  }

  function Keep(w: bv32, mask: bv32): bv32 {
    w & mask
  }

  lemma KeptLowBit(w: bv32, k: nat)
    requires k < 8
    ensures LowBit(Keep(w, LowMask(k))) == LowBit(w)
  {
  }

  lemma KeptHalf(w: bv32, k: nat)
    requires k < 8
    ensures Half(Keep(w, LowMask(k))) == Keep(Half(w), LowMask(k + 1))
  {
  }

  lemma LowByteIsKept(w: bv32)
    ensures LowByte(w) as bv32 == Keep(w, LowMask(0))
  {
  }

  lemma ByteFits(b: bv8)
    ensures Within(b as bv32, 0) && LowByte(b as bv32) == b
  {
  }

  lemma JoinedBound(bit: bool, w: bv32, k: nat)
    requires 0 < k <= 8 && Within(w, k)
    ensures Within(Xor(LowValue(bit), Double(w)), k - 1) && !TopSet(w)
  {
  }

  // ---------- the bits of a word, lowest first ----------

  /** A word without its n lowest bits. */
  function Shifted(w: bv32, n: nat): bv32 {
    if n == 0 then w else Half(Shifted(w, n - 1))
  }

  function Bits(w: bv32, n: nat): (bits: seq<bool>)
    ensures |bits| == n
  {
    if n == 0 then [] else Bits(w, n - 1) + [LowBit(Shifted(w, n - 1))]
  }

  lemma {:induction false} ShiftedHalf(w: bv32, n: nat)
    ensures Shifted(Half(w), n) == Shifted(w, n + 1)
  {
    hide Half;
    if n > 0 {
      ShiftedHalf(w, n - 1);
    }
  }

  lemma {:induction false} BitsAfterFirst(w: bv32, n: nat)
    ensures Bits(w, n + 1) == [LowBit(w)] + Bits(Half(w), n)
  {
    hide Half;
    hide LowBit;
    if n > 0 {
      BitsAfterFirst(w, n - 1);
      ShiftedHalf(w, n - 1);
    }
  }

  /** Nothing is left of a byte after eight shifts. */
  lemma {:induction false} ByteRunsOut(w: bv32, k: nat)
    requires k <= 8 && Within(w, 0)
    ensures Within(Shifted(w, k), k)
  {
    hide Half;
    hide Within;
    if k > 0 {
      ByteRunsOut(w, k - 1);
      HalfBound(Shifted(w, k - 1), k - 1);
    }
  }

  lemma NothingLeft(w: bv32)
    requires Within(w, 8)
    ensures w == 0
  {
  }

  /** A word and its low byte have the same eight lowest bits. */
  lemma {:induction false} LowByteBits(w: bv32, k: nat)
    requires k <= 8
    ensures Bits(LowByte(w) as bv32, k) == Bits(w, k)
    ensures Shifted(LowByte(w) as bv32, k) == Keep(Shifted(w, k), LowMask(k))
  {
    hide Half;
    hide LowBit;
    hide Keep;
    hide LowMask;
    hide LowByte;
    LowByteIsKept(w);
    if k > 0 {
      LowByteBits(w, k - 1);
      KeptHalf(Shifted(w, k - 1), k - 1);
      KeptLowBit(Shifted(w, k - 1), k - 1);
    }
  }

  lemma FourShifts(w: bv32)
    ensures Shifted(w, 4) == w >> 4
  {
    assert Shifted(w, 1) == w >> 1;
    assert Shifted(w, 2) == w >> 2;
    assert Shifted(w, 3) == w >> 3;
  }

  lemma {:induction false} ShiftedTwice(w: bv32, m: nat, n: nat)
    ensures Shifted(Shifted(w, m), n) == Shifted(w, m + n)
  {
    hide Half;
    if n > 0 {
      ShiftedTwice(w, m, n - 1);
    }
  }

  lemma EightShiftsDown(w: bv32)
    ensures Shifted(w, 8) == w >> 8
  {
    hide Half;
    FourShifts(w);
    FourShifts(w >> 4);
    ShiftedTwice(w, 4, 4);
    hide Shifted;
    assert (w >> 4) >> 4 == w >> 8;
  }

  // ---------- the word with given bits ----------

  function Pack(bits: seq<bool>): bv32 {
    if bits == [] then 0 else Xor(LowValue(bits[0]), Double(Pack(bits[1..])))
  }

  lemma {:induction false} PackBound(bits: seq<bool>)
    requires |bits| <= 8
    ensures Within(Pack(bits), 8 - |bits|)
  {
    hide Xor;
    hide LowValue;
    hide Double;
    hide Within;
    if bits == [] {
      NothingPacked();
    } else {
      PackBound(bits[1..]);
      JoinedBound(bits[0], Pack(bits[1..]), 8 - |bits[1..]|);
    }
  }

  /** The first packed bit comes off first, if the others leave room above. */
  lemma PackParts(bits: seq<bool>)
    requires 0 < |bits| <= 8
    ensures LowBit(Pack(bits)) == bits[0] && Half(Pack(bits)) == Pack(bits[1..])
  {
    hide Xor;
    hide LowValue;
    hide Double;
    hide Half;
    hide LowBit;
    hide Within;
    hide TopSet;
    PackBound(bits[1..]);
    JoinedBound(bits[0], Pack(bits[1..]), 8 - |bits[1..]|);
    JoinedParts(bits[0], Pack(bits[1..]));
  }

  lemma {:induction false} PackedBits(bits: seq<bool>)
    requires |bits| <= 8
    ensures Bits(Pack(bits), |bits|) == bits
  {
    hide Pack;
    hide Half;
    hide LowBit;
    if bits != [] {
      PackParts(bits);
      PackedBits(bits[1..]);
      BitsAfterFirst(Pack(bits), |bits| - 1);
    }
  }

  lemma NothingPacked()
    ensures Within(Pack([]), 8)
  {
  }

  function PackByte(bits: seq<bool>): bv8
    requires |bits| == 8
  {
    LowByte(Pack(bits))
  }

  lemma BitsOfPacked(bits: seq<bool>)
    requires |bits| == 8
    ensures Bits(PackByte(bits) as bv32, 8) == bits
  {
    hide Pack;
    hide LowByte;
    hide Bits;
    PackedBits(bits);
    LowByteBits(Pack(bits), 8);
  }
}
