/**
 * The checksum against its definition in section 3.2.9 of IEEE 802.3: complement
 * the first 32 bits of the message, append 32 zeros, divide by the generator
 * polynomial, complement the remainder. Bits are taken least significant first
 * within each byte, so the register is the mirror image of the remainder.
 */
module Crc32Standard {
  import opened Bytes
  import opened Crc32
  import opened Crc32Detection
  import opened Gf2

  const TOP_BIT: bv32 := 0x8000_0000

  function Coefficient(bit: bool, at: bv32): bv32 {
    if bit then at else 0
  }

  /**
   * Multiplication by x modulo the generator x^32 + x^26 + x^23 + x^22 + x^16 +
   * x^12 + x^11 + x^10 + x^8 + x^7 + x^5 + x^4 + x^2 + x + 1: when x^32 appears,
   * the generator is subtracted.
   */
  function TimesX(r: bv32): bv32 {
    if TopSet(r) then Xor(Double(r), 0x04C1_1DB7) else Double(r)
  }

  /** One step of the long division: multiply what is left by x and bring down the next coefficient. */
  function DivideStep(remainder: bv32, bit: bool): bv32 {
    Xor(TimesX(remainder), Coefficient(bit, 1))
  }

  /** Remainder of a polynomial, highest coefficient first, after division by the generator. */
  function Remainder(bits: seq<bool>): bv32 {
    if bits == [] then 0 else DivideStep(Remainder(bits[..|bits| - 1]), bits[|bits| - 1])
  }

  function ComplementFirst32(bits: seq<bool>): seq<bool>
    requires |bits| >= 32
  {
    seq(32, i requires 0 <= i < 32 => !bits[i]) + bits[32..]
  }

  function Zeros(n: nat): seq<bool> {
    seq(n, i => false)
  }

  /** The frame check sequence of the standard, as a polynomial with its highest coefficient in the top bit. */
  function FrameCheckSequence(data: seq<byte>): bv32
    requires |data| >= 4
  {
    Xor(Remainder(ComplementFirst32(BitsOf(data)) + Zeros(32)), ALL_ONES)
  }

  function Mirror(x: bv32): bv32 {
    var a := ((x >> 1) & 0x5555_5555) | ((x & 0x5555_5555) << 1);
    var b := ((a >> 2) & 0x3333_3333) | ((a & 0x3333_3333) << 2);
    var c := ((b >> 4) & 0x0F0F_0F0F) | ((b & 0x0F0F_0F0F) << 4);
    var d := ((c >> 8) & 0x00FF_00FF) | ((c & 0x00FF_00FF) << 8);
    (d >> 16) | (d << 16)
  }

  // ---------- multiplication by x ----------

  function TimesXn(r: bv32, n: nat): bv32 {
    if n == 0 then r else TimesX(TimesXn(r, n - 1))
  }

  lemma TimesXOfXor(a: bv32, b: bv32)
    ensures TimesX(Xor(a, b)) == Xor(TimesX(a), TimesX(b))
  {
    hide Xor;
    hide Double;
    hide TopSet;
    DoubleOfXor(a, b);
    TopOfXor(a, b);
    SumOfSums(Double(a), Double(b), 0x04C1_1DB7);
  }

  lemma {:induction false} TimesXnOfXor(a: bv32, b: bv32, n: nat)
    ensures TimesXn(Xor(a, b), n) == Xor(TimesXn(a, n), TimesXn(b, n))
  {
    hide TimesX;
    hide Xor;
    if n > 0 {
      TimesXnOfXor(a, b, n - 1);
      TimesXOfXor(TimesXn(a, n - 1), TimesXn(b, n - 1));
    }
  }

  lemma {:induction false} TimesXnCommutes(r: bv32, n: nat)
    ensures TimesXn(TimesX(r), n) == TimesX(TimesXn(r, n))
  {
    hide TimesX;
    if n > 0 {
      TimesXnCommutes(r, n - 1);
    }
  }

  lemma {:induction false} ZeroTimesXn(n: nat)
    ensures TimesXn(0, n) == 0
  {
    if n > 0 {
      ZeroTimesXn(n - 1);
    }
  }

  /** Appending n zeros multiplies by x^n. */
  lemma {:induction false} AppendZeros(bits: seq<bool>, n: nat)
    ensures Remainder(bits + Zeros(n)) == TimesXn(Remainder(bits), n)
  {
    hide TimesX;
    hide Xor;
    if n == 0 {
      assert bits + Zeros(0) == bits;
    } else {
      assert (bits + Zeros(n))[..|bits| + n - 1] == bits + Zeros(n - 1);
      AppendZeros(bits, n - 1);
      XorZero(TimesX(Remainder(bits + Zeros(n - 1))));
    }
  }

  /** x^32 is what the generator leaves of the coefficient just above the top. */
  lemma PowerThirtyTwo()
    ensures TimesXn(1, 32) == TimesX(TOP_BIT)
  {
    Powers(1, 2, 4, 8, 0);
    Powers(0x10, 0x20, 0x40, 0x80, 4);
    Powers(0x100, 0x200, 0x400, 0x800, 8);
    Powers(0x1000, 0x2000, 0x4000, 0x8000, 12);
    Powers(0x1_0000, 0x2_0000, 0x4_0000, 0x8_0000, 16);
    Powers(0x10_0000, 0x20_0000, 0x40_0000, 0x80_0000, 20);
    Powers(0x100_0000, 0x200_0000, 0x400_0000, 0x800_0000, 24);
    var top := TimesXn(1, 31);
    assert top == TOP_BIT by {
      DoubleLow(0x1000_0000);
      DoubleLow(0x2000_0000);
      DoubleLow(0x4000_0000);
      assert TimesXn(1, 29) == 0x2000_0000;
      assert TimesXn(1, 30) == 0x4000_0000;
    }
  }

  lemma DoubleLow(r: bv32)
    requires r < 0x8000_0000
    ensures TimesX(r) == r << 1
  {
  }

  lemma Powers(a: bv32, b: bv32, c: bv32, d: bv32, n: nat)
    requires TimesXn(1, n) == a && b == a << 1 && c == b << 1 && d == c << 1
    requires a < 0x8000_0000 && b < 0x8000_0000 && c < 0x8000_0000 && d < 0x8000_0000
    ensures TimesXn(1, n + 4) == d << 1
  {
    DoubleLow(a);
    DoubleLow(b);
    DoubleLow(c);
    DoubleLow(d);
    hide TimesX;
    assert TimesXn(1, n + 1) == b;
    assert TimesXn(1, n + 2) == c;
    assert TimesXn(1, n + 3) == d;
  }

  // ---------- the register is the mirrored remainder ----------

  lemma MirrorOfHalf(crc: bv32)
    ensures Mirror(Half(crc)) == Double(Mirror(crc))
    ensures TopSet(Mirror(crc)) == LowBit(crc)
  {
  }

  lemma MirrorOfConstants()
    ensures Mirror(POLYNOMIAL) == 0x04C1_1DB7
    ensures Mirror(1) == TOP_BIT && Mirror(0) == 0 && Mirror(ALL_ONES) == ALL_ONES
  {
  }

  lemma MirrorOfStep(crc: bv32)
    ensures Mirror(BitStep(crc)) == TimesX(Mirror(crc))
  {
    hide BitStep;
    hide Mirror;
    hide Xor;
    hide Half;
    hide Double;
    hide LowBit;
    hide TopSet;
    StepByLowBit(crc);
    MirrorOfHalf(crc);
    MirrorOfXor(Half(crc), POLYNOMIAL);
    MirrorOfConstants();
  }

  lemma MirrorOfXor(a: bv32, b: bv32)
    ensures Mirror(Xor(a, b)) == Xor(Mirror(a), Mirror(b))
  {
  }

  lemma MirrorOfFeed(crc: bv32, bit: bool)
    ensures Mirror(Feed(crc, bit)) == Xor(TimesX(Mirror(crc)), TimesX(Coefficient(bit, TOP_BIT)))
  {
    hide BitStep;
    hide TimesX;
    hide Mirror;
    hide Xor;
    var low := LowValue(bit);
    MirrorOfStep(Xor(crc, low));
    MirrorOfXor(crc, low);
    MirrorOfConstants();
    TimesXOfXor(Mirror(crc), Coefficient(bit, TOP_BIT));
  }

  /** Feeding bits into an empty register divides them, followed by 32 zeros, by the generator. */
  lemma {:induction false} RegisterIsRemainder(bits: seq<bool>)
    ensures Mirror(BitRegister(0, bits)) == TimesXn(Remainder(bits), 32)
  {
    hide Feed;
    hide Mirror;
    hide TimesX;
    hide Xor;
    hide Coefficient;
    if bits == [] {
      ZeroTimesXn(32);
      MirrorOfConstants();
    } else {
      var front, bit := bits[..|bits| - 1], bits[|bits| - 1];
      RegisterIsRemainder(front);
      var r := Remainder(front);
      MirrorOfFeed(BitRegister(0, front), bit);
      TimesXnOfXor(TimesX(r), Coefficient(bit, 1), 32);
      TimesXnCommutes(r, 32);
      CoefficientTimes32(bit);
    }
  }

  lemma CoefficientTimes32(bit: bool)
    ensures TimesXn(Coefficient(bit, 1), 32) == TimesX(Coefficient(bit, TOP_BIT))
  {
    hide TimesXn;
    PowerThirtyTwo();
    ZeroTimesXn(32);
    assert TimesX(0) == 0;
    hide TimesX;
  }

  // ---------- the preset register complements the first 32 bits ----------

  lemma PresetComplements(bits: seq<bool>)
    requires |bits| >= 32
    ensures BitRegister(ALL_ONES, bits) == BitRegister(0, ComplementFirst32(bits))
  {
    hide BitRegister;
    var w, rest := bits[..32], bits[32..];
    var v := ComplementFirst32(bits)[..32];
    assert bits == w + rest && ComplementFirst32(bits) == v + rest;
    BitRegisterSplit(ALL_ONES, w, rest);
    BitRegisterSplit(0, v, rest);
    PresetWindow(w, v);
  }

  /** A set register over a window is an empty one over the complemented window. */
  lemma PresetWindow(w: seq<bool>, v: seq<bool>)
    requires |w| == |v| == 32 && forall i :: 0 <= i < 32 ==> v[i] == !w[i]
    ensures BitRegister(ALL_ONES, w) == BitRegister(0, v)
  {
    hide Steps;
    hide Register;
    hide BitRegister;
    hide ReadU32;
    hide WriteU32;
    hide Xor;
    hide BitsOf;
    var p, q := PackWindow(w), PackWindow(v);
    ComplementWindow(w, v);
    hide PackWindow;
    BitsOfWindow(w);
    BitsOfWindow(v);
    RegisterIsBitRegister(ALL_ONES, p);
    RegisterIsBitRegister(0, q);
    var word := ReadU32(p);
    WriteReadU32(p);
    ComplementWord(word);
    FourBytes(ALL_ONES, word);
    FourBytes(0, Xor(word, ALL_ONES));
    XorComplement(word);
    assert q == WriteU32(Xor(word, ALL_ONES));
  }

  lemma ComplementByte(a: seq<bool>, b: seq<bool>)
    requires |a| == |b| == 8 && forall i :: 0 <= i < 8 ==> b[i] == !a[i]
    ensures PackByte(b) == PackByte(a) ^ 0xFF
  {
    hide Pack;
    hide LowByte;
    ComplementPack(a, b);
    ComplementLowByte(Pack(a));
  }

  lemma {:induction false} ComplementPack(a: seq<bool>, b: seq<bool>)
    requires |a| == |b| <= 8 && forall i :: 0 <= i < |a| ==> b[i] == !a[i]
    ensures Pack(b) == Xor(Pack(a), LowMask(8 - |a|))
  {
    hide Xor;
    hide LowValue;
    hide Double;
    hide LowMask;
    if a == [] {
      NoComplement();
    } else {
      ComplementPack(a[1..], b[1..]);
      ComplementJoined(a[0], Pack(a[1..]), 8 - |a|);
    }
  }

  lemma NoComplement()
    ensures Xor(0, LowMask(8)) == 0
  {
  }

  lemma ComplementJoined(bit: bool, w: bv32, k: nat)
    requires k < 8
    ensures Xor(LowValue(!bit), Double(Xor(w, LowMask(k + 1)))) == Xor(Xor(LowValue(bit), Double(w)), LowMask(k))
  {
    hide Xor;
    hide Double;
    hide LowMask;
    MaskParts(bit, k);
    DoubleOfXor(w, LowMask(k + 1));
    var low, twice, mask := LowValue(bit), Double(w), Double(LowMask(k + 1));
    XorAssociative(low, 1, Xor(twice, mask));
    XorAssociative(1, twice, mask);
    XorCommutes(1, twice);
    XorAssociative(twice, 1, mask);
    XorAssociative(low, twice, LowMask(k));
  }

  lemma MaskParts(bit: bool, k: nat)
    requires k < 8
    ensures LowMask(k) == Xor(1, Double(LowMask(k + 1)))
    ensures LowValue(!bit) == Xor(LowValue(bit), 1)
  {
  }

  lemma ComplementLowByte(w: bv32)
    ensures LowByte(Xor(w, LowMask(0))) == LowByte(w) ^ 0xFF
  {
  }

  lemma ComplementWindow(w: seq<bool>, v: seq<bool>)
    requires |w| == |v| == 32 && forall i :: 0 <= i < 32 ==> v[i] == !w[i]
    ensures var p, q := PackWindow(w), PackWindow(v);
            q[0] == p[0] ^ 0xFF && q[1] == p[1] ^ 0xFF && q[2] == p[2] ^ 0xFF && q[3] == p[3] ^ 0xFF
  {
    hide PackByte;
    ComplementByte(w[..8], v[..8]);
    ComplementByte(w[8..16], v[8..16]);
    ComplementByte(w[16..24], v[16..24]);
    ComplementByte(w[24..], v[24..]);
  }

  lemma ComplementWord(w: bv32)
    ensures var s, t := WriteU32(w), WriteU32(Xor(w, ALL_ONES));
            t[0] == s[0] ^ 0xFF && t[1] == s[1] ^ 0xFF && t[2] == s[2] ^ 0xFF && t[3] == s[3] ^ 0xFF
  {
  }

  lemma XorComplement(w: bv32)
    ensures Xor(ALL_ONES, w) == Xor(0, Xor(w, ALL_ONES))
  {
    hide Xor;
    XorCommutes(ALL_ONES, w);
    XorZero(Xor(w, ALL_ONES));
  }

  // ---------- main result ----------

  /** The nested loop computes the mirror image of the standard's frame check sequence. */
  lemma ChecksumIsFrameCheckSequence(data: seq<byte>)
    requires |data| >= 4
    ensures Mirror(Checksum(data)) == FrameCheckSequence(data)
  {
    hide Remainder;
    hide Register;
    hide BitRegister;
    hide Mirror;
    hide TimesXn;
    hide Xor;
    hide BitsOf;
    var bits := ComplementFirst32(BitsOf(data));
    RegisterIsBitRegister(ALL_ONES, data);
    PresetComplements(BitsOf(data));
    RegisterIsRemainder(bits);
    AppendZeros(bits, 32);
    MirrorOfXor(Register(ALL_ONES, data), ALL_ONES);
    MirrorOfConstants();
  }
}
