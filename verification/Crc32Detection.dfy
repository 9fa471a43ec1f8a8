/**
 * What the checksum detects: every corruption of an encoded frame or record
 * whose flipped bits all lie within 32 consecutive bits, wherever they lie, the
 * stored checksum included.
 */
module Crc32Detection {
  import opened Bytes
  import opened Crc32
  import opened Gf2

  // ---------- registers over concatenations ----------

  lemma {:induction false} RegisterSplit(start: bv32, a: seq<byte>, b: seq<byte>)
    ensures Register(start, a + b) == Register(Register(start, a), b)
  {
    hide ByteStep;
    if b == [] {
      assert a + b == a;
    } else {
      assert (a + b)[..|a + b| - 1] == a + b[..|b| - 1];
      RegisterSplit(start, a, b[..|b| - 1]);
    }
  }

  lemma {:induction false} BitsOfSplit(a: seq<byte>, b: seq<byte>)
    ensures BitsOf(a + b) == BitsOf(a) + BitsOf(b)
  {
    if b == [] {
      assert a + b == a;
    } else {
      assert (a + b)[..|a + b| - 1] == a + b[..|b| - 1];
      BitsOfSplit(a, b[..|b| - 1]);
    }
  }

  /** The byte loop computes the bit-by-bit register. */
  lemma {:induction false} RegisterIsBitRegister(start: bv32, data: seq<byte>)
    ensures Register(start, data) == BitRegister(start, BitsOf(data))
  {
    hide ByteStep;
    hide BitsOfByte;
    if data != [] {
      var front, last := data[..|data| - 1], data[|data| - 1];
      RegisterIsBitRegister(start, front);
      BitRegisterSplit(start, BitsOf(front), BitsOfByte(last));
      EightBits(BitRegister(start, BitsOf(front)), last);
    }
  }

  /** Different registers stay different whatever is fed next. */
  lemma {:induction false} SuffixInjective(a: bv32, b: bv32, suffix: seq<bool>)
    requires BitRegister(a, suffix) == BitRegister(b, suffix)
    ensures a == b
  {
    if suffix != [] {
      var front := suffix[..|suffix| - 1];
      FeedInjective(BitRegister(a, front), BitRegister(b, front), suffix[|suffix| - 1]);
      SuffixInjective(a, b, front);
    }
  }

  lemma FeedInjective(a: bv32, b: bv32, bit: bool)
    requires Feed(a, bit) == Feed(b, bit)
    ensures a == b
  {
    hide BitStep;
    hide Xor;
    hide LowValue;
    BitStepInjective(Xor(a, LowValue(bit)), Xor(b, LowValue(bit)));
    XorInjective(LowValue(bit), a, b);
    XorCommutes(a, LowValue(bit));
    XorCommutes(b, LowValue(bit));
  }

  lemma XorInjective(c: bv32, a: bv32, b: bv32)
    ensures Xor(c, a) == Xor(c, b) <==> a == b
  {
    hide Xor;
    XorTwice(c, a);
    XorTwice(c, b);
  }

  // ---------- four bytes are a word loaded at once ----------

  function HighBytes(w: bv32): bv32 {
    w >> 8
  }

  lemma LoadByte(crc: bv32, w: bv32)
    ensures Steps(Xor(crc, w), 8) == Xor(ByteStep(crc, LowByte(w)), HighBytes(w))
  {
    hide Steps;
    hide Xor;
    hide BitRegister;
    hide Shifted;
    hide Bits;
    hide LowByte;
    hide ByteStep;
    ShiftsFeed(crc, w, 8);
    EightShiftsDown(w);
    LowByteBits(w, 8);
    EightBits(crc, LowByte(w));
  }

  lemma FourBytes(crc: bv32, w: bv32)
    ensures Register(crc, WriteU32(w)) == Steps(Xor(crc, w), 32)
  {
    hide Xor;
    hide ByteStep;
    hide Steps;
    hide WriteU32;
    var s := WriteU32(w);
    WordByBytes(w);
    var c1 := ByteStep(crc, s[0]);
    var c2 := ByteStep(c1, s[1]);
    var c3 := ByteStep(c2, s[2]);
    var c4 := ByteStep(c3, s[3]);
    FourSteps(crc, w, s, c1, c2, c3, c4);
    RegisterOne(crc, s, 0);
    RegisterOne(crc, s, 1);
    RegisterOne(crc, s, 2);
    RegisterOne(crc, s, 3);
    assert s[..4] == s && s[..0] == [];
  }

  lemma RegisterOne(crc: bv32, s: seq<byte>, i: nat)
    requires i < |s|
    ensures Register(crc, s[..i + 1]) == ByteStep(Register(crc, s[..i]), s[i])
  {
    assert s[..i + 1][..i] == s[..i];
  }

  lemma FourSteps(crc: bv32, w: bv32, s: seq<byte>, c1: bv32, c2: bv32, c3: bv32, c4: bv32)
    requires s == WriteU32(w)
    requires c1 == ByteStep(crc, s[0]) && c2 == ByteStep(c1, s[1]) && c3 == ByteStep(c2, s[2]) && c4 == ByteStep(c3, s[3])
    ensures Steps(Xor(crc, w), 32) == c4
  {
    hide Xor;
    hide ByteStep;
    hide Steps;
    hide WriteU32;
    hide LowByte;
    hide HighBytes;
    WordByBytes(w);
    var w1 := HighBytes(w);
    var w2 := HighBytes(w1);
    var w3 := HighBytes(w2);
    LoadByte(crc, w);
    LoadByte(c1, w1);
    LoadByte(c2, w2);
    LoadByte(c3, w3);
    StepsAdd(Xor(crc, w), 8, 8);
    StepsAdd(Xor(crc, w), 16, 8);
    StepsAdd(Xor(crc, w), 24, 8);
    XorZero(c4);
  }

  lemma WordByBytes(w: bv32)
    ensures var s := WriteU32(w);
            && s[0] == LowByte(w)
            && s[1] == LowByte(HighBytes(w))
            && s[2] == LowByte(HighBytes(HighBytes(w)))
            && s[3] == LowByte(HighBytes(HighBytes(HighBytes(w))))
            && HighBytes(HighBytes(HighBytes(HighBytes(w)))) == 0
  {
  }

  /** Any two different words leave different registers. */
  lemma FourBytesInjective(crc: bv32, a: seq<byte>, b: seq<byte>)
    requires |a| == |b| == 4 && Register(crc, a) == Register(crc, b)
    ensures a == b
  {
    WriteReadU32(a);
    WriteReadU32(b);
    FourBytes(crc, ReadU32(a));
    FourBytes(crc, ReadU32(b));
    StepsInjective(Xor(crc, ReadU32(a)), Xor(crc, ReadU32(b)), 32);
    hide Steps;
    hide Register;
    hide ReadU32;
    hide WriteU32;
    XorInjective(crc, ReadU32(a), ReadU32(b));
  }

  // ---------- a window of 32 bits, byte-aligned or not ----------

  function PackWindow(bits: seq<bool>): (s: seq<byte>)
    requires |bits| == 32
    ensures |s| == 4
  {
    [PackByte(bits[..8]), PackByte(bits[8..16]), PackByte(bits[16..24]), PackByte(bits[24..])]
  }

  lemma BitsOfWindow(bits: seq<bool>)
    requires |bits| == 32
    ensures BitsOf(PackWindow(bits)) == bits
  {
    hide PackByte;
    hide Bits;
    var p := PackWindow(bits);
    assert p[0] == PackByte(bits[..8]) && p[1] == PackByte(bits[8..16]);
    assert p[2] == PackByte(bits[16..24]) && p[3] == PackByte(bits[24..]);
    hide PackWindow;
    BitsOfPacked(bits[..8]);
    BitsOfPacked(bits[8..16]);
    BitsOfPacked(bits[16..24]);
    BitsOfPacked(bits[24..]);
    BitsOfFour(p);
    hide BitsOf;
    FourSlices(bits);
  }

  lemma FourSlices(bits: seq<bool>)
    requires |bits| == 32
    ensures bits[..8] + bits[8..16] + bits[16..24] + bits[24..] == bits
  {
  }

  lemma BitsOfFour(p: seq<byte>)
    requires |p| == 4
    ensures BitsOf(p) == BitsOfByte(p[0]) + BitsOfByte(p[1]) + BitsOfByte(p[2]) + BitsOfByte(p[3])
  {
    hide BitsOfByte;
    assert p[..3][..2] == p[..2] && p[..2][..1] == p[..1] && p[..1][..0] == [];
    assert BitsOf(p[..1]) == BitsOfByte(p[0]);
    assert BitsOf(p[..2]) == BitsOf(p[..1]) + BitsOfByte(p[1]);
    assert BitsOf(p[..3]) == BitsOf(p[..2]) + BitsOfByte(p[2]);
  }

  lemma WindowInjective(crc: bv32, a: seq<bool>, b: seq<bool>)
    requires |a| == |b| == 32 && BitRegister(crc, a) == BitRegister(crc, b)
    ensures a == b
  {
    BitsOfWindow(a);
    BitsOfWindow(b);
    RegisterIsBitRegister(crc, PackWindow(a));
    RegisterIsBitRegister(crc, PackWindow(b));
    FourBytesInjective(crc, PackWindow(a), PackWindow(b));
  }

  // ---------- bursts ----------

  /** Every differing bit of a and b has an index in first .. first + 31. */
  ghost predicate DifferWithin(a: seq<bool>, b: seq<bool>, first: nat) {
    |a| == |b| && forall i :: 0 <= i < |a| && (i < first || first + 32 <= i) ==> a[i] == b[i]
  }

  /** Two messages of equal length whose differing bits lie within 32 consecutive bits. */
  ghost predicate BurstApart(a: seq<byte>, b: seq<byte>) {
    |a| == |b| && exists first: nat :: DifferWithin(BitsOf(a), BitsOf(b), first)
  }

  lemma BitsInjective(a: seq<byte>, b: seq<byte>)
    requires BitsOf(a) == BitsOf(b)
    ensures a == b
  {
    if a != [] {
      var x, y := BitsOf(a), BitsOf(b);
      assert |a| == |b|;
      var n := |a| - 1;
      assert x[..8 * n] == BitsOf(a[..n]) && y[..8 * n] == BitsOf(b[..n]);
      assert x[8 * n..] == BitsOfByte(a[n]) && y[8 * n..] == BitsOfByte(b[n]);
      BitsInjective(a[..n], b[..n]);
      ByteBitsInjective(a[n], b[n]);
      assert a == a[..n] + [a[n]] && b == b[..n] + [b[n]];
    }
  }

  lemma {:induction false} WordBitsInjective(a: bv32, b: bv32, n: nat)
    requires Bits(a, n) == Bits(b, n) && Shifted(a, n) == Shifted(b, n)
    ensures a == b
  {
    hide Half;
    hide LowBit;
    if n > 0 {
      var u, v := Shifted(a, n - 1), Shifted(b, n - 1);
      assert Bits(a, n)[n - 1] == LowBit(u) && Bits(b, n)[n - 1] == LowBit(v);
      WordParts(u);
      WordParts(v);
      hide Xor;
      hide Double;
      assert Bits(a, n)[..n - 1] == Bits(a, n - 1) && Bits(b, n)[..n - 1] == Bits(b, n - 1);
      WordBitsInjective(a, b, n - 1);
    }
  }

  lemma ByteBitsInjective(a: byte, b: byte)
    requires BitsOfByte(a) == BitsOfByte(b)
    ensures a == b
  {
    hide Bits;
    hide Shifted;
    ByteFits(a);
    ByteFits(b);
    ByteRunsOut(a as bv32, 8);
    ByteRunsOut(b as bv32, 8);
    NothingLeft(Shifted(a as bv32, 8));
    NothingLeft(Shifted(b as bv32, 8));
    WordBitsInjective(a as bv32, b as bv32, 8);
  }

  /** A burst changes the register, wherever it lies. */
  lemma BurstChangesRegister(start: bv32, a: seq<byte>, b: seq<byte>)
    requires |a| >= 4 && BurstApart(a, b) && a != b
    ensures Register(start, a) != Register(start, b)
  {
    var x, y := BitsOf(a), BitsOf(b);
    var first: nat :| DifferWithin(x, y, first);
    var n := |x|;
    var k := if first + 32 <= n then first else n - 32;
    hide BitsOf;
    assert x[..k] == y[..k] && x[k + 32..] == y[k + 32..];
    assert x == x[..k] + x[k..k + 32] + x[k + 32..];
    assert y == x[..k] + y[k..k + 32] + x[k + 32..];
    if Register(start, a) == Register(start, b) {
      RegisterIsBitRegister(start, a);
      RegisterIsBitRegister(start, b);
      BitRegisterSplit(start, x[..k] + x[k..k + 32], x[k + 32..]);
      BitRegisterSplit(start, x[..k] + y[k..k + 32], x[k + 32..]);
      BitRegisterSplit(start, x[..k], x[k..k + 32]);
      BitRegisterSplit(start, x[..k], y[k..k + 32]);
      var c := BitRegister(start, x[..k]);
      SuffixInjective(BitRegister(c, x[k..k + 32]), BitRegister(c, y[k..k + 32]), x[k + 32..]);
      WindowInjective(c, x[k..k + 32], y[k..k + 32]);
      BitsInjective(a, b);
    }
  }

  /** Replacing at most four consecutive bytes is a burst. */
  lemma SpliceIsBurst(prefix: seq<byte>, a: seq<byte>, b: seq<byte>, suffix: seq<byte>)
    requires |a| == |b| <= 4
    ensures BurstApart(prefix + a + suffix, prefix + b + suffix)
  {
    BitsOfSplit(prefix + a, suffix);
    BitsOfSplit(prefix + b, suffix);
    BitsOfSplit(prefix, a);
    BitsOfSplit(prefix, b);
    hide BitsOf;
    assert DifferWithin(BitsOf(prefix + a + suffix), BitsOf(prefix + b + suffix), |BitsOf(prefix)|);
  }

  // ---------- sealed messages ----------

  /** A message followed by its checksum, as frames and records are stored and sent. */
  function Sealed(data: seq<byte>): seq<byte> {
    data + WriteU32(Checksum(data))
  }

  predicate ChecksumMatches(m: seq<byte>)
    requires |m| >= 4
  {
    ReadU32(m[|m| - 4..]) == Checksum(m[..|m| - 4])
  }

  /** The register every sealed message ends in, and no other message does. */
  function Residue(): bv32 {
    Steps(ALL_ONES, 32)
  }

  lemma MatchesExactlySealed(m: seq<byte>)
    requires |m| >= 4
    ensures ChecksumMatches(m) <==> Register(ALL_ONES, m) == Residue()
  {
    hide Steps;
    hide Register;
    hide ReadU32;
    hide WriteU32;
    hide Xor;
    var data, tail := m[..|m| - 4], m[|m| - 4..];
    var c, w := Register(ALL_ONES, data), ReadU32(tail);
    WriteReadU32(tail);
    RegisterSplit(ALL_ONES, data, tail);
    FourBytes(c, w);
    assert m == data + tail;
    ComplementCancels(c, w);
    if Steps(Xor(c, w), 32) == Steps(ALL_ONES, 32) {
      StepsInjective(Xor(c, w), ALL_ONES, 32);
    }
  }

  lemma ComplementCancels(c: bv32, w: bv32)
    ensures w == Xor(c, ALL_ONES) <==> Xor(c, w) == ALL_ONES
  {
    hide Xor;
    XorTwice(c, ALL_ONES);
    XorTwice(c, w);
  }

  /** A message whose checksum matches, changed by any burst of up to 32 bits, no longer matches. */
  lemma BurstIsDetected(m: seq<byte>, corrupted: seq<byte>)
    requires |m| >= 4 && ChecksumMatches(m) && BurstApart(m, corrupted) && corrupted != m
    ensures !ChecksumMatches(corrupted)
  {
    hide ChecksumMatches;
    hide Register;
    hide BitsOf;
    MatchesExactlySealed(m);
    MatchesExactlySealed(corrupted);
    BurstChangesRegister(ALL_ONES, m, corrupted);
  }
}
