/** Reading a rolling counter scattered over the bits a mask selects. */
module CounterField {
  import opened Bytes

  /** The bits of a byte, lowest first. */
  function OctetBits(b: byte): (bits: seq<bool>)
    ensures |bits| == 8
  {
    [b & 1 != 0, b & 2 != 0, b & 4 != 0, b & 8 != 0, b & 0x10 != 0, b & 0x20 != 0, b & 0x40 != 0, b & 0x80 != 0]
  }

  function Pow2(n: nat): (p: nat)
    ensures p >= 1
  {
    if n == 0 then 1 else 2 * Pow2(n - 1)
  }

  /** How many of the first n bits are set. */
  function Count(mask: seq<bool>, n: nat): (c: nat)
    requires n <= |mask|
    ensures c <= n
  {
    if n == 0 then 0 else Count(mask, n - 1) + (if mask[n - 1] then 1 else 0)
  }

  /** The selected bits among the first n, packed together in order. */
  function Pack(mask: seq<bool>, value: seq<bool>, n: nat): nat
    requires n <= |mask| == |value|
  {
    if n == 0 then 0
    else Pack(mask, value, n - 1) + (if mask[n - 1] && value[n - 1] then Pow2(Count(mask, n - 1)) else 0)
  }

  /** The bits whose selected ones pack to a number. */
  function Unpack(mask: seq<bool>, x: nat, n: nat): (value: seq<bool>)
    requires n <= |mask|
    ensures |value| == n
  {
    if n == 0 then []
    else
      var weight := Pow2(Count(mask, n - 1));
      if mask[n - 1] && x >= weight then Unpack(mask, x - weight, n - 1) + [true]
      else Unpack(mask, x, n - 1) + [false]
  }

  // ---------- packing is a bijection from the selected bits ----------

  lemma {:induction false} PackBound(mask: seq<bool>, value: seq<bool>, n: nat)
    requires n <= |mask| == |value|
    ensures Pack(mask, value, n) < Pow2(Count(mask, n))
  {
    if n > 0 {
      PackBound(mask, value, n - 1);
    }
  }

  lemma {:induction false} PackInjective(mask: seq<bool>, v: seq<bool>, w: seq<bool>, n: nat)
    requires n <= |mask| == |v| == |w|
    ensures Pack(mask, v, n) == Pack(mask, w, n) <==> forall i :: 0 <= i < n && mask[i] ==> v[i] == w[i]
  {
    if n > 0 {
      PackInjective(mask, v, w, n - 1);
      PackBound(mask, v, n - 1);
      PackBound(mask, w, n - 1);
    }
  }

  lemma {:induction false} PackUnpack(mask: seq<bool>, x: nat, n: nat, value: seq<bool>)
    requires n <= |mask| == |value| && x < Pow2(Count(mask, n))
    requires value[..n] == Unpack(mask, x, n)
    ensures Pack(mask, value, n) == x
    ensures forall i :: 0 <= i < n && value[i] ==> mask[i]
  {
    if n > 0 {
      var weight := Pow2(Count(mask, n - 1));
      assert value[..n][..n - 1] == value[..n - 1] && value[..n][n - 1] == value[n - 1];
      PackUnpack(mask, if mask[n - 1] && x >= weight then x - weight else x, n - 1, value);
    }
  }

  // ---------- in terms of bytes ----------

  function BitCount(mask: byte): nat {
    Count(OctetBits(mask), 8)
  }

  function Extracted(mask: byte, value: byte): nat {
    Pack(OctetBits(mask), OctetBits(value), 8)
  }

  function ByteOf(bits: seq<bool>): byte
    requires |bits| == 8
  {
    (if bits[0] then 1 else 0) | (if bits[1] then 2 else 0) | (if bits[2] then 4 else 0) | (if bits[3] then 8 else 0)
    | (if bits[4] then 0x10 else 0) | (if bits[5] then 0x20 else 0) | (if bits[6] then 0x40 else 0) | (if bits[7] then 0x80 else 0)
  }

  lemma BitsOfByteOf(bits: seq<bool>)
    requires |bits| == 8
    ensures OctetBits(ByteOf(bits)) == bits
  {
  }

  lemma OctetBitsInjective(a: byte, b: byte)
    requires OctetBits(a) == OctetBits(b)
    ensures a == b
  {
    var x, y := OctetBits(a), OctetBits(b);
    assert x[0] == y[0] && x[1] == y[1] && x[2] == y[2] && x[3] == y[3];
    assert x[4] == y[4] && x[5] == y[5] && x[6] == y[6] && x[7] == y[7];
    ByteByBits(a);
    ByteByBits(b);
  }

  lemma ByteByBits(b: byte)
    ensures b == (b & 1) | (b & 2) | (b & 4) | (b & 8) | (b & 0x10) | (b & 0x20) | (b & 0x40) | (b & 0x80)
    ensures (b & 1 == 0 || b & 1 == 1) && (b & 2 == 0 || b & 2 == 2) && (b & 4 == 0 || b & 4 == 4) && (b & 8 == 0 || b & 8 == 8)
    ensures (b & 0x10 == 0 || b & 0x10 == 0x10) && (b & 0x20 == 0 || b & 0x20 == 0x20)
    ensures (b & 0x40 == 0 || b & 0x40 == 0x40) && (b & 0x80 == 0 || b & 0x80 == 0x80)
  {
  }

  const WEIGHTS: seq<byte> := [1, 2, 4, 8, 0x10, 0x20, 0x40, 0x80]

  lemma BitTest(b: byte, i: nat)
    requires i < 8
    ensures OctetBits(b)[i] == (b & WEIGHTS[i] != 0)
  {
  }

  lemma AndTest(b: byte, mask: byte, w: byte)
    requires w == 1 || w == 2 || w == 4 || w == 8 || w == 0x10 || w == 0x20 || w == 0x40 || w == 0x80
    ensures ((b & mask) & w != 0) == (b & w != 0 && mask & w != 0)
  {
  }

  lemma MaskedBit(b: byte, mask: byte, i: nat)
    requires i < 8
    ensures OctetBits(b & mask)[i] == (OctetBits(b)[i] && OctetBits(mask)[i])
  {
    hide OctetBits;
    BitTest(b & mask, i);
    BitTest(b, i);
    BitTest(mask, i);
    AndTest(b, mask, WEIGHTS[i]);
  }

  lemma MaskedBits(b: byte, mask: byte)
    ensures forall i :: 0 <= i < 8 ==> OctetBits(b & mask)[i] == (OctetBits(b)[i] && OctetBits(mask)[i])
  {
    hide OctetBits;
    forall i | 0 <= i < 8
      ensures OctetBits(b & mask)[i] == (OctetBits(b)[i] && OctetBits(mask)[i])
    {
      MaskedBit(b, mask, i);
    }
  }

  /** Two bytes carry the same counter exactly when they agree under the mask. */
  lemma SameCounterExactly(mask: byte, a: byte, b: byte)
    ensures Extracted(mask, a) == Extracted(mask, b) <==> a & mask == b & mask
  {
    hide OctetBits;
    MaskedBits(a, mask);
    MaskedBits(b, mask);
    PackInjective(OctetBits(mask), OctetBits(a), OctetBits(b), 8);
    if Extracted(mask, a) == Extracted(mask, b) {
      var x, y := OctetBits(a & mask), OctetBits(b & mask);
      forall i | 0 <= i < 8
        ensures x[i] == y[i]
      {
        assert OctetBits(mask)[i] ==> OctetBits(a)[i] == OctetBits(b)[i];
      }
      OctetBitsInjective(a & mask, b & mask);
    } else {
      var i :| 0 <= i < 8 && OctetBits(mask)[i] && OctetBits(a)[i] != OctetBits(b)[i];
      assert OctetBits(a & mask)[i] != OctetBits(b & mask)[i];
    }
  }

  /** Every number below two to the number of mask bits is the counter of some byte inside the mask. */
  lemma EveryCounterOccurs(mask: byte, x: nat)
    requires x < Pow2(BitCount(mask))
    ensures exists b: byte :: b & mask == b && Extracted(mask, b) == x
  {
    hide OctetBits;
    hide ByteOf;
    hide Pack;
    hide Unpack;
    hide Count;
    var bits := Unpack(OctetBits(mask), x, 8);
    var b := ByteOf(bits);
    BitsOfByteOf(bits);
    assert bits[..8] == bits;
    PackUnpack(OctetBits(mask), x, 8, bits);
    InsideMask(mask, b);
    assert b & mask == b && Extracted(mask, b) == x;
  }

  lemma InsideMask(mask: byte, b: byte)
    requires forall i :: 0 <= i < 8 && OctetBits(b)[i] ==> OctetBits(mask)[i]
    ensures b & mask == b
  {
    hide OctetBits;
    MaskedBits(b, mask);
    var x, y := OctetBits(b & mask), OctetBits(b);
    assert forall i :: 0 <= i < 8 ==> x[i] == y[i];
    OctetBitsInjective(b & mask, b);
  }

  lemma ExtractedBound(mask: byte, value: byte)
    ensures Extracted(mask, value) < Pow2(BitCount(mask))
  {
    PackBound(OctetBits(mask), OctetBits(value), 8);
  }

  // ---------- the loops ----------

  lemma ShiftedOne(i: nat)
    requires i < 8
    ensures (1 as byte) << i == WEIGHTS[i]
  {
    if i == 0 {
    } else if i == 1 {
    } else if i == 2 {
    } else if i == 3 {
    } else if i == 4 {
    } else if i == 5 {
    } else if i == 6 {
    } else {
    }
  }

  function ShiftedDown(mask: byte, n: nat): byte {
    if n == 0 then mask else ShiftedDown(mask, n - 1) >> 1
  }

  lemma HalvedTest(x: byte, w: byte)
    requires w < 0x80
    ensures ((x >> 1) & w != 0) == (x & (w << 1) != 0)
  {
  }

  lemma DoubledWeight(i: nat)
    requires i < 7
    ensures WEIGHTS[i] < 0x80 && WEIGHTS[i] << 1 == WEIGHTS[i + 1]
  {
    var w := WEIGHTS[i];
    assert w == 1 || w == 2 || w == 4 || w == 8 || w == 0x10 || w == 0x20 || w == 0x40;
  }

  lemma {:induction false} ShiftedTest(mask: byte, n: nat, i: nat)
    requires n + i < 8
    ensures (ShiftedDown(mask, n) & WEIGHTS[i] != 0) == (mask & WEIGHTS[n + i] != 0)
  {
    if n > 0 {
      HalvedTest(ShiftedDown(mask, n - 1), WEIGHTS[i]);
      DoubledWeight(i);
      ShiftedTest(mask, n - 1, i + 1);
    }
  }

  lemma LowBitAt(mask: byte, n: nat)
    requires n < 8
    ensures (ShiftedDown(mask, n) & 1 != 0) == OctetBits(mask)[n]
  {
    hide OctetBits;
    hide ShiftedDown;
    ShiftedTest(mask, n, 0);
    BitTest(mask, n);
  }

  const ROOM: seq<byte> := [0xFF, 0x7F, 0x3F, 0x1F, 0xF, 7, 3, 1, 0]

  lemma {:induction false} RunsOut(mask: byte, n: nat)
    requires n <= 8
    ensures ShiftedDown(mask, n) <= ROOM[n]
  {
    if n > 0 {
      RunsOut(mask, n - 1);
      HalvedRoom(ShiftedDown(mask, n - 1), ROOM[n - 1]);
    }
  }

  lemma HalvedRoom(x: byte, room: byte)
    requires x <= room
    ensures x >> 1 <= room >> 1
  {
  }

  lemma {:induction false} NothingAbove(mask: byte, n: nat, m: nat)
    requires n <= m <= 8 && ShiftedDown(mask, n) == 0
    ensures ShiftedDown(mask, m) == 0 && Count(OctetBits(mask), m) == Count(OctetBits(mask), n)
  {
    hide OctetBits;
    if n < m {
      NothingAbove(mask, n, m - 1);
      LowBitAt(mask, m - 1);
    }
  }

  /** Counts the bits of a mask by shifting them out until none is left. */
  method CountBits(mask: byte) returns (count: nat)
    ensures count == BitCount(mask)
  {
    hide OctetBits;
    count := 0;
    var bits := mask;
    ghost var n := 0;
    while bits != 0
      invariant n <= 8 && bits == ShiftedDown(mask, n) && count == Count(OctetBits(mask), n)
      decreases 8 - n
    {
      RunsOut(mask, n);
      LowBitAt(mask, n);
      count := count + (if bits & 1 != 0 then 1 else 0);
      bits := bits >> 1;
      n := n + 1;
    }
    NothingAbove(mask, n, 8);
  }

  /** Packs the selected bits of a data byte; the bit set next is always above those already packed. */
  method Extract(mask: byte, value: byte) returns (packed: nat)
    ensures packed == Extracted(mask, value)
  {
    hide OctetBits;
    packed := 0;
    var outputWeight := 1;
    for inputBit := 0 to 8
      invariant packed == Pack(OctetBits(mask), OctetBits(value), inputBit)
      invariant outputWeight == Pow2(Count(OctetBits(mask), inputBit))
    {
      var inputMask := (1 as byte) << inputBit;
      ShiftedOne(inputBit);
      BitTest(mask, inputBit);
      BitTest(value, inputBit);
      if mask & inputMask != 0 {
        if value & inputMask != 0 {
          packed := packed + outputWeight;
        }
        outputWeight := 2 * outputWeight;
      }
    }
  }
}
