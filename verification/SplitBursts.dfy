/** Bursts that may reach from the covered bytes of a frame into its checksum. Between the two the
    receiver adds the extra byte, which is why a few of them pass. */
module SplitBursts {
  import opened Bursts
  import opened Crc
  import opened Differences

  /** The bursts that pass unseen, as the change of the last two covered bytes and the change of the
      checksum: seven patterns. */
  predicate Blind(a: bv16, w: bv16) {
    || (a == 0x5188 && w == 1) || (a == 0xA310 && w == 2) || (a == 0xF298 && w == 3) || (a == 0xAC40 && w == 41)
    || (a == 0x9100 && w == 133) || (a == 0x6400 && w == 565) || (a == 0xC800 && w == 1130)
  }

  const LOW: seq<bv16> :=
    [0, 1, 3, 7, 0xF, 0x1F, 0x3F, 0x7F, 0xFF, 0x1FF, 0x3FF, 0x7FF, 0xFFF, 0x1FFF, 0x3FFF, 0x7FFF, 0xFFFF]

  /** The change starts in bit s of the last two covered bytes and ends before bit s of the checksum. */
  predicate Spans16(s: nat, a: bv16, w: bv16)
    requires s <= 16
  {
    LowClear(s, a) && HighClear(s, w)
  }

  /** The lowest s bits are zero. */
  predicate LowClear(s: nat, a: bv16)
    requires s <= 16
  {
    a & LOW[s] == 0
  }

  /** All but the lowest s bits are zero. */
  predicate HighClear(s: nat, w: bv16)
    requires s <= 16
  {
    w & LOW[s] == w
  }

  /** Three bytes further on, in shift form. */
  function ThreeBytesOn(a: bv16): bv16 {
    Accumulate(0, Accumulate(0, Accumulate(0, a)))
  }

  lemma BlindTo2(s: nat, a: bv16, w: bv16)
    requires 1 <= s <= 2 && Spans16(s, a, w) && w != 0
    ensures ThreeBytesOn(a) == w <==> Blind(a, w)
  {
    assert s == 1 || s == 2;
  }

  lemma BlindTo4(s: nat, a: bv16, w: bv16)
    requires 3 <= s <= 4 && Spans16(s, a, w) && w != 0
    ensures ThreeBytesOn(a) == w <==> Blind(a, w)
  {
    assert s == 3 || s == 4;
  }

  lemma BlindTo7(s: nat, a: bv16, w: bv16)
    requires 5 <= s <= 7 && Spans16(s, a, w) && w != 0
    ensures ThreeBytesOn(a) == w <==> Blind(a, w)
  {
    assert s == 5 || s == 6 || s == 7;
  }

  lemma BlindTo10(s: nat, a: bv16, w: bv16)
    requires 8 <= s <= 10 && Spans16(s, a, w) && w != 0
    ensures ThreeBytesOn(a) == w <==> Blind(a, w)
  {
    assert s == 8 || s == 9 || s == 10;
  }

  lemma BlindTo15(s: nat, a: bv16, w: bv16)
    requires 11 <= s <= 15 && Spans16(s, a, w) && w != 0
    ensures ThreeBytesOn(a) == w <==> Blind(a, w)
  {
    assert s == 11 || s == 12 || s == 13 || s == 14 || s == 15;
  }

  /** For every place where the burst may start, the seven patterns are all that pass. */
  lemma BlindIff(s: nat, a: bv16, w: bv16)
    requires 1 <= s <= 15 && Spans16(s, a, w) && w != 0
    ensures ThreeBytesOn(a) == w <==> Blind(a, w)
  {
    hide ThreeBytesOn, Blind, Spans16;
    if s <= 2 {
      BlindTo2(s, a, w);
    } else if s <= 4 {
      BlindTo4(s, a, w);
    } else if s <= 7 {
      BlindTo7(s, a, w);
    } else if s <= 10 {
      BlindTo10(s, a, w);
    } else {
      BlindTo15(s, a, w);
    }
  }

  lemma BlindNeedsBoth(a: bv16, w: bv16)
    ensures Blind(a, w) ==> a != 0 && w != 0
  {}

  // ---- From bits to words -----------------------------------------------------------------

  const BIT: seq<bv16> :=
    [1, 2, 4, 8, 0x10, 0x20, 0x40, 0x80, 0x100, 0x200, 0x400, 0x800, 0x1000, 0x2000, 0x4000, 0x8000]

  predicate Bit(p: bv16, j: nat)
    requires j < 16
  {
    p & BIT[j] != 0
  }

  lemma LowStep(s: nat, a: bv16)
    requires s < 8 && LowClear(s, a) && !Bit(a, s)
    ensures LowClear(s + 1, a)
  {
    assert s == 0 || s == 1 || s == 2 || s == 3 || s == 4 || s == 5 || s == 6 || s == 7;
  }

  lemma LowStepAbove(s: nat, a: bv16)
    requires 8 <= s < 16 && LowClear(s, a) && !Bit(a, s)
    ensures LowClear(s + 1, a)
  {
    assert s == 8 || s == 9 || s == 10 || s == 11 || s == 12 || s == 13 || s == 14 || s == 15;
  }

  lemma NothingBelow(a: bv16)
    ensures LowClear(0, a)
  {}

  lemma {:induction false} LowFromBits(s: nat, a: bv16)
    requires s <= 16 && forall j :: 0 <= j < s ==> !Bit(a, j)
    ensures LowClear(s, a)
  {
    hide Bit, LowClear;
    if s == 0 {
      NothingBelow(a);
    } else {
      LowFromBits(s - 1, a);
      if s <= 8 {
        LowStep(s - 1, a);
      } else {
        LowStepAbove(s - 1, a);
      }
    }
  }

  lemma HighStep(s: nat, w: bv16)
    requires s < 8 && HighClear(s + 1, w) && !Bit(w, s)
    ensures HighClear(s, w)
  {
    assert s == 0 || s == 1 || s == 2 || s == 3 || s == 4 || s == 5 || s == 6 || s == 7;
  }

  lemma HighStepAbove(s: nat, w: bv16)
    requires 8 <= s < 16 && HighClear(s + 1, w) && !Bit(w, s)
    ensures HighClear(s, w)
  {
    assert s == 8 || s == 9 || s == 10 || s == 11 || s == 12 || s == 13 || s == 14 || s == 15;
  }

  lemma NothingAbove(w: bv16)
    ensures HighClear(16, w)
  {}

  lemma {:induction false} HighFromBits(s: nat, w: bv16)
    requires s <= 16 && forall j :: s <= j < 16 ==> !Bit(w, j)
    ensures HighClear(s, w)
    decreases 16 - s
  {
    hide Bit, HighClear;
    if s == 16 {
      NothingAbove(w);
    } else {
      HighFromBits(s + 1, w);
      if s < 8 {
        HighStep(s, w);
      } else {
        HighStepAbove(s, w);
      }
    }
  }

  const MASK: seq<bv8> := [1, 2, 4, 8, 16, 32, 64, 128]

  lemma XorMasked(b: bv8, c: bv8, m: bv8)
    ensures (b ^ c) & m == (b & m) ^ (c & m)
  {}

  lemma XorOneBit(b: bv8, c: bv8, m: bv8)
    requires (b == 0 || b == m) && (c == 0 || c == m)
    ensures b ^ c != 0 <==> (b != 0) != (c != 0)
  {}

  lemma MaskedBit(b: bv8, m: bv8)
    requires m == 1 || m == 2 || m == 4 || m == 8 || m == 16 || m == 32 || m == 64 || m == 128
    ensures b & m == 0 || b & m == m
  {}

  lemma XorBit(b: bv8, c: bv8, j: nat)
    requires j < 8
    ensures ByteBits(XorByte(b, c))[j] <==> ByteBits(b)[j] != ByteBits(c)[j]
  {
    var m := MASK[j];
    MaskedBit(b, m);
    MaskedBit(c, m);
    XorMasked(b, c, m);
    XorOneBit(b & m, c & m, m);
    BitIsMasked(b, j);
    BitIsMasked(c, j);
    BitIsMasked(XorByte(b, c), j);
    hide ByteBits;
  }

  lemma BitIsMasked(b: bv8, j: nat)
    requires j < 8
    ensures ByteBits(b)[j] <==> b & MASK[j] != 0
  {
    assert j == 0 || j == 1 || j == 2 || j == 3 || j == 4 || j == 5 || j == 6 || j == 7;
  }

  lemma MaskLow(lo: bv8, hi: bv8, m: bv8)
    ensures Join(lo, hi) & (m as bv16) == (lo & m) as bv16
  {}

  lemma MaskHigh(lo: bv8, hi: bv8, m: bv8)
    ensures Join(lo, hi) & Up8(m) == Up8(hi & m)
  {}

  lemma SameMask(j: nat)
    requires j < 8
    ensures BIT[j] == MASK[j] as bv16 && BIT[j + 8] == Up8(MASK[j])
  {
    assert j == 0 || j == 1 || j == 2 || j == 3 || j == 4 || j == 5 || j == 6 || j == 7;
  }

  lemma Up8IsZero(b: bv8)
    ensures Up8(b) == 0 <==> b == 0
  {}

  lemma WideIsZero(b: bv8)
    ensures b as bv16 == 0 <==> b == 0
  {}

  lemma LowBitOfJoin(lo: bv8, hi: bv8, j: nat)
    requires j < 8
    ensures Bit(Join(lo, hi), j) <==> ByteBits(lo)[j]
  {
    BitIsMasked(lo, j);
    SameMask(j);
    hide ByteBits, Join, Up8, BIT, MASK;
    MaskLow(lo, hi, MASK[j]);
    WideIsZero(lo & MASK[j]);
  }

  lemma HighBitOfJoin(lo: bv8, hi: bv8, j: nat)
    requires j < 8
    ensures Bit(Join(lo, hi), j + 8) <==> ByteBits(hi)[j]
  {
    BitIsMasked(hi, j);
    SameMask(j);
    hide ByteBits, Join, Up8, BIT, MASK;
    MaskHigh(lo, hi, MASK[j]);
    Up8IsZero(hi & MASK[j]);
  }

  /** Bit j of the change of two bytes. */
  lemma ChangedBit(b0: bv8, b1: bv8, c0: bv8, c1: bv8, j: nat)
    requires j < 16
    ensures Bit(Join(XorByte(b0, c0), XorByte(b1, c1)), j)
            <==> if j < 8 then ByteBits(b0)[j] != ByteBits(c0)[j] else ByteBits(b1)[j - 8] != ByteBits(c1)[j - 8]
  {
    hide Bit, Join, ByteBits;
    if j < 8 {
      LowBitOfJoin(XorByte(b0, c0), XorByte(b1, c1), j);
      XorBit(b0, c0, j);
    } else {
      HighBitOfJoin(XorByte(b0, c0), XorByte(b1, c1), j - 8);
      XorBit(b1, c1, j - 8);
    }
  }

  lemma Up8Xor(b: bv8, d: bv8)
    ensures Xor(Up8(b), Up8(d)) == Up8(XorByte(b, d))
  {}

  lemma JoinXor(a: bv8, b: bv8, c: bv8, d: bv8)
    ensures Xor(Join(a, b), Join(c, d)) == Join(XorByte(a, c), XorByte(b, d))
  {
    JoinIsXor(a, b);
    JoinIsXor(c, d);
    JoinIsXor(XorByte(a, c), XorByte(b, d));
    hide Join, Xor, Up8, XorByte;
    XorRegroups(a as bv16, Up8(b), c as bv16, Up8(d));
    XorOfBytes(a, c);
    Up8Xor(b, d);
  }

  lemma LastTwo(a: bv8, b: bv8)
    ensures Accumulate(0, Crc16(0, [a, b])) == ThreeBytesOn(Join(a, b))
  {
    CrcConcat(0, [a], [b]);
    assert [a] + [b] == [a, b] && [b][1..] == [];
    CrcOfOne(a);
    JoinIsXor(a, b);
    ShiftFormIsBitwise(b, EightBits(a as bv16));
    EightBitsLinear(a as bv16, Up8(b));
    EightBitsOfHigh(b);
    AccumulateZero(Join(a, b));
    hide Accumulate, EightBits, Xor, Join, Up8;
    AccumulateZero(EightBits(Join(a, b)));
  }

  lemma JoinIsXor(a: bv8, b: bv8)
    ensures Join(a, b) == Xor(a as bv16, Up8(b))
  {}

  // ---- Every burst of up to 16 bits ---------------------------------------------------------

  /** The change of the last two covered bytes of x, whose last two bytes are the checksum. */
  function CoveredChange(x: seq<bv8>, y: seq<bv8>): bv16
    requires |x| == |y| >= 4
  {
    var n := |x| - 2;
    Join(XorByte(x[n - 2], y[n - 2]), XorByte(x[n - 1], y[n - 1]))
  }

  function ChecksumChange(x: seq<bv8>, y: seq<bv8>): bv16
    requires |x| == |y| >= 2
  {
    var n := |x| - 2;
    Join(XorByte(x[n], y[n]), XorByte(x[n + 1], y[n + 1]))
  }

  /** The checksum of the changed bytes, with the extra byte changed as well, changes just as the
      received one. */
  predicate Cancels(extra: bv8, x: seq<bv8>, y: seq<bv8>)
    requires |x| == |y| >= 2
  {
    var n := |x| - 2;
    Accumulate(extra, Crc16(0, Difference(x[..n], y[..n]))) == ChecksumChange(x, y)
  }

  lemma SameByteFromBits(x: seq<bv8>, y: seq<bv8>, i: nat)
    requires i < |x| == |y| && forall j :: 8 * i <= j < 8 * i + 8 ==> Bits(x)[j] == Bits(y)[j]
    ensures x[i] == y[i]
  {
    forall j | 0 <= j < 8
      ensures ByteBits(x[i])[j] == ByteBits(y[i])[j]
    {
      BitsAt(x, i, j);
      BitsAt(y, i, j);
      assert Bits(x)[8 * i + j] == Bits(y)[8 * i + j];
    }
    hide ByteBits, Bits;
    assert ByteBits(x[i]) == ByteBits(y[i]);
    ByteBitsInjective(x[i], y[i]);
  }

  lemma SamePrefix(x: seq<bv8>, y: seq<bv8>, m: nat)
    requires m <= |x| == |y| && forall j :: 0 <= j < 8 * m ==> Bits(x)[j] == Bits(y)[j]
    ensures x[..m] == y[..m]
  {
    forall i | 0 <= i < m
      ensures x[i] == y[i]
    {
      SameByteFromBits(x, y, i);
    }
  }

  lemma {:induction false} BitsOfPrefix(x: seq<bv8>, n: nat)
    requires n <= |x|
    ensures Bits(x[..n]) == Bits(x)[..8 * n]
    decreases n
  {
    hide ByteBits;
    if n > 0 {
      assert x[..n][0] == x[0] && x[..n][1..] == x[1..][..n - 1];
      BitsOfPrefix(x[1..], n - 1);
    }
  }

  lemma NonzeroMovesOn(c: bv16)
    requires c != 0
    ensures Accumulate(0, c) != 0
  {
    AccumulateZero(c);
    EightBitsOfNothing();
    if EightBits(c) == 0 {
      EightBitsInjective(c, 0);
    }
    hide Accumulate, EightBits;
  }

  lemma JoinIsZero(lo: bv8, hi: bv8)
    ensures Join(lo, hi) == 0 <==> lo == 0 && hi == 0
  {}

  lemma XorOfBytesIsZero(a: bv8, b: bv8)
    ensures XorByte(a, b) == 0 <==> a == b
  {}

  /** The checksum stayed: the burst lies in the covered bytes and is seen. */
  lemma InCoveredBytes(x: seq<bv8>, y: seq<bv8>, at: nat)
    requires |x| >= 4 && Burst(x, y, at) && ChecksumChange(x, y) == 0
    ensures !Cancels(0, x, y)
  {
    var n := |x| - 2;
    JoinIsZero(XorByte(x[n], y[n]), XorByte(x[n + 1], y[n + 1]));
    XorOfBytesIsZero(x[n], y[n]);
    XorOfBytesIsZero(x[n + 1], y[n + 1]);
    BitsOfPrefix(x, n);
    BitsOfPrefix(y, n);
    hide Bits, Crc16, Accumulate, Join, Xor, XorByte, Difference;
    AllButTwo(x);
    AllButTwo(y);
    BurstSeen(0, x[..n], y[..n], at);
    SameStart(0, x[..n], y[..n]);
    XorIsZero(Crc16(0, x[..n]), Crc16(0, y[..n]));
    NonzeroMovesOn(Crc16(0, Difference(x[..n], y[..n])));
  }

  /** The covered bytes stayed. */
  lemma InTheChecksum(x: seq<bv8>, y: seq<bv8>)
    requires |x| == |y| >= 4 && x[..|x| - 2] == y[..|x| - 2] && ChecksumChange(x, y) != 0
    ensures !Cancels(0, x, y) && CoveredChange(x, y) == 0
  {
    var n := |x| - 2;
    assert x[n - 2] == x[..n][n - 2] == y[n - 2] && x[n - 1] == x[..n][n - 1] == y[n - 1];
    XorOfBytesIsZero(x[n - 2], y[n - 2]);
    XorOfBytesIsZero(x[n - 1], y[n - 1]);
    JoinIsZero(0, 0);
    NoDifference(x[..n]);
    ZerosMoveOn(0, n);
    NothingStaysNothing(n);
    AccumulateZero(0);
    EightBitsOfNothing();
    hide Crc16, Accumulate, Join, EightBits, XorByte;
  }

  /** The burst lies across the boundary, s bits of it behind. */
  lemma AcrossTheBoundary(x: seq<bv8>, y: seq<bv8>, at: nat)
    requires |x| >= 4 && Burst(x, y, at) && 8 * (|x| - 4) < at < 8 * (|x| - 2) && ChecksumChange(x, y) != 0
    ensures Cancels(0, x, y) <==> Blind(CoveredChange(x, y), ChecksumChange(x, y))
  {
    var n := |x| - 2;
    var s := at + 16 - 8 * n;
    SpansAt(x, y, at);
    SamePrefix(x, y, n - 2);
    LastTwoDiffer(x[..n], y[..n]);
    hide Bits, Crc16, Accumulate, Join, Difference, Spans16, ThreeBytesOn, Blind, Burst, XorByte;
    LastTwo(XorByte(x[n - 2], y[n - 2]), XorByte(x[n - 1], y[n - 1]));
    BlindIff(s, CoveredChange(x, y), ChecksumChange(x, y));
  }

  lemma SpansAt(x: seq<bv8>, y: seq<bv8>, at: nat)
    requires |x| >= 4 && Burst(x, y, at) && 8 * (|x| - 4) < at < 8 * (|x| - 2)
    ensures Spans16(at + 16 - 8 * (|x| - 2), CoveredChange(x, y), ChecksumChange(x, y))
  {
    var n := |x| - 2;
    var s := at + 16 - 8 * n;
    hide Join, Bit, ByteBits, LowClear, HighClear, XorByte;
    forall j | 0 <= j < s
      ensures !Bit(CoveredChange(x, y), j)
    {
      ChangedBit(x[n - 2], x[n - 1], y[n - 2], y[n - 1], j);
      BitOfTwo(x, y, n - 2, j);
    }
    LowFromBits(s, CoveredChange(x, y));
    forall j | s <= j < 16
      ensures !Bit(ChecksumChange(x, y), j)
    {
      ChangedBit(x[n], x[n + 1], y[n], y[n + 1], j);
      BitOfTwo(x, y, n, j);
    }
    HighFromBits(s, ChecksumChange(x, y));
  }

  lemma BitOfTwo(x: seq<bv8>, y: seq<bv8>, i: nat, j: nat)
    requires i + 1 < |x| == |y| && j < 16 && Bits(x)[8 * i + j] == Bits(y)[8 * i + j]
    ensures if j < 8 then ByteBits(x[i])[j] == ByteBits(y[i])[j] else ByteBits(x[i + 1])[j - 8] == ByteBits(y[i + 1])[j - 8]
  {
    hide ByteBits, Bits;
    if j < 8 {
      BitsAt(x, i, j);
      BitsAt(y, i, j);
    } else {
      BitsAt(x, i + 1, j - 8);
      BitsAt(y, i + 1, j - 8);
    }
  }

  lemma AllButTwo(x: seq<bv8>)
    requires |x| >= 2
    ensures x == x[..|x| - 2] + [x[|x| - 2], x[|x| - 1]]
  {
  }

  lemma LastTwoDiffer(x: seq<bv8>, y: seq<bv8>)
    requires |x| == |y| >= 2 && x[..|x| - 2] == y[..|x| - 2]
    ensures var m := |x| - 2; Crc16(0, Difference(x, y)) == Crc16(0, [XorByte(x[m], y[m]), XorByte(x[m + 1], y[m + 1])])
  {
    var m := |x| - 2;
    TwoDifferences(x[m], x[m + 1], y[m], y[m + 1]);
    hide Difference, Zeros, Crc16, XorByte;
    AllButTwo(x);
    AllButTwo(y);
    DifferenceConcat(x[..m], x[..m], [x[m], x[m + 1]], [y[m], y[m + 1]]);
    NoDifference(x[..m]);
    ZerosBefore(m, [XorByte(x[m], y[m]), XorByte(x[m + 1], y[m + 1])]);
  }

  lemma TwoDifferences(a: bv8, b: bv8, c: bv8, d: bv8)
    ensures Difference([a, b], [c, d]) == [XorByte(a, c), XorByte(b, d)]
  {
    hide XorByte;
    assert [a, b][1..] == [b] && [c, d][1..] == [d];
    assert Difference([b], [d]) == [XorByte(b, d)];
  }

  /** Every burst of up to 16 bits over the covered bytes and the checksum is seen, except exactly
      for the seven patterns. */
  lemma BurstUnseenIff(x: seq<bv8>, y: seq<bv8>, at: nat)
    requires |x| >= 4 && Burst(x, y, at)
    ensures Cancels(0, x, y) <==> Blind(CoveredChange(x, y), ChecksumChange(x, y))
  {
    var n := |x| - 2;
    BlindNeedsBoth(CoveredChange(x, y), ChecksumChange(x, y));
    if ChecksumChange(x, y) == 0 {
      InCoveredBytes(x, y, at);
    } else if at >= 8 * n {
      SamePrefix(x, y, n);
      InTheChecksum(x, y);
    } else {
      ReachesTheChecksum(x, y, at);
      AcrossTheBoundary(x, y, at);
    }
    hide Cancels, Blind, CoveredChange, ChecksumChange, Burst;
  }

  lemma ReachesTheChecksum(x: seq<bv8>, y: seq<bv8>, at: nat)
    requires |x| >= 4 && Burst(x, y, at) && ChecksumChange(x, y) != 0
    ensures 8 * (|x| - 4) < at
  {
    var n := |x| - 2;
    if at + 16 <= 8 * n {
      SameByteFromBits(x, y, n);
      SameByteFromBits(x, y, n + 1);
      hide Bits, ChecksumChange;
      SameChecksum(x, y);
    }
  }

  lemma SameChecksum(x: seq<bv8>, y: seq<bv8>)
    requires |x| == |y| >= 2 && x[|x| - 2] == y[|x| - 2] && x[|x| - 1] == y[|x| - 1]
    ensures ChecksumChange(x, y) == 0
  {
    var n := |x| - 2;
    XorOfBytesIsZero(x[n], y[n]);
    XorOfBytesIsZero(x[n + 1], y[n + 1]);
    JoinIsZero(0, 0);
  }
}
