/** The CRC as a machine that takes one bit at a time, lowest bit of each byte first, and what follows
    for error bursts: every change confined to 16 consecutive bits is seen, wherever it starts. */
module Bursts {
  import opened Crc

  // ---- One bit at a time ------------------------------------------------------------

  function BitOf(b: bool): bv16 {
    if b then 1 else 0
  }

  function FeedBit(crc: bv16, b: bool): bv16 {
    BitStep(Xor(crc, BitOf(b)))
  }

  function Serial(crc: bv16, bits: seq<bool>): bv16
    decreases |bits|
  {
    if bits == [] then crc else Serial(FeedBit(crc, bits[0]), bits[1..])
  }

  lemma {:induction false} SerialConcat(crc: bv16, a: seq<bool>, b: seq<bool>)
    ensures Serial(crc, a + b) == Serial(Serial(crc, a), b)
    decreases |a|
  {
    if a == [] {
      assert a + b == b;
    } else {
      assert (a + b)[0] == a[0] && (a + b)[1..] == a[1..] + b;
      SerialConcat(FeedBit(crc, a[0]), a[1..], b);
    }
  }

  lemma XorInjectiveLeft(c: bv16, d: bv16, x: bv16)
    requires Xor(c, x) == Xor(d, x)
    ensures c == d
  {}

  lemma FeedBitInjective(c: bv16, d: bv16, b: bool)
    requires FeedBit(c, b) == FeedBit(d, b)
    ensures c == d
  {
    BitBackUndoes(Xor(c, BitOf(b)));
    BitBackUndoes(Xor(d, BitOf(b)));
    hide BitStep, BitBack, Xor, BitOf;
    XorInjectiveLeft(c, d, BitOf(b));
  }

  lemma {:induction false} SerialInjectiveInStart(c: bv16, d: bv16, bits: seq<bool>)
    requires c != d
    ensures Serial(c, bits) != Serial(d, bits)
    decreases |bits|
  {
    if bits != [] {
      hide FeedBit;
      if FeedBit(c, bits[0]) == FeedBit(d, bits[0]) {
        FeedBitInjective(c, d, bits[0]);
      }
      SerialInjectiveInStart(FeedBit(c, bits[0]), FeedBit(d, bits[0]), bits[1..]);
    }
  }

  // ---- Up to 16 bits at once ----------------------------------------------------------

  /** A number with one more bit below it. */
  function Push(b: bool, p: bv16): bv16 {
    Xor(BitOf(b), p << 1)
  }

  /** The bits as a number, the first one lowest. */
  function Packed(bits: seq<bool>): bv16 {
    if bits == [] then 0 else Push(bits[0], Packed(bits[1..]))
  }

  const TOP: seq<bv16> := [0, 1, 3, 7, 0xF, 0x1F, 0x3F, 0x7F, 0xFF, 0x1FF, 0x3FF, 0x7FF, 0xFFF, 0x1FFF, 0x3FFF, 0x7FFF]

  /** The number has at most n bits. */
  predicate Narrow(n: nat, p: bv16)
    requires n <= 15
  {
    p <= TOP[n]
  }

  /** Its top bit is free. */
  predicate TopFree(p: bv16) {
    p & 0x8000 == 0
  }

  lemma PushNarrow(n: nat, b: bool, p: bv16)
    requires n < 15 && Narrow(n, p)
    ensures Narrow(n + 1, Push(b, p))
  {
    assert n < 5 || 5 <= n < 10 || 10 <= n;
  }

  lemma NarrowIsTopFree(n: nat, p: bv16)
    requires n <= 15 && Narrow(n, p)
    ensures TopFree(p)
  {
    assert TOP[n] <= 0x7FFF;
    LowHalf(p);
  }

  lemma LowHalf(p: bv16)
    requires p <= 0x7FFF
    ensures TopFree(p)
  {}

  lemma NothingIsNarrow()
    ensures Narrow(0, 0)
  {}

  lemma {:induction false} PackedIsNarrow(bits: seq<bool>)
    requires |bits| <= 15
    ensures Narrow(|bits|, Packed(bits)) && TopFree(Packed(bits))
  {
    hide Narrow, Push, TopFree;
    if bits == [] {
      NothingIsNarrow();
    } else {
      PackedIsNarrow(bits[1..]);
      PushNarrow(|bits| - 1, bits[0], Packed(bits[1..]));
    }
    NarrowIsTopFree(|bits|, Packed(bits));
  }

  /** What stands above the lowest bit can as well be added after the step. */
  lemma StepPacks(crc: bv16, b: bool, p: bv16)
    requires TopFree(p)
    ensures BitStep(Xor(crc, Push(b, p))) == Xor(FeedBit(crc, b), p)
  {
    DoubleAndHalve(p);
    hide BitStep, Xor, BitOf, TopFree;
    XorAssociates(crc, BitOf(b), p << 1);
    BitStepLinear(Xor(crc, BitOf(b)), p << 1);
  }

  lemma DoubleAndHalve(p: bv16)
    requires TopFree(p)
    ensures BitStep(p << 1) == p
  {}

  lemma {:induction false} SerialAtOnce(crc: bv16, bits: seq<bool>)
    requires |bits| <= 16
    ensures Serial(crc, bits) == Iterate(BitStep, |bits|, Xor(crc, Packed(bits)))
    decreases |bits|
  {
    hide BitStep, FeedBit, Xor, Push, TopFree, Narrow;
    if bits == [] {
      XorNothing(crc);
    } else {
      var p := Packed(bits[1..]);
      PackedIsNarrow(bits[1..]);
      StepPacks(crc, bits[0], p);
      SerialAtOnce(FeedBit(crc, bits[0]), bits[1..]);
    }
  }

  lemma PushInjective(a: bool, b: bool, p: bv16, q: bv16)
    requires TopFree(p) && TopFree(q) && Push(a, p) == Push(b, q)
    ensures a == b && p == q
  {}

  lemma {:induction false} PackedInjective(u: seq<bool>, v: seq<bool>)
    requires |u| == |v| <= 16 && Packed(u) == Packed(v)
    ensures u == v
    decreases |u|
  {
    hide Push, TopFree, Narrow;
    if u != [] {
      PackedIsNarrow(u[1..]);
      PackedIsNarrow(v[1..]);
      PushInjective(u[0], v[0], Packed(u[1..]), Packed(v[1..]));
      PackedInjective(u[1..], v[1..]);
      assert u == [u[0]] + u[1..] && v == [v[0]] + v[1..];
    }
  }

  lemma IterateInjective(n: nat, a: bv16, b: bv16)
    requires Iterate(BitStep, n, a) == Iterate(BitStep, n, b)
    ensures a == b
  {
    forall c: bv16
      ensures BitBack(BitStep(c)) == c
    {
      BitBackUndoes(c);
    }
    hide BitStep, BitBack;
    IterateInverse(BitStep, BitBack, n, a);
    IterateInverse(BitStep, BitBack, n, b);
  }

  lemma XorInjectiveRight(crc: bv16, p: bv16, q: bv16)
    requires Xor(crc, p) == Xor(crc, q)
    ensures p == q
  {}

  /** From one state, different runs of up to 16 bits lead to different states. */
  lemma ShortRunsDiffer(crc: bv16, u: seq<bool>, v: seq<bool>)
    requires |u| == |v| <= 16 && u != v
    ensures Serial(crc, u) != Serial(crc, v)
  {
    hide Serial, Packed, BitStep, Xor, Iterate;
    SerialAtOnce(crc, u);
    SerialAtOnce(crc, v);
    if Serial(crc, u) == Serial(crc, v) {
      IterateInjective(|u|, Xor(crc, Packed(u)), Xor(crc, Packed(v)));
      XorInjectiveRight(crc, Packed(u), Packed(v));
      PackedInjective(u, v);
    }
  }

  // ---- Bytes as bits ------------------------------------------------------------------

  function ByteBits(d: bv8): (r: seq<bool>)
    ensures |r| == 8
  {
    [d & 1 != 0, d & 2 != 0, d & 4 != 0, d & 8 != 0, d & 16 != 0, d & 32 != 0, d & 64 != 0, d & 128 != 0]
  }

  function Bits(data: seq<bv8>): (r: seq<bool>)
    ensures |r| == 8 * |data|
  {
    if data == [] then [] else ByteBits(data[0]) + Bits(data[1..])
  }

  lemma PackedByte(d: bv8)
    ensures Packed(ByteBits(d)) == d as bv16
  {
    PackedEight(ByteBits(d));
    EightPushes(d);
    hide Push;
  }

  lemma PackedEight(r: seq<bool>)
    requires |r| == 8
    ensures Packed(r) == Push(r[0], Push(r[1], Push(r[2], Push(r[3], Push(r[4], Push(r[5], Push(r[6], Push(r[7], 0))))))))
  {
    hide Push;
    PackedFour(r[4..]);
    assert r[3..][1..] == r[4..] && r[2..][1..] == r[3..] && r[1..][1..] == r[2..];
    assert Packed(r[2..]) == Push(r[2], Push(r[3], Packed(r[4..])));
  }

  lemma PackedFour(r: seq<bool>)
    requires |r| == 4
    ensures Packed(r) == Push(r[0], Push(r[1], Push(r[2], Push(r[3], 0))))
  {
    hide Push;
    assert r[1..][1..] == r[2..] && r[2..][1..] == r[3..] && r[3..][1..] == [];
    assert Packed(r[3..]) == Push(r[3], 0);
    assert Packed(r[2..]) == Push(r[2], Packed(r[3..]));
  }

  lemma EightPushes(d: bv8)
    ensures var r := ByteBits(d);
            Push(r[0], Push(r[1], Push(r[2], Push(r[3], Push(r[4], Push(r[5], Push(r[6], Push(r[7], 0)))))))) == d as bv16
  {}

  /** One byte is eight bits, lowest first. */
  lemma ByteIsSerial(d: bv8, crc: bv16)
    ensures Accumulate(d, crc) == Serial(crc, ByteBits(d))
  {
    ShiftFormIsBitwise(d, crc);
    PackedByte(d);
    SerialAtOnce(crc, ByteBits(d));
    hide Accumulate, Serial, Packed, ByteBits, BitStep;
  }

  /** The checksum of a message is what its bits lead to. */
  lemma {:induction false} CrcIsSerial(crc: bv16, data: seq<bv8>)
    ensures Crc16(crc, data) == Serial(crc, Bits(data))
    decreases |data|
  {
    if data != [] {
      ByteIsSerial(data[0], crc);
      CrcIsSerial(Accumulate(data[0], crc), data[1..]);
      SerialConcat(crc, ByteBits(data[0]), Bits(data[1..]));
      hide Accumulate, ByteBits;
    }
  }

  lemma ByteBitsInjective(a: bv8, b: bv8)
    requires ByteBits(a) == ByteBits(b)
    ensures a == b
  {
    PackedByte(a);
    PackedByte(b);
    hide ByteBits, Packed;
    SameByte(a, b);
  }

  lemma {:induction false} BitsInjective(x: seq<bv8>, y: seq<bv8>)
    requires |x| == |y| && Bits(x) == Bits(y)
    ensures x == y
    decreases |x|
  {
    if x != [] {
      hide ByteBits;
      assert ByteBits(x[0]) == Bits(x)[..8] && Bits(x[1..]) == Bits(x)[8..];
      assert ByteBits(y[0]) == Bits(y)[..8] && Bits(y[1..]) == Bits(y)[8..];
      ByteBitsInjective(x[0], y[0]);
      BitsInjective(x[1..], y[1..]);
      assert x == [x[0]] + x[1..] && y == [y[0]] + y[1..];
    }
  }

  // ---- Bursts ---------------------------------------------------------------------------

  /** Two messages that differ, and only within the 16 bits from `at` on. */
  ghost predicate Burst(x: seq<bv8>, y: seq<bv8>, at: nat) {
    |x| == |y| && x != y && forall j :: 0 <= j < 8 * |x| && !(at <= j < at + 16) ==> Bits(x)[j] == Bits(y)[j]
  }

  lemma MiddleSeen(crc: bv16, before: seq<bool>, u: seq<bool>, v: seq<bool>, after: seq<bool>)
    requires |u| == |v| <= 16 && u != v
    ensures Serial(crc, before + u + after) != Serial(crc, before + v + after)
  {
    hide Serial;
    var c := Serial(crc, before);
    ShortRunsDiffer(c, u, v);
    SerialInjectiveInStart(Serial(c, u), Serial(c, v), after);
    SerialConcat(crc, before + u, after);
    SerialConcat(crc, before, u);
    SerialConcat(crc, before + v, after);
    SerialConcat(crc, before, v);
  }

  lemma Confined(a: seq<bool>, b: seq<bool>, lo: nat, hi: nat)
    requires |a| == |b| && lo <= hi <= |a|
    requires forall j :: 0 <= j < |a| && !(lo <= j < hi) ==> a[j] == b[j]
    ensures a == a[..lo] + a[lo..hi] + a[hi..]
    ensures b == a[..lo] + b[lo..hi] + a[hi..]
  {
  }

  /** Every burst of up to 16 bits changes the checksum, in a message of any length. */
  lemma BurstSeen(crc: bv16, x: seq<bv8>, y: seq<bv8>, at: nat)
    requires Burst(x, y, at)
    ensures Crc16(crc, x) != Crc16(crc, y)
  {
    var a, b := Bits(x), Bits(y);
    CrcIsSerial(crc, x);
    CrcIsSerial(crc, y);
    hide Crc16, Bits, Serial;
    if a == b {
      BitsInjective(x, y);
    } else {
      var lo := if at <= |a| then at else |a|;
      var hi := if at + 16 <= |a| then at + 16 else |a|;
      Confined(a, b, lo, hi);
      MiddleSeen(crc, a[..lo], a[lo..hi], b[lo..hi], a[hi..]);
    }
  }

  lemma {:induction false} BitsAt(x: seq<bv8>, i: nat, j: nat)
    requires i < |x| && j < 8
    ensures Bits(x)[8 * i + j] == ByteBits(x[i])[j]
    decreases i
  {
    hide ByteBits;
    if i > 0 {
      BitsAt(x[1..], i - 1, j);
    }
  }

  lemma TwoBytesAreABurst(x: seq<bv8>, i: nat, u: bv8, v: bv8)
    requires i + 1 < |x| && (u != x[i] || v != x[i + 1])
    ensures Burst(x, x[i := u][i + 1 := v], 8 * i)
  {
    var y := x[i := u][i + 1 := v];
    assert x[i] != y[i] || x[i + 1] != y[i + 1];
    forall j | 0 <= j < 8 * |x| && !(8 * i <= j < 8 * i + 16)
      ensures Bits(x)[j] == Bits(y)[j]
    {
      BitsAt(x, j / 8, j % 8);
      BitsAt(y, j / 8, j % 8);
      hide ByteBits, Bits;
      assert x[j / 8] == y[j / 8];
    }
  }

  /** In particular any change confined to two adjacent bytes. */
  lemma TwoByteBurstSeen(crc: bv16, data: seq<bv8>, i: nat, u: bv8, v: bv8)
    requires i + 1 < |data| && (u != data[i] || v != data[i + 1])
    ensures Crc16(crc, data[i := u][i + 1 := v]) != Crc16(crc, data)
  {
    TwoBytesAreABurst(data, i, u, v);
    BurstSeen(crc, data, data[i := u][i + 1 := v], 8 * i);
  }
}
