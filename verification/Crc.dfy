/** The CRC-16 of MAVLink: reflected polynomial 0x8408 (Appendix C of RFC 1662), initial value
    0xFFFF, no final complement. The source uses a shift form without a table and without a
    loop over the bits. */
module Crc {
  const INITIAL: bv16 := 0xFFFF

  function Xor(a: bv16, b: bv16): bv16 { a ^ b }

  /** A byte shifted inside a 16-bit word. */
  function Up8(t: bv8): bv16 { (t as bv16) << 8 }

  function Up3(t: bv8): bv16 { (t as bv16) << 3 }

  function Down4(t: bv8): bv16 { (t as bv16) >> 4 }

  function Low(crc: bv16): bv8 { (crc & 0xFF) as bv8 }

  function High(crc: bv16): bv8 { (crc >> 8) as bv8 }

  /** `lo | (hi << 8)`. */
  function Join(lo: bv8, hi: bv8): bv16 {
    (lo as bv16) | Up8(hi)
  }

  lemma JoinOfBytes(crc: bv16)
    ensures Join(Low(crc), High(crc)) == crc
  {}

  /** In numbers, which cannot overflow here: the first byte counts ones, the second 256s. */
  lemma JoinIsWord(lo: bv8, hi: bv8)
    ensures Join(lo, hi) == (lo as bv16) + 256 * (hi as bv16)
  {}

  lemma BytesOfWord(v: bv16)
    ensures Low(v) as bv16 == v % 256 && High(v) as bv16 == v / 256
  {}

  lemma SameByte(a: bv8, b: bv8)
    requires a as bv16 == b as bv16
    ensures a == b
  {}

  /** `tmp ^= tmp << 4`. */
  function Mix(tmp: bv8): bv8 { tmp ^ (tmp << 4) }

  /** crcAccumulate: one byte into the checksum, in shift form. */
  function Accumulate(data: bv8, crc: bv16): bv16 {
    var tmp := Mix(data ^ Low(crc));
    Xor(Xor(Xor(crc >> 8, Up8(tmp)), Up3(tmp)), Down4(tmp))
  }

  /** The checksum of a whole message, from a given start value. */
  function Crc16(crc: bv16, data: seq<bv8>): bv16
    decreases |data|
  {
    if data == [] then crc else Crc16(Accumulate(data[0], crc), data[1..])
  }

  /** The checksum of a message, which is also the one computed bit by bit. */
  method CrcCalculate(data: seq<bv8>) returns (crc: bv16)
    ensures crc == Crc16(INITIAL, data) == BitwiseCrc(0xFFFF, data)
  {
    CrcIsBitwise(INITIAL, data);
    crc := INITIAL;
    for i := 0 to |data|
      invariant Crc16(INITIAL, data) == Crc16(crc, data[i..])
    {
      assert data[i..][1..] == data[i + 1..];
      crc := Accumulate(data[i], crc);
      hide Accumulate, BitwiseUpdate;
    }
  }

  // ---- Equal to the bit-by-bit definition ---------------------------------------

  /** One bit of the textbook reflected CRC. */
  function BitStep(crc: bv16): bv16 {
    if crc & 1 == 1 then (crc >> 1) ^ 0x8408 else crc >> 1
  }

  function Iterate<T>(f: T -> T, n: nat, x: T): T {
    if n == 0 then x else Iterate(f, n - 1, f(x))
  }

  function EightBits(crc: bv16): bv16 {
    Iterate(BitStep, 8, crc)
  }

  /** The textbook update: xor the byte in, then eight bit steps. */
  function BitwiseUpdate(data: bv8, crc: bv16): bv16 {
    EightBits(Xor(crc, data as bv16))
  }

  function BitwiseCrc(crc: bv16, data: seq<bv8>): bv16
    decreases |data|
  {
    if data == [] then crc else BitwiseCrc(BitwiseUpdate(data[0], crc), data[1..])
  }

  // The bit step is linear over xor, so the two bytes of the checksum can be followed apart:
  // the high byte just moves down, the low byte is what the shift form folds in.

  lemma LinearEvenEven(a: bv16, b: bv16)
    requires a & 1 == 0 && b & 1 == 0
    ensures BitStep(a ^ b) == BitStep(a) ^ BitStep(b)
  {}

  lemma LinearOddEven(a: bv16, b: bv16)
    requires a & 1 == 1 && b & 1 == 0
    ensures BitStep(a ^ b) == BitStep(a) ^ BitStep(b)
  {}

  lemma LinearOddOdd(a: bv16, b: bv16)
    requires a & 1 == 1 && b & 1 == 1
    ensures BitStep(a ^ b) == BitStep(a) ^ BitStep(b)
  {}

  lemma LowBit(a: bv16)
    ensures a & 1 == 0 || a & 1 == 1
  {}

  lemma XorCommutes(a: bv16, b: bv16)
    ensures a ^ b == b ^ a
  {}

  lemma BitStepLinear(a: bv16, b: bv16)
    ensures BitStep(Xor(a, b)) == Xor(BitStep(a), BitStep(b))
  {
    LowBit(a);
    LowBit(b);
    if a & 1 == 0 {
      if b & 1 == 0 {
        LinearEvenEven(a, b);
      } else {
        LinearOddEven(b, a);
        XorCommutes(a, b);
        XorCommutes(BitStep(a), BitStep(b));
      }
    } else if b & 1 == 0 {
      LinearOddEven(a, b);
    } else {
      LinearOddOdd(a, b);
    }
  }

  lemma {:induction false} IterateHomomorphic<T(!new)>(f: T -> T, op: (T, T) -> T, n: nat, a: T, b: T)
    requires forall x, y :: f(op(x, y)) == op(f(x), f(y))
    ensures Iterate(f, n, op(a, b)) == op(Iterate(f, n, a), Iterate(f, n, b))
  {
    if n > 0 {
      IterateHomomorphic(f, op, n - 1, f(a), f(b));
    }
  }

  lemma EightBitsLinear(a: bv16, b: bv16)
    ensures EightBits(Xor(a, b)) == Xor(EightBits(a), EightBits(b))
  {
    forall x: bv16, y: bv16
      ensures BitStep(Xor(x, y)) == Xor(BitStep(x), BitStep(y))
    {
      BitStepLinear(x, y);
    }
    hide BitStep, Xor;
    IterateHomomorphic(BitStep, Xor, 8, a, b);
  }

  /** Eight even steps move the high byte down. */
  lemma EightBitsOfHigh(h: bv8)
    ensures EightBits(Up8(h)) == h as bv16
  {}

  /** What the shift form makes of the low byte. */
  function Fold(t: bv8): bv16 {
    Spread(Mix(t))
  }

  function Spread(tmp: bv8): bv16 {
    Xor(Xor(Up8(tmp), Up3(tmp)), Down4(tmp))
  }

  lemma FoldIsEightBits(t: bv8)
    ensures EightBits(t as bv16) == Fold(t)
  {}

  lemma XorAssociates(a: bv16, b: bv16, c: bv16)
    ensures Xor(Xor(a, b), c) == Xor(a, Xor(b, c))
  {}

  lemma CrcInBytes(crc: bv16)
    ensures crc == Xor(Up8(High(crc)), Low(crc) as bv16) && crc >> 8 == High(crc) as bv16
  {}

  /** The shift form folds in the low byte and xors the result onto the high byte. */
  lemma AccumulateInBytes(data: bv8, crc: bv16)
    ensures Accumulate(data, crc) == Xor(High(crc) as bv16, Fold(data ^ Low(crc)))
  {
    hide Xor, Up8, Up3, Down4, Mix, Low, High;
    var tmp := Mix(data ^ Low(crc));
    CrcInBytes(crc);
    XorAssociates(crc >> 8, Up8(tmp), Up3(tmp));
    XorAssociates(crc >> 8, Xor(Up8(tmp), Up3(tmp)), Down4(tmp));
  }

  lemma InputInBytes(data: bv8, crc: bv16)
    ensures Xor(crc, data as bv16) == Xor(Up8(High(crc)), (data ^ Low(crc)) as bv16)
  {}

  lemma ShiftFormIsBitwise(data: bv8, crc: bv16)
    ensures Accumulate(data, crc) == BitwiseUpdate(data, crc)
  {
    hide Fold, EightBits, Accumulate, Xor, Up8, Low, High;
    var lo := data ^ Low(crc);
    AccumulateInBytes(data, crc);
    InputInBytes(data, crc);
    EightBitsLinear(Up8(High(crc)), lo as bv16);
    EightBitsOfHigh(High(crc));
    FoldIsEightBits(lo);
  }

  /** For every message the shift form computes the bit-by-bit CRC. */
  lemma {:induction false} CrcIsBitwise(crc: bv16, data: seq<bv8>)
    ensures Crc16(crc, data) == BitwiseCrc(crc, data)
    decreases |data|
  {
    hide Accumulate, BitwiseUpdate;
    if data != [] {
      ShiftFormIsBitwise(data[0], crc);
      CrcIsBitwise(Accumulate(data[0], crc), data[1..]);
    }
  }

  // ---- Every step is a bijection -------------------------------------------------

  /** One bit step backwards. */
  function BitBack(crc: bv16): bv16 {
    if crc & 0x8000 != 0 then ((crc ^ 0x8408) << 1) | 1 else crc << 1
  }

  lemma BitBackUndoes(crc: bv16)
    ensures BitBack(BitStep(crc)) == crc
  {}

  lemma BitStepUndoesHigh(crc: bv16)
    requires crc & 0x8000 != 0
    ensures BitStep(BitBack(crc)) == crc
  {}

  lemma BitStepUndoesLow(crc: bv16)
    requires crc & 0x8000 == 0
    ensures BitStep(BitBack(crc)) == crc
  {}

  lemma BitStepUndoes(crc: bv16)
    ensures BitStep(BitBack(crc)) == crc
  {
    if crc & 0x8000 != 0 {
      BitStepUndoesHigh(crc);
    } else {
      BitStepUndoesLow(crc);
    }
  }

  lemma {:induction false} IterateSnoc<T>(f: T -> T, n: nat, x: T)
    ensures Iterate(f, n + 1, x) == f(Iterate(f, n, x))
  {
    if n > 0 {
      IterateSnoc(f, n - 1, f(x));
    }
  }

  lemma {:induction false} IterateInverse<T(!new)>(f: T -> T, g: T -> T, n: nat, x: T)
    requires forall y :: g(f(y)) == y
    ensures Iterate(g, n, Iterate(f, n, x)) == x
  {
    if n > 0 {
      IterateInverse(f, g, n - 1, f(x));
      IterateSnoc(g, n - 1, Iterate(f, n, x));
    }
  }

  function EightBitsBack(crc: bv16): bv16 {
    Iterate(BitBack, 8, crc)
  }

  lemma EightBitsBackUndoes(crc: bv16)
    ensures EightBitsBack(EightBits(crc)) == crc && EightBits(EightBitsBack(crc)) == crc
  {
    forall c: bv16
      ensures BitBack(BitStep(c)) == c && BitStep(BitBack(c)) == c
    {
      BitBackUndoes(c);
      BitStepUndoes(c);
    }
    hide BitStep, BitBack;
    IterateInverse(BitStep, BitBack, 8, crc);
    IterateInverse(BitBack, BitStep, 8, crc);
  }

  /** The checksum before a byte, from the checksum after it. */
  function Retract(data: bv8, crc: bv16): bv16 {
    Xor(EightBitsBack(crc), data as bv16)
  }

  lemma XorNothing(crc: bv16)
    ensures Xor(crc, 0) == crc
  {}

  lemma XorUndoes(a: bv16, b: bv16)
    ensures Xor(Xor(a, b), b) == a
  {}

  /** For every byte the update is a bijection of the 65536 checksums. */
  lemma StepIsBijection(data: bv8, crc: bv16)
    ensures Retract(data, Accumulate(data, crc)) == crc
    ensures Accumulate(data, Retract(data, crc)) == crc
  {
    hide Accumulate, EightBits, EightBitsBack, Xor;
    ShiftFormIsBitwise(data, crc);
    EightBitsBackUndoes(Xor(crc, data as bv16));
    XorUndoes(crc, data as bv16);
    ShiftFormIsBitwise(data, Retract(data, crc));
    XorUndoes(EightBitsBack(crc), data as bv16);
    EightBitsBackUndoes(crc);
  }

  lemma EightBitsInjective(a: bv16, b: bv16)
    requires EightBits(a) == EightBits(b)
    ensures a == b
  {
    hide EightBits, EightBitsBack;
    EightBitsBackUndoes(a);
    EightBitsBackUndoes(b);
  }

  lemma XorInjective(a: bv8, b: bv8, crc: bv16)
    requires Xor(crc, a as bv16) == Xor(crc, b as bv16)
    ensures a == b
  {}

  lemma StepInjectiveInByte(a: bv8, b: bv8, crc: bv16)
    requires Accumulate(a, crc) == Accumulate(b, crc)
    ensures a == b
  {
    hide Accumulate, EightBits, Xor;
    ShiftFormIsBitwise(a, crc);
    ShiftFormIsBitwise(b, crc);
    EightBitsInjective(Xor(crc, a as bv16), Xor(crc, b as bv16));
    XorInjective(a, b, crc);
  }

  lemma XorCancels(a: bv8, b: bv8, crc: bv16)
    ensures Xor(Xor(crc, a as bv16), Xor(crc, b as bv16)) == (a ^ b) as bv16
  {}

  lemma XorMoves(s: bv16, b: bv8, t: bv16, d: bv8)
    requires Xor(s, b as bv16) == Xor(t, d as bv16)
    ensures Xor(s, t) == (b ^ d) as bv16
  {}

  lemma DisjointBytes(x: bv8, y: bv8)
    requires x as bv16 == Up8(y)
    ensures x == 0 && y == 0
  {}

  lemma XorZero(a: bv8, b: bv8)
    requires a ^ b == 0
    ensures a == b
  {}

  /** Two adjacent bytes: the update maps the 65536 pairs one to one. */
  lemma PairInjective(a: bv8, b: bv8, c: bv8, d: bv8, crc: bv16)
    requires Accumulate(b, Accumulate(a, crc)) == Accumulate(d, Accumulate(c, crc))
    ensures a == c && b == d
  {
    hide Accumulate, EightBits, Xor, Up8;
    var s, t := Accumulate(a, crc), Accumulate(c, crc);
    ShiftFormIsBitwise(b, s);
    ShiftFormIsBitwise(d, t);
    EightBitsInjective(Xor(s, b as bv16), Xor(t, d as bv16));
    XorMoves(s, b, t, d);
    ShiftFormIsBitwise(a, crc);
    ShiftFormIsBitwise(c, crc);
    EightBitsLinear(Xor(crc, a as bv16), Xor(crc, c as bv16));
    XorCancels(a, c, crc);
    EightBitsOfHigh(b ^ d);
    EightBitsInjective((a ^ c) as bv16, Up8(b ^ d));
    DisjointBytes(a ^ c, b ^ d);
    XorZero(a, c);
    XorZero(b, d);
  }

  lemma {:induction false} CrcInjectiveInStart(data: seq<bv8>, c: bv16, d: bv16)
    requires Crc16(c, data) == Crc16(d, data)
    ensures c == d
    decreases |data|
  {
    hide Accumulate, Retract;
    if data != [] {
      CrcInjectiveInStart(data[1..], Accumulate(data[0], c), Accumulate(data[0], d));
      StepIsBijection(data[0], c);
      StepIsBijection(data[0], d);
    }
  }

  lemma {:induction false} CrcConcat(crc: bv16, a: seq<bv8>, b: seq<bv8>)
    ensures Crc16(crc, a + b) == Crc16(Crc16(crc, a), b)
    decreases |a|
  {
    if a == [] {
      assert a + b == b;
    } else {
      assert (a + b)[0] == a[0] && (a + b)[1..] == a[1..] + b;
      CrcConcat(Accumulate(a[0], crc), a[1..], b);
    }
  }

  /** Changing one byte of a message of any length changes its checksum. */
  lemma OneByteChangeSeen(crc: bv16, data: seq<bv8>, i: nat, v: bv8)
    requires i < |data| && v != data[i]
    ensures Crc16(crc, data[i := v]) != Crc16(crc, data)
  {
    var head, tail := data[..i], data[i + 1..];
    var c := Crc16(crc, head);
    assert data == head + ([data[i]] + tail) && data[i := v] == head + ([v] + tail);
    CrcConcat(crc, head, [data[i]] + tail);
    CrcConcat(crc, head, [v] + tail);
    assert ([v] + tail)[1..] == tail && ([data[i]] + tail)[1..] == tail;
    if Crc16(crc, data[i := v]) == Crc16(crc, data) {
      CrcInjectiveInStart(tail, Accumulate(v, c), Accumulate(data[i], c));
      StepInjectiveInByte(v, data[i], c);
    }
  }
}
