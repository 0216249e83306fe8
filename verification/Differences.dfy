/** How a change of a message changes its checksum: the difference of two checksums depends on the
    difference of the messages alone. */
module Differences {
  import opened Crc

  function XorByte(a: bv8, b: bv8): bv8 { a ^ b }

  /** The bytewise xor of two messages of the same length. */
  function Difference(x: seq<bv8>, y: seq<bv8>): (d: seq<bv8>)
    requires |x| == |y|
    ensures |d| == |x|
  {
    if x == [] then [] else [XorByte(x[0], y[0])] + Difference(x[1..], y[1..])
  }

  lemma XorOfBytes(a: bv8, b: bv8)
    ensures Xor(a as bv16, b as bv16) == XorByte(a, b) as bv16
  {}

  lemma XorSwaps(a: bv16, b: bv16)
    ensures Xor(a, b) == Xor(b, a)
  {}

  lemma XorRegroups(c: bv16, a: bv16, d: bv16, b: bv16)
    ensures Xor(Xor(c, a), Xor(d, b)) == Xor(Xor(c, d), Xor(a, b))
  {
    hide Xor;
    XorAssociates(c, a, Xor(d, b));
    XorAssociates(a, d, b);
    XorSwaps(a, d);
    XorAssociates(d, a, b);
    XorAssociates(c, d, Xor(a, b));
  }

  lemma AccumulateDifference(a: bv8, b: bv8, c: bv16, d: bv16)
    ensures Xor(Accumulate(a, c), Accumulate(b, d)) == Accumulate(XorByte(a, b), Xor(c, d))
  {
    hide Accumulate, EightBits, Xor;
    ShiftFormIsBitwise(a, c);
    ShiftFormIsBitwise(b, d);
    ShiftFormIsBitwise(XorByte(a, b), Xor(c, d));
    EightBitsLinear(Xor(c, a as bv16), Xor(d, b as bv16));
    XorRegroups(c, a as bv16, d, b as bv16);
    XorOfBytes(a, b);
  }

  /** The checksums of two messages differ by the checksum of their difference. */
  lemma {:induction false} CrcDifference(c: bv16, d: bv16, x: seq<bv8>, y: seq<bv8>)
    requires |x| == |y|
    ensures Xor(Crc16(c, x), Crc16(d, y)) == Crc16(Xor(c, d), Difference(x, y))
    decreases |x|
  {
    hide Accumulate, Xor;
    if x != [] {
      AccumulateDifference(x[0], y[0], c, d);
      CrcDifference(Accumulate(x[0], c), Accumulate(y[0], d), x[1..], y[1..]);
      assert Difference(x, y)[1..] == Difference(x[1..], y[1..]);
    }
  }

  lemma XorSelf(c: bv16)
    ensures Xor(c, c) == 0
  {}

  lemma XorIsZero(a: bv16, b: bv16)
    ensures Xor(a, b) == 0 <==> a == b
  {
    if Xor(a, b) == 0 {
      ZeroXor(a, b);
    } else {
      XorSelf(a);
    }
  }

  lemma ZeroXor(a: bv16, b: bv16)
    requires Xor(a, b) == 0
    ensures a == b
  {}

  /** From the same start. */
  lemma SameStart(c: bv16, x: seq<bv8>, y: seq<bv8>)
    requires |x| == |y|
    ensures Xor(Crc16(c, x), Crc16(c, y)) == Crc16(0, Difference(x, y))
  {
    CrcDifference(c, c, x, y);
    XorSelf(c);
  }

  lemma {:induction false} DifferenceConcat(a: seq<bv8>, b: seq<bv8>, x: seq<bv8>, y: seq<bv8>)
    requires |a| == |b| && |x| == |y|
    ensures Difference(a + x, b + y) == Difference(a, b) + Difference(x, y)
    decreases |a|
  {
    if a == [] {
      assert a + x == x && b + y == y;
    } else {
      assert (a + x)[1..] == a[1..] + x && (b + y)[1..] == b[1..] + y;
      DifferenceConcat(a[1..], b[1..], x, y);
    }
  }

  // ---- Bytes that do not change -------------------------------------------------------

  function Zeros(n: nat): (z: seq<bv8>)
    ensures |z| == n
  {
    if n == 0 then [] else [0] + Zeros(n - 1)
  }

  lemma {:induction false} NoDifference(x: seq<bv8>)
    ensures Difference(x, x) == Zeros(|x|)
  {
    if x != [] {
      NoDifference(x[1..]);
      XorByteSelf(x[0]);
    }
  }

  lemma XorByteSelf(b: bv8)
    ensures XorByte(b, b) == 0
  {}

  lemma AccumulateZero(c: bv16)
    ensures Accumulate(0, c) == EightBits(c)
  {
    ShiftFormIsBitwise(0, c);
    XorNothing(c);
    hide Accumulate, EightBits, Xor;
  }

  /** Behind a difference, every unchanged byte takes it eight bits further. */
  lemma {:induction false} ZerosMoveOn(c: bv16, n: nat)
    ensures Crc16(c, Zeros(n)) == Iterate(EightBits, n, c)
    decreases n
  {
    if n > 0 {
      AccumulateZero(c);
      assert Zeros(n)[1..] == Zeros(n - 1);
      ZerosMoveOn(EightBits(c), n - 1);
      hide Accumulate;
    }
  }

  lemma EightBitsOfNothing()
    ensures EightBits(0) == 0
  {
    EightBitsLinear(0, 0);
    hide EightBits;
    XorSelf(0);
    XorSelf(EightBits(0));
  }

  lemma {:induction false} NothingStaysNothing(n: nat)
    ensures Iterate(EightBits, n, 0) == 0
  {
    if n > 0 {
      EightBitsOfNothing();
      NothingStaysNothing(n - 1);
      hide EightBits;
    }
  }

  /** Before a difference, unchanged bytes do not matter. */
  lemma ZerosBefore(n: nat, d: seq<bv8>)
    ensures Crc16(0, Zeros(n) + d) == Crc16(0, d)
  {
    CrcConcat(0, Zeros(n), d);
    ZerosMoveOn(0, n);
    NothingStaysNothing(n);
  }

  lemma CrcOfOne(b: bv8)
    ensures Crc16(0, [b]) == EightBits(b as bv16)
  {
    ShiftFormIsBitwise(b, 0);
    XorWithNothing(b as bv16);
    hide Accumulate, EightBits, Xor;
    assert [b][1..] == [];
  }

  lemma XorWithNothing(c: bv16)
    ensures Xor(0, c) == c
  {}

  lemma SplitAt(x: seq<bv8>, i: nat, v: bv8)
    requires i < |x|
    ensures x == x[..i] + ([x[i]] + x[i + 1..]) && x[i := v] == x[..i] + ([v] + x[i + 1..])
  {
  }

  lemma DifferenceAt(x: seq<bv8>, i: nat, v: bv8)
    requires i < |x|
    ensures Difference(x, x[i := v]) == Zeros(i) + ([XorByte(x[i], v)] + Zeros(|x| - i - 1))
  {
    var head, tail := x[..i], x[i + 1..];
    assert Difference([x[i]], [v]) == [XorByte(x[i], v)];
    hide Difference, Zeros;
    SplitAt(x, i, v);
    DifferenceConcat(head, head, [x[i]] + tail, [v] + tail);
    DifferenceConcat([x[i]], [v], tail, tail);
    NoDifference(head);
    NoDifference(tail);
  }

  lemma BetweenZeros(i: nat, b: bv8, n: nat)
    ensures Crc16(0, Zeros(i) + ([b] + Zeros(n))) == Iterate(EightBits, n + 1, b as bv16)
  {
    hide Zeros, Crc16, EightBits, Iterate;
    IterateOnce(b as bv16, n);
    ZerosBefore(i, [b] + Zeros(n));
    CrcConcat(0, [b], Zeros(n));
    CrcOfOne(b);
    ZerosMoveOn(EightBits(b as bv16), n);
  }

  lemma IterateOnce(c: bv16, n: nat)
    ensures Iterate(EightBits, n + 1, c) == Iterate(EightBits, n, EightBits(c))
  {}

  /** The only difference is at byte i. */
  lemma OneByteDifference(x: seq<bv8>, i: nat, v: bv8)
    requires i < |x|
    ensures Crc16(0, Difference(x, x[i := v])) == Iterate(EightBits, |x| - i, XorByte(x[i], v) as bv16)
  {
    hide *;
    var b, n := XorByte(x[i], v), |x| - i - 1;
    var y := x[i := v];
    var d := Difference(x, y);
    DifferenceAt(x, i, v);
    BetweenZeros(i, b, n);
    assert d == Zeros(i) + ([b] + Zeros(n));
  }
}
