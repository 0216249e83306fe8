/** Which changes of a valid MAVLink frame the parsers notice. Every statement is exact; only a changed
    length byte is left aside, because the parser then looks at other bytes. */
module MavlinkErrors {
  import opened Bytes
  import opened Bursts
  import opened Crc
  import opened Differences
  import opened IdChanges
  import opened Mavlink
  import opened SplitBursts

  // ---- Any change ---------------------------------------------------------------------

  lemma XorEqualIff(a: bv16, b: bv16, c: bv16)
    ensures Xor(a, b) == Xor(a, c) <==> b == c
  {}

  /** x and y are what the checksum covers, and the checksum. If x is consistent, y is exactly if the
      checksum that is computed changes just as the one that is received. */
  lemma ConsistentIff(extra: bv8, extra': bv8, x: seq<bv8>, y: seq<bv8>)
    requires |x| == |y| >= 2 && Sealed(extra, x[..|x| - 2]) == Join(x[|x| - 2], x[|x| - 1])
    ensures Sealed(extra', y[..|y| - 2]) == Join(y[|y| - 2], y[|y| - 1]) <==> Cancels(XorByte(extra, extra'), x, y)
  {
    var n := |x| - 2;
    AccumulateDifference(extra, extra', Crc16(INITIAL, x[..n]), Crc16(INITIAL, y[..n]));
    SameStart(INITIAL, x[..n], y[..n]);
    JoinXor(x[n], x[n + 1], y[n], y[n + 1]);
    hide Accumulate, Crc16, Join, Xor, XorByte, Difference;
    XorEqualIff(Join(x[n], x[n + 1]), Sealed(extra', y[..n]), Join(y[n], y[n + 1]));
  }

  /** What the checksum of a version 1 frame with n bytes of payload covers, and the checksum. */
  function V1Part(d: seq<bv8>, n: nat): (x: seq<bv8>)
    requires |d| >= n + 8
    ensures |x| == n + 7
  {
    d[1..n + 8]
  }

  function V1ExtraChange(d: seq<bv8>, e: seq<bv8>): bv8
    requires |d| >= 8 && |e| >= 8
  {
    XorByte(CrcExtra(Size(d[5])), CrcExtra(Size(e[5])))
  }

  lemma V1IsConsistent(d: seq<bv8>)
    requires |d| >= 8 && d[0] == V1_STX && |d| >= Size(d[1]) + 8
    ensures var x := V1Part(d, Size(d[1]));
            ParseV1(d).Some? <==> Sealed(CrcExtra(Size(d[5])), x[..|x| - 2]) == Join(x[|x| - 2], x[|x| - 1])
  {
    hide Sealed, CrcExtra, Size, Join;
    Parts(d, Size(d[1]) + 6);
  }

  lemma Parts(d: seq<bv8>, end: nat)
    requires 1 <= end && end + 2 <= |d|
    ensures var x := d[1..end + 2];
            x[..|x| - 2] == d[1..end] && x[|x| - 2] == d[end] && x[|x| - 1] == d[end + 1]
  {}

  lemma V1Shape(d: seq<bv8>)
    requires ParseV1(d).Some?
    ensures |d| >= 8 && d[0] == V1_STX && |d| >= Size(d[1]) + 8
  {
    hide Sealed, CrcExtra, Size, Join;
  }

  /** Whatever changes in a valid version 1 frame but its start and length. */
  lemma V1AcceptedIff(d: seq<bv8>, e: seq<bv8>)
    requires ParseV1(d).Some? && |e| >= Size(d[1]) + 8 && e[0] == d[0] && e[1] == d[1]
    ensures ParseV1(e).Some? <==> Cancels(V1ExtraChange(d, e), V1Part(d, Size(d[1])), V1Part(e, Size(d[1])))
  {
    hide ParseV1, Sealed, Cancels, CrcExtra, Size, Join, XorByte, V1Part, Accumulate, Crc16, Difference;
    V1Shape(d);
    var n := Size(d[1]);
    V1IsConsistent(d);
    V1IsConsistent(e);
    ConsistentIff(CrcExtra(Size(d[5])), CrcExtra(Size(e[5])), V1Part(d, n), V1Part(e, n));
  }

  function V2Part(d: seq<bv8>, n: nat): (x: seq<bv8>)
    requires |d| >= n + 12
    ensures |x| == n + 11
  {
    d[1..n + 12]
  }

  function V2ExtraChange(d: seq<bv8>, e: seq<bv8>): bv8
    requires |d| >= 12 && |e| >= 12
  {
    XorByte(CrcExtra(V2Id(d)), CrcExtra(V2Id(e)))
  }

  /** If the flags say that there is a signature, it must be there. */
  predicate SignatureThere(e: seq<bv8>, n: nat)
    requires |e| >= 12
  {
    |e| >= n + 12 + if e[2] & SIGNED_FLAG != 0 then 13 else 0
  }

  lemma V2IsConsistent(d: seq<bv8>)
    requires |d| >= 12 && d[0] == V2_STX && |d| >= Size(d[1]) + 12
    ensures var x := V2Part(d, Size(d[1]));
            ParseV2(d).Some?
            <==> SignatureThere(d, Size(d[1]))
                 && Sealed(CrcExtra(V2Id(d)), x[..|x| - 2]) == Join(x[|x| - 2], x[|x| - 1])
  {
    hide Sealed, CrcExtra, Size, Join, V2Id;
    Parts(d, Size(d[1]) + 10);
  }

  /** The same for version 2. */
  lemma V2AcceptedIff(d: seq<bv8>, e: seq<bv8>)
    requires ParseV2(d).Some? && |e| >= Size(d[1]) + 12 && e[0] == d[0] && e[1] == d[1]
    ensures ParseV2(e).Some?
            <==> SignatureThere(e, Size(d[1]))
                 && Cancels(V2ExtraChange(d, e), V2Part(d, Size(d[1])), V2Part(e, Size(d[1])))
  {
    var n := Size(d[1]);
    V2IsConsistent(d);
    V2IsConsistent(e);
    hide ParseV2, Sealed, Cancels, CrcExtra, Size, Join, XorByte, V2Id, SignatureThere, V2Part;
    ConsistentIff(CrcExtra(V2Id(d)), CrcExtra(V2Id(e)), V2Part(d, n), V2Part(e, n));
  }

  // ---- One byte -------------------------------------------------------------------------

  /** With the extra byte changed by x, only a checksum changed by just as much comes out the same. */
  lemma CancelsExtra(x: bv8, c: bv16)
    ensures Accumulate(x, c) == 0 <==> c == x as bv16
  {
    ShiftFormIsBitwise(x, c);
    EightBitsOfNothing();
    if EightBits(Xor(c, x as bv16)) == 0 {
      EightBitsInjective(Xor(c, x as bv16), 0);
    }
    XorIsZero(c, x as bv16);
    hide Accumulate, EightBits, Xor;
  }

  lemma SomethingChanged(a: bv8, b: bv8)
    requires a != b
    ensures XorByte(a, b) != 0
  {}

  lemma PrefixUpdated(x: seq<bv8>, n: nat, i: nat, v: bv8)
    requires i < n <= |x|
    ensures x[i := v][..n] == x[..n][i := v] && x[..n][i] == x[i]
  {}

  /** A covered byte changes. */
  lemma CoveredByteCancels(extra: bv8, x: seq<bv8>, i: nat, v: bv8)
    requires i + 2 < |x| && v != x[i]
    ensures Cancels(extra, x, x[i := v])
            <==> Iterate(EightBits, |x| - 2 - i, XorByte(x[i], v) as bv16) == extra as bv16
  {
    var n := |x| - 2;
    hide Accumulate, Crc16, EightBits, Iterate, XorByte, Difference, ChecksumChange;
    var change := Crc16(0, Difference(x[..n], x[..n][i := v]));
    SameChecksum(x, x[i := v]);
    PrefixUpdated(x, n, i, v);
    OneByteDifference(x[..n], i, v);
    CancelsExtra(extra, change);
    assert Cancels(extra, x, x[i := v]) <==> Accumulate(extra, change) == 0;
  }

  /** A byte of the checksum changes. */
  lemma ChecksumByteNeverCancels(x: seq<bv8>, i: nat, v: bv8)
    requires 4 <= |x| <= i + 2 < |x| + 2 && v != x[i]
    ensures !Cancels(0, x, x[i := v])
  {
    var n, y := |x| - 2, x[i := v];
    SomethingChanged(x[i], v);
    JoinIsZero(XorByte(x[n], y[n]), XorByte(x[n + 1], y[n + 1]));
    hide Cancels, Join, XorByte;
    assert y[..n] == x[..n];
    InTheChecksum(x, y);
  }

  /** Any byte changes that leaves the extra byte alone. */
  lemma OtherByteNeverCancels(x: seq<bv8>, i: nat, v: bv8)
    requires i < |x| && 4 <= |x| && v != x[i]
    ensures !Cancels(0, x, x[i := v])
  {
    if i + 2 < |x| {
      CoveredByteCancels(0, x, i, v);
      SomethingChanged(x[i], v);
      NeverCancelsAlone(|x| - 3 - i, XorByte(x[i], v));
      hide Cancels, EightBits, Iterate, XorByte;
    } else {
      ChecksumByteNeverCancels(x, i, v);
    }
  }

  lemma SizesDiffer(a: bv8)
    ensures (Size(a) == 65 <==> a == 65) && (Size(a) == 76 <==> a == 76)
  {}

  /** Two ids with the same extra byte, or one of them RC_CHANNELS, or COMMAND_LONG, or both. */
  lemma ExtraChange(a: bv8, b: bv8)
    ensures XorByte(CrcExtra(Size(a)), CrcExtra(Size(b)))
            == if (a == 65 && b == 76) || (a == 76 && b == 65) then 238
               else if (a == 65) != (b == 65) then 118
               else if (a == 76) != (b == 76) then 152
               else 0
  {
    SizesDiffer(a);
    SizesDiffer(b);
  }

  lemma KnownDifferences(a: bv8)
    ensures XorByte(65, a) == 223 <==> a == 158
    ensures XorByte(a, 65) == 223 <==> a == 158
    ensures XorByte(76, a) == 174 <==> a == 226
    ensures XorByte(a, 76) == 174 <==> a == 226
  {}

  lemma IdChangeCancelsIff(a: bv8, b: bv8, n: nat)
    requires a != b && n < 256
    ensures Iterate(EightBits, n + 1, XorByte(a, b) as bv16) == XorByte(CrcExtra(Size(a)), CrcExtra(Size(b))) as bv16
            <==> MissedChange(a, b, n)
  {
    hide EightBits, Iterate, CrcExtra, Size, XorByte;
    ExtraChange(a, b);
    SomethingChanged(a, b);
    CancelsIff(n, XorByte(a, b));
    NeverCancelsAlone(n, XorByte(a, b));
    KnownDifferences(a);
    KnownDifferences(b);
  }

  lemma NoExtraChange(b: bv8)
    ensures XorByte(b, b) == 0
  {}

  lemma V1Updated(d: seq<bv8>, n: nat, j: nat, v: bv8)
    requires |d| >= n + 8 && 1 <= j < n + 8
    ensures V1Part(d[j := v], n) == V1Part(d, n)[j - 1 := v] && V1Part(d, n)[j - 1] == d[j]
    ensures V1ExtraChange(d, d[j := v]) == if j == 5 then XorByte(CrcExtra(Size(d[5])), CrcExtra(Size(v))) else 0
  {
    NoExtraChange(CrcExtra(Size(d[5])));
    hide XorByte, CrcExtra, Size;
  }

  /** Changing any one byte of a valid version 1 frame but the length makes the parser reject it,
      except exactly for four id changes in frames of one length each. In particular no changed id
      of an RC_CHANNELS or COMMAND_LONG frame of its own length, 42 or 33, is missed. */
  lemma V1DetectsOneByte(d: seq<bv8>, j: nat, v: bv8)
    requires ParseV1(d).Some? && j < Size(d[1]) + 8 && v != d[j] && j != 1
    ensures ParseV1(d[j := v]).Some? <==> j == 5 && MissedChange(d[5], v, Size(d[1]))
  {
    if j > 0 {
      V1AcceptedIff(d, d[j := v]);
      V1OneByteCancels(d, j, v);
      hide *;
    }
  }

  lemma V1OneByteCancels(d: seq<bv8>, j: nat, v: bv8)
    requires |d| >= 8 && |d| >= Size(d[1]) + 8 && 1 < j < Size(d[1]) + 8 && v != d[j]
    ensures Cancels(V1ExtraChange(d, d[j := v]), V1Part(d, Size(d[1])), V1Part(d[j := v], Size(d[1])))
            <==> j == 5 && MissedChange(d[5], v, Size(d[1]))
  {
    hide *;
    var n := Size(d[1]);
    var x := V1Part(d, n);
    V1Updated(d, n, j, v);
    if j == 5 {
      CoveredByteCancels(V1ExtraChange(d, d[j := v]), x, 4, v);
      IdChangeCancelsIff(d[5], v, n);
    } else {
      OtherByteNeverCancels(x, j - 1, v);
    }
  }

  lemma V2Updated(d: seq<bv8>, n: nat, j: nat, v: bv8)
    requires |d| >= n + 12 && 1 <= j < n + 12
    ensures V2Part(d[j := v], n) == V2Part(d, n)[j - 1 := v] && V2Part(d, n)[j - 1] == d[j]
    ensures !(7 <= j <= 9) ==> V2ExtraChange(d, d[j := v]) == 0
    ensures j != 2 ==> (SignatureThere(d[j := v], n) <==> SignatureThere(d, n))
  {
    NoExtraChange(CrcExtra(V2Id(d)));
    hide XorByte, CrcExtra, Size;
  }

  /** For version 2, too, only a changed id byte can be missed: exactly when it moves the checksum,
      through the bytes behind it, by as much as the extra byte changes. */
  lemma V2DetectsOneByte(d: seq<bv8>, j: nat, v: bv8)
    requires ParseV2(d).Some? && j < Size(d[1]) + 12 && v != d[j] && j != 1
    ensures ParseV2(d[j := v]).Some?
            <==> 7 <= j <= 9 && Iterate(EightBits, Size(d[1]) + 10 - j, XorByte(d[j], v) as bv16)
                                == V2ExtraChange(d, d[j := v]) as bv16
  {
    if j > 0 {
      V2AcceptedIff(d, d[j := v]);
      V2AcceptedIff(d, d);
      V2OneByteCancels(d, j, v);
      hide *;
    }
  }

  lemma V2OneByteCancels(d: seq<bv8>, j: nat, v: bv8)
    requires |d| >= 12 && |d| >= Size(d[1]) + 12 && 1 < j < Size(d[1]) + 12 && v != d[j]
    requires SignatureThere(d, Size(d[1]))
    ensures SignatureThere(d[j := v], Size(d[1]))
            && Cancels(V2ExtraChange(d, d[j := v]), V2Part(d, Size(d[1])), V2Part(d[j := v], Size(d[1])))
            <==> 7 <= j <= 9 && Iterate(EightBits, Size(d[1]) + 10 - j, XorByte(d[j], v) as bv16)
                                == V2ExtraChange(d, d[j := v]) as bv16
  {
    hide *;
    V2Updated(d, Size(d[1]), j, v);
    V2OneByte(V2ExtraChange(d, d[j := v]), V2Part(d, Size(d[1])), j - 1, v);
  }

  lemma V2OneByte(extra: bv8, x: seq<bv8>, i: nat, v: bv8)
    requires |x| >= 11 && i < |x| && v != x[i] && (!(6 <= i <= 8) ==> extra == 0)
    ensures Cancels(extra, x, x[i := v])
            <==> 6 <= i <= 8 && Iterate(EightBits, |x| - 2 - i, XorByte(x[i], v) as bv16) == extra as bv16
  {
    hide *;
    if 6 <= i <= 8 {
      CoveredByteCancels(extra, x, i, v);
    } else {
      OtherByteNeverCancels(x, i, v);
    }
  }

  lemma InTheMiddle(a: seq<bv8>, x: seq<bv8>, y: seq<bv8>, b: seq<bv8>)
    requires |x| == |y|
    ensures Crc16(0, Difference(a + x + b, a + y + b)) == Iterate(EightBits, |b|, Crc16(0, Difference(x, y)))
  {
    hide Crc16, Difference, EightBits, Zeros;
    DifferenceConcat(a + x, a + y, b, b);
    DifferenceConcat(a, a, x, y);
    NoDifference(a);
    NoDifference(b);
    ZerosBefore(|a|, Difference(x, y));
    CrcConcat(0, Zeros(|a|) + Difference(x, y), Zeros(|b|));
    ZerosMoveOn(Crc16(0, Difference(x, y)), |b|);
  }

  /** Some bytes in the middle of the covered ones change from x to y, between a and b. */
  lemma MiddleCancels(extra: bv8, a: seq<bv8>, x: seq<bv8>, y: seq<bv8>, b: seq<bv8>, checksum: seq<bv8>)
    requires |x| == |y| && |checksum| == 2
    ensures Cancels(extra, a + x + b + checksum, a + y + b + checksum)
            <==> Iterate(EightBits, |b|, Crc16(0, Difference(x, y))) == extra as bv16
  {
    var s, t := a + x + b + checksum, a + y + b + checksum;
    assert s[..|s| - 2] == a + x + b && t[..|t| - 2] == a + y + b;
    SameChecksum(s, t);
    InTheMiddle(a, x, y, b);
    hide Accumulate, Crc16, EightBits, Iterate, Difference, ChecksumChange;
    CancelsExtra(extra, Crc16(0, Difference(a + x + b, a + y + b)));
  }

  /** The bytes z in place of those from i on. */
  function Replaced(d: seq<bv8>, i: nat, z: seq<bv8>): (e: seq<bv8>)
    requires i + |z| <= |d|
    ensures |e| == |d|
  {
    d[..i] + z + d[i + |z|..]
  }

  lemma ReplacedParts(d: seq<bv8>, i: nat, z: seq<bv8>, end: nat)
    requires 1 <= i && i + |z| <= end && end + 2 <= |d|
    ensures var e, m := Replaced(d, i, z), i + |z|;
            && d[1..end + 2] == d[1..i] + d[i..m] + d[m..end] + d[end..end + 2]
            && e[1..end + 2] == d[1..i] + z + d[m..end] + d[end..end + 2]
  {}

  lemma StretchCancels(extra: bv8, d: seq<bv8>, i: nat, z: seq<bv8>, end: nat)
    requires 1 <= i && i + |z| <= end && end + 2 <= |d|
    ensures Cancels(extra, d[1..end + 2], Replaced(d, i, z)[1..end + 2])
            <==> Iterate(EightBits, end - i - |z|, Crc16(0, Difference(d[i..i + |z|], z))) == extra as bv16
  {
    hide *;
    var m := i + |z|;
    ReplacedParts(d, i, z, end);
    MiddleCancels(extra, d[1..i], d[i..m], z, d[m..end], d[end..end + 2]);
  }

  lemma ReplacedBehind(d: seq<bv8>, i: nat, z: seq<bv8>, j: nat)
    requires i + |z| <= |d| && j < i
    ensures Replaced(d, i, z)[j] == d[j]
  {}

  lemma V1IsLong(d: seq<bv8>)
    requires ParseV1(d).Some?
    ensures |d| >= Size(d[1]) + 8
  {
    hide Sealed, CrcExtra, Size, Join;
  }

  /** Whatever any stretch of covered bytes of a valid version 1 frame changes to, the id included: the
      frame is accepted exactly if the change, taken through the bytes behind it, is that of the extra
      byte. */
  lemma V1DetectsStretch(d: seq<bv8>, i: nat, z: seq<bv8>)
    requires ParseV1(d).Some? && 2 <= i && i + |z| <= 6 + Size(d[1])
    ensures var e := Replaced(d, i, z);
            ParseV1(e).Some?
            <==> Iterate(EightBits, 6 + Size(d[1]) - i - |z|, Crc16(0, Difference(d[i..i + |z|], z)))
                 == V1ExtraChange(d, e) as bv16
  {
    hide *;
    V1IsLong(d);
    var e := Replaced(d, i, z);
    ReplacedBehind(d, i, z, 0);
    ReplacedBehind(d, i, z, 1);
    V1AcceptedIff(d, e);
    V1StretchCancels(d, i, z, Size(d[1]));
  }

  lemma V1StretchCancels(d: seq<bv8>, i: nat, z: seq<bv8>, n: nat)
    requires |d| >= n + 8 && 2 <= i && i + |z| <= 6 + n
    ensures var e := Replaced(d, i, z);
            Cancels(V1ExtraChange(d, e), V1Part(d, n), V1Part(e, n))
            <==> Iterate(EightBits, 6 + n - i - |z|, Crc16(0, Difference(d[i..i + |z|], z)))
                 == V1ExtraChange(d, e) as bv16
  {
    hide Cancels, V1ExtraChange, EightBits, Iterate, Crc16, Difference, Replaced;
    StretchCancels(V1ExtraChange(d, Replaced(d, i, z)), d, i, z, 6 + n);
  }

  lemma V2IsLong(d: seq<bv8>)
    requires ParseV2(d).Some?
    ensures |d| >= 12 && |d| >= Size(d[1]) + 12
  {
    hide Sealed, CrcExtra, Size, Join, V2Id;
  }

  /** The same for version 2, the three bytes of its id included. */
  lemma V2DetectsStretch(d: seq<bv8>, i: nat, z: seq<bv8>)
    requires ParseV2(d).Some? && 2 <= i && i + |z| <= 10 + Size(d[1])
    ensures var e := Replaced(d, i, z);
            ParseV2(e).Some?
            <==> SignatureThere(e, Size(d[1]))
                 && Iterate(EightBits, 10 + Size(d[1]) - i - |z|, Crc16(0, Difference(d[i..i + |z|], z)))
                    == V2ExtraChange(d, e) as bv16
  {
    hide *;
    V2IsLong(d);
    var e := Replaced(d, i, z);
    ReplacedBehind(d, i, z, 0);
    ReplacedBehind(d, i, z, 1);
    V2AcceptedIff(d, e);
    V2StretchCancels(d, i, z, Size(d[1]));
  }

  lemma V2StretchCancels(d: seq<bv8>, i: nat, z: seq<bv8>, n: nat)
    requires |d| >= n + 12 && 2 <= i && i + |z| <= 10 + n
    ensures var e := Replaced(d, i, z);
            Cancels(V2ExtraChange(d, e), V2Part(d, n), V2Part(e, n))
            <==> Iterate(EightBits, 10 + n - i - |z|, Crc16(0, Difference(d[i..i + |z|], z)))
                 == V2ExtraChange(d, e) as bv16
  {
    hide Cancels, V2ExtraChange, EightBits, Iterate, Crc16, Difference, Replaced;
    StretchCancels(V2ExtraChange(d, Replaced(d, i, z)), d, i, z, 10 + n);
  }

  // ---- Bursts -------------------------------------------------------------------------

  /** Any burst of up to 16 bits over the covered bytes and the checksum of a valid version 1 frame that
      leaves the length and the extra byte alone makes the parser reject it, except exactly for seven
      patterns across the boundary. */
  lemma V1DetectsBits(d: seq<bv8>, e: seq<bv8>, at: nat)
    requires ParseV1(d).Some? && |e| >= Size(d[1]) + 8
    requires e[0] == d[0] && e[1] == d[1] && CrcExtra(Size(e[5])) == CrcExtra(Size(d[5]))
    requires Burst(V1Part(d, Size(d[1])), V1Part(e, Size(d[1])), at)
    ensures var x, y := V1Part(d, Size(d[1])), V1Part(e, Size(d[1]));
            ParseV1(e).Some? <==> Blind(CoveredChange(x, y), ChecksumChange(x, y))
  {
    V1AcceptedIff(d, e);
    NoExtraChange(CrcExtra(Size(d[5])));
    hide ParseV1, CrcExtra, Size, XorByte, Burst, Blind, CoveredChange, ChecksumChange, Cancels;
    BurstUnseenIff(V1Part(d, Size(d[1])), V1Part(e, Size(d[1])), at);
  }

  /** The same for version 2, unless the changed flags ask for a signature that is not there. */
  lemma V2DetectsBits(d: seq<bv8>, e: seq<bv8>, at: nat)
    requires ParseV2(d).Some? && |e| >= Size(d[1]) + 12
    requires e[0] == d[0] && e[1] == d[1] && CrcExtra(V2Id(e)) == CrcExtra(V2Id(d))
    requires Burst(V2Part(d, Size(d[1])), V2Part(e, Size(d[1])), at)
    ensures var x, y := V2Part(d, Size(d[1])), V2Part(e, Size(d[1]));
            ParseV2(e).Some? <==> SignatureThere(e, Size(d[1])) && Blind(CoveredChange(x, y), ChecksumChange(x, y))
  {
    V2AcceptedIff(d, e);
    NoExtraChange(CrcExtra(V2Id(d)));
    hide ParseV2, CrcExtra, Size, XorByte, Burst, Blind, CoveredChange, ChecksumChange, Cancels, SignatureThere, V2Id;
    BurstUnseenIff(V2Part(d, Size(d[1])), V2Part(e, Size(d[1])), at);
  }

  lemma CrcOfSeven(c: bv16, s: seq<bv8>)
    requires |s| == 7
    ensures Crc16(c, s) == Accumulate(s[6], Accumulate(s[5], Accumulate(s[4], Accumulate(s[3], Accumulate(s[2],
                             Accumulate(s[1], Accumulate(s[0], c)))))))
  {
    hide Accumulate;
    assert s[1..][1..] == s[2..] && s[2..][1..] == s[3..] && s[3..][1..] == s[4..] && s[4..][1..] == s[5..];
    assert s[5..][1..] == s[6..] && s[6..][1..] == [];
    var c2 := Accumulate(s[1], Accumulate(s[0], c));
    var c4 := Accumulate(s[3], Accumulate(s[2], c2));
    var c6 := Accumulate(s[5], Accumulate(s[4], c4));
    assert Crc16(c6, s[6..]) == Accumulate(s[6], c6);
    assert Crc16(c4, s[4..]) == Crc16(c6, s[6..]);
    assert Crc16(c2, s[2..]) == Crc16(c4, s[4..]);
  }

  /** One of the seven: both frames are valid, and they differ in 14 consecutive bits only. */
  lemma BlindBurstWitness()
    ensures ParseV1([0xFE, 2, 0, 1, 1, 76, 0, 0, 206, 225]).Some?
    ensures ParseV1([0xFE, 2, 0, 1, 1, 76, 0x10, 0xA3, 204, 225]).Some?
  {
    var d, e: seq<bv8> := [0xFE, 2, 0, 1, 1, 76, 0, 0, 206, 225], [0xFE, 2, 0, 1, 1, 76, 0x10, 0xA3, 204, 225];
    assert d[1..8] == [2, 0, 1, 1, 76, 0, 0] && e[1..8] == [2, 0, 1, 1, 76, 0x10, 0xA3];
    CrcOfSeven(INITIAL, d[1..8]);
    CrcOfSeven(INITIAL, e[1..8]);
  }

  lemma TwoBytesNeverCancel(x: seq<bv8>, i: nat, u: bv8, v: bv8)
    requires 4 <= |x| && i + 3 < |x| && (u != x[i] || v != x[i + 1])
    ensures !Cancels(0, x, x[i := u][i + 1 := v])
  {
    hide *;
    var y := x[i := u][i + 1 := v];
    TwoBytesAreABurst(x, i, u, v);
    BurstUnseenIff(x, y, 8 * i);
    SameChecksum(x, y);
    BlindNeedsBoth(CoveredChange(x, y), ChecksumChange(x, y));
  }

  lemma V1UpdatedTwice(d: seq<bv8>, n: nat, j: nat, u: bv8, v: bv8)
    requires |d| >= n + 8 && 1 <= j && j + 1 < n + 8 && (j == 5 ==> u == d[5]) && (j == 4 ==> v == d[5])
    ensures var e, x := d[j := u][j + 1 := v], V1Part(d, n);
            && V1Part(e, n) == x[j - 1 := u][j := v] && x[j - 1] == d[j] && x[j] == d[j + 1]
            && V1ExtraChange(d, e) == 0
  {
    NoExtraChange(CrcExtra(Size(d[5])));
    hide XorByte, CrcExtra, Size;
    assert d[j := u][j + 1 := v][5] == d[5];
  }

  /** In particular two adjacent covered bytes, length and message id apart. */
  lemma V1DetectsBurst(d: seq<bv8>, j: nat, u: bv8, v: bv8)
    requires ParseV1(d).Some? && 1 < j && j + 1 < Size(d[1]) + 6 && (u != d[j] || v != d[j + 1])
    requires (j == 5 ==> u == d[5]) && (j == 4 ==> v == d[5])
    ensures ParseV1(d[j := u][j + 1 := v]) == None
  {
    var n := Size(d[1]);
    V1AcceptedIff(d, d[j := u][j + 1 := v]);
    V1UpdatedTwice(d, n, j, u, v);
    TwoBytesNeverCancel(V1Part(d, n), j - 1, u, v);
    hide *;
  }
}
