/** The minimal MAVLink endpoint of the bridge: frame parsers, the datagram scanner, and the one
    frame it sends. */
module Mavlink {
  import opened Bytes
  import opened Crc

  const V1_STX: bv8 := 0xFE
  const V2_STX: bv8 := 0xFD
  const RC_CHANNELS := 65
  const COMMAND_LONG := 76
  const SIGNED_FLAG: bv8 := 0x01

  datatype Message = Message(id: nat, system: bv8, component: bv8, payload: seq<bv8>)

  function CrcExtra(id: nat): bv8 {
    if id == RC_CHANNELS then 118 else if id == COMMAND_LONG then 152 else 0
  }

  function Size(b: bv8): (n: nat)
    ensures n < 256
  {
    b as int
  }

  function Byte(n: nat): bv8
    requires n < 256
  {
    n as bv8
  }

  /** The checksum a receiver computes: the covered bytes, then the per-message extra byte. */
  function Sealed(extra: bv8, covered: seq<bv8>): bv16 {
    Accumulate(extra, Crc16(INITIAL, covered))
  }

  // ---- Parsers ------------------------------------------------------------------

  function ParseV1(d: seq<bv8>): Option<Message> {
    if |d| < 8 || d[0] != V1_STX then None else
    var len := Size(d[1]);
    if |d| < len + 8 then None else
    var id := Size(d[5]);
    if Sealed(CrcExtra(id), d[1..6 + len]) != Join(d[6 + len], d[7 + len]) then None
    else Some(Message(id, d[3], d[4], d[6..6 + len]))
  }

  function V2Id(d: seq<bv8>): nat
    requires |d| >= 12
  {
    Size(d[7]) + 0x100 * Size(d[8]) + 0x1_0000 * Size(d[9])
  }

  function ParseV2(d: seq<bv8>): Option<Message> {
    if |d| < 12 || d[0] != V2_STX then None else
    var len := Size(d[1]);
    var signature := if d[2] & SIGNED_FLAG != 0 then 13 else 0;
    if |d| < len + 12 + signature then None else
    if Sealed(CrcExtra(V2Id(d)), d[1..10 + len]) != Join(d[10 + len], d[11 + len]) then None
    else Some(Message(V2Id(d), d[5], d[6], d[10..10 + len]))
  }

  /** The message that starts at offset i, if one does. */
  function ParseAt(d: seq<bv8>, i: nat): Option<Message>
    requires i < |d|
  {
    if d[i] == V1_STX then ParseV1(d[i..]) else if d[i] == V2_STX then ParseV2(d[i..]) else None
  }

  method ParseV1Frame(data: seq<bv8>) returns (message: Option<Message>)
    ensures message == ParseV1(data)
  {
    hide Accumulate, Crc16, BitwiseCrc, Join;
    if |data| < 8 || data[0] != V1_STX {
      return None;
    }
    var len := Size(data[1]);
    if |data| < len + 8 {
      return None;
    }
    var id := Size(data[5]);
    var received := Join(data[6 + len], data[7 + len]);
    var crc := CrcCalculate(data[1..6 + len]);
    crc := Accumulate(CrcExtra(id), crc);
    if crc != received {
      return None;
    }
    return Some(Message(id, data[3], data[4], data[6..6 + len]));
  }

  method ParseV2Frame(data: seq<bv8>) returns (message: Option<Message>)
    ensures message == ParseV2(data)
  {
    hide Accumulate, Crc16, BitwiseCrc, Join;
    if |data| < 12 || data[0] != V2_STX {
      return None;
    }
    var len := Size(data[1]);
    var id := V2Id(data);
    var signature := if data[2] & SIGNED_FLAG != 0 then 13 else 0;
    if |data| < len + 12 + signature {
      return None;
    }
    var received := Join(data[10 + len], data[11 + len]);
    var crc := CrcCalculate(data[1..10 + len]);
    crc := Accumulate(CrcExtra(id), crc);
    if crc != received {
      return None;
    }
    return Some(Message(id, data[5], data[6], data[10..10 + len]));
  }

  /** The message at the first offset from i on that starts one. */
  function Scan(d: seq<bv8>, i: nat): Option<Message>
    requires i <= |d|
    decreases |d| - i
  {
    if i == |d| then None else if ParseAt(d, i).Some? then ParseAt(d, i) else Scan(d, i + 1)
  }

  lemma {:induction false} ScanSkips(d: seq<bv8>, i: nat, at: nat)
    requires i <= at <= |d| && forall j :: i <= j < at ==> ParseAt(d, j) == None
    ensures Scan(d, i) == Scan(d, at)
    decreases at - i
  {
    hide ParseAt;
    if i < at {
      ScanSkips(d, i + 1, at);
    }
  }

  /** Scans a datagram for the first offset that starts a valid frame. */
  method ParseDatagram(data: seq<bv8>) returns (message: Option<Message>, ghost at: nat)
    ensures message == Scan(data, 0)
    ensures message.None? <==> forall i :: 0 <= i < |data| ==> ParseAt(data, i) == None
    ensures message.Some? ==>
              && at < |data| && message == ParseAt(data, at)
              && forall i :: 0 <= i < at ==> ParseAt(data, i) == None
  {
    hide ParseV1, ParseV2;
    message, at := None, 0;
    if |data| < 8 {
      forall i | 0 <= i < |data|
        ensures ParseAt(data, i) == None
      {
        ShortIsInvalid(data[i..]);
      }
      ScanSkips(data, 0, |data|);
      return;
    }
    for i := 0 to |data|
      invariant message == None
      invariant forall j :: 0 <= j < i ==> ParseAt(data, j) == None
    {
      if data[i] == V1_STX {
        message := ParseV1Frame(data[i..]);
        if message.Some? {
          at := i;
          assert ParseAt(data, i) == message;
          ScanSkips(data, 0, i);
          return;
        }
      } else if data[i] == V2_STX {
        message := ParseV2Frame(data[i..]);
        if message.Some? {
          at := i;
          assert ParseAt(data, i) == message;
          ScanSkips(data, 0, i);
          return;
        }
      }
    }
    ScanSkips(data, 0, |data|);
  }

  lemma ShortIsInvalid(d: seq<bv8>)
    requires |d| < 8
    ensures ParseV1(d) == None && ParseV2(d) == None
  {}

  // ---- The frame it sends ----------------------------------------------------------

  function Covered(sequence: bv8, system: bv8, component: bv8, id: bv8, payload: seq<bv8>): seq<bv8>
    requires |payload| < 256
  {
    [Byte(|payload|), sequence, system, component, id] + payload
  }

  function EncodeV1(sequence: bv8, system: bv8, component: bv8, id: bv8, payload: seq<bv8>): seq<bv8>
    requires |payload| < 256
  {
    var covered := Covered(sequence, system, component, id, payload);
    var crc := Sealed(CrcExtra(Size(id)), covered);
    [0xFE] + covered + [Low(crc), High(crc)]
  }

  const COMPANION_SYSTEM: bv8 := 255
  const COMPANION_COMPONENT: bv8 := 190
  const ZERO_FLOAT: seq<bv8> := [0, 0, 0, 0]

  /** COMMAND_LONG with command 511; the two float parameters are their four bytes. */
  function IntervalPayload(idFloat: seq<bv8>, intervalFloat: seq<bv8>, system: bv8, component: bv8): (p: seq<bv8>)
    requires |idFloat| == |intervalFloat| == 4
    ensures |p| == 33
  {
    idFloat + intervalFloat + ZERO_FLOAT + ZERO_FLOAT + ZERO_FLOAT + ZERO_FLOAT + ZERO_FLOAT
    + [0xFF, 0x01, system, component, 0]
  }

  /** The request byte by byte: header with the sequence number; parameter 1, the message id, and parameter
      2, the interval, as floats; five zero parameters; command 511, the target, no confirmation; and the
      bit-by-bit checksum of everything behind the start byte, sealed with the extra byte 152. */
  predicate IsRequest(frame: seq<bv8>, sequence: bv8, idFloat: seq<bv8>, intervalFloat: seq<bv8>, system: bv8,
                      component: bv8)
  {
    && |frame| == 41 && frame[..6] == [0xFE, 33, sequence, 255, 190, 76]
    && frame[6..10] == idFloat && frame[10..14] == intervalFloat
    && (forall i :: 14 <= i < 34 ==> frame[i] == 0)
    && Join(frame[34], frame[35]) == 511 && frame[36] == system && frame[37] == component && frame[38] == 0
    && Join(frame[39], frame[40]) == BitwiseUpdate(152, BitwiseCrc(0xFFFF, frame[1..39]))
  }

  lemma IntervalLayout(idFloat: seq<bv8>, intervalFloat: seq<bv8>, system: bv8, component: bv8)
    requires |idFloat| == |intervalFloat| == 4
    ensures var p := IntervalPayload(idFloat, intervalFloat, system, component);
            && p[0..4] == idFloat && p[4..8] == intervalFloat
            && (forall i :: 8 <= i < 28 ==> p[i] == 0)
            && Join(p[28], p[29]) == 511 && p[30] == system && p[31] == component && p[32] == 0
  {
    hide Join;
    JoinIsWord(0xFF, 0x01);
  }

  lemma RequestLayout(sequence: bv8, idFloat: seq<bv8>, intervalFloat: seq<bv8>, system: bv8, component: bv8)
    requires |idFloat| == |intervalFloat| == 4
    ensures IsRequest(EncodeV1(sequence, COMPANION_SYSTEM, COMPANION_COMPONENT, COMMAND_LONG as bv8,
                               IntervalPayload(idFloat, intervalFloat, system, component)),
                      sequence, idFloat, intervalFloat, system, component)
  {
    hide Sealed, Low, High, Join, IntervalPayload, BitwiseCrc, BitwiseUpdate;
    var p := IntervalPayload(idFloat, intervalFloat, system, component);
    var e := EncodeV1(sequence, COMPANION_SYSTEM, COMPANION_COMPONENT, COMMAND_LONG as bv8, p);
    IntervalLayout(idFloat, intervalFloat, system, component);
    SizeOfLength(COMMAND_LONG);
    SealedBitwise(152, e[1..39]);
    JoinOfBytes(Sealed(152, e[1..39]));
    assert e[6..10] == p[0..4] && e[10..14] == p[4..8];
    assert forall i :: 0 <= i < 33 ==> e[6 + i] == p[i];
    assert forall i :: 14 <= i < 34 ==> e[i] == p[i - 6];
    assert e[1..39] == Covered(sequence, COMPANION_SYSTEM, COMPANION_COMPONENT, COMMAND_LONG as bv8, p);
  }

  lemma SealedBitwise(extra: bv8, covered: seq<bv8>)
    ensures Sealed(extra, covered) == BitwiseUpdate(extra, BitwiseCrc(0xFFFF, covered))
  {
    hide Accumulate, BitwiseUpdate;
    CrcIsBitwise(INITIAL, covered);
    ShiftFormIsBitwise(extra, Crc16(INITIAL, covered));
  }

  class Endpoint {
    var sequence: bv8

    /** The frame of sendSetMessageInterval. The sequence byte wraps after 255. */
    method BuildSetMessageInterval(idFloat: seq<bv8>, intervalFloat: seq<bv8>, system: bv8, component: bv8)
      returns (frame: seq<bv8>)
      requires |idFloat| == |intervalFloat| == 4
      modifies this
      ensures sequence == old(sequence) + 1
      ensures frame == EncodeV1(old(sequence), COMPANION_SYSTEM, COMPANION_COMPONENT, COMMAND_LONG as bv8,
                                IntervalPayload(idFloat, intervalFloat, system, component))
      ensures IsRequest(frame, old(sequence), idFloat, intervalFloat, system, component)
    {
      hide IsRequest, BitwiseCrc, Crc16, Accumulate, Size, Low, High, IntervalPayload, Covered;
      SizeOfLength(COMMAND_LONG);
      RequestLayout(sequence, idFloat, intervalFloat, system, component);
      var payload := IntervalPayload(idFloat, intervalFloat, system, component);
      frame := [V1_STX, Byte(|payload|), sequence, COMPANION_SYSTEM, COMPANION_COMPONENT, COMMAND_LONG as bv8];
      HeaderAndCovered(sequence, COMPANION_SYSTEM, COMPANION_COMPONENT, COMMAND_LONG as bv8, payload);
      sequence := sequence + 1;
      frame := frame + payload;
      var crc := CrcCalculate(frame[1..]);
      crc := Accumulate(CrcExtra(COMMAND_LONG), crc);
      frame := frame + [Low(crc), High(crc)];
    }
  }

  lemma HeaderAndCovered(sequence: bv8, system: bv8, component: bv8, id: bv8, payload: seq<bv8>)
    requires |payload| < 256
    ensures var head := [V1_STX, Byte(|payload|), sequence, system, component, id] + payload;
            var covered := Covered(sequence, system, component, id, payload);
            head == [V1_STX] + covered && head[1..] == covered
  {}

  lemma SizeOfBits(n: nat)
    requires n < 256
    ensures Size(n as bv8) == n
  {}

  lemma SizeOfLength(n: nat)
    requires n < 256
    ensures Size(Byte(n)) == n
  {
    SizeOfBits(n);
    hide Size;
  }

  /** Where the fields of an encoded frame are. */
  lemma V1Layout(sequence: bv8, system: bv8, component: bv8, id: bv8, payload: seq<bv8>, rest: seq<bv8>)
    requires |payload| < 256
    ensures var n := |payload|;
            var d := EncodeV1(sequence, system, component, id, payload) + rest;
            var covered := Covered(sequence, system, component, id, payload);
            var crc := Sealed(CrcExtra(Size(id)), covered);
            && |d| >= n + 8 && d[0] == V1_STX && d[1] == Byte(n)
            && d[3] == system && d[4] == component && d[5] == id
            && d[1..6 + n] == covered && d[6..6 + n] == payload
            && d[6 + n] == Low(crc) && d[7 + n] == High(crc)
  {
    hide Sealed, CrcExtra, Size, Low, High;
  }

  /** An encoded frame is read back whatever follows it. */
  lemma V1RoundTrip(sequence: bv8, system: bv8, component: bv8, id: bv8, payload: seq<bv8>, rest: seq<bv8>)
    requires |payload| < 256
    ensures ParseV1(EncodeV1(sequence, system, component, id, payload) + rest)
            == Some(Message(Size(id), system, component, payload))
  {
    hide Sealed, CrcExtra, Size, Low, High, Join, EncodeV1, Covered;
    V1Layout(sequence, system, component, id, payload, rest);
    SizeOfLength(|payload|);
    JoinOfBytes(Sealed(CrcExtra(Size(id)), Covered(sequence, system, component, id, payload)));
  }

  /** The request the bridge sends comes back out of its own scanner, also behind other bytes as
      long as no earlier offset of the datagram starts a valid frame. */
  lemma RequestRoundTrip(prefix: seq<bv8>, sequence: bv8, payload: seq<bv8>, rest: seq<bv8>)
    requires |payload| == 33
    ensures var d := prefix + EncodeV1(sequence, COMPANION_SYSTEM, COMPANION_COMPONENT, COMMAND_LONG as bv8, payload) + rest;
            var request := Some(Message(76, 255, 190, payload));
            && ParseAt(d, |prefix|) == request
            && ((forall i :: 0 <= i < |prefix| ==> ParseAt(d, i) == None) ==> Scan(d, 0) == request)
  {
    hide Sealed, CrcExtra, Low, High, Covered, ParseV1, ParseV2;
    var frame := EncodeV1(sequence, COMPANION_SYSTEM, COMPANION_COMPONENT, COMMAND_LONG as bv8, payload);
    var d := prefix + frame + rest;
    assert d[|prefix|..] == frame + rest;
    assert d[|prefix|] == V1_STX;
    SizeOfLength(COMMAND_LONG);
    V1RoundTrip(sequence, COMPANION_SYSTEM, COMPANION_COMPONENT, COMMAND_LONG as bv8, payload, rest);
    if forall i :: 0 <= i < |prefix| ==> ParseAt(d, i) == None {
      ScanSkips(d, 0, |prefix|);
    }
  }

  // ---- Version 2 -------------------------------------------------------------------

  predicate Signed(flags: bv8) {
    flags & 1 != 0
  }

  /** What the checksum of a version 2 frame covers. */
  function CoveredV2(flags: bv8, compatible: bv8, sequence: bv8, system: bv8, component: bv8, id: nat,
                     payload: seq<bv8>): seq<bv8>
    requires |payload| < 256 && id < 0x100_0000
  {
    [Byte(|payload|), flags, compatible, sequence, system, component,
     Byte(id % 0x100), Byte(id / 0x100 % 0x100), Byte(id / 0x1_0000)] + payload
  }

  /** A version 2 frame as another endpoint sends it. A signed one ends in 13 more bytes. */
  datatype FrameV2 = FrameV2(flags: bv8, compatible: bv8, sequence: bv8, system: bv8, component: bv8, id: nat,
                             payload: seq<bv8>, signature: seq<bv8>)
  {
    predicate Valid() {
      |payload| < 256 && id < 0x100_0000 && |signature| == if Signed(flags) then 13 else 0
    }

    function Covered(): seq<bv8>
      requires Valid()
    {
      CoveredV2(flags, compatible, sequence, system, component, id, payload)
    }

    function Encoded(): seq<bv8>
      requires Valid()
    {
      var crc := Sealed(CrcExtra(id), Covered());
      [0xFD] + Covered() + [Low(crc), High(crc)] + signature
    }
  }

  lemma CoveredV2Layout(f: FrameV2)
    requires f.Valid()
    ensures var n, c := |f.payload|, f.Covered();
            && |c| == n + 9 && c[0] == Byte(n) && c[1] == f.flags && c[4] == f.system && c[5] == f.component
            && c[6] == Byte(f.id % 0x100) && c[7] == Byte(f.id / 0x100 % 0x100) && c[8] == Byte(f.id / 0x1_0000)
            && c[9..] == f.payload
  {
    hide Signed;
  }

  /** Covered bytes between the start byte and what follows them. */
  lemma Behind(stx: bv8, covered: seq<bv8>, tail: seq<bv8>)
    requires |covered| >= 9
    ensures var n, d := |covered|, [stx] + covered + tail;
            && d[1..n + 1] == covered && d[10..n + 1] == covered[9..] && d[n + 1..] == tail
            && forall i :: 0 <= i < 9 ==> d[i + 1] == covered[i]
  {}

  /** Where the fields of an encoded frame are. */
  lemma V2Layout(f: FrameV2, rest: seq<bv8>)
    requires f.Valid()
    ensures var n, d := |f.payload|, f.Encoded() + rest;
            var crc := Sealed(CrcExtra(f.id), f.Covered());
            && |d| >= n + 12 + |f.signature| && d[0] == V2_STX && d[1] == Byte(n) && d[2] == f.flags
            && d[5] == f.system && d[6] == f.component
            && d[7] == Byte(f.id % 0x100) && d[8] == Byte(f.id / 0x100 % 0x100) && d[9] == Byte(f.id / 0x1_0000)
            && d[1..10 + n] == f.Covered() && d[10..10 + n] == f.payload
            && d[10 + n] == Low(crc) && d[11 + n] == High(crc)
  {
    hide Sealed, CrcExtra, Size, Low, High, Signed, CoveredV2;
    hide FrameV2.Covered;
    CoveredV2Layout(f);
    var crc := Sealed(CrcExtra(f.id), f.Covered());
    var tail := [Low(crc), High(crc)] + f.signature + rest;
    Behind(0xFD, f.Covered(), tail);
    assert f.Encoded() + rest == [0xFD] + f.Covered() + tail;
    assert (f.Encoded() + rest)[10 + |f.payload|..] == tail;
  }

  lemma ThreeBytes(id: nat)
    requires id < 0x100_0000
    ensures id % 0x100 + 0x100 * (id / 0x100 % 0x100) + 0x1_0000 * (id / 0x1_0000) == id
  {}

  lemma IdOfThreeBytes(d: seq<bv8>, id: nat)
    requires id < 0x100_0000 && |d| >= 12
    requires d[7] == Byte(id % 0x100) && d[8] == Byte(id / 0x100 % 0x100) && d[9] == Byte(id / 0x1_0000)
    ensures V2Id(d) == id
  {
    ThreeBytes(id);
    var a, b, c := id % 0x100, id / 0x100 % 0x100, id / 0x1_0000;
    SizeOfLength(a);
    SizeOfLength(b);
    SizeOfLength(c);
    hide Size;
  }

  /** A version 2 frame, signed or not, is read back whatever follows it: its 24-bit id, system,
      component and payload. */
  lemma V2RoundTrip(f: FrameV2, rest: seq<bv8>)
    requires f.Valid()
    ensures ParseV2(f.Encoded() + rest) == Some(Message(f.id, f.system, f.component, f.payload))
  {
    hide Sealed, CrcExtra, Size, Low, High, Join, V2Id, CoveredV2;
    hide FrameV2.Encoded, FrameV2.Covered;
    V2Layout(f, rest);
    SizeOfLength(|f.payload|);
    IdOfThreeBytes(f.Encoded() + rest, f.id);
    JoinOfBytes(Sealed(CrcExtra(f.id), f.Covered()));
  }

  // ---- Nothing but frames is accepted ------------------------------------------------

  lemma ByteOfSize(b: bv8, n: nat)
    requires n == Size(b)
    ensures Byte(n) == b
  {}

  lemma BytesOfJoin(lo: bv8, hi: bv8)
    ensures Low(Join(lo, hi)) == lo && High(Join(lo, hi)) == hi
  {}

  lemma DigitsOfId(id: nat, a: nat, b: nat, c: nat)
    requires a < 0x100 && b < 0x100 && c < 0x100 && id == a + 0x100 * b + 0x1_0000 * c
    ensures id < 0x100_0000 && id % 0x100 == a && id / 0x100 % 0x100 == b && id / 0x1_0000 == c
  {}

  /** The bytes of a whole version 2 frame are there. */
  predicate Whole(d: seq<bv8>) {
    |d| >= 12 && |d| >= Size(d[1]) + 12 + if Signed(d[2]) then 13 else 0
  }

  /** The frame that a datagram starts with, field by field. */
  function FrameAt(d: seq<bv8>): (f: FrameV2)
    requires Whole(d)
  {
    var n := Size(d[1]);
    FrameV2(d[2], d[3], d[4], d[5], d[6], V2Id(d), d[10..10 + n], d[12 + n..12 + n + if Signed(d[2]) then 13 else 0])
  }

  lemma ParsedMeans(d: seq<bv8>)
    requires ParseV2(d).Some?
    ensures Whole(d) && d[0] == 0xFD
    ensures var n, f := Size(d[1]), FrameAt(d);
            && Join(d[10 + n], d[11 + n]) == Sealed(CrcExtra(f.id), d[1..10 + n])
            && ParseV2(d).value == Message(f.id, f.system, f.component, f.payload)
  {
    hide Sealed, CrcExtra, Size, Join, V2Id;
  }

  lemma IdBytesOf(d: seq<bv8>)
    requires |d| >= 12
    ensures var id := V2Id(d);
            && id < 0x100_0000 && Byte(id % 0x100) == d[7]
            && Byte(id / 0x100 % 0x100) == d[8] && Byte(id / 0x1_0000) == d[9]
  {
    hide Size, Byte;
    DigitsOfId(V2Id(d), Size(d[7]), Size(d[8]), Size(d[9]));
    var id := V2Id(d);
    hide *;
    ByteOfSize(d[7], id % 0x100);
    ByteOfSize(d[8], id / 0x100 % 0x100);
    ByteOfSize(d[9], id / 0x1_0000);
  }

  lemma HeadAndPayload(d: seq<bv8>, n: nat)
    requires |d| >= n + 10
    ensures d[1..10 + n] == [d[1], d[2], d[3], d[4], d[5], d[6], d[7], d[8], d[9]] + d[10..10 + n]
  {}

  lemma CoveredBytesOf(d: seq<bv8>)
    requires Whole(d)
    ensures FrameAt(d).Valid() && FrameAt(d).Covered() == d[1..10 + Size(d[1])]
  {
    IdBytesOf(d);
    hide Size, V2Id, Signed, Byte;
    var f, n := FrameAt(d), Size(d[1]);
    ByteOfSize(d[1], n);
    HeadAndPayload(d, n);
    assert f.Covered() == [d[1], d[2], d[3], d[4], d[5], d[6], d[7], d[8], d[9]] + d[10..10 + n];
  }

  lemma SignatureOf(d: seq<bv8>)
    requires Whole(d)
    ensures var n, m := Size(d[1]), |FrameAt(d).signature|;
            12 + n + m <= |d| && FrameAt(d).signature == d[12 + n..12 + n + m]
  {
    hide Size, V2Id, Signed;
  }

  lemma Pieces(d: seq<bv8>, n: nat, m: nat)
    requires |d| >= n + 12 + m
    ensures d[..n + 12 + m] == [d[0]] + d[1..10 + n] + [d[10 + n], d[11 + n]] + d[12 + n..12 + n + m]
  {}

  lemma EncodedInPieces(f: FrameV2, lo: bv8, hi: bv8)
    requires f.Valid() && Join(lo, hi) == Sealed(CrcExtra(f.id), f.Covered())
    ensures f.Encoded() == [0xFD] + f.Covered() + [lo, hi] + f.signature
  {
    BytesOfJoin(lo, hi);
    hide Sealed, CrcExtra, Low, High, Join, CoveredV2, Signed;
    hide FrameV2.Covered;
  }

  /** Nothing but an encoded frame is accepted: what parses starts with the encoding of exactly what
      comes out, its signature included if the flags announce one. */
  lemma V2Inverse(d: seq<bv8>) returns (f: FrameV2)
    requires ParseV2(d).Some?
    ensures f.Valid() && f.Encoded() <= d
    ensures ParseV2(d).value == Message(f.id, f.system, f.component, f.payload)
  {
    hide *;
    ParsedMeans(d);
    f := FrameAt(d);
    CoveredBytesOf(d);
    SignatureOf(d);
    var n, m := Size(d[1]), |f.signature|;
    EncodedInPieces(f, d[10 + n], d[11 + n]);
    Pieces(d, n, m);
  }

  lemma ParsedV1Means(d: seq<bv8>)
    requires ParseV1(d).Some?
    ensures |d| >= Size(d[1]) + 8 && d[0] == 0xFE
    ensures var n := Size(d[1]);
            && Join(d[6 + n], d[7 + n]) == Sealed(CrcExtra(Size(d[5])), d[1..6 + n])
            && ParseV1(d).value == Message(Size(d[5]), d[3], d[4], d[6..6 + n])
  {
    hide Sealed, CrcExtra, Size, Join;
  }

  lemma CoveredV1Of(d: seq<bv8>, n: nat)
    requires |d| >= n + 8 && n == Size(d[1])
    ensures Covered(d[2], d[3], d[4], d[5], d[6..6 + n]) == d[1..6 + n]
  {
    ByteOfSize(d[1], n);
    hide Size, Byte;
    assert d[1..6 + n] == [d[1], d[2], d[3], d[4], d[5]] + d[6..6 + n];
  }

  lemma PiecesV1(d: seq<bv8>, n: nat)
    requires |d| >= n + 8
    ensures d[..n + 8] == [d[0]] + d[1..6 + n] + [d[6 + n], d[7 + n]]
  {}

  /** The same for version 1; d[2] is the sequence number. */
  lemma V1Inverse(d: seq<bv8>)
    requires ParseV1(d).Some?
    ensures var m := ParseV1(d).value;
            && |m.payload| < 256 && |d| > 5 && m.id == Size(d[5])
            && EncodeV1(d[2], m.system, m.component, d[5], m.payload) <= d
  {
    hide ParseV1, Sealed, CrcExtra, Size, Low, High, Join, Covered;
    ParsedV1Means(d);
    var n := Size(d[1]);
    CoveredV1Of(d, n);
    BytesOfJoin(d[6 + n], d[7 + n]);
    PiecesV1(d, n);
  }

  // ---- The RC channel ------------------------------------------------------------------

  /** extractRcChannelPwm: the pulse width of a channel, unless it is missing or marked unused. */
  function ExtractPwm(m: Message, channel: int): Option<nat> {
    if m.id != RC_CHANNELS || channel < 1 || channel > 18 then None else
    var offset := 4 + (channel - 1) * 2;
    if offset + 1 >= |m.payload| then None else
    var pwm := Join(m.payload[offset], m.payload[offset + 1]);
    if pwm == 0 || pwm == 0xFFFF then None else Some(pwm as int)
  }

  /** The channel values as RC_CHANNELS carries them, behind a four-byte time stamp: of each value
      first what is left over 256, then the 256s. */
  function ChannelBytes(values: seq<bv16>): (b: seq<bv8>)
    ensures |b| == 2 * |values|
  {
    if values == [] then [] else [(values[0] % 256) as bv8, (values[0] / 256) as bv8] + ChannelBytes(values[1..])
  }

  lemma JoinOfWord(v: bv16)
    ensures Join((v % 256) as bv8, (v / 256) as bv8) == v
  {
    BytesOfWord(v);
    JoinOfBytes(v);
    hide Join, Low, High;
    SameByte((v % 256) as bv8, Low(v));
    SameByte((v / 256) as bv8, High(v));
  }

  lemma {:induction false} ChannelByteAt(values: seq<bv16>, k: nat)
    requires k < |values|
    ensures var b := ChannelBytes(values);
            Join(b[2 * k], b[2 * k + 1]) == values[k]
    decreases |values|
  {
    hide Join;
    if k == 0 {
      JoinOfWord(values[0]);
    } else {
      ChannelByteAt(values[1..], k - 1);
    }
  }

  lemma Inside(a: seq<bv8>, b: seq<bv8>, n: nat, i: nat)
    requires i < |b| && |a| + i < n <= |a| + |b|
    ensures (a + b)[..n][|a| + i] == b[i]
  {}

  /** From an RC_CHANNELS payload that is cut short anywhere, exactly the channels that arrived whole
      and are in use are read, each with its own value. */
  lemma ExtractReadsChannel(m: Message, time: seq<bv8>, values: seq<bv16>, n: nat, channel: int)
    requires m.id == 65 && |time| == 4 && n <= 4 + 2 * |values|
    requires m.payload == (time + ChannelBytes(values))[..n]
    ensures ExtractPwm(m, channel)
            == if 1 <= channel <= 18 && 4 + 2 * channel <= n && values[channel - 1] != 0 && values[channel - 1] != 0xFFFF
               then Some(values[channel - 1] as int) else None
  {
    hide Join, ChannelBytes;
    if 1 <= channel && 4 + 2 * channel <= n {
      var k, b := channel - 1, ChannelBytes(values);
      ChannelByteAt(values, k);
      Inside(time, b, n, 2 * k);
      Inside(time, b, n, 2 * k + 1);
    }
  }

  /** The whole way of a pulse width, from the sender of a version 2 frame, which may cut zeros off the
      end of the payload, to the switch: behind bytes that start no valid frame and before any others,
      channel number `channel` of the message that the scanner finds is the value that was sent. */
  lemma ChannelThroughDatagram(prefix: seq<bv8>, f: FrameV2, rest: seq<bv8>, time: seq<bv8>, values: seq<bv16>, n: nat,
                               channel: int)
    requires f.Valid() && f.id == 65 && |time| == 4 && n <= 4 + 2 * |values|
    requires f.payload == (time + ChannelBytes(values))[..n]
    requires var d := prefix + f.Encoded() + rest; forall i :: 0 <= i < |prefix| ==> ParseAt(d, i) == None
    ensures var found := Scan(prefix + f.Encoded() + rest, 0);
            && found == Some(Message(65, f.system, f.component, f.payload))
            && ExtractPwm(found.value, channel)
               == if 1 <= channel <= 18 && 4 + 2 * channel <= n && values[channel - 1] != 0 && values[channel - 1] != 0xFFFF
                  then Some(values[channel - 1] as int) else None
  {
    hide ParseV1, ParseV2, ExtractPwm, ChannelBytes;
    hide FrameV2.Encoded;
    var d := prefix + f.Encoded() + rest;
    assert d[|prefix|..] == f.Encoded() + rest;
    assert d[|prefix|] == V2_STX by {
      V2Layout(f, rest);
    }
    V2RoundTrip(f, rest);
    ScanSkips(d, 0, |prefix|);
    ExtractReadsChannel(Message(65, f.system, f.component, f.payload), time, values, n, channel);
  }
}
