/** The HIL frame format: byte stuffing (the octet-stuffed framing of section 4.2 of RFC 1662)
    around a payload and its Fletcher-16 trailer. These functions are the specification the
    three encoders and the three decoders are proved against. */
module HilCodec {
  import opened Bytes
  import opened Fletcher

  const DELIMITER: byte := 0x7E
  const ESCAPE: byte := 0x7D

  /** The three configurable bytes of a Frame. */
  datatype Marks = Marks(header: byte, end: byte, escape: byte) {
    predicate Special(b: byte) {
      b == header || b == end || b == escape
    }
  }

  const DEFAULT_MARKS: Marks := Marks(DELIMITER, DELIMITER, ESCAPE)

  // ---- Stuffing ---------------------------------------------------------------

  function StuffByte(m: Marks, b: byte): (r: seq<byte>)
    ensures 1 <= |r| <= 2
  {
    if m.Special(b) then [m.escape, Flip(b)] else [b]
  }

  function Stuff(m: Marks, x: seq<byte>): (r: seq<byte>)
    ensures |x| <= |r| <= 2 * |x|
  {
    if x == [] then [] else StuffByte(m, x[0]) + Stuff(m, x[1..])
  }

  /** The bytes an unstuffing loop pushes, and whether an escape was left without its byte. */
  datatype Unstuffed = Unstuffed(bytes: seq<byte>, dangling: bool)

  function Unstuff(escape: byte, s: seq<byte>): Unstuffed {
    if s == [] then Unstuffed([], false)
    else if s[0] != escape then
      var rest := Unstuff(escape, s[1..]);
      rest.(bytes := [s[0]] + rest.bytes)
    else if |s| == 1 then Unstuffed([], true)
    else
      var rest := Unstuff(escape, s[2..]);
      rest.(bytes := [Flip(s[1])] + rest.bytes)
  }

  lemma {:induction false} StuffConcat(m: Marks, x: seq<byte>, y: seq<byte>)
    ensures Stuff(m, x + y) == Stuff(m, x) + Stuff(m, y)
  {
    if x == [] {
      assert x + y == y;
    } else {
      var z := x + y;
      assert z[0] == x[0];
      assert z[1..] == x[1..] + y;
      StuffConcat(m, x[1..], y);
      calc {
        Stuff(m, z);
        StuffByte(m, x[0]) + Stuff(m, z[1..]);
        StuffByte(m, x[0]) + (Stuff(m, x[1..]) + Stuff(m, y));
        { AppendAssociates(StuffByte(m, x[0]), Stuff(m, x[1..]), Stuff(m, y)); }
        Stuff(m, x) + Stuff(m, y);
      }
    }
  }

  lemma StuffNext(m: Marks, x: seq<byte>, i: nat)
    requires i < |x|
    ensures Stuff(m, x[..i + 1]) == Stuff(m, x[..i]) + StuffByte(m, x[i])
    ensures |Stuff(m, x[..i + 1])| <= 2 * (i + 1)
  {
    assert x[..i + 1] == x[..i] + [x[i]];
    StuffConcat(m, x[..i], [x[i]]);
    assert [x[i]][1..] == [];
  }

  function Prepend(x: seq<byte>, u: Unstuffed): Unstuffed {
    u.(bytes := x + u.bytes)
  }

  lemma PrependTwice(x: seq<byte>, b: byte, u: Unstuffed)
    ensures Prepend(x, Prepend([b], u)) == Prepend(x + [b], u)
  {
    AppendAssociates(x, [b], u.bytes);
  }

  lemma UnstuffOne(m: Marks, b: byte, t: seq<byte>)
    ensures Unstuff(m.escape, StuffByte(m, b) + t) == Prepend([b], Unstuff(m.escape, t))
  {
    var s := StuffByte(m, b) + t;
    if m.Special(b) {
      FlipUndone(b);
      assert s[2..] == t;
    } else {
      assert s[1..] == t;
    }
  }

  /** Unstuffing recovers what was stuffed and carries on behind it, whatever the three marks
      are (they may even coincide). */
  lemma {:induction false} UnstuffStuffed(m: Marks, x: seq<byte>, t: seq<byte>)
    ensures Unstuff(m.escape, Stuff(m, x) + t) == Prepend(x, Unstuff(m.escape, t))
  {
    var u := Unstuff(m.escape, t);
    if x == [] {
      assert [] + t == t && [] + u.bytes == u.bytes;
    } else {
      var first, tail := StuffByte(m, x[0]), Stuff(m, x[1..]);
      UnstuffStuffed(m, x[1..], t);
      UnstuffOne(m, x[0], tail + t);
      AppendAssociates(first, tail, t);
      AppendAssociates([x[0]], x[1..], u.bytes);
      assert [x[0]] + x[1..] == x;
    }
  }

  /** The left inverse: unescaping an escaped copy gives back the input, for every setting. */
  lemma UnstuffUndoesStuff(m: Marks, x: seq<byte>)
    ensures Unstuff(m.escape, Stuff(m, x)) == Unstuffed(x, false)
  {
    UnstuffStuffed(m, x, []);
    assert Stuff(m, x) + [] == Stuff(m, x) && x + [] == x;
  }

  /** Neither the header nor the end byte occurs. */
  ghost predicate DelimiterFree(m: Marks, s: seq<byte>) {
    forall i :: 0 <= i < |s| ==> s[i] != m.header && s[i] != m.end
  }

  /** What the marks must satisfy for the stuffed bytes to be free of the delimiters. */
  predicate TransparentMarks(m: Marks) {
    && m.escape != m.header && m.escape != m.end
    && Flip(m.escape) != m.header && Flip(m.escape) != m.end
    && Flip(m.header) != m.end
  }

  lemma {:induction false} StuffedIsDelimiterFree(m: Marks, x: seq<byte>)
    requires TransparentMarks(m)
    ensures DelimiterFree(m, Stuff(m, x))
  {
    if x != [] {
      StuffedIsDelimiterFree(m, x[1..]);
      FlipUndone(x[0]);
    }
  }

  lemma FlipUndone(b: byte)
    ensures Flip(Flip(b)) == b
  {}

  /** Stuffing hides both delimiters in every message exactly for the transparent settings. */
  lemma TransparentIff(m: Marks)
    ensures TransparentMarks(m) <==> forall x :: DelimiterFree(m, Stuff(m, x))
  {
    if TransparentMarks(m) {
      forall x ensures DelimiterFree(m, Stuff(m, x)) {
        StuffedIsDelimiterFree(m, x);
      }
    } else {
      var culprit := if Flip(m.header) == m.end then m.header else m.escape;
      var x: seq<byte> := [culprit];
      assert Stuff(m, x) == [m.escape, Flip(culprit)];
      assert Stuff(m, x)[0] == m.escape && Stuff(m, x)[1] == Flip(culprit);
      assert !DelimiterFree(m, Stuff(m, x));
    }
  }

  // ---- Frames -----------------------------------------------------------------

  /** The checksum as it is sent: low byte first. */
  function Trailer(p: seq<byte>): (r: seq<byte>)
    ensures |r| == 2
  {
    [Fletcher16(p) % 256, Fletcher16(p) / 256]
  }

  /** What stands between the two delimiters. */
  function Body(m: Marks, p: seq<byte>): (r: seq<byte>) {
    Stuff(m, p + Trailer(p))
  }

  function EncodeWith(m: Marks, p: seq<byte>): seq<byte> {
    [m.header] + Body(m, p) + [m.end]
  }

  /** The encoding of a payload with the delimiter 0x7E and the escape 0x7D. */
  function Encode(p: seq<byte>): seq<byte> {
    EncodeWith(DEFAULT_MARKS, p)
  }

  function EncodeAll(ps: seq<seq<byte>>): seq<byte> {
    if ps == [] then [] else Encode(ps[0]) + EncodeAll(ps[1..])
  }

  /** The two trailer bytes: first the sum of the payload, then the sum with byte i weighted n - i,
      both mod 255. */
  lemma TrailerBytes(p: seq<byte>)
    ensures Trailer(p) == [Total(p) % 255, Weighted(p) % 255]
  {
    WordHoldsBothSums(p);
  }

  /** One byte of payload or trailer on the line, wherever it stands. */
  lemma ByteOnTheLine(x: seq<byte>, b: byte, y: seq<byte>)
    ensures var wire := if b == 0x7E then [0x7D, 0x5E] else if b == 0x7D then [0x7D, 0x5D] else [b];
            Stuff(DEFAULT_MARKS, x + [b] + y) == Stuff(DEFAULT_MARKS, x) + wire + Stuff(DEFAULT_MARKS, y)
  {
    StuffConcat(DEFAULT_MARKS, x + [b], y);
    StuffConcat(DEFAULT_MARKS, x, [b]);
    assert [b][1..] == [];
    assert Stuff(DEFAULT_MARKS, [b]) == StuffByte(DEFAULT_MARKS, b);
  }

  lemma {:induction false} NothingToEscape(x: seq<byte>)
    requires 0x7D !in x && 0x7E !in x
    ensures Stuff(DEFAULT_MARKS, x) == x
  {
    if x != [] {
      NothingToEscape(x[1..]);
      assert [x[0]] + x[1..] == x;
    }
  }

  /** A frame on the line: 0x7E, the payload and the two sums stuffed, 0x7E; a payload without 0x7D
      and 0x7E whose sums are neither stands there as it is. */
  lemma FrameOnTheLine(p: seq<byte>)
    ensures var x := p + [Total(p) % 255, Weighted(p) % 255];
            && Encode(p) == [0x7E] + Stuff(DEFAULT_MARKS, x) + [0x7E]
            && (0x7D !in x && 0x7E !in x ==> Encode(p) == [0x7E] + p + [Total(p) % 255, Weighted(p) % 255] + [0x7E])
  {
    TrailerBytes(p);
    hide Total, Weighted, Trailer, Stuff;
    var x := p + [Total(p) % 255, Weighted(p) % 255];
    if 0x7D !in x && 0x7E !in x {
      NothingToEscape(x);
    }
  }

  /** An encoder's buffer after the header and the first i bytes of payload and trailer. */
  ghost function Begun(x: seq<byte>, i: nat): (r: seq<byte>)
    requires i <= |x|
    ensures |r| <= 1 + 2 * i
  {
    [DELIMITER] + Stuff(DEFAULT_MARKS, x[..i])
  }

  lemma BegunNext(x: seq<byte>, i: nat)
    requires i < |x|
    ensures Begun(x, i + 1) == Begun(x, i) + StuffByte(DEFAULT_MARKS, x[i])
  {
    StuffNext(DEFAULT_MARKS, x, i);
  }

  /** The two checksum bytes and the END complete an encoding. */
  lemma TrailerCompletes(p: seq<byte>)
    ensures Begun(p + Trailer(p), |p|) + StuffByte(DEFAULT_MARKS, Fletcher16(p) % 256)
            + StuffByte(DEFAULT_MARKS, Fletcher16(p) / 256) + [DELIMITER] == Encode(p)
  {
    var x := p + Trailer(p);
    BegunNext(x, |p|);
    BegunNext(x, |p| + 1);
    hide StuffByte, Fletcher16, Stuff;
    assert x[..|x|] == x;
  }

  /** The payload of an unstuffed frame whose trailer matches. */
  function Verify(decoded: seq<byte>): Option<seq<byte>> {
    if |decoded| < 2 then None else
    var n := |decoded| - 2;
    if Word(decoded[n], decoded[n + 1]) == Fletcher16(decoded[..n]) then Some(decoded[..n]) else None
  }

  lemma VerifyTrailer(p: seq<byte>)
    ensures Verify(p + Trailer(p)) == Some(p)
  {
    assert (p + Trailer(p))[..|p|] == p;
  }

  /** A frame that verifies is the payload followed by its own trailer, and nothing else. */
  lemma VerifyInverse(decoded: seq<byte>)
    requires Verify(decoded).Some?
    ensures decoded == Verify(decoded).value + Trailer(Verify(decoded).value)
  {
    var n := |decoded| - 2;
    var lo, hi := decoded[n], decoded[n + 1];
    assert Word(lo, hi) % 256 == lo && Word(lo, hi) / 256 == hi;
    assert decoded == decoded[..n] + [lo, hi];
  }

  /** Two different payloads never share an encoding. */
  lemma EncodeInjective(m: Marks, p: seq<byte>, q: seq<byte>)
    requires EncodeWith(m, p) == EncodeWith(m, q)
    ensures p == q
  {
    var e := EncodeWith(m, p);
    assert e[1..|e| - 1] == Body(m, p);
    assert e[1..|e| - 1] == Body(m, q);
    UnstuffUndoesStuff(m, p + Trailer(p));
    UnstuffUndoesStuff(m, q + Trailer(q));
    VerifyTrailer(p);
    VerifyTrailer(q);
  }

  /** A payload byte that arrives changed, other than 0x00 for 0xFF or back, is never accepted
      under the trailer of the payload that was sent. */
  lemma CorruptedPayloadRejected(p: seq<byte>, i: nat, v: byte)
    requires i < |p| && v % 255 != p[i] % 255
    ensures Verify(p[i := v] + Trailer(p)) == None
  {
    var q := p[i := v];
    OneByteError(p, i, v);
    assert (q + Trailer(p))[..|q|] == q;
  }
}
