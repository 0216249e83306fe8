/** The HilFrame class of the radio bridge: fixed marks, vectors, and a strict decoder. */
module BridgeFrame {
  import opened Bytes
  import opened Fletcher
  import opened HilCodec
  import FrameClass

  /** The payload decodeFromBytes accepts: a dangling escape is always refused. */
  function StrictDecode(b: seq<byte>): Option<seq<byte>> {
    var u := Unstuff(ESCAPE, b);
    if u.dangling then None else Verify(u.bytes)
  }

  /** What is still to come when the decode loop stands before s, with or without a pending escape. */
  ghost function Remaining(escapeNext: bool, s: seq<byte>): Unstuffed {
    if escapeNext then
      if s == [] then Unstuffed([], true) else Prepend([Flip(s[0])], Unstuff(ESCAPE, s[1..]))
    else Unstuff(ESCAPE, s)
  }

  class HilFrame {
    var payload: seq<byte>
    var encoded: seq<byte>

    constructor ()
      ensures payload == [] && encoded == []
    {
      payload, encoded := [], [];
    }

    method AppendEscaped(b: byte)
      modifies this`encoded
      ensures encoded == old(encoded) + StuffByte(DEFAULT_MARKS, b)
    {
      if b == DELIMITER || b == ESCAPE {
        encoded := encoded + [ESCAPE] + [Flip(b)];
      } else {
        encoded := encoded + [b];
      }
    }

    method Build() returns (ok: bool)
      modifies this`encoded
      ensures ok == (payload != [])
      ensures encoded == if ok then Encode(payload) else old(encoded)
    {
      if payload == [] {
        return false;
      }
      encoded := [DELIMITER];
      ghost var x := payload + Trailer(payload);
      assert x[..0] == [];
      hide StuffByte, Trailer, Encode;
      for i := 0 to |payload|
        invariant encoded == Begun(x, i)
      {
        BegunNext(x, i);
        AppendEscaped(payload[i]);
      }
      var crc := Checksum(payload);
      AppendEscaped(crc % 256);
      AppendEscaped(crc / 256);
      encoded := encoded + [DELIMITER];
      TrailerCompletes(payload);
      return true;
    }

    method DecodeFromBytes(b: seq<byte>) returns (ok: bool)
      modifies this
      ensures match StrictDecode(b)
              case Some(p) => ok && payload == p && encoded == []
              case None => !ok && payload == old(payload) && encoded == old(encoded)
    {
      hide Total, Weighted, Fletcher16;
      var decoded: seq<byte> := [];
      var escapeNext := false;
      for i := 0 to |b|
        invariant Unstuff(ESCAPE, b) == Prepend(decoded, Remaining(escapeNext, b[i..]))
        invariant unchanged(this)
      {
        RemainingStep(escapeNext, b, i);
        if escapeNext {
          PrependTwice(decoded, Flip(b[i]), Remaining(false, b[i + 1..]));
          decoded := decoded + [Flip(b[i])];
          escapeNext := false;
          continue;
        }
        if b[i] == ESCAPE {
          escapeNext := true;
          continue;
        }
        PrependTwice(decoded, b[i], Remaining(false, b[i + 1..]));
        decoded := decoded + [b[i]];
      }
      assert Unstuff(ESCAPE, b) == Unstuffed(decoded, escapeNext) by {
        assert b[|b|..] == [] && decoded + [] == decoded;
      }
      if escapeNext || |decoded| < 2 {
        return false;
      }
      var payloadSize := |decoded| - 2;
      var received := Word(decoded[payloadSize], decoded[payloadSize + 1]);
      var computed := Checksum(decoded[..payloadSize]);
      if received != computed {
        return false;
      }
      payload := decoded[..payloadSize];
      encoded := [];
      return true;
    }
  }

  lemma RemainingStep(escapeNext: bool, b: seq<byte>, i: nat)
    requires i < |b|
    ensures Remaining(escapeNext, b[i..]) ==
            if escapeNext then Prepend([Flip(b[i])], Remaining(false, b[i + 1..]))
            else if b[i] == ESCAPE then Remaining(true, b[i + 1..])
            else Prepend([b[i]], Remaining(false, b[i + 1..]))
  {
    var s := b[i..];
    assert s[1..] == b[i + 1..];
    if i + 1 < |b| {
      assert s[2..] == b[i + 1..][1..];
    }
  }

  lemma BridgeRoundTrip(p: seq<byte>)
    ensures StrictDecode(Body(DEFAULT_MARKS, p)) == Some(p)
  {
    UnstuffUndoesStuff(DEFAULT_MARKS, p + Trailer(p));
    VerifyTrailer(p);
  }

  // ---- Frame against HilFrame ----------------------------------------------------

  /** The one disagreement: the body ends in a dangling escape, and 0x7D taken as the high
      checksum byte fits the bytes before it. */
  predicate AcceptedDangling(b: seq<byte>) {
    var u := Unstuff(ESCAPE, b);
    var n := |u.bytes| - 1;
    u.dangling && n >= 0 && Word(u.bytes[n], ESCAPE) == Fletcher16(u.bytes[..n])
  }

  lemma UnstuffShrinks(e: byte, s: seq<byte>)
    ensures var u := Unstuff(e, s); |u.bytes| + (if u.dangling then 1 else 0) <= |s|
  {}

  /** Frame::unbuild on 7E b 7E and HilFrame::decodeFromBytes on b agree on every body, except
      exactly on those of AcceptedDangling, where only Frame accepts. */
  lemma FrameAgainstHilFrame(b: seq<byte>)
    ensures var byFrame := FrameClass.Decode(DEFAULT_MARKS, [DELIMITER] + b + [DELIMITER]);
            && (byFrame != StrictDecode(b) <==> AcceptedDangling(b))
            && (AcceptedDangling(b) ==>
                  StrictDecode(b) == None
                  && byFrame == Some(Unstuff(ESCAPE, b).bytes[..|Unstuff(ESCAPE, b).bytes| - 1]))
  {
    var buffer := [DELIMITER] + b + [DELIMITER];
    var u := Unstuff(ESCAPE, b);
    UnstuffShrinks(ESCAPE, b);
    assert buffer[1..|buffer| - 1] == b;
    if u.dangling {
      var n := |u.bytes| - 1;
      if n >= 0 {
        assert (u.bytes + [ESCAPE])[..n] == u.bytes[..n];
      }
    }
  }

  /** Losing the last byte of a frame whose high checksum byte is 0x7D (sent as 7D 5D) goes
      unseen by Frame, although its comment says that the checksum then fails; HilFrame sees it. */
  lemma LostTrailerByte(p: seq<byte>)
    requires Fletcher16(p) / 256 == ESCAPE
    ensures var cut := Body(DEFAULT_MARKS, p)[..|Body(DEFAULT_MARKS, p)| - 1];
            && FrameClass.Decode(DEFAULT_MARKS, [DELIMITER] + cut + [DELIMITER]) == Some(p)
            && StrictDecode(cut) == None
  {
    var lo := Fletcher16(p) % 256;
    var x := p + Trailer(p);
    StuffNext(DEFAULT_MARKS, x, |p| + 1);
    assert x[..|p| + 2] == x && x[..|p| + 1] == p + [lo];
    var cut := Body(DEFAULT_MARKS, p)[..|Body(DEFAULT_MARKS, p)| - 1];
    assert cut == Stuff(DEFAULT_MARKS, p + [lo]) + [ESCAPE];
    UnstuffStuffed(DEFAULT_MARKS, p + [lo], [ESCAPE]);
    assert Unstuff(ESCAPE, cut) == Unstuffed(p + [lo], true);
    assert (p + [lo])[..|p|] == p;
    FrameAgainstHilFrame(cut);
  }

  /** Such a payload exists: the single byte 0x7D. */
  lemma LostTrailerByteWitness()
    ensures Fletcher16([ESCAPE]) / 256 == ESCAPE
  {
    assert [ESCAPE][..0] == [];
    assert Sums([ESCAPE]) == (125, 125);
  }
}
