/** What the streaming decoder of HilFrameArduino::readFrom does on streams: round trips,
    self-synchronisation, agreement with batch decoding. */
module StreamDecoder {
  import opened Bytes
  import opened HilCodec
  import opened Receivers

  /** The states a decoder with room for `max` payload bytes can be in. */
  ghost predicate Legal(max: nat, st: State) {
    st.InFrame? ==> |st.acc| <= max + 2
  }

  lemma {:induction false} FeedKeepsLegal(max: nat, st: State, s: seq<byte>)
    requires Legal(max, st)
    ensures Legal(max, Feed(Decoder(max), st, s).state)
    decreases |s|
  {
    if s != [] {
      FeedKeepsLegal(max, DecoderStep(max, st, s[0]).0, s[1..]);
    }
  }

  // ---- Running over the body of a frame ----------------------------------------

  lemma DefaultMarks(b: byte)
    ensures DEFAULT_MARKS.Special(b) <==> b == DELIMITER || b == ESCAPE
    ensures TransparentMarks(DEFAULT_MARKS)
    ensures Flip(Flip(b)) == b
  {}

  /** One stuffed byte adds that byte, or overflows the buffer, or is skipped outside a frame. */
  function Absorb(max: nat, st: State, b: byte): (r: State)
    requires Legal(max, st) && (st.InFrame? ==> !st.escaped)
    ensures Legal(max, r) && (r.InFrame? ==> !r.escaped)
  {
    if st.Hunting? || |st.acc| >= max + 2 then Hunting else InFrame(false, st.acc + [b])
  }

  lemma FeedStuffByte(max: nat, st: State, b: byte)
    requires Legal(max, st) && (st.InFrame? ==> !st.escaped)
    ensures Feed(Decoder(max), st, StuffByte(DEFAULT_MARKS, b)) == Fed(Absorb(max, st, b), [])
  {
    DefaultMarks(b);
    if DEFAULT_MARKS.Special(b) {
      FeedTwo(Decoder(max), st, ESCAPE, Flip(b));
    } else {
      FeedOne(Decoder(max), st, b);
    }
  }

  /** The state after the bytes of x have arrived stuffed. */
  function Collect(max: nat, st: State, x: seq<byte>): (r: State)
    ensures Legal(max, r) && (r.InFrame? ==> !r.escaped)
  {
    if st.InFrame? && |st.acc| + |x| <= max + 2 then InFrame(false, st.acc + x) else Hunting
  }

  /** Over a whole stuffed body the machine returns nothing, and either it collects exactly the
      bytes that were stuffed or it ends up hunting. */
  lemma {:induction false} FeedStuffed(max: nat, st: State, x: seq<byte>)
    requires Legal(max, st) && (st.InFrame? ==> !st.escaped)
    ensures Feed(Decoder(max), st, Stuff(DEFAULT_MARKS, x)) ==
            Fed(Collect(max, st, x), [])
    decreases |x|
  {
    if x == [] {
      assert st.InFrame? ==> st.acc + x == st.acc;
    } else {
      FeedStuffByte(max, st, x[0]);
      var next := Absorb(max, st, x[0]);
      FeedStuffed(max, next, x[1..]);
      CollectStep(max, st, x);
      FeedConcat(Decoder(max), st, StuffByte(DEFAULT_MARKS, x[0]), Stuff(DEFAULT_MARKS, x[1..]));
    }
  }

  lemma CollectStep(max: nat, st: State, x: seq<byte>)
    requires Legal(max, st) && (st.InFrame? ==> !st.escaped) && x != []
    ensures Collect(max, Absorb(max, st, x[0]), x[1..]) == Collect(max, st, x)
  {
    if st.InFrame? {
      assert st.acc + [x[0]] + x[1..] == st.acc + x;
    }
  }

  // ---- Round trip and self-synchronisation --------------------------------------

  lemma StepLeavesUnescaped(max: nat, st: State)
    requires Legal(max, st)
    ensures var next := DecoderStep(max, st, DELIMITER).0; next.InFrame? ==> !next.escaped
  {}

  /** One encoded frame is a delimiter, the collected body, and a delimiter. */
  lemma FeedFrame(max: nat, st: State, p: seq<byte>)
    requires Legal(max, st)
    ensures var atHeader := DecoderStep(max, st, DELIMITER);
            var atEnd := DecoderStep(max, Collect(max, atHeader.0, p + Trailer(p)), DELIMITER);
            Feed(Decoder(max), st, Encode(p)) == Fed(atEnd.0, Emitted(atHeader.1) + Emitted(atEnd.1))
  {
    StepLeavesUnescaped(max, st);
    FeedStuffed(max, DecoderStep(max, st, DELIMITER).0, p + Trailer(p));
    FeedDelimited(Decoder(max), st, Body(DEFAULT_MARKS, p));
  }

  lemma CloseOwnFrame(max: nat, p: seq<byte>)
    requires |p| <= max
    ensures DecoderStep(max, Collect(max, OPENED, p + Trailer(p)), DELIMITER) == (Hunting, Some(p))
  {
    assert [] + (p + Trailer(p)) == p + Trailer(p);
    VerifyTrailer(p);
  }

  lemma FeedFrameSynced(max: nat, st: State, p: seq<byte>)
    requires Synced(st) && |p| <= max
    ensures Feed(Decoder(max), st, Encode(p)) == Fed(Hunting, [p])
  {
    FeedFrame(max, st, p);
    CloseOwnFrame(max, p);
    assert DecoderStep(max, st, DELIMITER) == (OPENED, None);
  }

  /** Back to back frames come out exactly, in order, and leave the machine between frames. */
  lemma {:induction false} FramesRoundTrip(max: nat, st: State, ps: seq<seq<byte>>)
    requires Synced(st)
    requires forall p <- ps :: |p| <= max
    ensures Feed(Decoder(max), st, EncodeAll(ps)).out == ps
    ensures Synced(Feed(Decoder(max), st, EncodeAll(ps)).state)
    decreases |ps|
  {
    if ps != [] {
      FeedFrameSynced(max, st, ps[0]);
      FramesRoundTrip(max, Hunting, ps[1..]);
      FeedConcat(Decoder(max), st, Encode(ps[0]), EncodeAll(ps[1..]));
    }
  }

  /** Payloads sent back to back are what successive readFrom calls return, in order. */
  lemma SessionRoundTrip(max: nat, ps: seq<seq<byte>>)
    requires forall p <- ps :: |p| <= max
    ensures Session(Decoder(max), EncodeAll(ps)) == ps
  {
    SessionIsFeed(Decoder(max), EncodeAll(ps));
    FramesRoundTrip(max, Hunting, ps);
  }

  /** What comes out while one frame with payload p arrives in state st. Outside a frame: p. In an
      unfinished frame: the header of p closes it, so either its bytes happen to verify and p is
      skipped, or p is received. After a dangling escape: the header is swallowed as the data byte
      0x5E, p joins the unfinished frame, and the whole is returned if it fits and verifies. */
  function WhileReceiving(max: nat, st: State, p: seq<byte>): seq<seq<byte>> {
    match st
    case Hunting => [p]
    case InFrame(false, acc) => (match Verify(acc) case Some(q) => [q] case None => [p])
    case InFrame(true, acc) =>
      var joined := acc + [Flip(DELIMITER)] + p + Trailer(p);
      if |joined| <= max + 2 then Emitted(Verify(joined)) else []
  }

  lemma FeedFrameAnywhere(max: nat, st: State, p: seq<byte>)
    requires Legal(max, st) && |p| <= max
    ensures var r := Feed(Decoder(max), st, Encode(p));
            r.out == WhileReceiving(max, st, p) && Synced(r.state)
  {
    FeedFrame(max, st, p);
    CloseOwnFrame(max, p);
    match st
    case Hunting =>
    case InFrame(false, acc) =>
      if Verify(acc).Some? {
        assert Collect(max, Hunting, p + Trailer(p)) == Hunting;
      }
    case InFrame(true, acc) =>
      CloseSwallowed(max, acc, p);
  }

  lemma CloseSwallowed(max: nat, acc: seq<byte>, p: seq<byte>)
    requires |acc| <= max + 2
    ensures var next := DecoderStep(max, InFrame(true, acc), DELIMITER);
            var atEnd := DecoderStep(max, Collect(max, next.0, p + Trailer(p)), DELIMITER);
            && next.1 == None
            && Emitted(atEnd.1) == WhileReceiving(max, InFrame(true, acc), p)
            && Synced(atEnd.0)
  {
    var head := acc + [Flip(DELIMITER)];
    AppendAssociates(head, p, Trailer(p));
  }

  /** Self-synchronisation. From any state whatsoever one frame is enough: during it at most one
      payload comes out, namely WhileReceiving, and every later frame comes out untouched. */
  lemma Resynchronise(max: nat, st: State, p: seq<byte>, ps: seq<seq<byte>>)
    requires Legal(max, st) && |p| <= max
    requires forall q <- ps :: |q| <= max
    ensures Feed(Decoder(max), st, Encode(p) + EncodeAll(ps)).out == WhileReceiving(max, st, p) + ps
    ensures |WhileReceiving(max, st, p)| <= 1
  {
    FeedFrameAnywhere(max, st, p);
    FramesRoundTrip(max, Feed(Decoder(max), st, Encode(p)).state, ps);
    FeedConcat(Decoder(max), st, Encode(p), EncodeAll(ps));
  }

  /** Arbitrary noise w in front of a list of frames costs at most the first of them. */
  lemma NoiseCostsAtMostOneFrame(max: nat, w: seq<byte>, p: seq<byte>, ps: seq<seq<byte>>)
    requires |p| <= max
    requires forall q <- ps :: |q| <= max
    ensures var noise := Feed(Decoder(max), Hunting, w);
            Session(Decoder(max), w + (Encode(p) + EncodeAll(ps)))
            == noise.out + WhileReceiving(max, noise.state, p) + ps
  {
    var noise := Feed(Decoder(max), Hunting, w);
    var clean := Encode(p) + EncodeAll(ps);
    FeedKeepsLegal(max, Hunting, w);
    SessionIsFeed(Decoder(max), w + clean);
    FeedConcat(Decoder(max), Hunting, w, clean);
    Resynchronise(max, noise.state, p, ps);
    AppendAssociates(noise.out, WhileReceiving(max, noise.state, p), ps);
  }

  /** When the first frame after the noise is lost: exactly when the noise ends in a dangling
      escape, or in an unfinished frame that verifies (to something other than p). */
  lemma FirstFrameLostIff(max: nat, st: State, p: seq<byte>)
    requires Legal(max, st) && |p| <= max
    ensures p !in WhileReceiving(max, st, p)
            <==> st.InFrame? && (st.escaped || (Verify(st.acc).Some? && Verify(st.acc).value != p))
  {
    if st.InFrame? && st.escaped {
      var joined := st.acc + [Flip(DELIMITER)] + p + Trailer(p);
      if Verify(joined).Some? {
        assert |Verify(joined).value| == |st.acc| + 1 + |p|;
      }
    }
  }

  // ---- Agreement with batch decoding --------------------------------------------

  /** The state after a delimiter-free body whose unstuffed form is u. */
  function AfterBody(max: nat, acc: seq<byte>, u: Unstuffed): State {
    if |acc| + |u.bytes| <= max + 2 then InFrame(u.dangling, acc + u.bytes) else Hunting
  }

  lemma AfterBodyStep(max: nat, acc: seq<byte>, b: byte, u: Unstuffed)
    ensures AfterBody(max, acc + [b], u) == AfterBody(max, acc, u.(bytes := [b] + u.bytes))
  {
    assert acc + [b] + u.bytes == acc + ([b] + u.bytes);
  }

  lemma {:induction false} FeedBody(max: nat, acc: seq<byte>, b: seq<byte>)
    requires DelimiterFree(DEFAULT_MARKS, b)
    requires |acc| <= max + 2
    ensures Feed(Decoder(max), InFrame(false, acc), b) == Fed(AfterBody(max, acc, Unstuff(ESCAPE, b)), [])
    decreases |b|, 0
  {
    var st := InFrame(false, acc);
    if b == [] {
      assert acc + [] == acc;
    } else if b[0] != ESCAPE {
      FeedBodyTail(max, acc, b[0], b[1..]);
    } else if |b| == 1 {
      FeedOne(Decoder(max), st, b[0]);
      assert b == [b[0]] && acc + [] == acc;
    } else {
      FeedTwo(Decoder(max), st, b[0], b[1]);
      assert b == [b[0], b[1]] + b[2..];
      FeedConcat(Decoder(max), st, [b[0], b[1]], b[2..]);
      FeedBodyTail(max, acc, Flip(b[1]), b[2..]);
    }
  }

  /** The rest of a body, once the byte b has been decoded and kept or refused for lack of room. */
  lemma {:induction false} FeedBodyTail(max: nat, acc: seq<byte>, b: byte, tail: seq<byte>)
    requires DelimiterFree(DEFAULT_MARKS, tail)
    requires |acc| <= max + 2
    ensures var u := Unstuff(ESCAPE, tail);
            Feed(Decoder(max), Absorb(max, InFrame(false, acc), b), tail)
            == Fed(AfterBody(max, acc, u.(bytes := [b] + u.bytes)), [])
    decreases |tail|, 1
  {
    if |acc| < max + 2 {
      FeedBody(max, acc + [b], tail);
      AfterBodyStep(max, acc, b, Unstuff(ESCAPE, tail));
    } else {
      StaysHunting(max, tail);
    }
  }

  lemma {:induction false} StaysHunting(max: nat, b: seq<byte>)
    requires DelimiterFree(DEFAULT_MARKS, b)
    ensures Feed(Decoder(max), Hunting, b) == Fed(Hunting, [])
  {
    if b != [] {
      assert b[0] != DELIMITER;
      assert DelimiterFree(DEFAULT_MARKS, b[1..]);
      StaysHunting(max, b[1..]);
    }
  }

  /** The streaming decoder accepts a delimited body exactly when strict batch decoding does and
      the payload fits its buffer, and with the same payload. */
  lemma StreamAgreesWithBatch(max: nat, b: seq<byte>)
    requires DelimiterFree(DEFAULT_MARKS, b)
    ensures var u := Unstuff(ESCAPE, b);
            Session(Decoder(max), [DELIMITER] + b + [DELIMITER])
            == if !u.dangling && |u.bytes| <= max + 2 then Emitted(Verify(u.bytes)) else []
  {
    SessionIsFeed(Decoder(max), [DELIMITER] + b + [DELIMITER]);
    FeedBody(max, [], b);
    FeedDelimited(Decoder(max), Hunting, b);
    assert [] + Unstuff(ESCAPE, b).bytes == Unstuff(ESCAPE, b).bytes;
  }
}
