/** The three codecs and the three deframers against each other. */
module Interop {
  import opened Bytes
  import opened HilCodec
  import opened Receivers
  import opened Deframers
  import Segments
  import StreamDecoder
  import FrameClass
  import BridgeFrame
  import ArduinoFrame

  /** Build one payload with all three encoders: the bytes are the same. */
  method EncodeThreeWays(p: seq<byte>, max: nat) returns (arduino: seq<byte>, frame: seq<byte>, bridge: seq<byte>)
    requires 1 <= |p| <= max
    ensures arduino == frame == bridge == Encode(p)
  {
    var a := new ArduinoFrame.HilFrameArduino(max);
    var ok := a.SetData(p);
    ok := a.Build();
    arduino := a.tx[..a.txSize];
    var f := new FrameClass.Frame();
    f.data := p;
    f.Build();
    frame := f.buffer;
    var h := new BridgeFrame.HilFrame();
    h.payload := p;
    ok := h.Build();
    bridge := h.encoded;
  }

  /** One frame object sends a list of payloads back to back, another reads the line by one call after
      another until a call runs out of time: the list arrives. */
  method SendAndReceive(ps: seq<seq<byte>>, max: nat) returns (received: seq<seq<byte>>)
    requires forall p <- ps :: 1 <= |p| <= max
    ensures received == ps
  {
    hide Arrived, Session;
    var line := Send(ps, max);
    StreamDecoder.SessionRoundTrip(max, ps);
    var stream := new ByteStream(line);
    var receiver := new ArduinoFrame.HilFrameArduino(max);
    received := [];
    NoneArrived(max, line, ps);
    var ok := true;
    while ok
      invariant receiver.Valid() && receiver.maxPayload == max
      invariant if ok then Arrived(max, received, stream.pending, ps) else received == ps
      invariant fresh(receiver) && fresh(receiver.data) && fresh(stream)
      decreases |stream.pending|, ok
    {
      ghost var left := stream.pending;
      var p;
      ok, p := OneCall(receiver, stream);
      if ok {
        OneArrived(max, received, left, p, stream.pending, ps);
        received := received + [p];
      } else {
        AllArrived(max, received, left, ps);
      }
    }
  }

  /** What has been received, and what the rest of the line yields, is what was sent. */
  ghost predicate Arrived(max: nat, received: seq<seq<byte>>, left: seq<byte>, ps: seq<seq<byte>>) {
    received + Session(Decoder(max), left) == ps
  }

  lemma NoneArrived(max: nat, line: seq<byte>, ps: seq<seq<byte>>)
    requires Session(Decoder(max), line) == ps
    ensures Arrived(max, [], line, ps)
  {
    hide Session;
    assert [] + ps == ps;
  }

  lemma OneArrived(max: nat, received: seq<seq<byte>>, left: seq<byte>, p: seq<byte>, rest: seq<byte>, ps: seq<seq<byte>>)
    requires Arrived(max, received, left, ps) && Session(Decoder(max), left) == [p] + Session(Decoder(max), rest)
    ensures Arrived(max, received + [p], rest, ps)
  {
    hide Session;
    AppendAssociates(received, [p], Session(Decoder(max), rest));
  }

  lemma AllArrived(max: nat, received: seq<seq<byte>>, left: seq<byte>, ps: seq<seq<byte>>)
    requires Arrived(max, received, left, ps) && Session(Decoder(max), left) == []
    ensures received == ps
  {
    hide Session;
    assert received + [] == received;
  }

  /** One call on a line that falls silent. */
  method OneCall(receiver: ArduinoFrame.HilFrameArduino, stream: ByteStream) returns (ok: bool, p: seq<byte>)
    requires receiver.Valid()
    modifies receiver, receiver.data, stream
    ensures receiver.Valid()
    ensures var k := Decoder(receiver.maxPayload);
            Session(k, old(stream.pending)) == if ok then [p] + Session(k, stream.pending) else []
    ensures |stream.pending| <= |old(stream.pending)| && (ok ==> |stream.pending| < |old(stream.pending)|)
  {
    assert Window(stream.pending, |stream.pending|) == stream.pending;
    ok := receiver.ReadFrom(stream, |stream.pending|);
    p := receiver.data[..receiver.dataSize];
  }

  method Send(ps: seq<seq<byte>>, max: nat) returns (line: seq<byte>)
    requires forall p <- ps :: 1 <= |p| <= max
    ensures line == EncodeAll(ps)
  {
    var sender := new ArduinoFrame.HilFrameArduino(max);
    line := [];
    for i := 0 to |ps|
      invariant sender.Valid() && sender.maxPayload == max
      invariant line + EncodeAll(ps[i..]) == EncodeAll(ps)
      invariant fresh(sender) && fresh(sender.data) && fresh(sender.tx)
    {
      var ok := sender.SetData(ps[i]);
      ok := sender.Build();
      assert ps[i..][1..] == ps[i + 1..];
      AppendAssociates(line, Encode(ps[i]), EncodeAll(ps[i + 1..]));
      line := line + sender.tx[..sender.txSize];
      hide Encode;
    }
  }

  /** A payload sent back to back with others is recovered by every receiving path: the tool's
      streaming decoder, the bridge's capped deframer with its strict decoder, and the timed and the
      blocking deframer with Frame::unbuild. 126 bytes is the most that fits the cap of 256 when
      every byte is escaped; the tool's 64 is well below. */
  lemma AllReceiversRecover(max: nat, ps: seq<seq<byte>>)
    requires max <= 126 && forall p <- ps :: |p| <= max
    ensures Session(Decoder(max), EncodeAll(ps)) == ps
    ensures var bodies := Session(CAPPED, EncodeAll(ps));
            |bodies| == |ps| && forall i :: 0 <= i < |ps| ==> BridgeFrame.StrictDecode(bodies[i]) == Some(ps[i])
    ensures Unbuilds(Session(Timed(DEFAULT_MARKS), EncodeAll(ps)), ps)
    ensures Unbuilds(Session(Blocking(DEFAULT_MARKS), EncodeAll(ps)), ps)
  {
    StreamDecoder.SessionRoundTrip(max, ps);
    SessionIsFeed(CAPPED, EncodeAll(ps));
    FeedFrames(CAPPED, Hunting, ps);
    AllFit(CAPPED, ps);
    forall i | 0 <= i < |ps|
      ensures BridgeFrame.StrictDecode(Bodies(CAPPED, ps)[i]) == Some(ps[i])
    {
      BridgeFrame.BridgeRoundTrip(ps[i]);
    }
    SessionIsFeed(Timed(DEFAULT_MARKS), EncodeAll(ps));
    FeedFrames(Timed(DEFAULT_MARKS), Hunting, ps);
    BodiesUnbuild(Timed(DEFAULT_MARKS), ps);
    SessionIsFeed(Segments.BLOCKING, EncodeAll(ps));
    Segments.Aligned(ps);
    BodiesUnbuild(Segments.BLOCKING, ps);
  }

  /** Frame::unbuild makes these payloads of these bodies. */
  ghost predicate Unbuilds(bodies: seq<seq<byte>>, ps: seq<seq<byte>>) {
    |bodies| == |ps| && forall i :: 0 <= i < |ps| ==>
      FrameClass.Decode(DEFAULT_MARKS, [DELIMITER] + bodies[i] + [DELIMITER]) == Some(ps[i])
  }

  lemma BodiesUnbuild(k: Receiver, ps: seq<seq<byte>>)
    requires Default(k) && k.cap.None?
    requires forall p <- ps :: |p| <= 126
    ensures Unbuilds(Bodies(k, ps), ps)
  {
    AllFit(k, ps);
    forall i | 0 <= i < |ps|
      ensures FrameClass.Decode(DEFAULT_MARKS, [DELIMITER] + Bodies(k, ps)[i] + [DELIMITER]) == Some(ps[i])
    {
      FrameClass.BuildThenUnbuild(DEFAULT_MARKS, ps[i]);
    }
  }

  lemma {:induction false} AllFit(k: Receiver, ps: seq<seq<byte>>)
    requires Default(k) && (k.cap.Some? ==> k.cap.value == SERIAL_PORT_CAP)
    requires forall p <- ps :: |p| <= 126
    ensures |Bodies(k, ps)| == |ps|
    ensures forall i :: 0 <= i < |ps| ==> Bodies(k, ps)[i] == Body(DEFAULT_MARKS, ps[i])
  {
    if ps != [] {
      BodyIsPlain(ps[0]);
      AllFit(k, ps[1..]);
    }
  }

  /** The cap loses a frame exactly when its stuffed body is longer than 256 bytes. */
  lemma CapLosesIff(p: seq<byte>)
    ensures Session(CAPPED, Encode(p))
            == if |Body(DEFAULT_MARKS, p)| <= 256 then [Body(DEFAULT_MARKS, p)] else []
  {
    SessionIsFeed(CAPPED, Encode(p));
    FeedEncoded(CAPPED, Hunting, p);
  }
}
