/** The loops that cut a serial stream at its delimiters: HilSerial::readFrame and
    readFrameTimed fill a Frame, SerialPort::readFrame fills a byte vector. The clock is
    abstracted to `arrivals`, the bytes that come in before the deadline. */
module Deframers {
  import opened Bytes
  import opened HilCodec
  import opened Receivers
  import opened FrameClass

  const SERIAL_PORT_CAP := 256

  function Blocking(m: Marks): Receiver { Deframer(m.header, m.end, false, None) }

  function Timed(m: Marks): Receiver { Deframer(m.header, m.end, true, None) }

  const CAPPED := Deframer(DELIMITER, DELIMITER, true, Some(SERIAL_PORT_CAP))

  /** What the frame's buffer holds in a given state of the loop. */
  function Partial(m: Marks, st: State): seq<byte> {
    match st
    case Hunting => []
    case InFrame(_, acc) => [m.header] + acc
  }

  /** How the outcome of a call on stream s shows: in its result, in the frame's buffer, and in what
      is left of the stream. */
  ghost predicate Outcome(k: Receiver, m: Marks, ok: bool, buffer: seq<byte>, s: seq<byte>, arrivals: nat, left: seq<byte>) {
    match Receive(k, Hunting, Window(s, arrivals))
    case Got(body, n) => ok && buffer == [m.header] + body + [m.end] && n <= |s| && left == s[n..]
    case Waiting(st) => !ok && buffer == Partial(m, st) && left == s[|Window(s, arrivals)|..]
  }

  lemma DeadlineOutcome(k: Receiver, m: Marks, st: State, s: seq<byte>, arrivals: nat)
    requires Receive(k, Hunting, Window(s, arrivals)) == Waiting(st)
    ensures Outcome(k, m, false, Partial(m, st), s, arrivals, s[|Window(s, arrivals)|..])
  {}

  lemma FrameOutcome(k: Receiver, m: Marks, body: seq<byte>, s: seq<byte>, arrivals: nat, n: nat)
    requires n <= |s| && Receive(k, Hunting, Window(s, arrivals)) == Got(body, n)
    ensures Outcome(k, m, true, [m.header] + body + [m.end], s, arrivals, s[n..])
  {}

  /** The first loop of HilSerial::readFrame: discard bytes up to and including a header. */
  method AwaitHeader(stream: ByteStream, arrivals: nat, m: Marks) returns (found: bool, taken: nat)
    modifies stream
    ensures Reached(Blocking(m), old(stream.pending), arrivals, taken, if found then OPENED else Hunting, stream.pending)
    ensures !found ==> !(taken < arrivals && stream.pending != [])
  {
    hide Reached;
    ghost var s, k := stream.pending, Blocking(m);
    taken := 0;
    AtStart(k, s, arrivals);
    while taken < arrivals && stream.pending != []
      invariant Reached(k, s, arrivals, taken, Hunting, stream.pending)
      decreases arrivals - taken
    {
      Advance(k, s, arrivals, taken, Hunting, stream.pending);
      var b := stream.Read();
      taken := taken + 1;
      if b == m.header {
        return true, taken;
      }
    }
    return false, taken;
  }

  /** The second loop of HilSerial::readFrame: keep bytes up to and including a footer. */
  method ReadToFooter(stream: ByteStream, arrivals: nat, sofar: nat, frame: Frame, ghost s: seq<byte>) returns (ok: bool)
    requires Reached(Blocking(frame.marks), s, arrivals, sofar, OPENED, stream.pending)
    requires frame.buffer == [frame.marks.header] && !frame.complete
    modifies stream, frame
    ensures frame.marks == old(frame.marks) && frame.data == old(frame.data) && ok == frame.complete
    ensures Outcome(Blocking(frame.marks), frame.marks, ok, frame.buffer, s, arrivals, stream.pending)
  {
    hide Reached, Outcome;
    ghost var m, k := frame.marks, Blocking(frame.marks);
    ghost var st := OPENED;
    var taken := sofar;
    while taken < arrivals && stream.pending != []
      invariant frame.marks == m && frame.data == old(frame.data) && !frame.complete
      invariant st.InFrame? && !st.escaped && frame.buffer == Partial(m, st)
      invariant Reached(k, s, arrivals, taken, st, stream.pending)
      decreases arrivals - taken
    {
      Advance(k, s, arrivals, taken, st, stream.pending);
      var b := stream.Read();
      taken := taken + 1;
      if b == frame.marks.end {
        frame.AddEnd();
        FrameOutcome(k, m, st.acc, s, arrivals, taken);
        return true;
      }
      frame.AddByte(b);
      st := InFrame(false, st.acc + [b]);
    }
    AtDeadline(k, s, arrivals, taken, st, stream.pending);
    DeadlineOutcome(k, m, st, s, arrivals);
    return false;
  }

  /** HilSerial::readFrame. */
  method ReadFrame(stream: ByteStream, arrivals: nat, frame: Frame) returns (ok: bool)
    modifies stream, frame
    ensures frame.marks == old(frame.marks) && frame.data == [] && ok == frame.complete
    ensures Outcome(Blocking(frame.marks), frame.marks, ok, frame.buffer, old(stream.pending), arrivals, stream.pending)
  {
    hide Reached, Outcome;
    frame.Clear();
    ghost var s, m := stream.pending, frame.marks;
    var found, taken := AwaitHeader(stream, arrivals, frame.marks);
    if !found {
      AtDeadline(Blocking(m), s, arrivals, taken, Hunting, stream.pending);
      DeadlineOutcome(Blocking(m), m, Hunting, s, arrivals);
      return false;
    }
    frame.AddHeader();
    ok := ReadToFooter(stream, arrivals, taken, frame, s);
  }

  /** HilSerial::readFrameTimed. */
  method ReadFrameTimed(stream: ByteStream, arrivals: nat, frame: Frame) returns (ok: bool)
    modifies stream, frame
    ensures frame.marks == old(frame.marks) && frame.data == [] && ok == frame.complete
    ensures Outcome(Timed(frame.marks), frame.marks, ok, frame.buffer, old(stream.pending), arrivals, stream.pending)
  {
    hide Reached, Outcome;
    frame.Clear();
    var header, footer := frame.marks.header, frame.marks.end;
    ghost var s, m, k := stream.pending, frame.marks, Timed(frame.marks);
    ghost var st := Hunting;
    var inside := false;
    var taken := 0;
    AtStart(k, s, arrivals);
    while taken < arrivals && stream.pending != []
      invariant frame.marks == m && frame.data == [] && !frame.complete
      invariant inside == st.InFrame? && (inside ==> !st.escaped)
      invariant frame.buffer == Partial(m, st)
      invariant Reached(k, s, arrivals, taken, st, stream.pending)
      decreases arrivals - taken
    {
      Advance(k, s, arrivals, taken, st, stream.pending);
      var b := stream.Read();
      taken := taken + 1;
      if !inside {
        if b == header {
          frame.Clear();
          frame.AddHeader();
          inside := true;
          st := OPENED;
        }
        continue;
      }
      if b == footer {
        frame.AddEnd();
        if |frame.buffer| <= 2 {
          frame.Clear();
          frame.AddHeader();
          inside := true;
          continue;
        }
        FrameOutcome(k, m, st.acc, s, arrivals, taken);
        return true;
      }
      frame.AddByte(b);
      st := InFrame(false, st.acc + [b]);
    }
    AtDeadline(k, s, arrivals, taken, st, stream.pending);
    DeadlineOutcome(k, m, st, s, arrivals);
    return false;
  }

  /** SerialPort::readFrame of the bridge. */
  method ReadBody(stream: ByteStream, arrivals: nat) returns (ok: bool, encoded: seq<byte>)
    modifies stream
    ensures var s := old(stream.pending);
            match Receive(CAPPED, Hunting, Window(s, arrivals))
            case Got(body, n) => ok && encoded == body && stream.pending == s[n..]
            case Waiting(st) =>
              !ok && encoded == (if st.InFrame? then st.acc else []) && stream.pending == s[|Window(s, arrivals)|..]
  {
    hide Receive, Reached;
    encoded := [];
    ghost var s := stream.pending;
    ghost var st := Hunting;
    var inFrame := false;
    var taken := 0;
    AtStart(CAPPED, s, arrivals);
    while true
      invariant st == if inFrame then InFrame(false, encoded) else Hunting
      invariant !inFrame ==> encoded == []
      invariant Reached(CAPPED, s, arrivals, taken, st, stream.pending)
      decreases arrivals - taken
    {
      if taken >= arrivals || stream.pending == [] {
        AtDeadline(CAPPED, s, arrivals, taken, st, stream.pending);
        return false, encoded;
      }
      Advance(CAPPED, s, arrivals, taken, st, stream.pending);
      st := DeframerStep(CAPPED, st, stream.pending[0]).0;
      var b := stream.Read();
      taken := taken + 1;
      if !inFrame {
        if b == DELIMITER {
          encoded := [];
          inFrame := true;
        }
        continue;
      }
      if b == DELIMITER {
        if encoded == [] {
          inFrame := true;
          continue;
        }
        return true, encoded;
      }
      encoded := encoded + [b];
      if |encoded| > SERIAL_PORT_CAP {
        encoded := [];
        inFrame := false;
      }
    }
  }

  // ---- What the deframers do on streams -------------------------------------------

  /** A deframer for the default delimiter. */
  predicate Default(k: Receiver) {
    k.Deframer? && k.header == DELIMITER && k.footer == DELIMITER
  }

  predicate Fits(k: Receiver, n: nat)
    requires k.Deframer?
  {
    k.cap.None? || n <= k.cap.value
  }

  /** The state after a delimiter-free run of bytes. */
  function Gathered(k: Receiver, st: State, b: seq<byte>): State
    requires k.Deframer?
  {
    match st
    case Hunting => Hunting
    case InFrame(_, acc) => if b == [] then st else if Fits(k, |acc| + |b|) then InFrame(false, acc + b) else Hunting
  }

  lemma {:induction false} FeedPlain(k: Receiver, st: State, b: seq<byte>)
    requires Default(k) && DelimiterFree(DEFAULT_MARKS, b)
    ensures Feed(k, st, b) == Fed(Gathered(k, st, b), [])
    decreases |b|
  {
    if b != [] {
      assert b[0] != DELIMITER;
      assert DelimiterFree(DEFAULT_MARKS, b[1..]);
      FeedPlain(k, DeframerStep(k, st, b[0]).0, b[1..]);
      if st.InFrame? {
        assert st.acc + [b[0]] + b[1..] == st.acc + b;
        if b[1..] == [] {
          assert b == [b[0]];
        }
      }
    }
  }

  lemma BodyIsPlain(p: seq<byte>)
    ensures DelimiterFree(DEFAULT_MARKS, Body(DEFAULT_MARKS, p))
    ensures |p| + 2 <= |Body(DEFAULT_MARKS, p)| <= 2 * (|p| + 2)
  {
    StuffedIsDelimiterFree(DEFAULT_MARKS, p + Trailer(p));
  }

  /** The next delimiter will end a frame instead of starting one. */
  predicate Interrupted(k: Receiver, st: State)
    requires k.Deframer?
  {
    st.InFrame? && !(k.skipEmpty && st.acc == [])
  }

  /** What comes out while one frame arrives. Outside a frame, or just behind a delimiter: its
      body, if it fits. Otherwise its header ends what was there, and the frame itself is lost. */
  function WhileDeframing(k: Receiver, st: State, p: seq<byte>): seq<seq<byte>>
    requires k.Deframer?
  {
    if Interrupted(k, st) then [st.acc]
    else if Fits(k, |Body(DEFAULT_MARKS, p)|) then [Body(DEFAULT_MARKS, p)] else []
  }

  /** One encoded frame, in any state of the machine. */
  lemma FeedEncoded(k: Receiver, st: State, p: seq<byte>)
    requires Default(k)
    ensures var lost := Interrupted(k, st) || !Fits(k, |Body(DEFAULT_MARKS, p)|);
            Feed(k, st, Encode(p)) == Fed(if lost then OPENED else Hunting, WhileDeframing(k, st, p))
  {
    var body := Body(DEFAULT_MARKS, p);
    var next := DeframerStep(k, st, DELIMITER).0;
    BodyIsPlain(p);
    FeedPlain(k, next, body);
    FeedDelimited(k, st, body);
    assert next == OPENED ==> OPENED.acc + body == body;
  }

  function Bodies(k: Receiver, ps: seq<seq<byte>>): seq<seq<byte>>
    requires Default(k)
  {
    if ps == [] then [] else
    (if Fits(k, |Body(DEFAULT_MARKS, ps[0])|) then [Body(DEFAULT_MARKS, ps[0])] else []) + Bodies(k, ps[1..])
  }

  /** A deframer that skips empty frames delivers every frame that fits, from a synchronised state. */
  lemma {:induction false} FeedFrames(k: Receiver, st: State, ps: seq<seq<byte>>)
    requires Default(k) && k.skipEmpty && Synced(st)
    ensures Feed(k, st, EncodeAll(ps)).out == Bodies(k, ps)
    decreases |ps|
  {
    if ps != [] {
      FeedEncoded(k, st, ps[0]);
      var mid := Feed(k, st, Encode(ps[0]));
      FeedFrames(k, mid.state, ps[1..]);
      FeedConcat(k, st, Encode(ps[0]), EncodeAll(ps[1..]));
    }
  }

  /** Whatever w is, the readers that skip empty frames lose at most the first frame after it. */
  lemma NoiseCostsAtMostOneFrame(k: Receiver, w: seq<byte>, p: seq<byte>, ps: seq<seq<byte>>)
    requires Default(k) && k.skipEmpty
    ensures var noise := Feed(k, Hunting, w);
            Session(k, w + (Encode(p) + EncodeAll(ps)))
            == noise.out + WhileDeframing(k, noise.state, p) + Bodies(k, ps)
  {
    var noise := Feed(k, Hunting, w);
    SessionIsFeed(k, w + (Encode(p) + EncodeAll(ps)));
    FeedConcat(k, Hunting, w, Encode(p) + EncodeAll(ps));
    FeedEncoded(k, noise.state, p);
    FeedFrames(k, Feed(k, noise.state, Encode(p)).state, ps);
    FeedConcat(k, noise.state, Encode(p), EncodeAll(ps));
    AppendAssociates(noise.out, WhileDeframing(k, noise.state, p), Bodies(k, ps));
  }
}
