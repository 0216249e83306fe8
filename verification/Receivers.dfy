/** Everything that reads frames byte by byte, as one kind of state machine: the streaming
    decoder inside HilFrameArduino::readFrom and the three deframing loops that only cut a
    stream at its delimiters. */
module Receivers {
  import opened Bytes
  import opened HilCodec

  datatype Receiver =
      /** HilFrameArduino::readFrom: unstuffs and verifies while it reads, `max` payload bytes. */
    | Decoder(max: nat)
      /** A loop that hands over the raw bytes between a header and a footer. `skipEmpty`: an empty
          frame is taken as the header of the next one. `cap`: a longer body is dropped. */
    | Deframer(header: byte, footer: byte, skipEmpty: bool, cap: Option<nat>)

  /** `in_frame`, `escape_next` and the bytes collected so far. Outside a frame the source always
      has `escape_next` false and an empty buffer. */
  datatype State = Hunting | InFrame(escaped: bool, acc: seq<byte>)

  const OPENED := InFrame(false, [])

  /** The next state, and what is returned if this byte completes a frame. */
  function Step(k: Receiver, st: State, b: byte): (State, Option<seq<byte>>) {
    match k
    case Decoder(max) => DecoderStep(max, st, b)
    case Deframer(_, _, _, _) => DeframerStep(k, st, b)
  }

  function DecoderStep(max: nat, st: State, b: byte): (State, Option<seq<byte>>) {
    match st
    case Hunting => (if b == DELIMITER then OPENED else Hunting, None)
    case InFrame(true, acc) =>
      (if |acc| >= max + 2 then Hunting else InFrame(false, acc + [Flip(b)]), None)
    case InFrame(false, acc) =>
      if b == ESCAPE then (InFrame(true, acc), None)
      else if b == DELIMITER then
        match Verify(acc)
        case Some(p) => (Hunting, Some(p))
        case None => (OPENED, None)
      else if |acc| >= max + 2 then (Hunting, None)
      else (InFrame(false, acc + [b]), None)
  }

  function DeframerStep(k: Receiver, st: State, b: byte): (State, Option<seq<byte>>)
    requires k.Deframer?
  {
    match st
    case Hunting => (if b == k.header then OPENED else Hunting, None)
    case InFrame(_, acc) =>
      if b == k.footer then
        if k.skipEmpty && acc == [] then (OPENED, None) else (Hunting, Some(acc))
      else if k.cap.Some? && |acc| + 1 > k.cap.value then (Hunting, None)
      else (InFrame(false, acc + [b]), None)
  }

  function Emitted(o: Option<seq<byte>>): seq<seq<byte>> {
    match o case Some(p) => [p] case None => []
  }

  /** Everything that calls return while the bytes of `s` arrive, with no timeout. */
  datatype Fed = Fed(state: State, out: seq<seq<byte>>)

  function Feed(k: Receiver, st: State, s: seq<byte>): Fed
    decreases |s|
  {
    if s == [] then Fed(st, []) else
    var (next, o) := Step(k, st, s[0]);
    var rest := Feed(k, next, s[1..]);
    Fed(rest.state, Emitted(o) + rest.out)
  }

  // ---- One call -----------------------------------------------------------------

  /** The outcome of one call: a frame and how many bytes it took, or the state in which the
      bytes ran out. */
  datatype Receipt = Got(frame: seq<byte>, used: nat) | Waiting(state: State)

  function Receive(k: Receiver, st: State, s: seq<byte>): (r: Receipt)
    ensures r.Got? ==> 0 < r.used <= |s|
    decreases |s|
  {
    if s == [] then Waiting(st) else
    var (next, o) := Step(k, st, s[0]);
    if o.Some? then Got(o.value, 1) else Later(1, Receive(k, next, s[1..]))
  }

  /** An outcome seen from n bytes earlier. */
  function Later(n: nat, r: Receipt): Receipt {
    match r
    case Got(f, used) => Got(f, n + used)
    case Waiting(st) => Waiting(st)
  }

  /** Successive calls, each from scratch, until the bytes run out. */
  function Session(k: Receiver, s: seq<byte>): seq<seq<byte>>
    decreases |s|
  {
    match Receive(k, Hunting, s)
    case Got(f, n) => [f] + Session(k, s[n..])
    case Waiting(_) => []
  }

  lemma {:induction false} FeedIsReceive(k: Receiver, st: State, s: seq<byte>)
    ensures match Receive(k, st, s)
            case Got(f, n) =>
              var rest := Feed(k, Hunting, s[n..]);
              Feed(k, st, s) == Fed(rest.state, [f] + rest.out)
            case Waiting(w) => Feed(k, st, s) == Fed(w, [])
    decreases |s|
  {
    if s != [] {
      var (next, o) := Step(k, st, s[0]);
      if o.None? {
        FeedIsReceive(k, next, s[1..]);
        match Receive(k, next, s[1..])
        case Got(_, n) => assert s[1..][n..] == s[n + 1..];
        case Waiting(_) =>
      } else {
        EndsHunting(k, st, s[0]);
      }
    }
  }

  lemma EndsHunting(k: Receiver, st: State, b: byte)
    ensures Step(k, st, b).1.Some? ==> Step(k, st, b).0 == Hunting
  {}

  /** A call returns the first frame that comes out, as soon as it does: not a byte earlier. */
  lemma {:induction false} ReceiveIsFirst(k: Receiver, st: State, s: seq<byte>)
    ensures match Receive(k, st, s)
            case Got(f, n) => Feed(k, st, s[..n]) == Fed(Hunting, [f]) && Feed(k, st, s[..n - 1]).out == []
            case Waiting(w) => Feed(k, st, s) == Fed(w, [])
    decreases |s|
  {
    if s != [] {
      var (next, o) := Step(k, st, s[0]);
      if o.None? {
        ReceiveIsFirst(k, next, s[1..]);
        match Receive(k, next, s[1..])
        case Got(_, n) =>
          assert s[..n + 1][1..] == s[1..][..n];
          assert s[..n][1..] == s[1..][..n - 1];
        case Waiting(_) =>
      } else {
        EndsHunting(k, st, s[0]);
        assert s[..1][1..] == [] && s[..0] == [];
      }
    }
  }

  /** Calling a reader again and again, as long as no deadline passes, is one uninterrupted run of its
      machine: starting every call outside a frame loses nothing. */
  lemma {:induction false} SessionIsFeed(k: Receiver, s: seq<byte>)
    ensures Session(k, s) == Feed(k, Hunting, s).out
    decreases |s|
  {
    FeedIsReceive(k, Hunting, s);
    match Receive(k, Hunting, s)
    case Got(_, n) => SessionIsFeed(k, s[n..]);
    case Waiting(_) =>
  }

  lemma {:induction false} FeedConcat(k: Receiver, st: State, s: seq<byte>, t: seq<byte>)
    ensures var a := Feed(k, st, s);
            var b := Feed(k, a.state, t);
            Feed(k, st, s + t) == Fed(b.state, a.out + b.out)
    decreases |s|
  {
    if s == [] {
      assert s + t == t;
    } else {
      var (next, o) := Step(k, st, s[0]);
      var z := s + t;
      assert z[0] == s[0] && z[1..] == s[1..] + t;
      FeedConcat(k, next, s[1..], t);
      var a := Feed(k, next, s[1..]);
      var b := Feed(k, a.state, t);
      AppendAssociates(Emitted(o), a.out, b.out);
    }
  }

  lemma FeedOne(k: Receiver, st: State, b: byte)
    ensures var (end, o) := Step(k, st, b); Feed(k, st, [b]) == Fed(end, Emitted(o))
  {
    assert [b][1..] == [];
  }

  lemma FeedTwo(k: Receiver, st: State, a: byte, b: byte)
    ensures var (mid, o1) := Step(k, st, a);
            var (end, o2) := Step(k, mid, b);
            Feed(k, st, [a, b]) == Fed(end, Emitted(o1) + Emitted(o2))
  {
    assert [a, b][1..] == [b];
    FeedOne(k, Step(k, st, a).0, b);
  }

  /** How a reading loop's invariant moves over one byte. */
  lemma ReceiveFrom(k: Receiver, st: State, window: seq<byte>, i: nat)
    requires i < |window|
    ensures var (next, o) := Step(k, st, window[i]);
            Receive(k, st, window[i..])
            == if o.Some? then Got(o.value, 1) else Later(1, Receive(k, next, window[i + 1..]))
  {
    assert window[i..][1..] == window[i + 1..];
  }

  // ---- Deadlines ------------------------------------------------------------------

  /** Of the stream s, the bytes that come in before the deadline. */
  function Window(s: seq<byte>, arrivals: nat): (w: seq<byte>)
    ensures |w| <= |s|
  {
    if arrivals <= |s| then s[..arrivals] else s
  }

  /** How far a call has come: of the stream s it has taken `taken` bytes, `left` is what the port
      still holds, and in state st it has the same outcome ahead as from the start. */
  ghost predicate Reached(k: Receiver, s: seq<byte>, arrivals: nat, taken: nat, st: State, left: seq<byte>) {
    var w := Window(s, arrivals);
    taken <= |w| && left == s[taken..] && Receive(k, Hunting, w) == Later(taken, Receive(k, st, w[taken..]))
  }

  lemma AtStart(k: Receiver, s: seq<byte>, arrivals: nat)
    ensures Reached(k, s, arrivals, 0, Hunting, s)
  {
    assert Window(s, arrivals)[0..] == Window(s, arrivals);
  }

  /** One more byte: the call goes on in the next state, or returns a frame. */
  lemma Advance(k: Receiver, s: seq<byte>, arrivals: nat, taken: nat, st: State, left: seq<byte>)
    requires Reached(k, s, arrivals, taken, st, left) && taken < arrivals && left != []
    ensures var (next, o) := Step(k, st, left[0]);
            if o.None? then Reached(k, s, arrivals, taken + 1, next, left[1..])
            else Receive(k, Hunting, Window(s, arrivals)) == Got(o.value, taken + 1)
                 && taken < |s| && left[1..] == s[taken + 1..]
  {
    hide Step, Receive;
    var w := Window(s, arrivals);
    assert w[taken] == left[0] && left[1..] == s[taken + 1..];
    ReceiveFrom(k, st, w, taken);
    var (next, o) := Step(k, st, left[0]);
    if o.Some? {
      assert Receive(k, st, w[taken..]) == Got(o.value, 1);
    }
  }

  /** No more byte comes in time: the call gives up where it is. */
  lemma AtDeadline(k: Receiver, s: seq<byte>, arrivals: nat, taken: nat, st: State, left: seq<byte>)
    requires Reached(k, s, arrivals, taken, st, left) && !(taken < arrivals && left != [])
    ensures var seen := |Window(s, arrivals)|;
            Receive(k, Hunting, Window(s, arrivals)) == Waiting(st) && left == s[seen..]
  {
    assert Window(s, arrivals)[taken..] == [];
  }

  // ---- Properties of frames every receiver shares ---------------------------------

  /** A state in which the next delimiter can only open a frame. */
  predicate Synced(st: State) {
    st == Hunting || st == OPENED
  }

  /** Feeding an encoded frame is feeding a delimiter, the body, and a delimiter. */
  lemma FeedDelimited(k: Receiver, st: State, body: seq<byte>)
    ensures var atHeader := Step(k, st, DELIMITER);
            var atBody := Feed(k, atHeader.0, body);
            var atEnd := Step(k, atBody.state, DELIMITER);
            Feed(k, st, [DELIMITER] + body + [DELIMITER])
            == Fed(atEnd.0, Emitted(atHeader.1) + atBody.out + Emitted(atEnd.1))
  {
    FeedOne(k, st, DELIMITER);
    FeedOne(k, Feed(k, Step(k, st, DELIMITER).0, body).state, DELIMITER);
    FeedConcat(k, st, [DELIMITER], body);
    FeedConcat(k, st, [DELIMITER] + body, [DELIMITER]);
  }
}
