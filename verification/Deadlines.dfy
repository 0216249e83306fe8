/** Readers with deadlines: a call that runs out of time drops what it has read of a frame, and the
    next call starts outside a frame. HilFrameArduino::readFrom, HilSerial::readFrameTimed and
    SerialPort::readFrame all work that way. */
module Deadlines {
  import opened Bytes
  import opened HilCodec
  import opened Receivers
  import opened StreamDecoder
  import opened Deframers

  datatype Event = Arrival(b: byte) | Deadline

  /** Everything that successive calls return. */
  function Listen(k: Receiver, st: State, es: seq<Event>): Fed
    decreases |es|
  {
    if es == [] then Fed(st, [])
    else if es[0].Deadline? then Listen(k, Hunting, es[1..])
    else
      var (next, o) := Step(k, st, es[0].b);
      var rest := Listen(k, next, es[1..]);
      Fed(rest.state, Emitted(o) + rest.out)
  }

  // ---- Calls ------------------------------------------------------------------------

  function Arrivals(w: seq<byte>): seq<Event> {
    if w == [] then [] else [Arrival(w[0])] + Arrivals(w[1..])
  }

  /** The bytes of each window arrive, and then a call runs out of time. */
  function Timeouts(windows: seq<seq<byte>>): seq<Event> {
    if windows == [] then [] else Arrivals(windows[0]) + [Deadline] + Timeouts(windows[1..])
  }

  function Sessions(k: Receiver, windows: seq<seq<byte>>): seq<seq<byte>> {
    if windows == [] then [] else Session(k, windows[0]) + Sessions(k, windows[1..])
  }

  lemma {:induction false} ListenConcat(k: Receiver, st: State, es: seq<Event>, fs: seq<Event>)
    ensures var a := Listen(k, st, es);
            var b := Listen(k, a.state, fs);
            Listen(k, st, es + fs) == Fed(b.state, a.out + b.out)
    decreases |es|
  {
    if es == [] {
      assert es + fs == fs;
    } else {
      var all := es + fs;
      assert all[0] == es[0] && all[1..] == es[1..] + fs;
      if es[0].Deadline? {
        ListenConcat(k, Hunting, es[1..], fs);
      } else {
        var (next, o) := Step(k, st, es[0].b);
        ListenConcat(k, next, es[1..], fs);
        var a := Listen(k, next, es[1..]);
        AppendAssociates(Emitted(o), a.out, Listen(k, a.state, fs).out);
      }
    }
  }

  lemma {:induction false} ListenToArrivals(k: Receiver, st: State, w: seq<byte>)
    ensures Listen(k, st, Arrivals(w)) == Feed(k, st, w)
    decreases |w|
  {
    if w != [] {
      assert Arrivals(w)[1..] == Arrivals(w[1..]);
      ListenToArrivals(k, Step(k, st, w[0]).0, w[1..]);
    }
  }

  /** What calls with deadlines return is what the calls in each window return on their own. */
  lemma {:induction false} ListenIsSessions(k: Receiver, windows: seq<seq<byte>>)
    ensures Listen(k, Hunting, Timeouts(windows)) == Fed(Hunting, Sessions(k, windows))
    decreases |windows|
  {
    if windows != [] {
      var w, later := windows[0], Timeouts(windows[1..]);
      ListenIsSessions(k, windows[1..]);
      ListenToArrivals(k, Hunting, w);
      SessionIsFeed(k, w);
      ListenConcat(k, Hunting, Arrivals(w) + [Deadline], later);
      ListenConcat(k, Hunting, Arrivals(w), [Deadline]);
      assert Listen(k, Feed(k, Hunting, w).state, [Deadline]) == Fed(Hunting, []) by {
        assert [Deadline][1..] == [];
      }
      assert Session(k, w) + [] == Session(k, w);
    }
  }

  // ---- One frame, with deadlines anywhere ---------------------------------------------

  function Payload(es: seq<Event>): seq<byte> {
    if es == [] then [] else (if es[0].Arrival? then [es[0].b] else []) + Payload(es[1..])
  }

  /** No deadline passes while some but not all of `total` bytes have arrived. */
  predicate Undisturbed(arrived: nat, total: nat, es: seq<Event>)
    decreases |es|
  {
    es == [] || if es[0].Deadline? then !(0 < arrived < total) && Undisturbed(arrived, total, es[1..])
                else Undisturbed(arrived + 1, total, es[1..])
  }

  /** What a reader returns for the frame of payload p. */
  function Returned(k: Receiver, p: seq<byte>): seq<byte> {
    if k.Decoder? then p else Body(DEFAULT_MARKS, p)
  }

  /** A reader that recovers from any delimiter, and a payload that fits it. */
  predicate Suits(k: Receiver, p: seq<byte>) {
    match k
    case Decoder(max) => |p| <= max
    case Deframer(_, _, _, _) => Default(k) && k.skipEmpty && Fits(k, |Body(DEFAULT_MARKS, p)|)
  }

  /** All but the last byte of a frame, from between frames: nothing comes out before the last one. */
  lemma FrameBodyFed(k: Receiver, st: State, p: seq<byte>)
    requires Suits(k, p) && Synced(st)
    ensures var a := Feed(k, st, [DELIMITER] + Body(DEFAULT_MARKS, p));
            a.out == [] && Step(k, a.state, DELIMITER) == (Hunting, Some(Returned(k, p)))
  {
    var body := Body(DEFAULT_MARKS, p);
    FeedOne(k, st, DELIMITER);
    FeedConcat(k, st, [DELIMITER], body);
    match k
    case Decoder(max) =>
      FeedStuffed(max, OPENED, p + Trailer(p));
      CloseOwnFrame(max, p);
    case Deframer(_, _, _, _) =>
      BodyIsPlain(p);
      FeedPlain(k, OPENED, body);
      assert [] + body == body;
  }

  /** The state after the first n bytes of a frame. */
  function Within(k: Receiver, st: State, p: seq<byte>, n: nat): State
    requires n <= |Encode(p)|
  {
    Feed(k, st, Encode(p)[..n]).state
  }

  lemma SilentUntilTheEnd(k: Receiver, st: State, p: seq<byte>, n: nat)
    requires Suits(k, p) && Synced(st) && n < |Encode(p)|
    ensures Feed(k, st, Encode(p)[..n]).out == []
  {
    var front := [DELIMITER] + Body(DEFAULT_MARKS, p);
    FrameBodyFed(k, st, p);
    hide Suits, Body, Feed, Step, Synced;
    assert Encode(p)[..n] == front[..n];
    assert front == front[..n] + front[n..];
    FeedConcat(k, st, front[..n], front[n..]);
  }

  lemma OneMore(s: seq<byte>, n: nat)
    requires n < |s|
    ensures s[..n + 1] == s[..n] + [s[n]]
  {
  }

  /** One more byte of a frame. */
  lemma OneByteFurther(k: Receiver, st: State, p: seq<byte>, n: nat)
    requires Suits(k, p) && Synced(st) && n + 1 < |Encode(p)|
    ensures Step(k, Within(k, st, p, n), Encode(p)[n]) == (Within(k, st, p, n + 1), None)
  {
    var e := Encode(p);
    SilentUntilTheEnd(k, st, p, n);
    SilentUntilTheEnd(k, st, p, n + 1);
    hide Suits, Encode, Step, Synced, Feed;
    OneMore(e, n);
    FeedConcat(k, st, e[..n], [e[n]]);
    FeedOne(k, Within(k, st, p, n), e[n]);
  }

  /** The last byte of a frame. */
  lemma LastByte(k: Receiver, st: State, p: seq<byte>, n: nat)
    requires Suits(k, p) && Synced(st) && n + 1 == |Encode(p)|
    ensures Step(k, Within(k, st, p, n), Encode(p)[n]) == (Hunting, Some(Returned(k, p)))
  {
    FrameBodyFed(k, st, p);
    hide Suits, Body, Feed, Step, Synced;
    assert Encode(p)[..n] == [DELIMITER] + Body(DEFAULT_MARKS, p);
  }

  /** After a deadline inside the frame the rest of it passes unnoticed, and its END opens the next. */
  lemma BehindTheDeadline(k: Receiver, p: seq<byte>, n: nat)
    requires Suits(k, p) && 0 < n < |Encode(p)|
    ensures Step(k, Hunting, Encode(p)[n]) == (if n + 1 < |Encode(p)| then Hunting else OPENED, None)
  {
    var e, body := Encode(p), Body(DEFAULT_MARKS, p);
    BodyIsPlain(p);
    if n + 1 < |e| {
      assert e[n] == body[n - 1];
    }
  }

  lemma OneEvent(es: seq<Event>, e: seq<byte>, n: nat)
    requires es != [] && n <= |e| && Payload(es) == e[n..]
    ensures if es[0].Deadline? then Payload(es[1..]) == e[n..]
            else n < |e| && es[0].b == e[n] && Payload(es[1..]) == e[n + 1..]
  {
    if es[0].Arrival? {
      assert Payload(es)[1..] == Payload(es[1..]);
    }
  }

  lemma {:induction false} RestOfFrame(k: Receiver, p: seq<byte>, n: nat, st: State, es: seq<Event>)
    requires Suits(k, p) && 0 < n <= |Encode(p)| && Payload(es) == Encode(p)[n..]
    requires Synced(st) && (n < |Encode(p)| ==> st == Hunting)
    ensures var r := Listen(k, st, es); r.out == [] && Synced(r.state)
    decreases |es|
  {
    if es != [] {
      hide Encode, Suits, Step, Payload;
      OneEvent(es, Encode(p), n);
      if es[0].Deadline? {
        RestOfFrame(k, p, n, Hunting, es[1..]);
      } else {
        BehindTheDeadline(k, p, n);
        RestOfFrame(k, p, n + 1, Step(k, st, es[0].b).0, es[1..]);
      }
    }
  }

  lemma {:induction false} BehindTheFrame(k: Receiver, total: nat, es: seq<Event>)
    requires Payload(es) == []
    ensures Listen(k, Hunting, es) == Fed(Hunting, []) && Undisturbed(total, total, es)
    decreases |es|
  {
    if es != [] {
      OneEvent(es, [], 0);
      BehindTheFrame(k, total, es[1..]);
    }
  }

  lemma {:induction false} FrameWithDeadlines(k: Receiver, p: seq<byte>, from: State, n: nat, es: seq<Event>)
    requires Suits(k, p) && Synced(from) && n < |Encode(p)| && Payload(es) == Encode(p)[n..]
    ensures var r := Listen(k, Within(k, from, p, n), es);
            && Synced(r.state)
            && r.out == if Undisturbed(n, |Encode(p)|, es) then [Returned(k, p)] else []
    decreases |es|
  {
    hide Encode, Suits, Step, Within, Returned, Payload;
    var total := |Encode(p)|;
    if es == [] {
      PayloadOfNothing();
    } else {
      OneEvent(es, Encode(p), n);
      if es[0].Deadline? && n == 0 {
        NothingYet(k, Hunting, p);
        FrameWithDeadlines(k, p, Hunting, 0, es[1..]);
      } else if es[0].Deadline? {
        RestOfFrame(k, p, n, Hunting, es[1..]);
      } else if n + 1 < total {
        OneByteFurther(k, from, p, n);
        FrameWithDeadlines(k, p, from, n + 1, es[1..]);
      } else {
        LastByte(k, from, p, n);
        BehindTheFrame(k, total, es[1..]);
      }
    }
  }

  lemma PayloadOfNothing()
    ensures Payload([]) == []
  {
  }

  lemma NothingYet(k: Receiver, st: State, p: seq<byte>)
    ensures Within(k, st, p, 0) == st
  {
    assert Encode(p)[..0] == [];
  }

  // ---- Any number of frames ---------------------------------------------------------------

  /** A frame on its way, with the deadlines that pass before, within and behind it. */
  datatype Transmission = Transmission(payload: seq<byte>, events: seq<Event>) {
    predicate Valid() {
      Payload(events) == Encode(payload)
    }

    predicate Intact() {
      Undisturbed(0, |Encode(payload)|, events)
    }
  }

  function Stream(ts: seq<Transmission>): seq<Event> {
    if ts == [] then [] else ts[0].events + Stream(ts[1..])
  }

  function Survivors(k: Receiver, ts: seq<Transmission>): seq<seq<byte>> {
    if ts == [] then [] else (if ts[0].Intact() then [Returned(k, ts[0].payload)] else []) + Survivors(k, ts[1..])
  }

  /** Frames sent back to back, with deadlines anywhere: exactly the frames are lost that a deadline
      passes inside of, and all others are returned in order. */
  lemma {:induction false} DeadlinesLoseOnlyWhatTheyCut(k: Receiver, st: State, ts: seq<Transmission>)
    requires Synced(st) && forall t <- ts :: t.Valid() && Suits(k, t.payload)
    ensures Listen(k, st, Stream(ts)).out == Survivors(k, ts)
    decreases |ts|
  {
    if ts != [] {
      var t := ts[0];
      assert Encode(t.payload)[0..] == Encode(t.payload);
      FrameWithDeadlines(k, t.payload, st, 0, t.events);
      NothingYet(k, st, t.payload);
      hide Encode, Suits, Payload;
      DeadlinesLoseOnlyWhatTheyCut(k, Listen(k, st, t.events).state, ts[1..]);
      ListenConcat(k, st, t.events, Stream(ts[1..]));
    }
  }
}
