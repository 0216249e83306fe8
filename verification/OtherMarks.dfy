/** HilSerial::readFrame on a Frame whose header and end byte differ. An END then always closes what is
    open, so the reader cannot stay shifted, as it does where the two are the same byte. */
module OtherMarks {
  import opened Bytes
  import opened HilCodec
  import opened Receivers
  import opened Deframers

  function EncodeAllWith(m: Marks, ps: seq<seq<byte>>): seq<byte> {
    if ps == [] then [] else EncodeWith(m, ps[0]) + EncodeAllWith(m, ps[1..])
  }

  function BodiesWith(m: Marks, ps: seq<seq<byte>>): seq<seq<byte>> {
    if ps == [] then [] else [Body(m, ps[0])] + BodiesWith(m, ps[1..])
  }

  // ---- Noise ------------------------------------------------------------------------

  /** The bytes behind the last END. */
  function BehindLast(end: byte, w: seq<byte>): (t: seq<byte>)
    ensures end !in t
  {
    if w == [] then []
    else if end in w[1..] then BehindLast(end, w[1..])
    else if w[0] == end then w[1..] else w
  }

  /** The bytes behind the first header, if there is one. */
  function BehindFirst(header: byte, t: seq<byte>): Option<seq<byte>> {
    if t == [] then None else if t[0] == header then Some(t[1..]) else BehindFirst(header, t[1..])
  }

  /** The unfinished frame that the bytes w end in. */
  function Unfinished(m: Marks, w: seq<byte>): Option<seq<byte>> {
    BehindFirst(m.header, BehindLast(m.end, w))
  }

  function Standing(open: Option<seq<byte>>): State {
    match open case None => Hunting case Some(acc) => InFrame(false, acc)
  }

  /** Inside a frame everything but an END is kept, headers included. */
  lemma {:induction false} FeedInside(m: Marks, acc: seq<byte>, t: seq<byte>)
    requires m.end !in t
    ensures Feed(Blocking(m), InFrame(false, acc), t) == Fed(InFrame(false, acc + t), [])
    decreases |t|
  {
    if t == [] {
      assert acc + [] == acc;
    } else {
      FeedInside(m, acc + [t[0]], t[1..]);
      assert acc + [t[0]] + t[1..] == acc + t;
    }
  }

  lemma {:induction false} FeedOutside(m: Marks, t: seq<byte>)
    requires m.end !in t
    ensures Feed(Blocking(m), Hunting, t) == Fed(Standing(BehindFirst(m.header, t)), [])
    decreases |t|
  {
    if t != [] {
      if t[0] == m.header {
        FeedInside(m, [], t[1..]);
        assert [] + t[1..] == t[1..];
      } else {
        FeedOutside(m, t[1..]);
      }
    }
  }

  /** An END leaves the reader outside a frame, whatever came before. */
  lemma {:induction false} StateBehind(m: Marks, st: State, w: seq<byte>)
    requires m.header != m.end && m.end in w
    ensures Feed(Blocking(m), st, w).state == Standing(Unfinished(m, w))
    decreases |w|
  {
    var next := DeframerStep(Blocking(m), st, w[0]).0;
    if m.end in w[1..] {
      StateBehind(m, next, w[1..]);
    } else {
      FeedOutside(m, w[1..]);
    }
  }

  lemma StateAfterNoise(m: Marks, w: seq<byte>)
    requires m.header != m.end
    ensures Feed(Blocking(m), Hunting, w).state == Standing(Unfinished(m, w))
  {
    if m.end in w {
      StateBehind(m, Hunting, w);
    } else {
      NoEnd(m.end, w);
      FeedOutside(m, w);
    }
  }

  lemma NoEnd(end: byte, w: seq<byte>)
    requires end !in w
    ensures BehindLast(end, w) == w
  {
    if w != [] {
      assert w[0] in w && forall b <- w[1..] :: b in w;
    }
  }

  // ---- Frames -------------------------------------------------------------------------

  lemma FeedFrameFrom(m: Marks, open: Option<seq<byte>>, p: seq<byte>)
    requires m.header != m.end && TransparentMarks(m)
    ensures Feed(Blocking(m), Standing(open), EncodeWith(m, p))
            == Fed(Hunting, [if open.None? then Body(m, p) else open.value + [m.header] + Body(m, p)])
  {
    var k, body := Blocking(m), Body(m, p);
    StuffedIsDelimiterFree(m, p + Trailer(p));
    assert m.end !in body;
    var acc := if open.None? then [] else open.value + [m.header];
    FeedOne(k, Standing(open), m.header);
    FeedInside(m, acc, body);
    FeedOne(k, InFrame(false, acc + body), m.end);
    FeedConcat(k, Standing(open), [m.header], body);
    FeedConcat(k, Standing(open), [m.header] + body, [m.end]);
    assert [] + body == body;
  }

  lemma {:induction false} FeedFramesWith(m: Marks, ps: seq<seq<byte>>)
    requires m.header != m.end && TransparentMarks(m)
    ensures Feed(Blocking(m), Hunting, EncodeAllWith(m, ps)) == Fed(Hunting, BodiesWith(m, ps))
  {
    if ps != [] {
      FeedFrameFrom(m, None, ps[0]);
      FeedFramesWith(m, ps[1..]);
      FeedConcat(Blocking(m), Hunting, EncodeWith(m, ps[0]), EncodeAllWith(m, ps[1..]));
      hide EncodeWith, Body, Feed, TransparentMarks;
    }
  }

  /** Behind arbitrary bytes readFrame returns every frame if these end outside a frame. If they end
      inside one, the first frame is returned as the end of that, and all others unharmed. */
  lemma NoiseCostsAtMostOneFrame(m: Marks, w: seq<byte>, p: seq<byte>, ps: seq<seq<byte>>)
    requires m.header != m.end && TransparentMarks(m)
    ensures var open := Unfinished(m, w);
            Session(Blocking(m), w + (EncodeWith(m, p) + EncodeAllWith(m, ps)))
            == Feed(Blocking(m), Hunting, w).out
               + ([if open.None? then Body(m, p) else open.value + [m.header] + Body(m, p)] + BodiesWith(m, ps))
  {
    var k := Blocking(m);
    hide EncodeWith, Body, Feed, TransparentMarks, Standing, Unfinished, Blocking;
    StateAfterNoise(m, w);
    SessionIsFeed(k, w + (EncodeWith(m, p) + EncodeAllWith(m, ps)));
    FeedConcat(k, Hunting, w, EncodeWith(m, p) + EncodeAllWith(m, ps));
    FeedFrameFrom(m, Unfinished(m, w), p);
    FeedFramesWith(m, ps);
    FeedConcat(k, Standing(Unfinished(m, w)), EncodeWith(m, p), EncodeAllWith(m, ps));
  }
}
