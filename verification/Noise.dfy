/** What the streaming decoder of HilFrameArduino::readFrom makes of an arbitrary stream, read off the
    runs of bytes between its delimiters. */
module Noise {
  import opened Bytes
  import opened HilCodec
  import opened Receivers
  import opened Segments
  import opened StreamDecoder

  /** What comes out of a stream, and the unfinished frame that it ends in, if it does. */
  datatype Reading = Reading(payloads: seq<seq<byte>>, unfinished: Option<Unstuffed>)

  /** `begun` is what an open frame has been decoded to so far; x is the run up to the stream's end. The
      frame is unfinished, unless it is too long. */
  function AtEnd(max: nat, begun: Option<seq<byte>>, x: seq<byte>): Option<Unstuffed> {
    if begun.None? then None else
    var u := Unstuff(ESCAPE, x);
    if |begun.value| + |u.bytes| > max + 2 then None else Some(Unstuffed(begun.value + u.bytes, u.dangling))
  }

  /** x is the run up to a delimiter: that opens a frame, except behind a dangling escape, where it is
      data, and at the end of a frame that verifies. */
  function AtDelimiter(max: nat, begun: Option<seq<byte>>, x: seq<byte>): (Option<seq<byte>>, Option<seq<byte>>) {
    match AtEnd(max, begun, x)
    case None => (Some([]), None)
    case Some(Unstuffed(bytes, true)) => (if |bytes| < max + 2 then Some(bytes + [Flip(DELIMITER)]) else None, None)
    case Some(Unstuffed(bytes, false)) => if Verify(bytes).Some? then (None, Verify(bytes)) else (Some([]), None)
  }

  function Read(max: nat, begun: Option<seq<byte>>, c: Runs): Reading
    decreases c
  {
    match c
    case Last(x) => Reading([], AtEnd(max, begun, x))
    case More(x, rest) =>
      var (next, o) := AtDelimiter(max, begun, x);
      var r := Read(max, next, rest);
      r.(payloads := Emitted(o) + r.payloads)
  }

  function Standing(begun: Option<seq<byte>>): State {
    match begun case None => Hunting case Some(bytes) => InFrame(false, bytes)
  }

  function Outcome(r: Reading): Fed {
    Fed(match r.unfinished case None => Hunting case Some(u) => InFrame(u.dangling, u.bytes), r.payloads)
  }

  /** A run of bytes without a delimiter. */
  lemma FeedRun(max: nat, begun: Option<seq<byte>>, x: seq<byte>)
    requires DelimiterFree(DEFAULT_MARKS, x) && (begun.Some? ==> |begun.value| <= max + 2)
    ensures Feed(Decoder(max), Standing(begun), x) == Outcome(Reading([], AtEnd(max, begun, x)))
  {
    if begun.None? {
      StaysHunting(max, x);
    } else {
      FeedBody(max, begun.value, x);
    }
  }

  lemma FeedRunAndDelimiter(max: nat, begun: Option<seq<byte>>, x: seq<byte>)
    requires DelimiterFree(DEFAULT_MARKS, x) && (begun.Some? ==> |begun.value| <= max + 2)
    ensures var (next, o) := AtDelimiter(max, begun, x);
            && Feed(Decoder(max), Standing(begun), x + [DELIMITER]) == Fed(Standing(next), Emitted(o))
            && (next.Some? ==> |next.value| <= max + 2)
  {
    FeedRun(max, begun, x);
    FeedConcat(Decoder(max), Standing(begun), x, [DELIMITER]);
    FeedOne(Decoder(max), Feed(Decoder(max), Standing(begun), x).state, DELIMITER);
    hide Feed, Unstuff, Verify;
  }

  lemma {:induction false} FeedRuns(max: nat, begun: Option<seq<byte>>, c: Runs)
    requires Plain(c) && (begun.Some? ==> |begun.value| <= max + 2)
    ensures Feed(Decoder(max), Standing(begun), Glue(c)) == Outcome(Read(max, begun, c))
    decreases c
  {
    hide Feed, AtDelimiter, AtEnd, Standing, DelimiterFree;
    match c
    case Last(x) => FeedRun(max, begun, x);
    case More(x, rest) =>
      var (next, o) := AtDelimiter(max, begun, x);
      FeedRunAndDelimiter(max, begun, x);
      FeedRuns(max, next, rest);
      FeedConcat(Decoder(max), Standing(begun), x + [DELIMITER], Glue(rest));
  }

  /** The whole behaviour of the decoder on any stream. */
  lemma SessionReadsNoise(max: nat, w: seq<byte>)
    ensures Feed(Decoder(max), Hunting, w) == Outcome(Read(max, None, Cut(w)))
    ensures Session(Decoder(max), w) == Read(max, None, Cut(w)).payloads
  {
    CutMeans(w);
    FeedRuns(max, None, Cut(w));
    SessionIsFeed(Decoder(max), w);
  }

  /** The first frame behind the noise w is lost exactly if w ends in an unfinished frame that has a
      dangling escape, or that verifies to something else. */
  lemma FirstFrameLostBehindNoise(max: nat, w: seq<byte>, p: seq<byte>)
    requires |p| <= max
    ensures var u := Read(max, None, Cut(w)).unfinished;
            p !in WhileReceiving(max, Feed(Decoder(max), Hunting, w).state, p)
            <==> u.Some? && (u.value.dangling || (Verify(u.value.bytes).Some? && Verify(u.value.bytes).value != p))
  {
    SessionReadsNoise(max, w);
    FeedKeepsLegal(max, Hunting, w);
    FirstFrameLostIff(max, Feed(Decoder(max), Hunting, w).state, p);
  }
}
