/** Incremental extraction of RTCM3 frames (RTCM 10403.3, section 4, transport layer) from a
    retained buffer that is fed in chunks, and the chunks' way through GPS_RTCM_DATA messages. */
module Rtcm {
  import opened Bytes

  const PREAMBLE: byte := 0xD3
  const HIGH_WATER := 8192
  const KEPT := 1024
  const BLOCK := 180

  /** bytearray.find: the index of the first preamble, or -1. */
  function Find(s: seq<byte>): (i: int)
    ensures -1 <= i < |s|
    ensures i >= 0 ==> s[i] == PREAMBLE
    ensures forall j :: 0 <= j < (if i < 0 then |s| else i) ==> s[j] != PREAMBLE
  {
    if s == [] then -1
    else if s[0] == PREAMBLE then 0
    else
      var i := Find(s[1..]);
      assert forall j :: 1 <= j < |s| ==> s[j] == s[1..][j - 1];
      if i < 0 then -1 else i + 1
  }

  /** Header, payload with its 10-bit length, and the three bytes of CRC-24Q, which is not checked. */
  function FrameLength(t: seq<byte>): (n: nat)
    requires |t| >= 3
    ensures 6 <= n <= 1029
  {
    3 + Word(t[2], t[1] % 4) + 3
  }

  /** The first twelve bits of a payload. */
  function MessageNumber(b0: byte, b1: byte): (n: nat)
    ensures n < 4096
  {
    (b0 as int) * 16 + (b1 as int) / 16
  }

  /** rtcm_type_and_len_from_frame, its first component: the 12-bit message number. */
  function TypeOf(frame: seq<byte>): Option<nat> {
    if |frame| < 6 || frame[0] != PREAMBLE then None
    else if Word(frame[2], frame[1] % 4) < 2 then None
    else Some(MessageNumber(frame[3], frame[4]))
  }

  datatype Parsed = Parsed(frames: seq<seq<byte>>, rest: seq<byte>)

  function Typed(frame: seq<byte>): seq<seq<byte>> {
    if TypeOf(frame).Some? then [frame] else []
  }

  /** One call of parse_rtcm_frames: the typed frames it counts and the buffer it leaves. */
  function Parse(buf: seq<byte>): Parsed
    decreases |buf|
  {
    var idx := Find(buf);
    if idx < 0 then Parsed([], if |buf| > HIGH_WATER then buf[|buf| - KEPT..] else buf) else
    var t := buf[idx..];
    if |t| < 3 || |t| < FrameLength(t) then Parsed([], t) else
    var later := Parse(t[FrameLength(t)..]);
    Parsed(Typed(t[..FrameLength(t)]) + later.frames, later.rest)
  }

  /** How often each message number was seen. */
  function Types(frames: seq<seq<byte>>): multiset<nat> {
    if frames == [] then multiset{} else
    TypesOfOne(frames[0]) + Types(frames[1..])
  }

  function TypesOfOne(frame: seq<byte>): multiset<nat> {
    match TypeOf(frame) case Some(n) => multiset{n} case None => multiset{}
  }

  class Sniffer {
    var buf: seq<byte>
    var counts: multiset<nat>

    constructor ()
      ensures buf == [] && counts == multiset{}
    {
      buf, counts := [], multiset{};
    }

    method ParseFrames() returns (frames: nat)
      modifies this
      ensures var p := Parse(old(buf));
              buf == p.rest && frames == |p.frames| && counts == old(counts) + Types(p.frames)
    {
      ghost var start := buf;
      ghost var done: seq<seq<byte>> := [];
      frames := 0;
      while true
        invariant Continues(start, done, buf)
        invariant frames == |done| && counts == old(counts) + Types(done)
        decreases |buf|
      {
        hide Parse, Types, Typed, TypeOf, FrameLength, Find, Continues;
        NothingComplete(start, done, buf);
        var idx := Find(buf);
        if idx < 0 {
          if |buf| > HIGH_WATER {
            buf := buf[|buf| - KEPT..];
          }
          break;
        }
        if |buf| < idx + 3 {
          buf := buf[idx..];
          break;
        }
        var frameLength := FrameLength(buf[idx..]);
        if |buf| < idx + frameLength {
          buf := buf[idx..];
          break;
        }
        var frame := buf[idx..idx + frameLength];
        var messageType := TypeOf(frame);
        if messageType.Some? {
          counts := counts + multiset{messageType.value};
          frames := frames + 1;
        }
        CountOne(old(counts), done, frame);
        WholeFrame(start, done, buf, idx, frameLength);
        done := done + Typed(frame);
        buf := buf[idx + frameLength..];
      }
    }

    /** What the main loop does with one GPS_RTCM_DATA message. */
    method OnMessage(m: RtcmData) returns (frames: nat)
      requires m.Valid()
      modifies this
      ensures var p := Parse(old(buf) + m.Trimmed());
              buf == p.rest && frames == |p.frames| && counts == old(counts) + Types(p.frames)
    {
      buf := buf + m.Trimmed();
      frames := ParseFrames();
    }

    /** The main loop over the messages that arrive. */
    method Listen(ms: seq<RtcmData>) returns (frames: nat)
      requires forall m <- ms :: m.Valid()
      modifies this
      ensures var p := Online(old(buf), TrimAll(ms));
              buf == p.rest && frames == |p.frames| && counts == old(counts) + Types(p.frames)
    {
      frames := 0;
      ghost var all := Online(buf, TrimAll(ms));
      ghost var done: seq<seq<byte>> := [];
      for i := 0 to |ms|
        invariant Onward(all, done, buf, ms[i..])
        invariant frames == |done| && counts == old(counts) + Types(done)
      {
        hide Onward, Parse, Types;
        OneMessage(all, done, buf, ms[i..]);
        assert ms[i..][1..] == ms[i + 1..];
        TypesConcat(done, Parse(buf + ms[i].Trimmed()).frames);
        done := done + Parse(buf + ms[i].Trimmed()).frames;
        var n := OnMessage(ms[i]);
        frames := frames + n;
      }
      assert done + [] == done;
    }

    /** The main loop with its reports, which start the counters afresh. Nothing is lost or counted
        twice between them: all reports and the running counters together account for every frame. */
    method ListenAndReport(rounds: seq<Round>) returns (reports: seq<Report>, frames: nat)
      requires forall r <- rounds :: r.Valid()
      modifies this
      ensures var p := Online(old(buf), TrimAll(Messages(rounds)));
              && buf == p.rest
              && TypesReported(reports) + counts == old(counts) + Types(p.frames)
              && FramesReported(reports) + frames == |p.frames|
      ensures |reports| == Due(rounds)
    {
      hide Onward, Parse, Accounted, Online;
      reports, frames := [], 0;
      ghost var all, before := Online(buf, TrimAll(Messages(rounds))), counts;
      ghost var done: seq<seq<byte>> := [];
      NothingDone(buf, Messages(rounds));
      NothingCounted(before);
      for i := 0 to |rounds|
        invariant Onward(all, done, buf, Messages(rounds[i..]))
        invariant Accounted(before, done, reports, counts, frames)
        invariant |reports| + Due(rounds[i..]) == Due(rounds)
      {
        assert rounds[i..][0] == rounds[i] && rounds[i..][1..] == rounds[i + 1..];
        if rounds[i].message.Some? {
          var m := rounds[i].message.value;
          OneMessage(all, done, buf, Messages(rounds[i..]));
          MoreCounted(before, done, reports, counts, frames, Parse(buf + m.Trimmed()).frames);
          done := done + Parse(buf + m.Trimmed()).frames;
          var n := OnMessage(m);
          frames := frames + n;
        }
        if rounds[i].due {
          OneReport(before, done, reports, counts, frames);
          reports := reports + [Report(counts, frames)];
          counts := multiset{};
          frames := 0;
        }
      }
      AllDone(all, done, buf);
      AllCounted(before, done, reports, counts, frames);
    }
  }

  // ---- Reports ----------------------------------------------------------------------

  /** One pass of the main loop: a message or none, and whether a second has passed since the last
      report. */
  datatype Round = Round(message: Option<RtcmData>, due: bool) {
    predicate Valid() {
      message.Some? ==> message.value.Valid()
    }
  }

  datatype Report = Report(types: multiset<nat>, frames: nat)

  function Messages(rounds: seq<Round>): (ms: seq<RtcmData>)
    requires forall r <- rounds :: r.Valid()
    ensures forall m <- ms :: m.Valid()
  {
    if rounds == [] then [] else
    assert rounds[0].Valid();
    if rounds[0].message.Some? then [rounds[0].message.value] + Messages(rounds[1..]) else Messages(rounds[1..])
  }

  function Due(rounds: seq<Round>): nat {
    if rounds == [] then 0 else (if rounds[0].due then 1 else 0) + Due(rounds[1..])
  }

  function TypesReported(reports: seq<Report>): multiset<nat> {
    if reports == [] then multiset{} else TypesReported(reports[..|reports| - 1]) + reports[|reports| - 1].types
  }

  function FramesReported(reports: seq<Report>): nat {
    if reports == [] then 0 else FramesReported(reports[..|reports| - 1]) + reports[|reports| - 1].frames
  }

  /** The reports and the running counters together account for the frames done. */
  ghost predicate Accounted(before: multiset<nat>, done: seq<seq<byte>>, reports: seq<Report>, counts: multiset<nat>,
                            frames: nat)
  {
    TypesReported(reports) + counts == before + Types(done) && FramesReported(reports) + frames == |done|
  }

  lemma NothingCounted(before: multiset<nat>)
    ensures Accounted(before, [], [], before, 0)
  {
  }

  lemma MoreCounted(before: multiset<nat>, done: seq<seq<byte>>, reports: seq<Report>, counts: multiset<nat>,
                    frames: nat, found: seq<seq<byte>>)
    requires Accounted(before, done, reports, counts, frames)
    ensures Accounted(before, done + found, reports, counts + Types(found), frames + |found|)
  {
    hide Types, TypesReported, FramesReported;
    TypesConcat(done, found);
    SumAssociates(TypesReported(reports), counts, Types(found));
    SumAssociates(before, Types(done), Types(found));
  }

  lemma OneReport(before: multiset<nat>, done: seq<seq<byte>>, reports: seq<Report>, counts: multiset<nat>, frames: nat)
    requires Accounted(before, done, reports, counts, frames)
    ensures Accounted(before, done, reports + [Report(counts, frames)], multiset{}, 0)
  {
    hide Types;
    assert (reports + [Report(counts, frames)])[..|reports|] == reports;
  }

  lemma AllCounted(before: multiset<nat>, done: seq<seq<byte>>, reports: seq<Report>, counts: multiset<nat>, frames: nat)
    requires Accounted(before, done, reports, counts, frames)
    ensures TypesReported(reports) + counts == before + Types(done) && FramesReported(reports) + frames == |done|
  {
  }

  lemma NothingDone(buf: seq<byte>, ms: seq<RtcmData>)
    requires forall m <- ms :: m.Valid()
    ensures Onward(Online(buf, TrimAll(ms)), [], buf, ms)
  {
    hide Online;
    var all := Online(buf, TrimAll(ms));
    assert [] + all.frames == all.frames;
  }

  lemma AllDone(all: Parsed, done: seq<seq<byte>>, buf: seq<byte>)
    requires Onward(all, done, buf, [])
    ensures all == Parsed(done, buf)
  {
    assert done + [] == done;
  }

  // ---- How the loops proceed -----------------------------------------------------------

  /** What is left to do on the messages ms completes what was done. */
  ghost predicate Onward(all: Parsed, done: seq<seq<byte>>, buf: seq<byte>, ms: seq<RtcmData>) {
    (forall m <- ms :: m.Valid())
    && var p := Online(buf, TrimAll(ms)); all == Parsed(done + p.frames, p.rest)
  }

  lemma OneMessage(all: Parsed, done: seq<seq<byte>>, buf: seq<byte>, ms: seq<RtcmData>)
    requires Onward(all, done, buf, ms) && ms != []
    ensures var p := Parse(buf + ms[0].Trimmed()); Onward(all, done + p.frames, p.rest, ms[1..])
  {
    var p := Parse(buf + ms[0].Trimmed());
    assert TrimAll(ms)[0] == ms[0].Trimmed() && TrimAll(ms)[1..] == TrimAll(ms[1..]);
    hide Parse, TrimAll;
    AppendAssociates(done, p.frames, Online(p.rest, TrimAll(ms[1..])).frames);
  }

  lemma {:induction false} TypesConcat(a: seq<seq<byte>>, b: seq<seq<byte>>)
    ensures Types(a + b) == Types(a) + Types(b)
    decreases |a|
  {
    if a == [] {
      assert a + b == b;
    } else {
      assert (a + b)[0] == a[0] && (a + b)[1..] == a[1..] + b;
      TypesConcat(a[1..], b);
      hide TypesOfOne;
      SumAssociates(TypesOfOne(a[0]), Types(a[1..]), Types(b));
    }
  }

  lemma SumAssociates(a: multiset<nat>, b: multiset<nat>, c: multiset<nat>)
    ensures a + b + c == a + (b + c)
  {
  }

  /** What is left to do on buf completes what was done since `start`. */
  predicate Continues(start: seq<byte>, done: seq<seq<byte>>, buf: seq<byte>) {
    Parse(start) == Parsed(done + Parse(buf).frames, Parse(buf).rest)
  }

  lemma CountOne(before: multiset<nat>, done: seq<seq<byte>>, frame: seq<byte>)
    ensures before + Types(done + Typed(frame))
            == before + Types(done) + TypesOfOne(frame)
    ensures |done + Typed(frame)| == |done| + if TypeOf(frame).Some? then 1 else 0
  {
    TypesConcat(done, Typed(frame));
    TypesOfTyped(frame);
    hide Types, TypesOfOne;
    SumAssociates(before, Types(done), TypesOfOne(frame));
  }

  lemma ParseIncomplete(buf: seq<byte>)
    ensures var idx := Find(buf);
            if idx < 0 then Parse(buf) == Parsed([], if |buf| > HIGH_WATER then buf[|buf| - KEPT..] else buf)
            else |buf| < idx + 3 || |buf| < idx + FrameLength(buf[idx..]) ==> Parse(buf) == Parsed([], buf[idx..])
  {
  }

  lemma TypesOfTyped(frame: seq<byte>)
    ensures Types(Typed(frame)) == TypesOfOne(frame)
  {
    assert [frame][1..] == [];
  }

  lemma NothingComplete(start: seq<byte>, done: seq<seq<byte>>, buf: seq<byte>)
    requires Continues(start, done, buf)
    ensures var idx := Find(buf);
            if idx < 0 then Parse(start) == Parsed(done, if |buf| > HIGH_WATER then buf[|buf| - KEPT..] else buf)
            else |buf| < idx + 3 || |buf| < idx + FrameLength(buf[idx..]) ==> Parse(start) == Parsed(done, buf[idx..])
  {
    ParseIncomplete(buf);
    hide Parse;
    assert done + [] == done;
  }

  lemma ParseWhole(buf: seq<byte>, idx: nat, n: nat)
    requires idx == Find(buf) && |buf| >= idx + 3 && n == FrameLength(buf[idx..]) && |buf| >= idx + n
    ensures Parse(buf).frames == Typed(buf[idx..idx + n]) + Parse(buf[idx + n..]).frames
    ensures Parse(buf).rest == Parse(buf[idx + n..]).rest
  {
    hide Typed, FrameLength, Find;
    assert buf[idx..][..n] == buf[idx..idx + n] && buf[idx..][n..] == buf[idx + n..];
  }

  lemma WholeFrame(start: seq<byte>, done: seq<seq<byte>>, buf: seq<byte>, idx: nat, n: nat)
    requires idx == Find(buf) && |buf| >= idx + 3 && n == FrameLength(buf[idx..]) && |buf| >= idx + n
    requires Continues(start, done, buf)
    ensures Continues(start, done + Typed(buf[idx..idx + n]), buf[idx + n..])
  {
    ParseWhole(buf, idx, n);
    hide Parse, Typed, Find, FrameLength;
    AppendAssociates(done, Typed(buf[idx..idx + n]), Parse(buf[idx + n..]).frames);
  }

  // ---- Chunk invariance ------------------------------------------------------------

  lemma {:induction false} FindBehind(g: seq<byte>, t: seq<byte>)
    requires Find(g) < 0
    ensures Find(g + t) == if Find(t) < 0 then -1 else |g| + Find(t)
  {
    var i := Find(g + t);
    if Find(t) >= 0 {
      assert (g + t)[|g| + Find(t)] == PREAMBLE;
    }
    if i >= 0 {
      assert i >= |g| && (g + t)[i] == t[i - |g|];
    }
    if i >= 0 && Find(t) >= 0 {
      assert (g + t)[|g| + Find(t)] == t[Find(t)];
      assert forall j :: 0 <= j < Find(t) ==> (g + t)[|g| + j] == t[j];
    }
  }

  /** Bytes without a preamble in front change nothing. */
  lemma SkipGarbage(g: seq<byte>, t: seq<byte>)
    requires Find(g) < 0
    ensures Parse(g + t).frames == Parse(t).frames
  {
    FindBehind(g, t);
    if Find(t) >= 0 {
      assert (g + t)[|g| + Find(t)..] == t[Find(t)..];
    }
  }

  lemma FindInPrefix(s: seq<byte>, t: seq<byte>)
    requires Find(s) >= 0
    ensures Find(s + t) == Find(s)
  {
    assert forall j :: 0 <= j <= Find(s) ==> (s + t)[j] == s[j];
  }

  /** Parsing what a call left behind, together with the next bytes, continues exactly where
      parsing everything at once would be: neither cutting the stream nor trimming the buffer
      loses, adds or reorders a frame. */
  lemma {:induction false} ParseResumes(s: seq<byte>, t: seq<byte>)
    ensures Parse(s + t).frames == Parse(s).frames + Parse(Parse(s).rest + t).frames
    decreases |s|
  {
    hide Parse, FrameLength, Typed;
    var idx := Find(s);
    if idx < 0 {
      ParseIncomplete(s);
      SkipGarbage(s, t);
      SuffixHasNoPreamble(s, |s| - |Parse(s).rest|);
      SkipGarbage(Parse(s).rest, t);
    } else {
      var u := s[idx..];
      PreambleFirst(s, t);
      if |u| < 3 || |u| < FrameLength(u) {
        ParseIncomplete(s);
        assert [] + Parse(u + t).frames == Parse(u + t).frames;
      } else {
        var n := FrameLength(u);
        ParseWhole(s, idx, n);
        assert s[idx..idx + n] == u[..n] && s[idx + n..] == u[n..];
        CompleteFrameFirst(u, t);
        ParseResumes(u[n..], t);
        AppendAssociates(Typed(u[..n]), Parse(u[n..]).frames, Parse(Parse(s).rest + t).frames);
      }
    }
  }

  /** The bytes before the first preamble change nothing. */
  lemma PreambleFirst(s: seq<byte>, t: seq<byte>)
    requires Find(s) >= 0
    ensures var u := s[Find(s)..]; Find(u) == 0 && Parse(s + t).frames == Parse(u + t).frames
  {
    var g, u := s[..Find(s)], s[Find(s)..];
    assert s == g + u;
    AppendAssociates(g, u, t);
    GarbageBefore(s);
    SkipGarbage(g, u + t);
  }

  lemma SuffixHasNoPreamble(s: seq<byte>, i: nat)
    requires Find(s) < 0 && i <= |s|
    ensures Find(s[i..]) < 0
  {
    assert forall j :: 0 <= j < |s| - i ==> s[i..][j] == s[i + j];
  }

  lemma GarbageBefore(s: seq<byte>)
    requires Find(s) >= 0
    ensures Find(s[..Find(s)]) < 0
  {
    assert forall j :: 0 <= j < Find(s) ==> s[..Find(s)][j] == s[j];
  }

  /** A buffer that starts with a whole frame, extended. */
  lemma CompleteFrameFirst(u: seq<byte>, t: seq<byte>)
    requires Find(u) == 0 && |u| >= 3 && |u| >= FrameLength(u)
    ensures var later := Parse(u[FrameLength(u)..] + t);
            Parse(u + t) == Parsed(Typed(u[..FrameLength(u)]) + later.frames, later.rest)
  {
    FindInPrefix(u, t);
    var n := FrameLength(u);
    assert FrameLength(u + t) == n;
    assert (u + t)[0..] == u + t;
    assert (u + t)[..n] == u[..n];
    assert (u + t)[n..] == u[n..] + t;
  }

  function Concat(chunks: seq<seq<byte>>): seq<byte> {
    if chunks == [] then [] else chunks[0] + Concat(chunks[1..])
  }

  /** buf.extend and parse_rtcm_frames for every chunk in turn. */
  function Online(buf: seq<byte>, chunks: seq<seq<byte>>): Parsed
    decreases |chunks|
  {
    if chunks == [] then Parsed([], buf) else
    var p := Parse(buf + chunks[0]);
    var later := Online(p.rest, chunks[1..]);
    Parsed(p.frames + later.frames, later.rest)
  }

  lemma NothingLeft(s: seq<byte>)
    ensures Parse(Parse(s).rest).frames == []
  {
    ParseResumes(s, []);
    assert s + [] == s && Parse(s).rest + [] == Parse(s).rest;
    var a, b := Parse(s).frames, Parse(Parse(s).rest).frames;
    assert |a| == |a| + |b|;
  }

  lemma {:induction false} OnlineFrom(buf: seq<byte>, chunks: seq<seq<byte>>)
    requires Parse(buf).frames == []
    ensures Online(buf, chunks).frames == Parse(buf + Concat(chunks)).frames
    decreases |chunks|
  {
    if chunks == [] {
      assert buf + [] == buf;
    } else {
      var s, later := buf + chunks[0], Concat(chunks[1..]);
      assert buf + Concat(chunks) == s + later;
      ParseResumes(s, later);
      NothingLeft(s);
      OnlineFrom(Parse(s).rest, chunks[1..]);
    }
  }

  /** However a stream is cut, the online parser yields the frames of the whole stream. */
  lemma ChunkInvariance(chunks: seq<seq<byte>>)
    ensures Online([], chunks).frames == Parse(Concat(chunks)).frames
  {
    OnlineFrom([], chunks);
    assert [] + Concat(chunks) == Concat(chunks);
  }

  /** r is the end of s. */
  predicate Ends(s: seq<byte>, r: seq<byte>) {
    |r| <= |s| && r == s[|s| - |r|..]
  }

  lemma EndOfEnd(s: seq<byte>, t: seq<byte>, r: seq<byte>)
    requires Ends(s, t) && Ends(t, r)
    ensures Ends(s, r)
  {
  }

  lemma EndExtended(s: seq<byte>, r: seq<byte>, t: seq<byte>)
    requires Ends(s, r)
    ensures Ends(s + t, r + t)
  {
  }

  /** Bytes without a preamble stay in the buffer, but of more than 8192 of them only the last 1024. */
  lemma GarbageShrinks(s: seq<byte>)
    requires 0xD3 !in s
    ensures Parse(s) == Parsed([], if |s| > 8192 then s[|s| - 1024..] else s)
  {
    ParseIncomplete(s);
  }

  /** What a call leaves is the end of what it was given, and at most the high-water mark. */
  lemma {:induction false} BufferBounded(s: seq<byte>)
    ensures |Parse(s).rest| <= 8192 && Ends(s, Parse(s).rest)
    decreases |s|
  {
    ParseIncomplete(s);
    hide Parse, Find, FrameLength, Typed;
    var idx := Find(s);
    if idx >= 0 && |s| >= idx + 3 && |s| >= idx + FrameLength(s[idx..]) {
      var k := idx + FrameLength(s[idx..]);
      ParseWhole(s, idx, k - idx);
      BufferBounded(s[k..]);
      EndOfEnd(s, s[k..], Parse(s).rest);
    }
  }

  /** However a stream is cut, the retained buffer is at most the high-water mark and always the end
      of the whole stream so far. */
  lemma {:induction false} OnlineBounded(buf: seq<byte>, chunks: seq<seq<byte>>)
    requires |buf| <= HIGH_WATER
    ensures |Online(buf, chunks).rest| <= HIGH_WATER
    ensures Ends(buf + Concat(chunks), Online(buf, chunks).rest)
    decreases |chunks|
  {
    if chunks == [] {
      assert buf + [] == buf;
    } else {
      var s, later := buf + chunks[0], Concat(chunks[1..]);
      assert buf + Concat(chunks) == s + later;
      BufferBounded(s);
      OnlineBounded(Parse(s).rest, chunks[1..]);
      hide Parse, Concat, Ends;
      EndExtended(s, Parse(s).rest, later);
      EndOfEnd(s + later, Parse(s).rest + later, Online(buf, chunks).rest);
    }
  }

  // ---- Well-formed streams ------------------------------------------------------------

  /** What a frame carries: a message, whose first twelve bits are its number and whose next four bits
      already belong to its body, or too little for a message. */
  datatype Content = Numbered(number: nat, bits: nat, body: seq<byte>) | Stub(bytes: seq<byte>) {
    predicate Valid() {
      match this
      case Numbered(number, bits, body) => number < 4096 && bits < 16 && |body| <= 1021
      case Stub(bytes) => |bytes| < 2
    }

    function Payload(): (p: seq<byte>)
      requires Valid()
      ensures |p| <= 1023
    {
      match this
      case Numbered(number, bits, body) => [number / 16, number % 16 * 16 + bits] + body
      case Stub(bytes) => bytes
    }
  }

  /** A frame as a sender makes it; the six reserved bits and the checksum are arbitrary. */
  datatype RtcmFrame = RtcmFrame(reserved: nat, content: Content, crc: seq<byte>) {
    predicate Valid() {
      reserved < 64 && content.Valid() && |crc| == 3
    }

    function Encoded(): seq<byte>
      requires Valid()
    {
      var payload := content.Payload();
      [0xD3, reserved * 4 + |payload| / 256, |payload| % 256] + payload + crc
    }
  }

  function EncodeAll(fs: seq<RtcmFrame>): seq<byte>
    requires forall f <- fs :: f.Valid()
  {
    if fs == [] then [] else fs[0].Encoded() + EncodeAll(fs[1..])
  }

  /** The frames that carry a message. */
  function Carriers(fs: seq<RtcmFrame>): seq<seq<byte>>
    requires forall f <- fs :: f.Valid()
  {
    if fs == [] then [] else
    (if fs[0].content.Numbered? then [fs[0].Encoded()] else []) + Carriers(fs[1..])
  }

  /** The receiver puts the twelve bits together again. */
  lemma NumberReadBack(number: nat, bits: nat)
    requires number < 4096 && bits < 16
    ensures MessageNumber(number / 16, number % 16 * 16 + bits) == number
  {}

  lemma LengthReadBack(reserved: nat, n: nat)
    requires reserved < 64 && n <= 1023
    ensures (reserved * 4 + n / 256) % 4 == n / 256 && reserved * 4 + n / 256 < 256
  {}

  lemma EncodedIsOneFrame(f: RtcmFrame)
    requires f.Valid()
    ensures var e := f.Encoded();
            && Find(e) == 0 && |e| >= 3 && FrameLength(e) == |e|
            && TypeOf(e) == (if f.content.Numbered? then Some(f.content.number) else None)
            && Typed(e) == (if f.content.Numbered? then [e] else [])
  {
    hide MessageNumber;
    var e, payload := f.Encoded(), f.content.Payload();
    var n := |payload|;
    LengthReadBack(f.reserved, n);
    assert e[1] == f.reserved * 4 + n / 256 && e[2] == n % 256;
    if f.content.Numbered? {
      NumberReadBack(f.content.number, f.content.bits);
      assert e[3] == payload[0] && e[4] == payload[1];
    }
  }

  /** A stream of well-formed frames is recovered frame by frame, nothing is left over, and no
      byte inside a payload is mistaken for a preamble. */
  lemma {:induction false} CleanStream(fs: seq<RtcmFrame>)
    requires forall f <- fs :: f.Valid()
    ensures Parse(EncodeAll(fs)) == Parsed(Carriers(fs), [])
  {
    if fs != [] {
      var e, later := fs[0].Encoded(), EncodeAll(fs[1..]);
      EncodedIsOneFrame(fs[0]);
      CompleteFrameFirst(e, later);
      assert e[..|e|] == e && e[|e|..] + later == later;
      CleanStream(fs[1..]);
    }
  }

  // ---- Through GPS_RTCM_DATA ------------------------------------------------------------

  /** The message payload: 180 bytes, and a length that says how many of them count. */
  datatype RtcmData = RtcmData(len: byte, data: seq<byte>) {
    predicate Valid() {
      |data| == BLOCK
    }

    /** `msg.data[:msg.len]`, where a slice beyond the end stops at the end. */
    function Trimmed(): seq<byte>
      requires Valid()
    {
      if len <= BLOCK then data[..len] else data
    }
  }

  function Zeros(n: nat): (z: seq<byte>)
    ensures |z| == n
  {
    if n == 0 then [] else [0] + Zeros(n - 1)
  }

  /** What the injector sends for one read of at most 180 bytes. */
  function Inject(chunk: seq<byte>): (m: RtcmData)
    requires |chunk| <= BLOCK
    ensures m.Valid() && m.Trimmed() == chunk
  {
    RtcmData(|chunk|, chunk + Zeros(BLOCK - |chunk|))
  }

  function TrimAll(ms: seq<RtcmData>): seq<seq<byte>>
    requires forall m <- ms :: m.Valid()
  {
    if ms == [] then [] else [ms[0].Trimmed()] + TrimAll(ms[1..])
  }

  function InjectAll(blocks: seq<seq<byte>>): (ms: seq<RtcmData>)
    requires forall b <- blocks :: |b| <= BLOCK
    ensures forall m <- ms :: m.Valid()
  {
    if blocks == [] then [] else [Inject(blocks[0])] + InjectAll(blocks[1..])
  }

  lemma {:induction false} TrimUndoesInject(blocks: seq<seq<byte>>)
    requires forall b <- blocks :: |b| <= BLOCK
    ensures TrimAll(InjectAll(blocks)) == blocks
  {
    if blocks != [] {
      TrimUndoesInject(blocks[1..]);
      assert InjectAll(blocks)[1..] == InjectAll(blocks[1..]);
    }
  }

  /** How often each message number was sent. */
  function Numbers(fs: seq<RtcmFrame>): multiset<nat> {
    if fs == [] then multiset{} else
    (match fs[0].content case Numbered(number, _, _) => multiset{number} case Stub(_) => multiset{}) + Numbers(fs[1..])
  }

  lemma {:induction false} CarriersHaveNumbers(fs: seq<RtcmFrame>)
    requires forall f <- fs :: f.Valid()
    ensures Types(Carriers(fs)) == Numbers(fs)
  {
    if fs != [] {
      var e := fs[0].Encoded();
      EncodedIsOneFrame(fs[0]);
      CarriersHaveNumbers(fs[1..]);
      TypesConcat(Typed(e), Carriers(fs[1..]));
      TypesOfTyped(e);
      hide Types;
    }
  }

  /** From the radio link to the counters: a clean stream, read in any blocks of up to 180 bytes,
      padded, sent, trimmed and parsed online, yields exactly the frames that carry a message, and
      counts every message number as often as it was sent. */
  lemma EndToEnd(fs: seq<RtcmFrame>, blocks: seq<seq<byte>>)
    requires forall f <- fs :: f.Valid()
    requires forall b <- blocks :: |b| <= 180
    requires Concat(blocks) == EncodeAll(fs)
    ensures var p := Online([], TrimAll(InjectAll(blocks)));
            p.frames == Carriers(fs) && Types(p.frames) == Numbers(fs)
  {
    TrimUndoesInject(blocks);
    ChunkInvariance(blocks);
    CleanStream(fs);
    CarriersHaveNumbers(fs);
  }
}
