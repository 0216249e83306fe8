/** What the deframers return for a stream, read off the runs of bytes between its delimiters, and
    what that means for HilSerial::readFrame, which uses delimiters up in pairs. */
module Segments {
  import opened Bytes
  import opened HilCodec
  import opened Receivers
  import opened Deframers
  import FrameClass

  // ---- Streams as runs --------------------------------------------------------------

  /** A stream cut at its delimiters: a run of other bytes, and what follows the next delimiter. */
  datatype Runs = Last(run: seq<byte>) | More(run: seq<byte>, rest: Runs)

  function Cut(s: seq<byte>): Runs {
    if s == [] then Last([])
    else if s[0] == DELIMITER then More([], Cut(s[1..]))
    else var c := Cut(s[1..]); c.(run := [s[0]] + c.run)
  }

  function Glue(c: Runs): seq<byte> {
    match c
    case Last(x) => x
    case More(x, d) => x + [DELIMITER] + Glue(d)
  }

  function Delimiters(s: seq<byte>): nat {
    multiset(s)[DELIMITER]
  }

  function Cuts(c: Runs): nat {
    match c
    case Last(_) => 0
    case More(_, d) => 1 + Cuts(d)
  }

  ghost predicate Plain(c: Runs) {
    DelimiterFree(DEFAULT_MARKS, c.run) && (c.More? ==> Plain(c.rest))
  }

  /** The runs are delimiter-free and make up the stream. */
  lemma {:induction false} CutMeans(s: seq<byte>)
    ensures Glue(Cut(s)) == s && Plain(Cut(s))
    decreases |s|
  {
    if s != [] {
      CutMeans(s[1..]);
      assert s == [s[0]] + s[1..];
      if s[0] != DELIMITER {
        GlueLonger([s[0]], Cut(s[1..]));
      }
    }
  }

  /** Every delimiter of the stream cuts it once. */
  lemma {:induction false} CutCounts(s: seq<byte>)
    ensures Cuts(Cut(s)) == Delimiters(s)
    decreases |s|
  {
    if s != [] {
      CutCounts(s[1..]);
      assert s == [s[0]] + s[1..];
      assert multiset(s) == multiset{s[0]} + multiset(s[1..]);
    }
  }

  lemma GlueLonger(x: seq<byte>, c: Runs)
    ensures Glue(c.(run := x + c.run)) == x + Glue(c)
  {
    if c.More? {
      AppendAssociates(x, c.run, [DELIMITER]);
      AppendAssociates(x, c.run + [DELIMITER], Glue(c.rest));
    }
  }

  lemma {:induction false} CutBehindPlain(x: seq<byte>, t: seq<byte>)
    requires DelimiterFree(DEFAULT_MARKS, x)
    ensures Cut(x + t) == Cut(t).(run := x + Cut(t).run)
    decreases |x|
  {
    if x == [] {
      assert x + t == t && x + Cut(t).run == Cut(t).run;
    } else {
      assert x[0] != DELIMITER;
      assert (x + t)[1..] == x[1..] + t;
      CutBehindPlain(x[1..], t);
      assert x + Cut(t).run == [x[0]] + (x[1..] + Cut(t).run);
    }
  }

  // ---- What a deframer returns -----------------------------------------------------

  /** A run that a reader passes over, so that the delimiter behind it opens the next frame. */
  predicate PassedOver(k: Receiver, x: seq<byte>)
    requires Default(k)
  {
    (k.skipEmpty && x == []) || !Fits(k, |x|)
  }

  /** The first run is noise. A run between two delimiters is returned, and both are used up; or it
      is passed over, and the second one opens the next frame. */
  function Frames(k: Receiver, c: Runs): seq<seq<byte>>
    requires Default(k)
  {
    if c.Last? || c.rest.Last? then []
    else if PassedOver(k, c.rest.run) then Frames(k, c.rest)
    else [c.rest.run] + Frames(k, c.rest.rest)
  }

  function Leftover(k: Receiver, c: Runs): State
    requires Default(k)
  {
    if c.Last? then Hunting
    else if c.rest.Last? then if Fits(k, |c.rest.run|) then InFrame(false, c.rest.run) else Hunting
    else if PassedOver(k, c.rest.run) then Leftover(k, c.rest)
    else Leftover(k, c.rest.rest)
  }

  /** What a reader in state st has to deal with: inside a frame, as if a delimiter and the bytes
      kept so far came first. */
  function Ahead(st: State, c: Runs): Runs {
    match st
    case Hunting => c
    case InFrame(_, acc) => More([], c.(run := acc + c.run))
  }

  lemma StepAhead(k: Receiver, st: State, b: byte, c: Runs)
    requires Default(k) && (st.InFrame? ==> !st.escaped && Fits(k, |st.acc|))
    ensures var (next, o) := DeframerStep(k, st, b);
            var before := Ahead(st, if b == DELIMITER then More([], c) else c.(run := [b] + c.run));
            && Leftover(k, before) == Leftover(k, Ahead(next, c))
            && Frames(k, before) == Emitted(o) + Frames(k, Ahead(next, c))
  {
    assert [] + c.run == c.run;
    if st.InFrame? {
      assert st.acc + [] == st.acc;
      AppendAssociates(st.acc, [b], c.run);
    }
  }

  lemma {:induction false} FeedReadsRuns(k: Receiver, st: State, s: seq<byte>)
    requires Default(k) && (st.InFrame? ==> !st.escaped && Fits(k, |st.acc|))
    ensures var c := Ahead(st, Cut(s)); Feed(k, st, s) == Fed(Leftover(k, c), Frames(k, c))
    decreases |s|
  {
    if s == [] {
      assert st.InFrame? ==> st.acc + [] == st.acc;
    } else {
      FeedReadsRuns(k, DeframerStep(k, st, s[0]).0, s[1..]);
      StepAhead(k, st, s[0], Cut(s[1..]));
      hide Frames, Leftover, Ahead;
    }
  }

  /** For every deframer and every stream, the frames it returns are those of the runs. */
  lemma SessionReadsRuns(k: Receiver, s: seq<byte>)
    requires Default(k)
    ensures Session(k, s) == Frames(k, Cut(s))
  {
    SessionIsFeed(k, s);
    FeedReadsRuns(k, Hunting, s);
  }

  // ---- HilSerial::readFrame -----------------------------------------------------------

  const BLOCKING := Blocking(DEFAULT_MARKS)

  function LastRun(c: Runs): seq<byte> {
    if c.Last? then c.run else LastRun(c.rest)
  }

  /** It passes over nothing, so an even number of delimiters leaves it outside a frame and an odd
      number inside. */
  lemma {:induction false} LeftoverByParity(c: Runs)
    ensures Leftover(BLOCKING, c) == if Cuts(c) % 2 == 0 then Hunting else InFrame(false, LastRun(c))
  {
    if c.More? && c.rest.More? {
      LeftoverByParity(c.rest.rest);
    }
  }

  lemma {:induction false} Aligned(ps: seq<seq<byte>>)
    ensures Feed(BLOCKING, Hunting, EncodeAll(ps)) == Fed(Hunting, Bodies(BLOCKING, ps))
  {
    if ps != [] {
      FeedEncoded(BLOCKING, Hunting, ps[0]);
      Aligned(ps[1..]);
      FeedConcat(BLOCKING, Hunting, Encode(ps[0]), EncodeAll(ps[1..]));
    }
  }

  function EmptyFrames(n: nat): (r: seq<seq<byte>>)
    ensures |r| == n
  {
    if n == 0 then [] else [[]] + EmptyFrames(n - 1)
  }

  /** What a shifted reader returns for n frames: first what it held, then nothing but empty frames. */
  function Shifted(acc: seq<byte>, n: nat): seq<seq<byte>> {
    if n == 0 then [] else [acc] + EmptyFrames(n - 1)
  }

  /** Once inside a frame where the sender is outside, the reader stays so. */
  lemma {:induction false} StaysShifted(acc: seq<byte>, ps: seq<seq<byte>>)
    ensures Feed(BLOCKING, InFrame(false, acc), EncodeAll(ps)).out == Shifted(acc, |ps|)
    decreases |ps|
  {
    if ps != [] {
      FeedEncoded(BLOCKING, InFrame(false, acc), ps[0]);
      StaysShifted([], ps[1..]);
      FeedConcat(BLOCKING, InFrame(false, acc), Encode(ps[0]), EncodeAll(ps[1..]));
      hide Feed, Encode;
      assert Shifted([], |ps| - 1) == EmptyFrames(|ps| - 1);
    }
  }

  /** Frames behind arbitrary bytes w: readFrame returns all of them if w holds an even number of
      delimiters, and none of them, however many there are, if that number is odd. */
  lemma DeliversByParity(w: seq<byte>, ps: seq<seq<byte>>)
    ensures Session(BLOCKING, w + EncodeAll(ps))
            == Frames(BLOCKING, Cut(w))
               + if Delimiters(w) % 2 == 0 then Bodies(BLOCKING, ps) else Shifted(LastRun(Cut(w)), |ps|)
  {
    SessionIsFeed(BLOCKING, w + EncodeAll(ps));
    FeedConcat(BLOCKING, Hunting, w, EncodeAll(ps));
    FeedReadsRuns(BLOCKING, Hunting, w);
    LeftoverByParity(Cut(w));
    CutCounts(w);
    Aligned(ps);
    StaysShifted(LastRun(Cut(w)), ps);
  }

  /** All frames behind w are recovered exactly if w holds an even number of delimiters; an odd
      number looks right only where there is no frame, or one with the very body that w ends in. */
  lemma DeliversIffEven(w: seq<byte>, ps: seq<seq<byte>>)
    ensures Session(BLOCKING, w + EncodeAll(ps)) == Frames(BLOCKING, Cut(w)) + Bodies(BLOCKING, ps)
            <==> Delimiters(w) % 2 == 0 || ps == []
                 || (ps[1..] == [] && LastRun(Cut(w)) == Body(DEFAULT_MARKS, ps[0]))
  {
    DeliversByParity(w, ps);
    ShiftedIsRight(LastRun(Cut(w)), ps);
    hide Session, Frames, Cut, Bodies, Shifted, LastRun;
    var before := Frames(BLOCKING, Cut(w));
    if Session(BLOCKING, w + EncodeAll(ps)) == before + Bodies(BLOCKING, ps) && Delimiters(w) % 2 != 0 {
      CancelPrefix(before, Shifted(LastRun(Cut(w)), |ps|), Bodies(BLOCKING, ps));
    }
  }

  lemma CancelPrefix<T>(a: seq<T>, x: seq<T>, y: seq<T>)
    requires a + x == a + y
    ensures x == y
  {
    assert x == (a + x)[|a|..];
  }

  lemma ShiftedIsRight(held: seq<byte>, ps: seq<seq<byte>>)
    ensures Shifted(held, |ps|) == Bodies(BLOCKING, ps)
            <==> ps == [] || (ps[1..] == [] && held == Body(DEFAULT_MARKS, ps[0]))
  {
    hide Body;
    if |ps| >= 2 {
      BodyIsPlain(ps[1]);
      assert Bodies(BLOCKING, ps) == [Body(DEFAULT_MARKS, ps[0])] + Bodies(BLOCKING, ps[1..]);
      assert Bodies(BLOCKING, ps)[1] == Body(DEFAULT_MARKS, ps[1]);
      assert Shifted(held, |ps|)[1] == [];
    } else if |ps| == 1 {
      assert Bodies(BLOCKING, ps) == [Body(DEFAULT_MARKS, ps[0])];
      assert Shifted(held, 1) == [held];
    }
  }

  /** A reader that starts inside a frame sees the tail of that frame and then n whole ones: one
      delimiter in front of them. The timed reader returns exactly the n, the blocking one n empty
      frames, which unbuild refuses. One more stray delimiter, and the blocking one recovers. */
  lemma MidFrameStart(tail: seq<byte>, ps: seq<seq<byte>>)
    requires DelimiterFree(DEFAULT_MARKS, tail)
    ensures Session(Timed(DEFAULT_MARKS), tail + [DELIMITER] + EncodeAll(ps)) == Bodies(Timed(DEFAULT_MARKS), ps)
    ensures Session(BLOCKING, tail + [DELIMITER] + EncodeAll(ps)) == EmptyFrames(|ps|)
    ensures Session(BLOCKING, tail + [DELIMITER, DELIMITER] + EncodeAll(ps)) == [[]] + Bodies(BLOCKING, ps)
    ensures FrameClass.Decode(DEFAULT_MARKS, [DELIMITER] + [] + [DELIMITER]) == None
  {
    TimedBehindTail(tail, ps);
    BlockingBehindTail(tail, ps);
    hide Session, Bodies, EncodeAll;
  }

  /** The runs of an interrupted frame's tail and one or two delimiters. */
  lemma CutTail(tail: seq<byte>)
    requires DelimiterFree(DEFAULT_MARKS, tail)
    ensures Cut(tail + [DELIMITER]) == More(tail, Last([])) && Delimiters(tail + [DELIMITER]) == 1
    ensures Cut(tail + [DELIMITER, DELIMITER]) == More(tail, More([], Last([])))
    ensures Delimiters(tail + [DELIMITER, DELIMITER]) == 2
  {
    assert tail + [] == tail;
    assert [DELIMITER][1..] == [] && [DELIMITER, DELIMITER][1..] == [DELIMITER];
    assert Cut([DELIMITER]) == More([], Last([]));
    CutBehindPlain(tail, [DELIMITER]);
    CutBehindPlain(tail, [DELIMITER, DELIMITER]);
    CutCounts(tail + [DELIMITER]);
    CutCounts(tail + [DELIMITER, DELIMITER]);
  }

  lemma TimedBehindTail(tail: seq<byte>, ps: seq<seq<byte>>)
    requires DelimiterFree(DEFAULT_MARKS, tail)
    ensures Session(Timed(DEFAULT_MARKS), tail + [DELIMITER] + EncodeAll(ps)) == Bodies(Timed(DEFAULT_MARKS), ps)
  {
    var k, w := Timed(DEFAULT_MARKS), tail + [DELIMITER];
    SessionIsFeed(k, w + EncodeAll(ps));
    FeedConcat(k, Hunting, w, EncodeAll(ps));
    FeedReadsRuns(k, Hunting, w);
    CutTail(tail);
    FeedFrames(k, OPENED, ps);
  }

  lemma FramesOfTail(tail: seq<byte>)
    ensures Frames(BLOCKING, More(tail, Last([]))) == []
    ensures Frames(BLOCKING, More(tail, More([], Last([])))) == [[]]
  {
  }

  lemma ShiftedFromNothing(n: nat)
    ensures [] + Shifted([], n) == EmptyFrames(n)
  {
  }

  lemma BlockingBehindTail(tail: seq<byte>, ps: seq<seq<byte>>)
    requires DelimiterFree(DEFAULT_MARKS, tail)
    ensures Session(BLOCKING, tail + [DELIMITER] + EncodeAll(ps)) == EmptyFrames(|ps|)
    ensures Session(BLOCKING, tail + [DELIMITER, DELIMITER] + EncodeAll(ps)) == [[]] + Bodies(BLOCKING, ps)
  {
    hide *;
    CutTail(tail);
    FramesOfTail(tail);
    DeliversByParity(tail + [DELIMITER], ps);
    DeliversByParity(tail + [DELIMITER, DELIMITER], ps);
    assert LastRun(More(tail, Last([]))) == [] by {
      LastRunOfTail(tail);
    }
    ShiftedFromNothing(|ps|);
  }

  lemma LastRunOfTail(tail: seq<byte>)
    ensures LastRun(More(tail, Last([]))) == []
  {
  }
}
