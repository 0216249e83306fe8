/** Safety of the tool controller over whole runs: any interleaving of commands and control
    updates, any sensor and read-back values, any starting moment of the wrapping clock. */
module ToolSafety {
  import opened Bytes
  import opened ToolSpec

  // ---- Between events ---------------------------------------------------------------

  function Outputs(s: ToolState): Relays {
    Relays(s == MovingUp, s == MovingDown)
  }

  /** What holds between any two events: each movement drives exactly its own relay and every
      other state drives none; a fault has a code; no overcurrent can have been reported. */
  predicate Sound(t: Tool) {
    && t.relays == Outputs(t.state)
    && t.current == 0.0
    && (Busy(t.state) ==> t.moveTimeout == MOVEMENT_TIMEOUT_MS)
    && (t.state == Fault ==> t.fault != NoFault)
    && t.fault != OvercurrentUp && t.fault != OvercurrentDown
  }

  lemma UpdateKeepsSound(t: Tool, begin: nat, finish: nat, r: UpdateReads)
    requires Sound(t)
    ensures Sound(Update(t, begin, finish, r))
  {
  }

  lemma StepKeepsSound(t: Tool, e: Event)
    requires Sound(t)
    ensures Sound(Step(t, e))
  {
    match e
    case Tick(begin, finish, inputs) => UpdateKeepsSound(t, begin, finish, inputs);
    case Order(span, fields, flags) =>
  }

  lemma {:induction false} RunKeepsSound(t: Tool, es: seq<Event>)
    requires Sound(t)
    ensures Sound(Run(t, es))
    decreases |es|
  {
    if es != [] {
      StepKeepsSound(t, es[0]);
      RunKeepsSound(Step(t, es[0]), es[1..]);
    }
  }

  lemma {:induction false} RunConcat(t: Tool, es: seq<Event>, fs: seq<Event>)
    ensures Run(t, es + fs) == Run(Run(t, es), fs)
    decreases |es|
  {
    if es == [] {
      assert es + fs == fs;
    } else {
      assert (es + fs)[1..] == es[1..] + fs;
      RunConcat(Step(t, es[0]), es[1..], fs);
    }
  }

  // ---- The history of the outputs ---------------------------------------------------

  datatype Phase = OffSince(time: nat) | OnSince(time: nat)

  /** What an observer of the two outputs knows: since when they are both off or not, whether they
      were ever on together, whether every energising write came at least DEAD_TIME_MS after both
      were off, and how often each was energised. */
  datatype Observer = Observer(relays: Relays, phase: Phase, exclusive: bool, rested: bool, ups: nat, downs: nat)

  predicate Rises(before: Relays, now: Relays) {
    (now.up && !before.up) || (now.down && !before.down)
  }

  /** The off phase starts no earlier than the write that began it was over, the on phase no later
      than the write that began it could happen. */
  function NextPhase(p: Phase, w: Write): Phase {
    if w.relays == BOTH_OFF
    then if p.OffSince? then p else OffSince(w.before)
    else if p.OnSince? then p else OnSince(w.after)
  }

  function Observe(o: Observer, w: Write): Observer {
    Observer(w.relays, NextPhase(o.phase, w),
             o.exclusive && !(w.relays.up && w.relays.down),
             o.rested && (Rises(o.relays, w.relays) ==> o.phase.OffSince? && o.phase.time + DEAD_TIME_MS <= w.after),
             o.ups + if w.relays.up && !o.relays.up then 1 else 0,
             o.downs + if w.relays.down && !o.relays.down then 1 else 0)
  }

  function Watch(boot: nat, trace: seq<Write>): Observer
    decreases |trace|
  {
    if trace == [] then Observer(BOTH_OFF, OffSince(boot), true, true, 0, 0)
    else Observe(Watch(boot, trace[..|trace| - 1]), trace[|trace| - 1])
  }

  function Latched(trace: seq<Write>, i: nat): Relays
    requires i <= |trace|
  {
    if i == 0 then BOTH_OFF else trace[i - 1].relays
  }

  /** What the two flags say about the single writes. */
  lemma {:induction false} FlagsMean(boot: nat, trace: seq<Write>, i: nat)
    requires i < |trace|
    ensures Watch(boot, trace).exclusive ==> !(trace[i].relays.up && trace[i].relays.down)
    ensures Watch(boot, trace).rested && Rises(Latched(trace, i), trace[i].relays)
        ==> var p := Watch(boot, trace[..i]).phase; p.OffSince? && p.time + DEAD_TIME_MS <= trace[i].after
    decreases |trace|
  {
    var n := |trace| - 1;
    if i < n {
      assert trace[..n][..i] == trace[..i];
      FlagsMean(boot, trace[..n], i);
    } else {
      RelaysAreLast(boot, trace[..n]);
    }
  }

  lemma RelaysAreLast(boot: nat, trace: seq<Write>)
    ensures Watch(boot, trace).relays == Latched(trace, |trace|)
  {
  }

  /** An off phase is what it says: from the write that began it, or from power-up, every write
      left both outputs off. */
  lemma {:induction false} OffPhaseMeans(boot: nat, trace: seq<Write>) returns (k: nat)
    requires Watch(boot, trace).phase.OffSince?
    ensures k <= |trace| && forall j :: k <= j < |trace| ==> trace[j].relays == BOTH_OFF
    ensures Watch(boot, trace).phase.time == if k == 0 then boot else trace[k - 1].before
    ensures Latched(trace, k) == BOTH_OFF
    decreases |trace|
  {
    if trace == [] {
      return 0;
    }
    var n := |trace| - 1;
    if Watch(boot, trace[..n]).phase.OffSince? {
      k := OffPhaseMeans(boot, trace[..n]);
      assert forall j :: k <= j < n ==> trace[..n][j] == trace[j];
    } else {
      k := |trace|;
    }
  }

  // ---- What one event does to the history --------------------------------------------

  /** The observer and the controller agree, and nothing bad has happened so far. */
  predicate Agrees(o: Observer, t: Tool) {
    o.relays == t.relays && o.exclusive && (o.phase.OnSince? <==> t.relays != BOTH_OFF)
  }

  function Released(o: Observer, before: nat): Observer {
    o.(relays := BOTH_OFF, phase := if o.phase.OffSince? then o.phase else OffSince(before))
  }

  function Energised(o: Observer, after: nat, r: Relays): Observer
    requires o.phase.OffSince?
  {
    o.(relays := r, phase := OnSince(after),
       rested := o.rested && o.phase.time + DEAD_TIME_MS <= after,
       ups := o.ups + if r.up then 1 else 0, downs := o.downs + if r.down then 1 else 0)
  }

  lemma PutObserved(boot: nat, t: Tool, w: Window, r: Relays)
    ensures Watch(boot, Put(t, w, r).trace) == Observe(Watch(boot, t.trace), Write(w.after, w.before, r))
  {
    assert Put(t, w, r).trace[..|t.trace|] == t.trace;
  }

  lemma ForceOffObserved(boot: nat, t: Tool, w: Window)
    requires Agrees(Watch(boot, t.trace), t)
    requires !(t.relays.up && t.relays.down)
    ensures Watch(boot, ForceOff(t, w).trace) == Released(Watch(boot, t.trace), w.before)
    ensures ForceOff(t, w).relays == BOTH_OFF && ForceOff(t, w).state == t.state
  {
    var t1 := Put(t, w, t.relays.(up := false));
    PutObserved(boot, t, w, t1.relays);
    PutObserved(boot, t1, w, BOTH_OFF);
    hide Watch;
  }

  /** An activation releases the opposing relay, energises its own, and falls back to both off when
      a read-back disagrees. */
  lemma ActivateObserved(boot: nat, t: Tool, w: Window, r: ActivationReads)
    requires Agrees(Watch(boot, t.trace), t) && t.relays == BOTH_OFF
    ensures var o, (u, ok) := Watch(boot, t.trace), ActivateUp(t, w, r);
            Activated(o, Watch(boot, u.trace), Relays(true, false), w, ok) && u.relays == Relays(ok, false)
    ensures var o, (d, ok) := Watch(boot, t.trace), ActivateDown(t, w, r);
            Activated(o, Watch(boot, d.trace), Relays(false, true), w, ok) && d.relays == Relays(false, ok)
  {
    var t1 := Put(t, w, BOTH_OFF);
    PutObserved(boot, t, w, BOTH_OFF);
    hide Watch, ForceOff;
    ForceOffObserved(boot, t1, w);
    SwitchOnObserved(boot, t1, w, Relays(true, false));
    SwitchOnObserved(boot, t1, w, Relays(false, true));
  }

  lemma SwitchOnObserved(boot: nat, t: Tool, w: Window, r: Relays)
    requires Agrees(Watch(boot, t.trace), t) && t.relays == BOTH_OFF
    requires r.up != r.down
    ensures var on := Put(t, w, r);
            Watch(boot, on.trace) == Energised(Watch(boot, t.trace), w.after, r)
            && Watch(boot, ForceOff(on, w).trace) == Released(Watch(boot, on.trace), w.before)
            && ForceOff(on, w).relays == BOTH_OFF
  {
    PutObserved(boot, t, w, r);
    ForceOffObserved(boot, Put(t, w, r), w);
  }

  predicate Activated(o: Observer, o': Observer, r: Relays, w: Window, ok: bool)
    requires o.phase.OffSince?
  {
    if ok then o' == Energised(o, w.after, r)
    else o' == o || o' == Released(Energised(o, w.after, r), w.before)
  }

  function Direction(s: ToolState): Relays {
    Relays(s == PrepareUp, s == PrepareDown)
  }

  /** Every event either leaves the outputs alone, releases them, or is a control update that ends a
      preparation by energising its relay, possibly releasing it again at once. */
  predicate Effect(o: Observer, o': Observer, t: Tool, t': Tool, e: Event)
    requires Agrees(o, t) && Sound(t)
  {
    match e
    case Order(span, _, _) =>
      || (o' == o && t' == t)
      || (o' == Released(o, span.finish) && !Busy(t'.state))
      || (o' == Released(o, span.sample) && t.state == Idle && (t'.state == PrepareUp || t'.state == PrepareDown)
          && t'.stateStart == Millis(span.sample))
    case Tick(begin, finish, _) =>
      || (o' == o && t' == t)
      || (o' == Released(o, finish) && !Busy(t'.state))
      || ((t.state == PrepareUp || t.state == PrepareDown) && Elapsed(Millis(begin), t.stateStart) >= DEAD_TIME_MS
          && var on := Energised(o, begin, Direction(t.state));
             || (o' == on && t'.moveStart == Millis(begin) && t'.state == if t.state == PrepareUp then MovingUp else MovingDown)
             || (o' == Released(on, finish) && t'.state == Fault))
  }

  lemma OrderObserved(boot: nat, t: Tool, span: Span, fields: seq<int>, flags: CommandReads)
    requires Sound(t) && Agrees(Watch(boot, t.trace), t)
    ensures var e := Order(span, fields, flags); var o' := Watch(boot, Step(t, e).trace);
            Agrees(o', Step(t, e)) && Effect(Watch(boot, t.trace), o', t, Step(t, e), e)
  {
    hide Watch, Put;
    ForceOffObserved(boot, t, span.Whole());
    ForceOffObserved(boot, t, span.BeforeSample());
  }

  lemma TickObserved(boot: nat, t: Tool, begin: nat, finish: nat, r: UpdateReads)
    requires Sound(t) && Agrees(Watch(boot, t.trace), t)
    ensures var e := Tick(begin, finish, r); var o' := Watch(boot, Step(t, e).trace);
            Agrees(o', Step(t, e)) && Effect(Watch(boot, t.trace), o', t, Step(t, e), e)
  {
    hide Watch, Put, ActivateUp, ActivateDown;
    var w := Window(begin, finish);
    ForceOffObserved(boot, t, w);
    if t.state == PrepareUp || t.state == PrepareDown {
      ActivateObserved(boot, t, w, r.activation);
      var (u, _) := ActivateUp(t, w, r.activation);
      var (d, _) := ActivateDown(t, w, r.activation);
      ForceOffObserved(boot, u, w);
      ForceOffObserved(boot, d, w);
    }
  }

  lemma StepObserved(boot: nat, t: Tool, e: Event)
    requires Sound(t) && Agrees(Watch(boot, t.trace), t)
    ensures var o' := Watch(boot, Step(t, e).trace);
            Agrees(o', Step(t, e)) && Effect(Watch(boot, t.trace), o', t, Step(t, e), e)
  {
    match e
    case Order(span, fields, flags) => OrderObserved(boot, t, span, fields, flags);
    case Tick(begin, finish, r) => TickObserved(boot, t, begin, finish, r);
  }

  lemma {:induction false} RunObserved(boot: nat, t: Tool, es: seq<Event>)
    requires Sound(t) && Agrees(Watch(boot, t.trace), t)
    ensures Sound(Run(t, es)) && Agrees(Watch(boot, Run(t, es).trace), Run(t, es))
    decreases |es|
  {
    hide Watch, Step, Agrees, Sound;
    if es != [] {
      StepKeepsSound(t, es[0]);
      StepObserved(boot, t, es[0]);
      RunObserved(boot, Step(t, es[0]), es[1..]);
    }
  }

  /** Interlock: whatever the commands, the sensors and the read-backs, no single write ever leaves
      both outputs energised, and between events an output is energised in its movement only. */
  lemma Interlock(es: seq<Event>)
    ensures var t := Run(INITIAL, es);
            && (t.relays.up <==> t.state == MovingUp) && (t.relays.down <==> t.state == MovingDown)
            && forall i :: 0 <= i < |t.trace| ==> !(t.trace[i].relays.up && t.trace[i].relays.down)
  {
    var t := Run(INITIAL, es);
    RunObserved(0, INITIAL, es);
    forall i | 0 <= i < |t.trace| ensures !(t.trace[i].relays.up && t.trace[i].relays.down) {
      FlagsMean(0, t.trace, i);
    }
  }

  // ---- Dead time ----------------------------------------------------------------------

  /** A wrapped difference is the true one modulo 2^32, so it never overstates it. */
  lemma ElapsedIsTrueTime(p: nat, b: nat)
    requires p <= b
    ensures Elapsed(Millis(b), Millis(p)) == (b - p) % WRAP
    ensures Elapsed(Millis(b), Millis(p)) <= b - p
    ensures b - p < WRAP ==> Elapsed(Millis(b), Millis(p)) == b - p
  {
  }

  predicate Preparing(s: ToolState) {
    s == PrepareUp || s == PrepareDown
  }

  /** A preparation noted the clock at some true time `sample` when both outputs were off. */
  predicate Rests(o: Observer, t: Tool, sample: nat, now: nat) {
    && o.rested
    && (o.phase.OffSince? ==> o.phase.time <= now)
    && (Preparing(t.state) ==> t.stateStart == Millis(sample) && o.phase.time <= sample <= now)
  }

  lemma StepRests(boot: nat, t: Tool, e: Event, sample: nat, now: nat) returns (sample': nat)
    requires Sound(t) && Agrees(Watch(boot, t.trace), t)
    requires Rests(Watch(boot, t.trace), t, sample, now) && now <= Begin(e) && WellTimed(e)
    ensures Rests(Watch(boot, Step(t, e).trace), Step(t, e), sample', Finish(e))
  {
    hide Watch, Step, Millis, Elapsed;
    StepObserved(boot, t, e);
    if Preparing(t.state) {
      ElapsedIsTrueTime(sample, Begin(e));
    }
    sample' := if e.Order? && !Preparing(t.state) then e.span.sample else sample;
  }

  lemma {:induction false} RunRests(boot: nat, t: Tool, es: seq<Event>, sample: nat, now: nat)
    requires Sound(t) && Agrees(Watch(boot, t.trace), t)
    requires Rests(Watch(boot, t.trace), t, sample, now) && InOrder(now, es)
    ensures Watch(boot, Run(t, es).trace).rested
    decreases |es|
  {
    hide Watch, Step, Agrees, Sound;
    if es != [] {
      StepKeepsSound(t, es[0]);
      StepObserved(boot, t, es[0]);
      var sample' := StepRests(boot, t, es[0], sample, now);
      RunRests(boot, Step(t, es[0]), es[1..], sample', Finish(es[0]));
    }
  }

  /** From some write k on, or from power-up, every write before i left both outputs off, and write
      i came at least 100 ms of true time after that began. */
  predicate RestedBefore(boot: nat, trace: seq<Write>, i: nat)
    requires i < |trace|
  {
    exists k: nat :: k <= i && Latched(trace, k) == BOTH_OFF && (forall j :: k <= j < i ==> trace[j].relays == BOTH_OFF)
      && (if k == 0 then boot else trace[k - 1].before) + 100 <= trace[i].after
  }

  /** Dead time: in every run, each write that energises an output follows at least 100 ms of
      true time with both outputs off, however often the clock has wrapped. */
  lemma DeadTime(boot: nat, es: seq<Event>, i: nat)
    requires InOrder(boot, es)
    requires i < |Run(INITIAL, es).trace|
    ensures var trace := Run(INITIAL, es).trace;
            Rises(Latched(trace, i), trace[i].relays) ==> RestedBefore(boot, trace, i)
  {
    var trace := Run(INITIAL, es).trace;
    RunRests(boot, INITIAL, es, 0, boot);
    FlagsMean(boot, trace, i);
    if Rises(Latched(trace, i), trace[i].relays) {
      var k := OffPhaseMeans(boot, trace[..i]);
      assert k == 0 || trace[..i][k - 1] == trace[k - 1];
      assert forall j :: k <= j < i ==> trace[..i][j] == trace[j];
      assert Latched(trace, k) == Latched(trace[..i], k);
    }
  }

  // ---- Bounded on-time ------------------------------------------------------------------

  /** The start of the latest control update, after one more event. */
  function Later(last: Option<nat>, e: Event): Option<nat> {
    if e.Tick? then Some(e.begin) else last
  }

  function Latest(last: Option<nat>, es: seq<Event>): Option<nat>
    decreases |es|
  {
    if es == [] then last else Latest(Later(last, es[0]), es[1..])
  }

  /** Consecutive control updates start at most `gap` apart. */
  predicate Dense(last: Option<nat>, es: seq<Event>, gap: nat)
    decreases |es|
  {
    es == [] || ((es[0].Tick? && last.Some? ==> es[0].begin <= last.value + gap)
                 && Dense(Later(last, es[0]), es[1..], gap))
  }

  /** A movement timed its own start truly, and its latest update found it younger than the timeout. */
  predicate Timed(o: Observer, t: Tool, last: Option<nat>, now: nat) {
    && (last.Some? ==> last.value <= now)
    && (o.phase.OnSince? ==> t.moveStart == Millis(o.phase.time) && last.Some?
                             && o.phase.time <= last.value < o.phase.time + MOVEMENT_TIMEOUT_MS)
  }

  lemma StepTimed(boot: nat, t: Tool, e: Event, last: Option<nat>, now: nat, gap: nat)
    requires Sound(t) && Agrees(Watch(boot, t.trace), t)
    requires Timed(Watch(boot, t.trace), t, last, now) && now <= Begin(e) && WellTimed(e)
    requires e.Tick? && last.Some? ==> e.begin <= last.value + gap
    requires MOVEMENT_TIMEOUT_MS + gap <= WRAP
    ensures Timed(Watch(boot, Step(t, e).trace), Step(t, e), Later(last, e), Finish(e))
  {
    StepObserved(boot, t, e);
    hide Watch, Millis, Elapsed;
    if t.relays != BOTH_OFF {
      ElapsedIsTrueTime(Watch(boot, t.trace).phase.time, Begin(e));
    }
  }

  lemma {:induction false} RunTimed(boot: nat, t: Tool, es: seq<Event>, last: Option<nat>, now: nat, gap: nat)
    requires Sound(t) && Agrees(Watch(boot, t.trace), t)
    requires Timed(Watch(boot, t.trace), t, last, now) && InOrder(now, es)
    requires Dense(last, es, gap) && MOVEMENT_TIMEOUT_MS + gap <= WRAP
    ensures Sound(Run(t, es)) && Agrees(Watch(boot, Run(t, es).trace), Run(t, es))
    ensures Timed(Watch(boot, Run(t, es).trace), Run(t, es), Latest(last, es), End(now, es))
    decreases |es|
  {
    hide Watch, Step, Agrees, Sound, Timed;
    if es != [] {
      StepKeepsSound(t, es[0]);
      StepObserved(boot, t, es[0]);
      StepTimed(boot, t, es[0], last, now, gap);
      RunTimed(boot, Step(t, es[0]), es[1..], Later(last, es[0]), Finish(es[0]), gap);
    }
  }

  /** When a run is over. */
  function End(now: nat, es: seq<Event>): nat {
    if es == [] then now else Finish(es[|es| - 1])
  }

  lemma {:induction false} SplitRun(now: nat, last: Option<nat>, es: seq<Event>, fs: seq<Event>, gap: nat)
    requires InOrder(now, es + fs) && Dense(last, es + fs, gap)
    ensures InOrder(now, es) && InOrder(End(now, es), fs)
    ensures Dense(last, es, gap) && Dense(Latest(last, es), fs, gap)
    decreases |es|
  {
    if es == [] {
      assert es + fs == fs;
    } else {
      assert (es + fs)[1..] == es[1..] + fs;
      SplitRun(Finish(es[0]), Later(last, es[0]), es[1..], fs, gap);
    }
  }

  /** An on phase is what it says: write k began it, and no write since has left both outputs off. */
  lemma {:induction false} OnPhaseMeans(boot: nat, trace: seq<Write>) returns (k: nat)
    requires Watch(boot, trace).phase.OnSince?
    ensures k < |trace| && Latched(trace, k) == BOTH_OFF && trace[k].after == Watch(boot, trace).phase.time
    ensures forall j :: k <= j < |trace| ==> trace[j].relays != BOTH_OFF
    decreases |trace|
  {
    var n := |trace| - 1;
    if Watch(boot, trace[..n]).phase.OnSince? {
      k := OnPhaseMeans(boot, trace[..n]);
      assert forall j :: k <= j < n ==> trace[..n][j] == trace[j];
    } else {
      k := n;
      PhaseIsRelays(boot, trace[..n]);
      RelaysAreLast(boot, trace[..n]);
    }
  }

  lemma PhaseIsRelays(boot: nat, trace: seq<Write>)
    ensures Watch(boot, trace).phase.OffSince? <==> Watch(boot, trace).relays == BOTH_OFF
  {
  }

  /** Bounded on-time: if updates start at most `gap` apart and the timeout and one gap fit the clock,
      then the write k that began a movement still under way was made less than 5000 ms before the
      latest update started, whatever commands came in between; the next update starts less than
      5000 ms + gap after it, and ends the movement once it is due. */
  lemma OnTime(boot: nat, es: seq<Event>, begin: nat, finish: nat, r: UpdateReads, gap: nat) returns (k: nat)
    requires var next := [Tick(begin, finish, r)];
             InOrder(boot, es + next) && Dense(None, es + next, gap) && 5000 + gap <= WRAP
    requires Run(INITIAL, es).relays != BOTH_OFF
    ensures var trace := Run(INITIAL, es).trace;
            && k < |trace| && Latched(trace, k) == BOTH_OFF
            && (forall j :: k <= j < |trace| ==> trace[j].relays != BOTH_OFF)
            && (var latest := Latest(None, es);
                latest.Some? && trace[k].after <= latest.value < trace[k].after + 5000)
            && begin < trace[k].after + 5000 + gap
            && (trace[k].after + 5000 <= begin
                ==> Run(INITIAL, es + [Tick(begin, finish, r)]).relays == BOTH_OFF)
  {
    var t, e := Run(INITIAL, es), Tick(begin, finish, r);
    SplitRun(boot, None, es, [e], gap);
    RunTimed(boot, INITIAL, es, None, boot, gap);
    k := OnPhaseMeans(boot, t.trace);
    RunConcat(INITIAL, es, [e]);
    assert Run(t, [e]) == Step(t, e) by {
      assert Run(Step(t, e), [e][1..]) == Step(t, e);
    }
    StepObserved(boot, t, e);
    StepTimed(boot, t, e, Latest(None, es), End(boot, es), gap);
    StepKeepsSound(t, e);
    hide Watch, Step;
  }

  const CALM := CommandReads(false, false, false, false, false, false)
  const READY := UpdateReads(false, false, false, false, ActivationReads(false, true, false), false, false, 0)
  const DRIVING := UpdateReads(true, false, false, false, ActivationReads(false, false, false), false, false, 0)

  /** UP at 0, activated at 100, then updates 4999 ms and 2^32 ms after the activation. */
  function StuckRun(): seq<Event> {
    [Order(Span(0, 0, 0), [ID, CMD_UP], CALM), Tick(100, 100, READY.(later := 100)),
     Tick(5099, 5099, DRIVING.(later := 5099)), Tick(WRAP + 100, WRAP + 100, DRIVING.(later := WRAP + 100))]
  }

  /** The bound on the gap is exact: for any larger gap, and with every pin reading what was written to
      it, the clock can wrap between two updates and hide the whole timeout. */
  lemma OnTimeNeedsTheBound(gap: nat)
    requires 5000 + gap > WRAP
    ensures InOrder(0, StuckRun()) && Dense(None, StuckRun(), gap) && Faithful(INITIAL, StuckRun())
    ensures var trace := Run(INITIAL, StuckRun()).trace;
            Run(INITIAL, StuckRun()).relays.up && |trace| == 4 && Rises(Latched(trace, 3), trace[3].relays)
            && trace[3].before + WRAP == StuckRun()[3].begin
  {
    var es := StuckRun();
    assert es[1..] == [es[1], es[2], es[3]];
    assert es[1..][1..] == [es[2], es[3]];
    assert es[1..][1..][1..] == [es[3]];
    StuckSteps();
    var t1 := Step(INITIAL, es[0]);
    var t2 := Step(t1, es[1]);
    hide Step, FaithfulReads;
    assert Run(INITIAL, es) == t2;
  }

  /** Its single steps. */
  lemma StuckSteps()
    ensures var es := StuckRun();
            var t1 := Step(INITIAL, es[0]);
            var t2 := Step(t1, es[1]);
            && FaithfulReads(INITIAL, es[0]) && FaithfulReads(t1, es[1])
            && FaithfulReads(t2, es[2]) && Step(t2, es[2]) == t2 && FaithfulReads(t2, es[3]) && Step(t2, es[3]) == t2
            && t2.relays.up && |t2.trace| == 4 && Rises(Latched(t2.trace, 3), t2.trace[3].relays) && t2.trace[3].before == 100
  {
  }

  // ---- Limit switches ---------------------------------------------------------------------

  datatype Side = Up | Down {
    function Prepared(): ToolState { if Up? then PrepareUp else PrepareDown }

    function Moving(): ToolState { if Up? then MovingUp else MovingDown }

    predicate On(r: Relays) { if Up? then r.up else r.down }

    function Activations(o: Observer): nat { if Up? then o.ups else o.downs }
  }

  /** Every sensor read of the event finds this side's limit active and the other inactive. */
  predicate AtLimit(side: Side, e: Event) {
    match e
    case Tick(_, _, r) => r.hl == r.hlLimit == side.Up? && r.ll == r.llLimit == side.Down?
    case Order(_, _, r) => r.hl == r.hlLimit == side.Up? && r.ll == r.llLimit == side.Down?
  }

  /** The activations so far, counting a preparation under way as one more. */
  function Committed(boot: nat, side: Side, t: Tool): nat {
    side.Activations(Watch(boot, t.trace)) + if t.state == side.Prepared() then 1 else 0
  }

  lemma StepAtLimit(boot: nat, side: Side, t: Tool, e: Event)
    requires Sound(t) && Agrees(Watch(boot, t.trace), t) && AtLimit(side, e)
    ensures Committed(boot, side, Step(t, e)) <= Committed(boot, side, t)
    ensures Step(t, e).state == side.Prepared() ==> t.state == side.Prepared()
    ensures Step(t, e).state == side.Moving() ==> t.state == side.Prepared() || (t.state == side.Moving() && e.Order?)
  {
    StepObserved(boot, t, e);
    hide Watch, Put, ForceOff, Millis, Elapsed;
  }

  lemma {:induction false} RunAtLimit(boot: nat, side: Side, t: Tool, es: seq<Event>)
    requires Sound(t) && Agrees(Watch(boot, t.trace), t)
    requires forall e <- es :: AtLimit(side, e)
    ensures Committed(boot, side, Run(t, es)) <= Committed(boot, side, t)
    ensures t.state != side.Prepared() && (t.state == side.Moving() ==> exists e <- es :: e.Tick?)
        ==> Run(t, es).state != side.Prepared() && !side.On(Run(t, es).relays)
    decreases |es|
  {
    if es != [] {
      hide Watch, Step, Agrees;
      StepKeepsSound(t, es[0]);
      StepObserved(boot, t, es[0]);
      StepAtLimit(boot, side, t, es[0]);
      assert forall e <- es[1..] :: e in es;
      assert forall e <- es :: e == es[0] || e in es[1..];
      RunAtLimit(boot, side, Step(t, es[0]), es[1..]);
    }
  }

  /** With one limit held active and the other inactive from some point of a run on, that side is
      activated at most once more, and only if it was being prepared. Once it moves, the next update
      switches it off for good. */
  lemma LimitHeld(boot: nat, side: Side, es: seq<Event>, fs: seq<Event>, gs: seq<Event>)
    requires forall e <- fs + gs :: AtLimit(side, e)
    ensures var t, u := Run(INITIAL, es), Run(INITIAL, es + fs);
            side.Activations(Watch(boot, u.trace))
              <= side.Activations(Watch(boot, t.trace)) + if t.state == side.Prepared() then 1 else 0
    ensures var u, v := Run(INITIAL, es + fs), Run(INITIAL, es + fs + gs);
            u.state == side.Moving() && (exists e <- gs :: e.Tick?) ==>
              !side.On(v.relays) && side.Activations(Watch(boot, v.trace)) <= side.Activations(Watch(boot, u.trace))
  {
    hide Watch, Agrees, Sound, AtLimit;
    var t, u := Run(INITIAL, es), Run(INITIAL, es + fs);
    assert Sound(INITIAL) && Agrees(Watch(boot, INITIAL.trace), INITIAL) by {
      StartsSound(boot);
    }
    RunObserved(boot, INITIAL, es);
    RunObserved(boot, INITIAL, es + fs);
    RunConcat(INITIAL, es, fs);
    RunConcat(INITIAL, es + fs, gs);
    assert forall e <- fs :: e in fs + gs;
    assert forall e <- gs :: e in fs + gs;
    RunAtLimit(boot, side, t, fs);
    RunAtLimit(boot, side, u, gs);
  }

  lemma StartsSound(boot: nat)
    ensures Sound(INITIAL) && Agrees(Watch(boot, INITIAL.trace), INITIAL)
  {
  }

  // ---- Faults -------------------------------------------------------------------------------

  /** The event is this command, addressed to this tool. */
  predicate Commands(e: Event, command: int) {
    e.Order? && Code(e.fields) == Some(command)
  }

  /** FAULT is left exactly by STOP and RESET_FAULT, a fault code exactly by RESET_FAULT. */
  lemma StepFromFault(t: Tool, e: Event)
    ensures t.state == Fault ==> (Step(t, e).state != Fault <==> Commands(e, CMD_STOP) || Commands(e, CMD_RESET_FAULT))
    ensures t.fault != NoFault ==> (Step(t, e).fault == NoFault <==> Commands(e, CMD_RESET_FAULT))
  {
    hide Millis, Elapsed;
  }

  lemma {:induction false} FaultLatched(t: Tool, es: seq<Event>)
    requires forall e <- es :: !Commands(e, CMD_RESET_FAULT)
    ensures t.fault != NoFault ==> Run(t, es).fault != NoFault
    ensures t.state == Fault && (forall e <- es :: !Commands(e, CMD_STOP)) ==> Run(t, es).state == Fault
    decreases |es|
  {
    if es != [] {
      StepFromFault(t, es[0]);
      assert forall e <- es[1..] :: e in es;
      FaultLatched(Step(t, es[0]), es[1..]);
      hide Step;
    }
  }

  /** The code and the state tell the same story. */
  predicate Coupled(t: Tool) {
    t.fault != NoFault <==> t.state == Fault
  }

  /** STOP while in FAULT is the one event that separates them. */
  lemma CoupledUnlessStopped(t: Tool, e: Event)
    requires Sound(t) && Coupled(t)
    ensures Coupled(Step(t, e)) <==> !(t.state == Fault && Commands(e, CMD_STOP))
  {
    hide Millis, Elapsed;
  }

  /** No event of the run is a STOP that finds the tool in FAULT. */
  predicate NeverStoppedInFault(t: Tool, es: seq<Event>)
    decreases |es|
  {
    es == [] || (!(t.state == Fault && Commands(es[0], CMD_STOP)) && NeverStoppedInFault(Step(t, es[0]), es[1..]))
  }

  lemma {:induction false} RunCoupled(t: Tool, es: seq<Event>)
    requires Sound(t) && Coupled(t) && NeverStoppedInFault(t, es)
    ensures Coupled(Run(t, es))
    decreases |es|
  {
    hide Sound, Coupled, Step;
    if es != [] {
      StepKeepsSound(t, es[0]);
      CoupledUnlessStopped(t, es[0]);
      RunCoupled(Step(t, es[0]), es[1..]);
    }
  }

  /** Along a run, code and state stay coupled throughout exactly if no STOP ever finds the tool in
      FAULT. */
  lemma {:induction false} CoupledThroughoutIff(t: Tool, es: seq<Event>)
    requires Sound(t) && Coupled(t)
    ensures NeverStoppedInFault(t, es) <==> forall n :: 0 <= n <= |es| ==> Coupled(Run(t, es[..n]))
    decreases |es|
  {
    hide Sound, Coupled, Step;
    if es != [] {
      var t', rest := Step(t, es[0]), es[1..];
      StepKeepsSound(t, es[0]);
      CoupledUnlessStopped(t, es[0]);
      assert forall n :: 0 < n <= |es| ==> Run(t, es[..n]) == Run(t', rest[..n - 1]) by {
        assert forall n :: 0 < n <= |es| ==> es[..n][0] == es[0] && es[..n][1..] == rest[..n - 1];
      }
      assert es[..1] == [es[0]] && Run(t, es[..1]) == Run(t', rest[..0]) == t';
      if Coupled(t') {
        CoupledThroughoutIff(t', rest);
        assert forall n :: 0 <= n <= |rest| ==> Run(t', rest[..n]) == Run(t, es[..n + 1]);
      }
    }
  }

  /** Over all runs: FAULT always has a code and both outputs off, overcurrent is never reported,
      and without a STOP in FAULT a code means FAULT. */
  lemma FaultsOfRuns(es: seq<Event>)
    ensures var t := Run(INITIAL, es);
            && (t.state == Fault ==> t.fault != NoFault && t.relays == BOTH_OFF)
            && t.fault != OvercurrentUp && t.fault != OvercurrentDown
            && (NeverStoppedInFault(INITIAL, es) ==> (t.fault != NoFault <==> t.state == Fault))
  {
    RunKeepsSound(INITIAL, es);
    if NeverStoppedInFault(INITIAL, es) {
      RunCoupled(INITIAL, es);
    }
  }

  /** STOP in FAULT: the tool is idle and accepts movements again, but whatever follows short of
      RESET_FAULT, its status keeps a stale code that no longer says FAULT. */
  lemma StopLeavesStaleCode(es: seq<Event>, stop: Event, fs: seq<Event>, r: CommandReads, s: Span)
    requires Run(INITIAL, es).state == Fault && Commands(stop, CMD_STOP)
    requires forall e <- fs :: !Commands(e, CMD_RESET_FAULT)
    ensures Run(INITIAL, es + [stop] + fs).fault != NoFault
    ensures var t := Run(INITIAL, es + [stop]);
            && t.state == Idle
            && (forall hl, ll :: Public(t.state, hl, ll) != StatusFault)
            && (!(r.hl && r.ll) && !r.hlLimit ==> StartUp(t, s, r).1 == Ok && StartUp(t, s, r).0.state == PrepareUp)
  {
    var t := Run(INITIAL, es);
    RunKeepsSound(INITIAL, es);
    RunConcat(INITIAL, es, [stop]);
    RunConcat(INITIAL, es + [stop], fs);
    assert Run(t, [stop]) == Step(t, stop) by {
      assert Run(Step(t, stop), [stop][1..]) == Step(t, stop);
    }
    FaultLatched(Step(t, stop), fs);
    hide Put, Run;
  }

  /** Such a run: both sensors are active at the first update, and STOP follows. */
  lemma StaleCodeWitness()
    ensures var es := [Tick(0, 0, READY.(hl := true, ll := true, activation := DRIVING.activation))];
            var stop := Order(Span(1, 1, 1), [ID, CMD_STOP], CALM);
            && InOrder(0, es + [stop]) && Faithful(INITIAL, es + [stop]) && Commands(stop, CMD_STOP)
            && Run(INITIAL, es).state == Fault && Run(INITIAL, es + [stop]).state == Idle
            && Run(INITIAL, es + [stop]).fault == SensorConflict
  {
    var tick := Tick(0, 0, READY.(hl := true, ll := true, activation := DRIVING.activation));
    var stop := Order(Span(1, 1, 1), [ID, CMD_STOP], CALM);
    assert [tick] + [stop] == [tick, stop] && [tick, stop][1..] == [stop] && [stop][1..] == [] && [tick][1..] == [];
    var t := Step(INITIAL, tick);
    assert Run(t, [stop]) == Step(t, stop);
    assert Run(INITIAL, [tick, stop]) == Run(t, [stop]);
  }

  // ---- Read-back ------------------------------------------------------------------------------

  /** The pins answer what was last written to them. */
  predicate FaithfulReads(t: Tool, e: Event) {
    e.Tick? ==> e.inputs.upPin == t.relays.up && e.inputs.downPin == t.relays.down
                && e.inputs.activation == ActivationReads(false, t.state == PrepareUp, t.state == PrepareDown)
  }

  predicate Faithful(t: Tool, es: seq<Event>)
    decreases |es|
  {
    es == [] || (FaithfulReads(t, es[0]) && Faithful(Step(t, es[0]), es[1..]))
  }

  lemma StepFaithful(t: Tool, e: Event)
    requires Sound(t) && FaithfulReads(t, e)
    ensures Step(t, e).fault == RelayConflict ==> t.fault == RelayConflict
  {
    hide Millis, Elapsed;
  }

  /** A relay conflict is only ever reported when some read-back differs from what was written. */
  lemma {:induction false} NoRelayConflict(t: Tool, es: seq<Event>)
    requires Sound(t) && t.fault != RelayConflict && Faithful(t, es)
    ensures Run(t, es).fault != RelayConflict
    decreases |es|
  {
    hide Sound, Step, FaithfulReads;
    if es != [] {
      StepKeepsSound(t, es[0]);
      StepFaithful(t, es[0]);
      NoRelayConflict(Step(t, es[0]), es[1..]);
    }
  }

  /** With faithful read-backs and no sensor conflict a preparation noted at `sample` becomes a
      movement exactly if the wrapped time since then is at least 100 ms, and else just waits:
      an update that comes late by a multiple of 2^32 ms does not count. */
  lemma MovementStartsIff(t: Tool, sample: nat, begin: nat, finish: nat, r: UpdateReads)
    requires Sound(t) && Preparing(t.state) && t.stateStart == Millis(sample) && sample <= begin
    requires FaithfulReads(t, Tick(begin, finish, r)) && !(r.hl && r.ll)
    ensures var t' := Update(t, begin, finish, r);
            if (begin - sample) % WRAP >= 100
            then t'.relays == Direction(t.state) && t'.moveStart == Millis(begin)
            else t' == t
  {
    ElapsedIsTrueTime(sample, begin);
    hide Millis, Elapsed;
  }

  // ---- Status reports ---------------------------------------------------------------------------

  /** In every run a status request, code 4, changes nothing, and the report says where the tool is: each
      status stands for exactly the states and sensors it names, outputs included; fault code and
      sensors are reported as they are. */
  lemma StatusTellsTheTruth(es: seq<Event>, s: Span, fields: seq<int>, r: CommandReads)
    requires |fields| >= 2 && fields[0] == 1 && fields[1] == 4
    ensures var t := Run(INITIAL, es);
            var (t', report) := Process(t, s, fields, r);
            var conflict := r.hl && r.ll;
            && t' == t && report.Status? && report.fault == t.fault && report.current == 0.0
            && report.hl == r.hlReport && report.ll == r.llReport
            && (report.status == StatusFault <==> t.state == Fault)
            && (report.status == StatusUnknown <==> t.state != Fault && conflict)
            && (report.status == StatusMovingUp <==> !conflict && (t.state == PrepareUp || t.relays.up))
            && (report.status == StatusMovingDown <==> !conflict && (t.state == PrepareDown || t.relays.down))
            && (report.status == AtTop <==> t.state == Idle && r.hl && !r.ll)
            && (report.status == AtBottom <==> t.state == Idle && !r.hl && r.ll)
            && (report.status == StoppedBetween <==> t.state == Idle && !r.hl && !r.ll)
            && (t.state == Idle || t.state == Fault ==> t.relays == BOTH_OFF)
  {
    RunKeepsSound(INITIAL, es);
    hide Run;
  }
}
