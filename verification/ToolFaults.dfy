/** What the fault code of the tool says: which update or command found what. */
module ToolFaults {
  import opened Bytes
  import opened ToolSpec
  import opened ToolSafety
  import opened ToolCommands

  function TimeoutOf(side: Side): FaultCode {
    if side.Up? then TimeoutUp else TimeoutDown
  }

  /** Neither both output pins nor both sensors read active. */
  predicate Undisturbed(r: UpdateReads) {
    !(r.upPin && r.downPin) && !(r.hl && r.ll)
  }

  /** An update finds a movement 5000 ms old by its clock, and the limit not reached. */
  predicate FindsTimeout(t: Tool, e: Event, side: Side) {
    e.Tick? && Undisturbed(e.inputs) && t.state == side.Moving()
    && !(if side.Up? then e.inputs.hlLimit else e.inputs.llLimit)
    && Elapsed(Millis(e.begin), t.moveStart) >= 5000
  }

  /** The event finds what this code stands for: an update both output pins active, or at the end of a
      preparation a pin that contradicts the activation; an update, or a movement command outside
      FAULT, both sensors active; an update a movement that takes too long. */
  predicate Finds(t: Tool, e: Event, code: FaultCode) {
    match code
    case RelayConflict =>
      e.Tick? && var r := e.inputs;
      (r.upPin && r.downPin)
      || (Undisturbed(r) && Preparing(t.state) && Elapsed(Millis(e.begin), t.stateStart) >= 100
          && (r.activation.opposing || (r.activation.up && r.activation.down)))
    case SensorConflict =>
      if e.Tick? then !(e.inputs.upPin && e.inputs.downPin) && e.inputs.hl && e.inputs.ll
      else (Carries(e, 1) || Carries(e, 2)) && t.state != Fault && e.flags.hl && e.flags.ll
    case TimeoutUp => FindsTimeout(t, e, Up)
    case TimeoutDown => FindsTimeout(t, e, Down)
    case _ => false
  }

  /** The event finds nothing wrong. */
  ghost predicate FindsNothing(t: Tool, e: Event) {
    forall code :: !Finds(t, e, code)
  }

  lemma UpdateFinds(t: Tool, begin: nat, finish: nat, r: UpdateReads)
    requires Sound(t)
    ensures var e := Tick(begin, finish, r); var t' := Update(t, begin, finish, r);
            && (forall code :: Finds(t, e, code) ==> t'.state == Fault && t'.fault == code)
            && (FindsNothing(t, e) ==> t'.fault == t.fault && (t'.state == Fault ==> t.state == Fault))
  {
    hide Millis, Elapsed;
    var e := Tick(begin, finish, r);
    assert Finds(t, e, RelayConflict) || !Finds(t, e, RelayConflict);
    assert Finds(t, e, SensorConflict) || !Finds(t, e, SensorConflict);
    assert Finds(t, e, TimeoutUp) || !Finds(t, e, TimeoutUp);
    assert Finds(t, e, TimeoutDown) || !Finds(t, e, TimeoutDown);
  }

  /** Whatever is found becomes FAULT with its own code; nothing else does, and only RESET_FAULT clears
      a code. */
  lemma StepFinds(t: Tool, e: Event)
    requires Sound(t)
    ensures forall code :: Finds(t, e, code) ==> Step(t, e).state == Fault && Step(t, e).fault == code
    ensures FindsNothing(t, e) ==>
              && (Step(t, e).state == Fault ==> t.state == Fault)
              && Step(t, e).fault == if Carries(e, 3) then NoFault else t.fault
  {
    match e
    case Tick(begin, finish, r) => UpdateFinds(t, begin, finish, r);
    case Order(span, fields, flags) =>
      hide Millis, Elapsed;
      assert Finds(t, e, SensorConflict) || !Finds(t, e, SensorConflict);
  }

  /** In every run the fault code shown is that of the latest thing found, by event i, and no RESET_FAULT
      came since. */
  lemma {:induction false} CodeTells(es: seq<Event>) returns (i: nat)
    requires Run(INITIAL, es).fault != NoFault
    ensures i < |es| && Finds(Run(INITIAL, es[..i]), es[i], Run(INITIAL, es).fault)
    ensures forall k :: i < k < |es| ==> !Carries(es[k], 3) && FindsNothing(Run(INITIAL, es[..k]), es[k])
    decreases |es|
  {
    hide Step, Finds, FindsNothing, Carries, Sound;
    var n := |es| - 1;
    var before, e := es[..n], es[n];
    assert es[..|es|] == es == before + [e];
    var t := Run(INITIAL, before);
    RunSnoc(INITIAL, before, e);
    assert Sound(INITIAL) by {
      StartsSound(0);
    }
    RunKeepsSound(INITIAL, before);
    StepFinds(t, e);
    if FindsNothing(t, e) {
      i := CodeTells(before);
      assert forall k :: 0 <= k <= n ==> before[..k] == es[..k];
    } else {
      SomethingFound(t, e);
      i := n;
    }
  }

  lemma SomethingFound(t: Tool, e: Event)
    requires Sound(t) && !FindsNothing(t, e)
    ensures Finds(t, e, Step(t, e).fault)
  {
    StepFinds(t, e);
    hide Finds, Step;
  }

  /** With a measured current the movement would stop at more than 1.5 A, 50 ms or more after it began, and
      name its own direction. */
  lemma OvercurrentWouldStop(t: Tool, e: Event, side: Side)
    requires e.Tick? && Undisturbed(e.inputs) && t.state == side.Moving()
    requires !(if side.Up? then e.inputs.hlLimit else e.inputs.llLimit)
    requires Elapsed(Millis(e.begin), t.moveStart) < t.moveTimeout
    ensures var t' := Step(t, e);
            if Elapsed(Millis(e.inputs.later), t.moveStart) >= 50 && t.current > 1.5
            then t'.state == Fault && t'.relays == BOTH_OFF && t'.fault == if side.Up? then OvercurrentUp else OvercurrentDown
            else t' == t
  {
    hide Millis, Elapsed;
  }

  // ---- A timeout is never early -----------------------------------------------------------

  /** A movement noted the clock when its output was driven, at a true time not later than now. */
  predicate Clocked(o: Observer, t: Tool, now: nat) {
    o.phase.OnSince? ==> t.moveStart == Millis(o.phase.time) && o.phase.time <= now
  }

  lemma StepClocked(t: Tool, e: Event, now: nat)
    requires Sound(t) && Agrees(Watch(0, t.trace), t)
    requires Clocked(Watch(0, t.trace), t, now) && now <= Begin(e) && WellTimed(e)
    ensures Clocked(Watch(0, Step(t, e).trace), Step(t, e), Finish(e))
  {
    hide Watch, Step, Millis, Elapsed;
    StepObserved(0, t, e);
  }

  lemma {:induction false} RunClocked(t: Tool, es: seq<Event>, now: nat)
    requires Sound(t) && Agrees(Watch(0, t.trace), t)
    requires Clocked(Watch(0, t.trace), t, now) && InOrder(now, es)
    ensures Clocked(Watch(0, Run(t, es).trace), Run(t, es), End(now, es))
    decreases |es|
  {
    hide Watch, Step, Agrees, Sound, Clocked;
    if es != [] {
      StepKeepsSound(t, es[0]);
      StepObserved(0, t, es[0]);
      StepClocked(t, es[0], now);
      RunClocked(Step(t, es[0]), es[1..], Finish(es[0]));
    }
  }

  lemma {:induction false} InOrderSplits(now: nat, es: seq<Event>, e: Event)
    requires InOrder(now, es + [e])
    ensures InOrder(now, es) && End(now, es) <= Begin(e) && WellTimed(e)
    decreases |es|
  {
    if es != [] {
      assert (es + [e])[1..] == es[1..] + [e];
      InOrderSplits(Finish(es[0]), es[1..], e);
    }
  }

  /** However often the clock has wrapped, a timeout is only found once its output has been driven, and
      no other, for at least 5000 ms of true time: write k drove it, and no write since has left both
      outputs off. */
  lemma TimeoutIsTrue(boot: nat, es: seq<Event>, e: Event, side: Side) returns (k: nat)
    requires InOrder(boot, es + [e]) && FindsTimeout(Run(INITIAL, es), e, side)
    ensures var t := Run(INITIAL, es);
            && t.relays == Relays(side.Up?, side.Down?) && k < |t.trace| && Latched(t.trace, k) == BOTH_OFF
            && (forall j :: k <= j < |t.trace| ==> t.trace[j].relays != BOTH_OFF)
            && t.trace[k].after + 5000 <= e.begin
  {
    var t := Run(INITIAL, es);
    StartsSound(0);
    InOrderSplits(boot, es, e);
    RunObserved(0, INITIAL, es);
    RunClocked(INITIAL, es, boot);
    k := OnPhaseMeans(0, t.trace);
    ElapsedIsTrueTime(Watch(0, t.trace).phase.time, e.begin);
    hide Watch, Run, Millis, Elapsed;
  }
}
