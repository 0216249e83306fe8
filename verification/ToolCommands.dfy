/** What the tool does with the commands it is sent, by their codes: no output is ever driven but
    for an order to do so, an order that is accepted does drive it, and every answer says what
    happened. */
module ToolCommands {
  import opened Bytes
  import opened ToolSpec
  import opened ToolSafety

  /** A frame to this tool that carries a command code. */
  predicate Carries(e: Event, code: int) {
    e.Order? && |e.fields| >= 2 && e.fields[0] == 1 && e.fields[1] == code
  }

  function Answer(t: Tool, e: Event): Response
    requires e.Order?
  {
    Process(t, e.span, e.fields, e.flags).1
  }

  /** UP is 1, DOWN is 2. */
  function CodeOf(side: Side): int {
    if side.Up? then 1 else 2
  }

  /** An order to move this way that is answered with OK. */
  predicate Accepted(t: Tool, e: Event, side: Side) {
    Carries(e, CodeOf(side)) && Answer(t, e) == Ack(CodeOf(side), Ok)
  }

  /** On the way to this side, its output driven or about to be. */
  predicate Toward(side: Side, s: ToolState) {
    s == side.Prepared() || s == side.Moving()
  }

  /** A command that ends a movement: STOP, RESET_FAULT, or another movement that is accepted. */
  predicate Ends(t: Tool, e: Event) {
    Carries(e, 0) || Carries(e, 3) || Accepted(t, e, Up) || Accepted(t, e, Down)
  }

  // ---- No movement without an order ----------------------------------------------------

  lemma StepToward(t: Tool, e: Event, side: Side)
    requires Toward(side, Step(t, e).state)
    ensures Toward(side, t.state) || Accepted(t, e, side)
    ensures Toward(side, t.state) ==> !Ends(t, e)
  {
    hide Millis, Elapsed;
    match e
    case Tick(_, _, _) =>
    case Order(span, fields, flags) =>
      assert !Toward(side, t.state) ==> ToolSpec.Code(fields) == Some(CodeOf(side));
  }

  lemma RunSnoc(t: Tool, es: seq<Event>, e: Event)
    ensures Run(t, es + [e]) == Step(Run(t, es), e)
  {
    RunConcat(t, es, [e]);
    var u := Run(t, es);
    assert Run(Step(u, e), [e][1..]) == Step(u, e);
  }

  /** In every run a tool that moves or is about to move was ordered to by an accepted command, and
      has been on its way ever since. */
  lemma {:induction false} OrderedBy(es: seq<Event>, side: Side) returns (j: nat)
    requires Toward(side, Run(INITIAL, es).state)
    ensures j < |es| && Accepted(Run(INITIAL, es[..j]), es[j], side)
    ensures forall k :: j < k <= |es| ==> Toward(side, Run(INITIAL, es[..k]).state)
    decreases |es|
  {
    hide Step, Accepted;
    var n := |es| - 1;
    var before := es[..n];
    assert es[..|es|] == es == before + [es[n]];
    RunSnoc(INITIAL, before, es[n]);
    StepToward(Run(INITIAL, before), es[n], side);
    if Toward(side, Run(INITIAL, before).state) {
      j := OrderedBy(before, side);
      assert forall k :: 0 <= k <= n ==> before[..k] == es[..k];
    } else {
      j := n;
    }
  }

  lemma {:induction false} ActivationsGrow(boot: nat, trace: seq<Write>, n: nat, side: Side)
    requires n <= |trace|
    ensures side.Activations(Watch(boot, trace[..n])) <= side.Activations(Watch(boot, trace))
    decreases |trace|
  {
    if n < |trace| {
      var shorter := trace[..|trace| - 1];
      assert shorter[..n] == trace[..n];
      ActivationsGrow(boot, shorter, n, side);
    } else {
      assert trace[..n] == trace;
    }
  }

  /** The write that energises an output of this side. */
  predicate Raises(trace: seq<Write>, n: nat, side: Side)
    requires n < |trace|
  {
    side.On(trace[n].relays) && !side.On(Latched(trace, n))
  }

  lemma RaisesCounts(boot: nat, trace: seq<Write>, n: nat, side: Side)
    requires n < |trace| && Raises(trace, n, side)
    ensures side.Activations(Watch(boot, trace)) > side.Activations(Watch(boot, trace[..n]))
  {
    var one := trace[..n + 1];
    assert one[..n] == trace[..n];
    RelaysAreLast(boot, trace[..n]);
    ActivationsGrow(boot, trace, n + 1, side);
  }

  lemma TraceGrows(t: Tool, e: Event)
    ensures t.trace <= Step(t, e).trace
  {
    hide Millis, Elapsed, Put, ForceOff, ActivateUp, ActivateDown;
    match e
    case Tick(begin, finish, r) =>
      var w := Window(begin, finish);
      ForceOffGrows(t, w);
      ActivateGrows(t, w, r.activation);
      ForceOffGrows(ActivateUp(t, w, r.activation).0, w);
      ForceOffGrows(ActivateDown(t, w, r.activation).0, w);
    case Order(span, _, _) =>
      ForceOffGrows(t, span.Whole());
      ForceOffGrows(t, span.BeforeSample());
  }

  lemma ForceOffGrows(t: Tool, w: Window)
    ensures t.trace <= ForceOff(t, w).trace
  {
  }

  lemma ActivateGrows(t: Tool, w: Window, r: ActivationReads)
    ensures t.trace <= ActivateUp(t, w, r).0.trace && t.trace <= ActivateDown(t, w, r).0.trace
  {
  }

  /** Only an update at the end of the preparation raises an output. */
  lemma RaisedInPreparation(t: Tool, e: Event, n: nat, side: Side)
    requires Sound(t) && Agrees(Watch(0, t.trace), t)
    requires |t.trace| <= n < |Step(t, e).trace| && Raises(Step(t, e).trace, n, side)
    ensures e.Tick? && t.state == side.Prepared()
  {
    hide Step;
    var trace := Step(t, e).trace;
    TraceGrows(t, e);
    assert trace[..n][..|t.trace|] == t.trace;
    RaisesCounts(0, trace, n, side);
    ActivationsGrow(0, trace[..n], |t.trace|, side);
    StepObserved(0, t, e);
    hide Watch;
  }

  /** In every run each write that raises an output is made by an update, event i, and ordered by an
      earlier command, event j: [1, 1, ..] for the UP output and [1, 2, ..] for the DOWN output,
      answered with OK; and no STOP, no RESET_FAULT and no other accepted movement came in between. */
  lemma {:induction false} RaisedByOrder(es: seq<Event>, n: nat, side: Side) returns (j: nat, i: nat)
    requires n < |Run(INITIAL, es).trace| && Raises(Run(INITIAL, es).trace, n, side)
    ensures j < i < |es| && es[i].Tick?
    ensures |Run(INITIAL, es[..i]).trace| <= n < |Run(INITIAL, es[..i + 1]).trace|
    ensures Accepted(Run(INITIAL, es[..j]), es[j], side)
    ensures forall k :: j < k < i ==> !Ends(Run(INITIAL, es[..k]), es[k])
    decreases |es|
  {
    hide Step, Accepted, Ends, Watch, Agrees, Sound;
    var last := |es| - 1;
    var before, e := es[..last], es[last];
    assert es[..|es|] == es == before + [e];
    var t := Run(INITIAL, before);
    RunSnoc(INITIAL, before, e);
    TraceGrows(t, e);
    if n < |t.trace| {
      assert Latched(Step(t, e).trace, n) == Latched(t.trace, n);
      j, i := RaisedByOrder(before, n, side);
      assert forall k :: 0 <= k <= last ==> before[..k] == es[..k];
    } else {
      i := last;
      StartsSound(0);
      RunObserved(0, INITIAL, before);
      RaisedInPreparation(t, e, n, side);
      j := OrderedBy(before, side);
      forall k | j < k < i
        ensures !Ends(Run(INITIAL, es[..k]), es[k])
      {
        assert before[..k] == es[..k] && before[..k + 1] == es[..k + 1] == es[..k] + [es[k]];
        RunSnoc(INITIAL, es[..k], es[k]);
        StepToward(Run(INITIAL, es[..k]), es[k], side);
      }
      assert before[..j] == es[..j];
    }
  }

  // ---- An order that is accepted moves the tool -----------------------------------------

  /** The sensors seen by a command neither contradict each other nor stand at this side's limit. */
  predicate Clear(side: Side, r: CommandReads) {
    !(r.hl && r.ll) && !(if side.Up? then r.hlLimit else r.llLimit)
  }

  lemma OrderAccepted(t: Tool, e: Event, side: Side)
    requires Sound(t) && t.state == Idle && Carries(e, CodeOf(side)) && Clear(side, e.flags)
    ensures Accepted(t, e, side)
    ensures var t' := Step(t, e); t'.state == side.Prepared() && t'.stateStart == Millis(e.span.sample)
  {
    hide Put, Millis;
  }

  /** An event that does not disturb a preparation noted at the true time `sample`: an update that
      comes before the dead time is over and finds sensors and read-backs in order, or any command but
      STOP and RESET_FAULT, as long as a movement command finds no sensor conflict. */
  predicate Harmless(e: Event, sample: nat) {
    match e
    case Tick(begin, _, r) =>
      sample <= begin && (begin - sample) % 0x1_0000_0000 < 100 && !(r.hl && r.ll) && !(r.upPin && r.downPin)
    case Order(_, _, r) =>
      !Carries(e, 0) && !Carries(e, 3) && (Carries(e, 1) || Carries(e, 2) ==> !(r.hl && r.ll))
  }

  lemma StepWaits(t: Tool, e: Event, sample: nat)
    requires Sound(t) && Preparing(t.state) && t.stateStart == Millis(sample) && Harmless(e, sample)
    ensures Step(t, e) == t
  {
    if e.Tick? {
      ElapsedIsTrueTime(sample, e.begin);
    }
    hide Put, Millis, Elapsed;
  }

  lemma {:induction false} RunWaits(t: Tool, es: seq<Event>, sample: nat)
    requires Sound(t) && Preparing(t.state) && t.stateStart == Millis(sample)
    requires forall e <- es :: Harmless(e, sample)
    ensures Run(t, es) == t
    decreases |es|
  {
    hide Sound, Step, Harmless;
    if es != [] {
      assert Harmless(es[0], sample);
      StepWaits(t, es[0], sample);
      assert forall e <- es[1..] :: e in es;
      RunWaits(t, es[1..], sample);
    }
  }

  /** The update that finds the dead time over and the pins as they were written. */
  predicate Starts(side: Side, e: Event, sample: nat) {
    && e.Tick? && sample <= e.begin && (e.begin - sample) % 0x1_0000_0000 >= 100 && !(e.inputs.hl && e.inputs.ll)
    && !e.inputs.upPin && !e.inputs.downPin && e.inputs.activation == ActivationReads(false, side.Up?, side.Down?)
  }

  /** UP moves the tool up, DOWN moves it down: behind any run that leaves the tool idle, the order
      [1, 1, ..] ([1, 2, ..]), if the sensors allow it, is answered with OK and, whatever harmless
      events follow, the first update that finds the dead time over leaves exactly the UP (DOWN) output
      driven. */
  lemma OrderMoves(es: seq<Event>, order: Event, fs: seq<Event>, tick: Event, side: Side)
    requires Run(INITIAL, es).state == Idle
    requires Carries(order, if side.Up? then 1 else 2) && Clear(side, order.flags)
    requires forall e <- fs :: Harmless(e, order.span.sample)
    requires Starts(side, tick, order.span.sample)
    ensures Accepted(Run(INITIAL, es), order, side)
    ensures var t := Run(INITIAL, es + [order] + fs + [tick]);
            && t.relays == (if side.Up? then Relays(true, false) else Relays(false, true))
            && t.state == side.Moving() && t.moveStart == Millis(tick.begin)
  {
    var t := Run(INITIAL, es);
    RunKeepsSound(INITIAL, es);
    OrderAccepted(t, order, side);
    StepKeepsSound(t, order);
    RunSnoc(INITIAL, es, order);
    RunConcat(INITIAL, es + [order], fs);
    RunSnoc(INITIAL, es + [order] + fs, tick);
    var u := Step(t, order);
    hide Run, Step, Harmless, Accepted, Carries;
    RunWaits(u, fs, order.span.sample);
    TickMoves(u, tick, side, order.span.sample);
  }

  lemma TickMoves(t: Tool, tick: Event, side: Side, sample: nat)
    requires Sound(t) && t.state == side.Prepared() && t.stateStart == Millis(sample) && Starts(side, tick, sample)
    ensures var t' := Step(t, tick);
            && t'.relays == Relays(side.Up?, side.Down?)
            && t'.state == side.Moving() && t'.moveStart == Millis(tick.begin)
  {
    ElapsedIsTrueTime(sample, tick.begin);
    hide Millis, Elapsed;
  }

  // ---- What every command does and answers ------------------------------------------------

  /** A frame for another device, or without a command, changes nothing and is not answered. */
  lemma OthersIgnored(t: Tool, e: Event)
    requires e.Order? && (|e.fields| < 2 || e.fields[0] != 1)
    ensures Step(t, e) == t && Answer(t, e) == Silent
  {
  }

  /** STOP leaves the tool idle with both outputs off, RESET_FAULT without a fault code as well, whatever
      state they find; an unknown code changes nothing. */
  lemma CommandsWithoutMovement(t: Tool, e: Event, code: int)
    requires Carries(e, code) && code != 1 && code != 2
    ensures code == 0 ==> Answer(t, e) == Ack(0, Ok) && Step(t, e).state == Idle && Step(t, e).relays == BOTH_OFF
                          && Step(t, e).fault == t.fault
    ensures code == 3 ==> Answer(t, e) == Ack(3, Ok) && Step(t, e).state == Idle && Step(t, e).relays == BOTH_OFF
                          && Step(t, e).fault == NoFault
    ensures code == 4 ==> Answer(t, e).Status? && Step(t, e) == t
    ensures !(0 <= code <= 4) ==> Answer(t, e) == Ack(code, InvalidCommand) && Step(t, e) == t
  {
  }

  /** Every answer to a movement order says what was found and what was done about it. The reasons to
      refuse are disjoint and come in this order: a fault, contradicting sensors, a movement under way,
      the limit; the second turns into a fault, the others leave the tool where it was. */
  lemma MovementAnswers(t: Tool, e: Event, side: Side)
    requires Sound(t) && Carries(e, CodeOf(side))
    ensures Answer(t, e).Ack? && Answer(t, e).command == CodeOf(side)
    ensures var result, t', conflict := Answer(t, e).result, Step(t, e), e.flags.hl && e.flags.ll;
            var atLimit := if side.Up? then e.flags.hlLimit else e.flags.llLimit;
            && (result == RejectedFault <==> t.state == Fault)
            && (result == RejectedSensorConflict <==> t.state != Fault && conflict)
            && (result == AlreadyMoving <==> !conflict && (Toward(Up, t.state) || Toward(Down, t.state)))
            && (result == RejectedAtTop <==> side.Up? && t.state == Idle && !conflict && atLimit)
            && (result == RejectedAtBottom <==> side.Down? && t.state == Idle && !conflict && atLimit)
            && (result == Ok <==> t.state == Idle && !conflict && !atLimit)
            && (result == Ok ==> t'.state == side.Prepared() && t'.relays == BOTH_OFF)
            && (result == RejectedSensorConflict ==> t'.state == Fault && t'.fault == SensorConflict && t'.relays == BOTH_OFF)
            && (result == RejectedFault || result == AlreadyMoving ==> t' == t)
            && (result == RejectedAtTop || result == RejectedAtBottom ==>
                  t'.state == Idle && t'.relays == BOTH_OFF && t'.fault == t.fault)
  {
    hide Millis, Elapsed;
  }
}
