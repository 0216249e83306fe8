/** The tool controller as a state machine: what every command and every control update does to
    the controller's variables and, write by write, to the two latched relay outputs. */
module ToolSpec {
  import opened Bytes

  const WRAP: nat := 0x1_0000_0000

  type u32 = x: int | 0 <= x < 0x1_0000_0000

  /** millis() at the true time t, counted in milliseconds since power-up. */
  function Millis(t: nat): u32 {
    t % WRAP
  }

  /** `now - start` on uint32_t. */
  function Elapsed(now: u32, start: u32): u32 {
    (now - start) % WRAP
  }

  const MOVEMENT_TIMEOUT_MS: u32 := 5000
  const DEAD_TIME_MS: u32 := 100
  const CURRENT_IGNORE_MS: u32 := 50
  const CURRENT_LIMIT_A: real := 1.5
  const ID := 1

  const CMD_STOP := 0
  const CMD_UP := 1
  const CMD_DOWN := 2
  const CMD_RESET_FAULT := 3
  const CMD_STATUS_REQUEST := 4

  datatype ToolState = Idle | PrepareUp | MovingUp | PrepareDown | MovingDown | Fault

  datatype FaultCode = NoFault | TimeoutUp | TimeoutDown | OvercurrentUp | OvercurrentDown | RelayConflict | SensorConflict

  datatype CommandResult = Ok | RejectedFault | RejectedAtTop | RejectedAtBottom | InvalidCommand | AlreadyMoving
                         | RejectedSensorConflict

  datatype PublicStatus = StatusUnknown | AtBottom | AtTop | StatusMovingUp | StatusMovingDown | StoppedBetween | StatusFault

  /** The latched outputs; true is LOW, the relay is energised. */
  datatype Relays = Relays(up: bool, down: bool)

  const BOTH_OFF := Relays(false, false)

  /** The latches right after one digitalWrite, which happened in the true-time interval
      [after, before]. */
  datatype Write = Write(after: nat, before: nat, relays: Relays)

  datatype Window = Window(after: nat, before: nat)

  datatype Tool = Tool(state: ToolState, fault: FaultCode, stateStart: u32, moveStart: u32, moveTimeout: u32,
                       current: real, relays: Relays, trace: seq<Write>)

  /** Power-up, after setup() has forced both relays off. */
  const INITIAL := Tool(Idle, NoFault, 0, 0, 0, 0.0, BOTH_OFF, [])

  // ---- Outputs ------------------------------------------------------------------

  function Put(t: Tool, w: Window, r: Relays): Tool {
    t.(relays := r, trace := t.trace + [Write(w.after, w.before, r)])
  }

  function ForceOff(t: Tool, w: Window): Tool {
    Put(Put(t, w, t.relays.(up := false)), w, BOTH_OFF)
  }

  function SetFault(t: Tool, w: Window, code: FaultCode): Tool {
    ForceOff(t, w).(fault := code, state := Fault)
  }

  /** What the input pins answer while a relay is being activated; true is the active level. */
  datatype ActivationReads = ActivationReads(opposing: bool, up: bool, down: bool)

  function ActivateUp(t: Tool, w: Window, r: ActivationReads): (Tool, bool) {
    var t1 := Put(t, w, t.relays.(down := false));
    if r.opposing then (ForceOff(t1, w), false) else
    var t2 := Put(t1, w, t1.relays.(up := true));
    if r.up && r.down then (ForceOff(t2, w), false) else (t2, true)
  }

  function ActivateDown(t: Tool, w: Window, r: ActivationReads): (Tool, bool) {
    var t1 := Put(t, w, t.relays.(up := false));
    if r.opposing then (ForceOff(t1, w), false) else
    var t2 := Put(t1, w, t1.relays.(down := true));
    if r.up && r.down then (ForceOff(t2, w), false) else (t2, true)
  }

  // ---- Control update -----------------------------------------------------------

  /** Everything one update reads: the output pins, the sensor flags at both places where they
      are read, the pins during an activation, and the later clock reading of isOverCurrent. The
      interrupts may change the flags between any two reads, so all of these are independent. */
  datatype UpdateReads = UpdateReads(upPin: bool, downPin: bool, hl: bool, ll: bool, activation: ActivationReads,
                                     hlLimit: bool, llLimit: bool, later: nat)

  predicate OverCurrent(t: Tool, now: u32) {
    Elapsed(now, t.moveStart) >= CURRENT_IGNORE_MS && t.current > CURRENT_LIMIT_A
  }

  /** One call of updateTool that starts at the true time `begin` and ends by `finish`. */
  function Update(t: Tool, begin: nat, finish: nat, r: UpdateReads): Tool {
    var now, w := Millis(begin), Window(begin, finish);
    if r.upPin && r.downPin then SetFault(t, w, RelayConflict)
    else if r.hl && r.ll then SetFault(t, w, SensorConflict)
    else
      match t.state
      case Idle => ForceOff(t, w)
      case Fault => ForceOff(t, w)
      case PrepareUp =>
        if Elapsed(now, t.stateStart) < DEAD_TIME_MS then t else
        var (t', ok) := ActivateUp(t, w, r.activation);
        if ok then t'.(moveStart := now, current := 0.0, state := MovingUp) else SetFault(t', w, RelayConflict)
      case PrepareDown =>
        if Elapsed(now, t.stateStart) < DEAD_TIME_MS then t else
        var (t', ok) := ActivateDown(t, w, r.activation);
        if ok then t'.(moveStart := now, current := 0.0, state := MovingDown) else SetFault(t', w, RelayConflict)
      case MovingUp =>
        if r.hlLimit then ForceOff(t, w).(state := Idle)
        else if Elapsed(now, t.moveStart) >= t.moveTimeout then SetFault(t, w, TimeoutUp)
        else if OverCurrent(t, Millis(r.later)) then SetFault(t, w, OvercurrentUp)
        else t
      case MovingDown =>
        if r.llLimit then ForceOff(t, w).(state := Idle)
        else if Elapsed(now, t.moveStart) >= t.moveTimeout then SetFault(t, w, TimeoutDown)
        else if OverCurrent(t, Millis(r.later)) then SetFault(t, w, OvercurrentDown)
        else t
  }

  // ---- Commands -------------------------------------------------------------------

  /** The sensor flags a command reads, each at its own moment. */
  datatype CommandReads = CommandReads(hl: bool, ll: bool, hlLimit: bool, llLimit: bool, hlReport: bool, llReport: bool)

  /** When a command runs: it starts at `begin`, reads the clock at `sample` if it accepts a
      movement, and is over by `finish`. */
  datatype Span = Span(begin: nat, sample: nat, finish: nat) {
    predicate Valid() {
      begin <= sample <= finish
    }

    function Whole(): Window { Window(begin, finish) }

    function BeforeSample(): Window { Window(begin, sample) }
  }

  predicate Busy(s: ToolState) {
    s == PrepareUp || s == MovingUp || s == PrepareDown || s == MovingDown
  }

  /** startUpTool and startDownTool differ in the limit switch and the target state. */
  function Start(t: Tool, s: Span, r: CommandReads, atLimit: bool, refusal: CommandResult, target: ToolState): (Tool, CommandResult) {
    if t.state == Fault then (t, RejectedFault)
    else if r.hl && r.ll then (SetFault(t, s.Whole(), SensorConflict), RejectedSensorConflict)
    else if Busy(t.state) then (t, AlreadyMoving)
    else if atLimit then (ForceOff(t, s.Whole()).(state := Idle), refusal)
    else
      (ForceOff(t, s.BeforeSample()).(moveTimeout := MOVEMENT_TIMEOUT_MS, stateStart := Millis(s.sample),
                                      current := 0.0, state := target), Ok)
  }

  function StartUp(t: Tool, s: Span, r: CommandReads): (Tool, CommandResult) {
    Start(t, s, r, r.hlLimit, RejectedAtTop, PrepareUp)
  }

  function StartDown(t: Tool, s: Span, r: CommandReads): (Tool, CommandResult) {
    Start(t, s, r, r.llLimit, RejectedAtBottom, PrepareDown)
  }

  function Stop(t: Tool, s: Span): Tool {
    ForceOff(t, s.Whole()).(state := Idle)
  }

  function ResetFault(t: Tool, s: Span): Tool {
    ForceOff(t, s.Whole()).(fault := NoFault, state := Idle, current := 0.0)
  }

  function Public(state: ToolState, hl: bool, ll: bool): PublicStatus {
    if state == Fault then StatusFault
    else if hl && ll then StatusUnknown
    else
      match state
      case PrepareUp => StatusMovingUp
      case MovingUp => StatusMovingUp
      case PrepareDown => StatusMovingDown
      case MovingDown => StatusMovingDown
      case Idle => if hl then AtTop else if ll then AtBottom else StoppedBetween
      case Fault => StatusFault
  }

  datatype Response = Silent | Ack(command: int, result: CommandResult)
                    | Status(status: PublicStatus, fault: FaultCode, hl: bool, ll: bool, current: real)

  /** The command code of a frame addressed to this tool, if there is one. */
  function Code(fields: seq<int>): Option<int> {
    if |fields| >= 2 && fields[0] == ID then Some(fields[1]) else None
  }

  /** One call of processCommandFrame on a frame whose floats truncate to `fields`. */
  function Process(t: Tool, s: Span, fields: seq<int>, r: CommandReads): (Tool, Response) {
    match Code(fields)
    case None => (t, Silent)
    case Some(c) =>
      if c == CMD_STOP then (Stop(t, s), Ack(c, Ok))
      else if c == CMD_UP then var (t', result) := StartUp(t, s, r); (t', Ack(c, result))
      else if c == CMD_DOWN then var (t', result) := StartDown(t, s, r); (t', Ack(c, result))
      else if c == CMD_RESET_FAULT then (ResetFault(t, s), Ack(c, Ok))
      else if c == CMD_STATUS_REQUEST then
        (t, Status(Public(t.state, r.hl, r.ll), t.fault, r.hlReport, r.llReport, t.current))
      else (t, Ack(c, InvalidCommand))
  }

  // ---- Runs -------------------------------------------------------------------------

  datatype Event = Tick(begin: nat, finish: nat, inputs: UpdateReads)
                 | Order(span: Span, fields: seq<int>, flags: CommandReads)

  function Begin(e: Event): nat {
    match e case Tick(begin, _, _) => begin case Order(span, _, _) => span.begin
  }

  function Finish(e: Event): nat {
    match e case Tick(_, finish, _) => finish case Order(span, _, _) => span.finish
  }

  function Step(t: Tool, e: Event): Tool {
    match e
    case Tick(begin, finish, inputs) => Update(t, begin, finish, inputs)
    case Order(span, fields, flags) => Process(t, span, fields, flags).0
  }

  function Run(t: Tool, es: seq<Event>): Tool
    decreases |es|
  {
    if es == [] then t else Run(Step(t, es[0]), es[1..])
  }

  predicate WellTimed(e: Event) {
    match e
    case Tick(begin, finish, inputs) => begin <= inputs.later <= finish
    case Order(span, _, _) => span.Valid()
  }

  /** The events follow one another in true time, starting at `from`. */
  predicate InOrder(from: nat, es: seq<Event>)
    decreases |es|
  {
    es == [] || (from <= Begin(es[0]) && WellTimed(es[0]) && InOrder(Finish(es[0]), es[1..]))
  }
}
