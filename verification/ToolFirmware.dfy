/** The firmware's own form: global variables updated in place, two output pins written one at a
    time. Every method is proved against its function in ToolSpec; the values read from pins,
    sensor flags and the clock are parameters. */
module ToolFirmware {
  import opened ToolSpec

  class Controller {
    var toolState: ToolState
    var faultCode: FaultCode
    var stateStartMillis: u32
    var movementStartMillis: u32
    var movementTimeoutMs: u32
    var filteredCurrentA: real
    var upLow: bool
    var downLow: bool
    ghost var trace: seq<Write>

    ghost function View(): Tool
      reads this
    {
      Tool(toolState, faultCode, stateStartMillis, movementStartMillis, movementTimeoutMs, filteredCurrentA,
           Relays(upLow, downLow), trace)
    }

    /** The globals' initial values and the outputs after setup(). */
    constructor ()
      ensures View() == INITIAL
    {
      toolState, faultCode := Idle, NoFault;
      stateStartMillis, movementStartMillis, movementTimeoutMs := 0, 0, 0;
      filteredCurrentA := 0.0;
      upLow, downLow := false, false;
      trace := [];
    }

    // ---- Relays -------------------------------------------------------------------

    method WriteUpPin(active: bool, ghost w: Window)
      modifies this`upLow, this`trace
      ensures View() == Put(old(View()), w, old(View()).relays.(up := active))
    {
      upLow := active;
      trace := trace + [Write(w.after, w.before, Relays(upLow, downLow))];
    }

    method WriteDownPin(active: bool, ghost w: Window)
      modifies this`downLow, this`trace
      ensures View() == Put(old(View()), w, old(View()).relays.(down := active))
    {
      downLow := active;
      trace := trace + [Write(w.after, w.before, Relays(upLow, downLow))];
    }

    method ForceBothRelaysOff(ghost w: Window)
      modifies this`upLow, this`downLow, this`trace
      ensures View() == ForceOff(old(View()), w)
    {
      WriteUpPin(false, w);
      WriteDownPin(false, w);
    }

    method ActivateUpRelaySafely(r: ActivationReads, ghost w: Window) returns (ok: bool)
      modifies this`upLow, this`downLow, this`trace
      ensures (View(), ok) == ActivateUp(old(View()), w, r)
    {
      WriteDownPin(false, w);
      if r.opposing {
        ForceBothRelaysOff(w);
        return false;
      }
      WriteUpPin(true, w);
      if r.up && r.down {
        ForceBothRelaysOff(w);
        return false;
      }
      return true;
    }

    method ActivateDownRelaySafely(r: ActivationReads, ghost w: Window) returns (ok: bool)
      modifies this`upLow, this`downLow, this`trace
      ensures (View(), ok) == ActivateDown(old(View()), w, r)
    {
      WriteUpPin(false, w);
      if r.opposing {
        ForceBothRelaysOff(w);
        return false;
      }
      WriteDownPin(true, w);
      if r.up && r.down {
        ForceBothRelaysOff(w);
        return false;
      }
      return true;
    }

    method RaiseFault(code: FaultCode, ghost w: Window)
      modifies this
      ensures View() == SetFault(old(View()), w, code)
    {
      ForceBothRelaysOff(w);
      faultCode := code;
      toolState := Fault;
    }

    // ---- Commands -------------------------------------------------------------------

    method StartUpTool(millis: u32, r: CommandReads, ghost s: Span) returns (result: CommandResult)
      requires millis == Millis(s.sample)
      modifies this
      ensures (View(), result) == StartUp(old(View()), s, r)
    {
      if toolState == Fault {
        return RejectedFault;
      }
      if r.hl && r.ll {
        RaiseFault(SensorConflict, s.Whole());
        return RejectedSensorConflict;
      }
      if toolState == PrepareUp || toolState == MovingUp || toolState == PrepareDown || toolState == MovingDown {
        return AlreadyMoving;
      }
      if r.hlLimit {
        ForceBothRelaysOff(s.Whole());
        toolState := Idle;
        return RejectedAtTop;
      }
      ForceBothRelaysOff(s.BeforeSample());
      movementTimeoutMs := MOVEMENT_TIMEOUT_MS;
      stateStartMillis := millis;
      filteredCurrentA := 0.0;
      toolState := PrepareUp;
      return Ok;
    }

    method StartDownTool(millis: u32, r: CommandReads, ghost s: Span) returns (result: CommandResult)
      requires millis == Millis(s.sample)
      modifies this
      ensures (View(), result) == StartDown(old(View()), s, r)
    {
      if toolState == Fault {
        return RejectedFault;
      }
      if r.hl && r.ll {
        RaiseFault(SensorConflict, s.Whole());
        return RejectedSensorConflict;
      }
      if toolState == PrepareUp || toolState == MovingUp || toolState == PrepareDown || toolState == MovingDown {
        return AlreadyMoving;
      }
      if r.llLimit {
        ForceBothRelaysOff(s.Whole());
        toolState := Idle;
        return RejectedAtBottom;
      }
      ForceBothRelaysOff(s.BeforeSample());
      movementTimeoutMs := MOVEMENT_TIMEOUT_MS;
      stateStartMillis := millis;
      filteredCurrentA := 0.0;
      toolState := PrepareDown;
      return Ok;
    }

    method ClearFault(ghost s: Span)
      modifies this
      ensures View() == ResetFault(old(View()), s)
    {
      ForceBothRelaysOff(s.Whole());
      faultCode := NoFault;
      toolState := Idle;
      filteredCurrentA := 0.0;
    }

    method ProcessCommandFrame(fields: seq<int>, millis: u32, r: CommandReads, ghost s: Span) returns (response: Response)
      requires millis == Millis(s.sample)
      modifies this
      ensures (View(), response) == Process(old(View()), s, fields, r)
    {
      if |fields| < 1 || fields[0] != ID || |fields| < 2 {
        return Silent;
      }
      var command := fields[1];
      if command == CMD_STOP {
        ForceBothRelaysOff(s.Whole());
        toolState := Idle;
        return Ack(command, Ok);
      }
      if command == CMD_UP {
        var result := StartUpTool(millis, r, s);
        return Ack(command, result);
      }
      if command == CMD_DOWN {
        var result := StartDownTool(millis, r, s);
        return Ack(command, result);
      }
      if command == CMD_RESET_FAULT {
        ClearFault(s);
        return Ack(command, Ok);
      }
      if command == CMD_STATUS_REQUEST {
        return Status(Public(toolState, r.hl, r.ll), faultCode, r.hlReport, r.llReport, filteredCurrentA);
      }
      return Ack(command, InvalidCommand);
    }

    // ---- Control update ---------------------------------------------------------------

    method UpdateTool(now: u32, later: u32, r: UpdateReads, ghost begin: nat, ghost finish: nat)
      requires now == Millis(begin) && later == Millis(r.later)
      modifies this
      ensures View() == Update(old(View()), begin, finish, r)
    {
      ghost var w := Window(begin, finish);
      if r.upPin && r.downPin {
        RaiseFault(RelayConflict, w);
        return;
      }
      if r.hl && r.ll {
        RaiseFault(SensorConflict, w);
        return;
      }
      match toolState {
        case Idle =>
          ForceBothRelaysOff(w);
        case PrepareUp =>
          if Elapsed(now, stateStartMillis) >= DEAD_TIME_MS {
            var ok := ActivateUpRelaySafely(r.activation, w);
            if !ok {
              RaiseFault(RelayConflict, w);
            } else {
              movementStartMillis := now;
              filteredCurrentA := 0.0;
              toolState := MovingUp;
            }
          }
        case MovingUp =>
          if r.hlLimit {
            ForceBothRelaysOff(w);
            toolState := Idle;
          } else if Elapsed(now, movementStartMillis) >= movementTimeoutMs {
            RaiseFault(TimeoutUp, w);
          } else if IsOverCurrent(later) {
            RaiseFault(OvercurrentUp, w);
          }
        case PrepareDown =>
          if Elapsed(now, stateStartMillis) >= DEAD_TIME_MS {
            var ok := ActivateDownRelaySafely(r.activation, w);
            if !ok {
              RaiseFault(RelayConflict, w);
            } else {
              movementStartMillis := now;
              filteredCurrentA := 0.0;
              toolState := MovingDown;
            }
          }
        case MovingDown =>
          if r.llLimit {
            ForceBothRelaysOff(w);
            toolState := Idle;
          } else if Elapsed(now, movementStartMillis) >= movementTimeoutMs {
            RaiseFault(TimeoutDown, w);
          } else if IsOverCurrent(later) {
            RaiseFault(OvercurrentDown, w);
          }
        case Fault =>
          ForceBothRelaysOff(w);
      }
    }

    // ---- The main loop ------------------------------------------------------------------

    /** Command frames and control updates, in whatever order they come. */
    method Loop(events: seq<Event>)
      modifies this
      ensures View() == Run(old(View()), events)
    {
      for i := 0 to |events|
        invariant Run(View(), events[i..]) == Run(old(View()), events)
      {
        hide Update, Process;
        assert events[i..][0] == events[i] && events[i..][1..] == events[i + 1..];
        match events[i] {
          case Tick(begin, finish, inputs) =>
            UpdateTool(Millis(begin), Millis(inputs.later), inputs, begin, finish);
          case Order(span, fields, flags) =>
            var response := ProcessCommandFrame(fields, Millis(span.sample), flags, span);
        }
      }
    }

    predicate IsOverCurrent(millis: u32)
      reads this
    {
      Elapsed(millis, movementStartMillis) >= CURRENT_IGNORE_MS && filteredCurrentA > CURRENT_LIMIT_A
    }
  }
}
