/** The switch logic of the radio bridge: a two-position classifier with hysteresis that is fed
    its own previous answer, and the edge detector that turns answers into tool commands. */
module RcSwitch {
  import opened Bytes
  import Mavlink

  datatype Position = Unknown | Down | Up

  datatype Config = Config(threshold: int, hysteresis: int, invert: bool, channel: int, statusAfterCommand: bool) {
    /** What parseArguments lets through. */
    predicate Valid() {
      0 <= hysteresis < 400 && 1 <= channel <= 18
    }

    function Low(): int { threshold - hysteresis }

    function High(): int { threshold + hysteresis }
  }

  const DEFAULT := Config(1500, 80, true, 8, false)

  const CMD_UP := 1
  const CMD_DOWN := 2
  const CMD_STATUS := 3

  function Classify(pwm: int, previous: Position, cfg: Config): Position {
    var raw :=
      match previous
      case Up => if pwm <= cfg.Low() then Down else Up
      case Down => if pwm >= cfg.High() then Up else Down
      case Unknown => if pwm >= cfg.threshold then Up else Down;
    if !cfg.invert then raw else if raw == Up then Down else Up
  }

  /** `last_switch_position`; it is Unknown exactly until the baseline is captured. */
  function Next(cfg: Config, last: Position, pwm: int): (r: (Position, bool)) {
    var current := Classify(pwm, last, cfg);
    (current, last != Unknown && current != last)
  }

  /** The positions for which commands go out while the samples arrive. */
  function Edges(cfg: Config, last: Position, samples: seq<int>): seq<Position>
    decreases |samples|
  {
    if samples == [] then [] else
    var (current, edge) := Next(cfg, last, samples[0]);
    (if edge then [current] else []) + Edges(cfg, current, samples[1..])
  }

  function Commands(cfg: Config, position: Position): seq<int> {
    [if position == Up then CMD_UP else CMD_DOWN] + (if cfg.statusAfterCommand then [CMD_STATUS] else [])
  }

  /** The main loop's state, and the commands sent so far. */
  class Bridge {
    const cfg: Config
    var last: Position
    var baseline: bool
    var commands: seq<int>

    ghost predicate Valid()
      reads this
    {
      cfg.Valid() && (baseline <==> last != Unknown)
    }

    /** One UP goes out before the switch is read. */
    constructor (cfg: Config)
      requires cfg.Valid()
      ensures Valid() && this.cfg == cfg && last == Unknown && commands == [1]
    {
      this.cfg := cfg;
      last, baseline := Unknown, false;
      commands := [CMD_UP];
    }

    method OnSample(pwm: int)
      requires Valid()
      modifies this
      ensures Valid()
      ensures var (current, edge) := Next(cfg, old(last), pwm);
              last == current && commands == old(commands) + if edge then Commands(cfg, current) else []
    {
      var current := Classify(pwm, last, cfg);
      if !baseline {
        last := current;
        baseline := true;
        return;
      }
      if current == last {
        return;
      }
      last := current;
      commands := commands + [if current == Up then CMD_UP else CMD_DOWN];
      if cfg.statusAfterCommand {
        commands := commands + [CMD_STATUS];
      }
    }

    /** Messages without a usable pulse width for the channel change nothing. */
    method OnMessage(m: Mavlink.Message)
      requires Valid()
      modifies this
      ensures Valid()
      ensures match Mavlink.ExtractPwm(m, cfg.channel)
              case None => last == old(last) && commands == old(commands)
              case Some(pwm) =>
                var (current, edge) := Next(cfg, old(last), pwm);
                last == current && commands == old(commands) + if edge then Commands(cfg, current) else []
    {
      var pwm := Mavlink.ExtractPwm(m, cfg.channel);
      if pwm.Some? {
        OnSample(pwm.value);
      }
    }

    /** The main loop over the messages that arrive. */
    method Listen(messages: seq<Mavlink.Message>)
      requires Valid()
      modifies this
      ensures Valid()
      ensures var samples := Samples(cfg.channel, messages);
              last == Final(cfg, old(last), samples)
              && commands == old(commands) + AllCommands(cfg, Edges(cfg, old(last), samples))
    {
      ghost var all := Samples(cfg.channel, messages);
      ghost var target := commands + AllCommands(cfg, Edges(cfg, last, all));
      for i := 0 to |messages|
        invariant Valid()
        invariant Final(cfg, last, Samples(cfg.channel, messages[i..])) == Final(cfg, old(last), all)
        invariant commands + AllCommands(cfg, Edges(cfg, last, Samples(cfg.channel, messages[i..]))) == target
      {
        OneMessage(cfg, last, commands, messages[i..]);
        assert messages[i..][1..] == messages[i + 1..];
        OnMessage(messages[i]);
      }
    }
  }

  // ---- The main loop on sequences ------------------------------------------------------

  /** The usable pulse widths of a channel. */
  function Samples(channel: int, messages: seq<Mavlink.Message>): seq<int> {
    if messages == [] then [] else
    (match Mavlink.ExtractPwm(messages[0], channel) case Some(pwm) => [pwm] case None => [])
    + Samples(channel, messages[1..])
  }

  /** The position after all samples. */
  function Final(cfg: Config, last: Position, samples: seq<int>): Position
    decreases |samples|
  {
    if samples == [] then last else Final(cfg, Classify(samples[0], last, cfg), samples[1..])
  }

  function AllCommands(cfg: Config, edges: seq<Position>): seq<int> {
    if edges == [] then [] else Commands(cfg, edges[0]) + AllCommands(cfg, edges[1..])
  }

  lemma OneMessage(cfg: Config, last: Position, sent: seq<int>, ms: seq<Mavlink.Message>)
    requires ms != []
    ensures var now, later := Samples(cfg.channel, ms), Samples(cfg.channel, ms[1..]);
            match Mavlink.ExtractPwm(ms[0], cfg.channel)
            case None => now == later
            case Some(pwm) =>
              var (current, edge) := Next(cfg, last, pwm);
              && Final(cfg, last, now) == Final(cfg, current, later)
              && sent + AllCommands(cfg, Edges(cfg, last, now))
                 == (sent + if edge then Commands(cfg, current) else []) + AllCommands(cfg, Edges(cfg, current, later))
  {
    var later := Samples(cfg.channel, ms[1..]);
    match Mavlink.ExtractPwm(ms[0], cfg.channel)
    case None =>
    case Some(pwm) =>
      var (current, edge) := Next(cfg, last, pwm);
      var rest := Edges(cfg, current, later);
      assert Samples(cfg.channel, ms)[1..] == later;
      if edge {
        assert ([current] + rest)[1..] == rest;
        assert sent + (Commands(cfg, current) + AllCommands(cfg, rest)) == sent + Commands(cfg, current) + AllCommands(cfg, rest);
      } else {
        assert [] + rest == rest && sent + [] == sent;
      }
  }

  // ---- Edges alternate ---------------------------------------------------------------

  /** Whatever the samples and the setting: after the baseline the commands alternate. */
  lemma {:induction false} EdgesAlternate(cfg: Config, last: Position, samples: seq<int>)
    ensures var e := Edges(cfg, last, samples);
            && (forall i :: 0 <= i < |e| ==> e[i] != Unknown)
            && (|e| > 0 && last != Unknown ==> e[0] != last)
            && (forall i :: 0 <= i < |e| - 1 ==> e[i] != e[i + 1])
    decreases |samples|
  {
    if samples != [] {
      EdgesAlternate(cfg, Classify(samples[0], last, cfg), samples[1..]);
    }
  }

  // ---- The numbers that go out ---------------------------------------------------------

  /** The commands sent but the status requests. */
  function Movements(sent: seq<int>): seq<int> {
    if sent == [] then [] else (if sent[0] == 3 then [] else [sent[0]]) + Movements(sent[1..])
  }

  /** Every command followed by a status request. */
  function FollowedByStatus(commands: seq<int>): seq<int> {
    if commands == [] then [] else [commands[0], 3] + FollowedByStatus(commands[1..])
  }

  /** UP is 1 and DOWN is 2. */
  function Codes(edges: seq<Position>): (c: seq<int>)
    ensures |c| == |edges| && forall i :: 0 <= i < |c| ==> c[i] == if edges[i] == Up then 1 else 2
  {
    if edges == [] then [] else [if edges[0] == Up then 1 else 2] + Codes(edges[1..])
  }

  lemma OneMovement(code: int, rest: seq<int>)
    requires code != 3
    ensures Movements([code] + rest) == [code] + Movements(rest)
    ensures Movements([code, 3] + rest) == [code] + Movements(rest)
    ensures FollowedByStatus([code] + rest) == [code, 3] + FollowedByStatus(rest)
  {
    assert ([code] + rest)[1..] == rest;
    assert ([code, 3] + rest)[1..] == [3] + rest && ([3] + rest)[1..] == rest;
    assert [] + Movements(rest) == Movements(rest);
  }

  lemma CommandsInNumbers(cfg: Config, p: Position)
    ensures var code := if p == Up then 1 else 2;
            Commands(cfg, p) == if cfg.statusAfterCommand then [code, 3] else [code]
  {}

  lemma {:induction false} CommandsAreCodes(cfg: Config, edges: seq<Position>)
    ensures var sent, codes := AllCommands(cfg, edges), Codes(edges);
            Movements(sent) == codes && sent == if cfg.statusAfterCommand then FollowedByStatus(codes) else codes
  {
    if edges != [] {
      var code, later := if edges[0] == Up then 1 else 2, AllCommands(cfg, edges[1..]);
      CommandsAreCodes(cfg, edges[1..]);
      CommandsInNumbers(cfg, edges[0]);
      OneMovement(code, later);
      OneMovement(code, Codes(edges[1..]));
      hide Movements, FollowedByStatus, Commands;
    }
  }

  lemma {:induction false} LastEdge(cfg: Config, last: Position, samples: seq<int>)
    ensures var e := Edges(cfg, last, samples);
            && (e != [] ==> e[|e| - 1] == Final(cfg, last, samples))
            && (e == [] && last != Unknown ==> Final(cfg, last, samples) == last)
    decreases |samples|
  {
    if samples != [] {
      LastEdge(cfg, Classify(samples[0], last, cfg), samples[1..]);
    }
  }

  /** What goes out while the main loop takes in samples, in numbers: movement commands 1 and 2 in turn,
      each followed by 3 exactly if a status request is configured; the first one leaves the position
      the loop was in, and the last one says where it is now. */
  lemma CommandsFollowThePosition(cfg: Config, last: Position, samples: seq<int>)
    ensures var sent := AllCommands(cfg, Edges(cfg, last, samples));
            var m, now := Movements(sent), Final(cfg, last, samples);
            && sent == (if cfg.statusAfterCommand then FollowedByStatus(m) else m)
            && (forall i :: 0 <= i < |m| ==> m[i] == 1 || m[i] == 2)
            && (forall i :: 0 <= i < |m| - 1 ==> m[i + 1] == 3 - m[i])
            && (m != [] && last != Unknown ==> m[0] == if last == Up then 2 else 1)
            && (m != [] ==> (m[|m| - 1] == 1 <==> now == Up) && (m[|m| - 1] == 2 <==> now == Down))
            && (m == [] && last != Unknown ==> now == last)
  {
    CommandsAreCodes(cfg, Edges(cfg, last, samples));
    EdgesAlternate(cfg, last, samples);
    LastEdge(cfg, last, samples);
    hide Movements, FollowedByStatus, AllCommands, Edges, Final, Codes;
  }

  // ---- Where the switch is ---------------------------------------------------------------

  /** The pulse widths that fix the position whatever it was: at or beyond an edge of the band. */
  predicate Decisive(cfg: Config, pwm: int) {
    (pwm <= cfg.threshold - cfg.hysteresis || pwm >= cfg.threshold + cfg.hysteresis) && pwm != cfg.threshold
  }

  /** The position that a pulse width stands for by itself. */
  function Side(cfg: Config, pwm: int): Position {
    if (pwm >= cfg.threshold) != cfg.invert then Up else Down
  }

  /** What n pulse widths that are not decisive make of a position: nothing, or they turn it over one by
      one. */
  function TurnedOver(cfg: Config, p: Position, n: nat): Position {
    if cfg.invert == (cfg.hysteresis == 0) || n % 2 == 0 then p else if p == Up then Down else Up
  }

  lemma {:induction false} FinalConcat(cfg: Config, last: Position, x: seq<int>, y: seq<int>)
    ensures Final(cfg, last, x + y) == Final(cfg, Final(cfg, last, x), y)
    ensures Edges(cfg, last, x + y) == Edges(cfg, last, x) + Edges(cfg, Final(cfg, last, x), y)
    decreases |x|
  {
    hide Classify;
    if x == [] {
      assert x + y == y;
      assert [] + Edges(cfg, last, y) == Edges(cfg, last, y);
    } else {
      var (current, edge) := Next(cfg, last, x[0]);
      assert (x + y)[0] == x[0] && (x + y)[1..] == x[1..] + y;
      FinalConcat(cfg, current, x[1..], y);
      AppendAssociates(if edge then [current] else [], Edges(cfg, current, x[1..]), Edges(cfg, Final(cfg, last, x), y));
    }
  }

  lemma {:induction false} InBand(cfg: Config, last: Position, band: seq<int>)
    requires cfg.hysteresis >= 0 && last != Unknown && forall s <- band :: !Decisive(cfg, s)
    ensures Final(cfg, last, band) == TurnedOver(cfg, last, |band|)
    decreases |band|
  {
    if band != [] {
      assert !Decisive(cfg, band[0]);
      assert forall s <- band[1..] :: s in band;
      InBand(cfg, Classify(band[0], last, cfg), band[1..]);
    }
  }

  /** Where the switch is, after any samples: the last decisive one says it, or, if there was none, the
      very first one; those behind it leave the position alone, or turn it over one by one, which with a
      band they do exactly with inversion, and without a band exactly without. */
  lemma PositionIs(cfg: Config, last: Position, before: seq<int>, pwm: int, band: seq<int>)
    requires cfg.hysteresis >= 0 && forall s <- band :: !Decisive(cfg, s)
    requires Decisive(cfg, pwm) || (last == Unknown && before == [])
    ensures Final(cfg, last, before + [pwm] + band) == TurnedOver(cfg, Side(cfg, pwm), |band|)
  {
    FinalConcat(cfg, last, before + [pwm], band);
    FinalConcat(cfg, last, before, [pwm]);
    assert [pwm][1..] == [];
    assert Final(cfg, last, before + [pwm]) == Classify(pwm, Final(cfg, last, before), cfg) == Side(cfg, pwm);
    InBand(cfg, Side(cfg, pwm), band);
  }

  lemma {:induction false} AllCommandsConcat(cfg: Config, e: seq<Position>, f: seq<Position>)
    ensures AllCommands(cfg, e + f) == AllCommands(cfg, e) + AllCommands(cfg, f)
  {
    if e == [] {
      assert e + f == f;
    } else {
      assert (e + f)[1..] == e[1..] + f;
      AllCommandsConcat(cfg, e[1..], f);
    }
  }

  /** One throw of the switch, at any time: a pulse width beyond the band behind one on the other side of
      it sends UP, 1, on the way up and DOWN, 2, on the way down, and with inversion the other way
      round. */
  lemma ThrowSends(cfg: Config, last: Position, before: seq<int>, from: int, to: int)
    requires cfg.hysteresis >= 0 && Decisive(cfg, from) && Decisive(cfg, to)
    requires from < cfg.threshold < to || to < cfg.threshold < from
    ensures AllCommands(cfg, Edges(cfg, last, before + [from] + [to]))
            == AllCommands(cfg, Edges(cfg, last, before + [from]))
               + [if (from < to) != cfg.invert then 1 else 2] + if cfg.statusAfterCommand then [3] else []
  {
    var x := before + [from];
    assert x + [] == x && x + [to] + [] == x + [to] && before + [from] + [] == x;
    PositionIs(cfg, last, before, from, []);
    PositionIs(cfg, last, x, to, []);
    FinalConcat(cfg, last, x, [to]);
    var p, q := Side(cfg, from), Side(cfg, to);
    assert Edges(cfg, p, [to]) == [q] by {
      FinalConcat(cfg, last, x, [to]);
      assert [to][1..] == [];
    }
    AllCommandsConcat(cfg, Edges(cfg, last, x), [q]);
    assert [q][1..] == [];
  }

  // ---- Hysteresis ----------------------------------------------------------------------

  function Distance(x: int, y: int): nat {
    if x <= y then y - x else x - y
  }

  /** Total movement of the pulse width, starting from c. */
  function Movement(c: int, samples: seq<int>): nat
    decreases |samples|
  {
    if samples == [] then 0 else Distance(c, samples[0]) + Movement(samples[0], samples[1..])
  }

  /** How far the signal has already come from the threshold that set the current position. */
  function Advance(cfg: Config, last: Position, c: int): nat {
    match last
    case Up => if c < cfg.High() then cfg.High() - c else 0
    case Down => if c > cfg.Low() then c - cfg.Low() else 0
    case Unknown => 0
  }

  lemma {:induction false} EdgesCostMovement(cfg: Config, last: Position, c: int, samples: seq<int>)
    requires cfg.hysteresis >= 0 && !cfg.invert && last != Unknown
    ensures Movement(c, samples) + Advance(cfg, last, c) >= 2 * cfg.hysteresis * |Edges(cfg, last, samples)|
    decreases |samples|
  {
    if samples != [] {
      var (current, edge) := Next(cfg, last, samples[0]);
      EdgesCostMovement(cfg, current, samples[0], samples[1..]);
      var n := |Edges(cfg, current, samples[1..])|;
      assert 2 * cfg.hysteresis * (n + 1) == 2 * cfg.hysteresis * n + 2 * cfg.hysteresis;
    }
  }

  /** Without inversion the band works as documented: k edge commands need a total movement of
      at least (2k - 1) times the hysteresis after the baseline sample. */
  lemma HysteresisHolds(cfg: Config, samples: seq<int>)
    requires cfg.hysteresis >= 0 && !cfg.invert && samples != []
    ensures var k := |Edges(cfg, Unknown, samples)|;
            Movement(samples[0], samples[1..]) >= cfg.hysteresis * (2 * k - 1)
  {
    var current := Classify(samples[0], Unknown, cfg);
    EdgesCostMovement(cfg, current, samples[0], samples[1..]);
    assert Advance(cfg, current, samples[0]) <= cfg.hysteresis;
    FirstEdgeIsCheaper(cfg.hysteresis, |Edges(cfg, Unknown, samples)|, Movement(samples[0], samples[1..]),
                       Advance(cfg, current, samples[0]));
  }

  lemma FirstEdgeIsCheaper(h: int, k: int, movement: int, advance: int)
    requires movement + advance >= 2 * h * k && advance <= h
    ensures movement >= h * (2 * k - 1)
  {
    assert h * (2 * k - 1) == 2 * h * k - h;
  }

  // ---- The inverted default ---------------------------------------------------------------

  /** With inversion the classifier is fed its inverted answer, so inside the band it changes
      its mind on every single sample. */
  lemma InvertedFlipsInBand(cfg: Config, last: Position, pwm: int)
    requires cfg.invert && last != Unknown && cfg.Low() < pwm < cfg.High()
    ensures Next(cfg, last, pwm).1
  {}

  /** The constant inputs on which a setting keeps sending commands. */
  predicate Chatters(cfg: Config, pwm: int) {
    if cfg.invert then cfg.Low() < pwm < cfg.High() else cfg.hysteresis == 0 && pwm == cfg.threshold
  }

  function Repeat(n: nat, pwm: int): (s: seq<int>)
    ensures |s| == n
  {
    if n == 0 then [] else [pwm] + Repeat(n - 1, pwm)
  }

  lemma {:induction false} Settled(cfg: Config, last: Position, n: nat, pwm: int)
    requires cfg.hysteresis >= 0 && last != Unknown
    requires Chatters(cfg, pwm) || Classify(pwm, last, cfg) == last
    ensures |Edges(cfg, last, Repeat(n, pwm))| == if Chatters(cfg, pwm) then n else 0
    decreases n
  {
    if n > 0 {
      Settled(cfg, Classify(pwm, last, cfg), n - 1, pwm);
      assert Repeat(n, pwm)[1..] == Repeat(n - 1, pwm);
    }
  }

  /** A constant pulse width sends one command per sample after the baseline, or none at all. With
      inversion, the default of the program, the first is the case everywhere inside the band. */
  lemma ConstantInput(cfg: Config, n: nat, pwm: int)
    requires cfg.hysteresis >= 0 && n > 0
    ensures |Edges(cfg, Unknown, Repeat(n, pwm))| == if Chatters(cfg, pwm) then n - 1 else 0
  {
    Settled(cfg, Classify(pwm, Unknown, cfg), n - 1, pwm);
    assert Repeat(n, pwm)[1..] == Repeat(n - 1, pwm);
  }

  // ---- What the documentation promises, exactly ------------------------------------------

  /** The pulse widths that extractRcChannelPwm lets through. */
  predicate Receivable(pwm: int) {
    0 < pwm < 0xFFFF
  }

  /** The documented price of the commands a signal causes. */
  ghost predicate PaidFor(cfg: Config, samples: seq<int>)
    requires samples != []
  {
    Movement(samples[0], samples[1..]) >= cfg.hysteresis * (2 * |Edges(cfg, Unknown, samples)| - 1)
  }

  /** No pulse width that can be received lies inside the band. */
  predicate BandOutOfReach(cfg: Config) {
    cfg.Low() >= 0xFFFE || cfg.High() <= 1
  }

  lemma {:induction false} OutOfReachIsQuiet(cfg: Config, last: Position, samples: seq<int>)
    requires cfg.invert && cfg.hysteresis > 0 && BandOutOfReach(cfg) && forall s <- samples :: Receivable(s)
    requires last == if cfg.High() <= 1 then Down else Up
    ensures Edges(cfg, last, samples) == []
    decreases |samples|
  {
    if samples != [] {
      assert Receivable(samples[0]);
      assert forall s <- samples[1..] :: s in samples;
      assert Classify(samples[0], last, cfg) == last;
      OutOfReachIsQuiet(cfg, last, samples[1..]);
      assert [] + Edges(cfg, last, samples[1..]) == [];
    }
  }

  /** The band works as documented on every signal that can be received exactly without inversion, or
      where there is no band, or none within reach. */
  lemma HysteresisIff(cfg: Config)
    requires cfg.Valid()
    ensures (forall samples: seq<int> | samples != [] && (forall s <- samples :: Receivable(s)) :: PaidFor(cfg, samples))
            <==> !cfg.invert || cfg.hysteresis == 0 || BandOutOfReach(cfg)
  {
    if !cfg.invert {
      forall samples: seq<int> | samples != [] ensures PaidFor(cfg, samples) {
        HysteresisHolds(cfg, samples);
      }
    } else if cfg.hysteresis > 0 && BandOutOfReach(cfg) {
      forall samples: seq<int> | samples != [] && (forall s <- samples :: Receivable(s)) ensures PaidFor(cfg, samples) {
        assert Receivable(samples[0]);
        OutOfReachIsQuiet(cfg, Classify(samples[0], Unknown, cfg), samples[1..]);
      }
    } else if cfg.hysteresis > 0 {
      var pwm := if cfg.Low() + 1 >= 1 then cfg.Low() + 1 else 1;
      var still := Repeat(3, pwm);
      ConstantInput(cfg, 3, pwm);
      assert still[1..] == Repeat(2, pwm);
      StillStands(2, pwm);
      RepeatIs(3, pwm);
      assert !PaidFor(cfg, still);
    }
  }

  lemma {:induction false} RepeatIs(n: nat, pwm: int)
    ensures forall s <- Repeat(n, pwm) :: s == pwm
  {
    if n > 0 {
      RepeatIs(n - 1, pwm);
    }
  }

  lemma {:induction false} StillStands(n: nat, pwm: int)
    ensures Movement(pwm, Repeat(n, pwm)) == 0
  {
    if n > 0 {
      assert Repeat(n, pwm)[1..] == Repeat(n - 1, pwm);
      StillStands(n - 1, pwm);
    }
  }

  /** Above the band UP, below it DOWN, whatever the position was. */
  ghost predicate MapsAsDocumented(cfg: Config) {
    forall pwm, last | Receivable(pwm) ::
      && (pwm < cfg.Low() ==> Classify(pwm, last, cfg) == Down)
      && (pwm > cfg.High() ==> Classify(pwm, last, cfg) == Up)
  }

  /** Which is so exactly without inversion; with it, every pulse width outside the band is mapped
      the other way, and there always are some. */
  lemma MappingIff(cfg: Config)
    requires cfg.Valid()
    ensures MapsAsDocumented(cfg) <==> !cfg.invert
    ensures cfg.invert ==> forall pwm, last | Receivable(pwm) ::
              && (pwm < cfg.Low() ==> Classify(pwm, last, cfg) == Up)
              && (pwm > cfg.High() ==> Classify(pwm, last, cfg) == Down)
  {
    if cfg.invert {
      if cfg.Low() > 1 {
        assert Receivable(1) && 1 < cfg.Low() && Classify(1, Up, cfg) == Up;
      } else {
        assert Receivable(0xFFFE) && 0xFFFE > cfg.High() && Classify(0xFFFE, Up, cfg) == Down;
      }
    }
  }

  /** The default setting maps every pulse width the opposite way, and on a constant one sends a
      command per sample exactly within 80 us of the centre. */
  lemma DefaultDeparts(n: nat, pwm: int)
    requires n > 0
    ensures Classify(pwm, Unknown, DEFAULT) == if pwm < 1500 then Up else Down
    ensures |Edges(DEFAULT, Unknown, Repeat(n, pwm))| == if 1420 < pwm < 1580 then n - 1 else 0
  {
    ConstantInput(DEFAULT, n, pwm);
  }
}
