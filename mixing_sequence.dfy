/** The hardware controller's command sequences, as functions of the serial link and the
    pump table: `run_test`, `purge_pump`, `run_pump`, `flush`, `drain`, `reset`, `measure`,
    `mix_color` and `change_target`. Each returns its result (or the fault it raises) together
    with the new state. `PumpControl.PumpController` computes the same with loops and fields. */
module MixingSequence {
  import opened Wrappers
  import opened Text
  import opened Mixture
  import opened HostFraming

  /** What the host writes to the Arduino: `<Mix,pin,seconds>` or `<Meas>`. The decimal
      text of the duration is not modelled; the command keeps the number. */
  datatype Command = Mix(pin: int, duration: real) | Meas

  /** One step of the host's observable behaviour: a command sent, or a `time.sleep`. */
  datatype Event = Sent(cmd: Command) | Pause(seconds: real)

  /** The serial link as the host sees it.
      rx: every byte the Arduino will send that the host has not read yet.
      waiting: for each coming `clear_serial_buffer`, how many bytes have arrived by then.
      trace: everything the host has done on the link so far. */
  datatype Link = Link(rx: seq<Byte>, waiting: seq<nat>, trace: seq<Event>)

  /** One entry of `pump_config['pumps']`: the pin and the calibration `time = a*volume + b`. */
  datatype Pump = Pump(pin: int, a: real, b: real)

  /** The pump table with `cell_volume` and `drain_time`. */
  datatype Rig = Rig(pumps: map<char, Pump>, cellVolume: real, drainTime: real)

  /** A result with the state reached, or the fault raised with the state reached by then. */
  datatype Outcome<+S, +T> = Done(value: T, state: S) | Failed(fault: Fault, state: S)

  type Step = Outcome<Link, ()>

  /** The first bytes of `rx` that `clear_serial_buffer` reads and discards. */
  function Discarded(l: Link): nat {
    if l.waiting == [] || l.waiting[0] > |l.rx| then (if l.waiting == [] then 0 else |l.rx|)
    else l.waiting[0]
  }

  /** `clear_serial_buffer`: every byte that has arrived is read and thrown away. */
  function ClearBuffer(l: Link): (r: Link)
    ensures r.trace == l.trace
    ensures IsSuffix(r.rx, l.rx)
    ensures l.waiting != [] ==> (r.waiting == l.waiting[1..]
             && |r.rx| == |l.rx| - (if l.waiting[0] < |l.rx| then l.waiting[0] else |l.rx|))
    ensures l.waiting == [] ==> r == l
  {
    Link(l.rx[Discarded(l)..], if l.waiting == [] then [] else l.waiting[1..], l.trace)
  }

  /** `run_test`: clear the input buffer, send the command once, read one reply frame. */
  function RunTest(l: Link, cmd: Command): (r: Outcome<Link, string>)
    ensures r.state.trace == l.trace + [Sent(cmd)]
    ensures r.state.waiting == ClearBuffer(l).waiting
    ensures r.Done? <==> NextFrame(ClearBuffer(l).rx).Got?
    ensures r.Done? ==> NextFrame(ClearBuffer(l).rx) == Got(r.value, r.state.rx)
    ensures r.Failed? ==> NextFrame(ClearBuffer(l).rx) == Fail(r.fault, r.state.rx)
  {
    var c := ClearBuffer(l);
    match NextFrame(c.rx)
    case Got(reply, rest) => Done(reply, Link(rest, c.waiting, c.trace + [Sent(cmd)]))
    case Fail(f, rest) => Failed(f, Link(rest, c.waiting, c.trace + [Sent(cmd)]))
  }

  /** Forget the reply text of a command. */
  function Ignore(o: Outcome<Link, string>): Step {
    match o
    case Done(_, s) => Done((), s)
    case Failed(f, s) => Failed(f, s)
  }

  /** The `purge_time` of `purge_pump` when none is given. */
  const DefaultPurgeTime: real := 10.0

  /** `purge_pump`: look the pump up, then run it for `seconds` (ten when none is given),
      whatever their sign, with one `run_test` whose reply is read and ignored. */
  function PurgePump(rig: Rig, l: Link, pump: char, seconds: Option<real>): (r: Step)
    ensures pump !in rig.pumps ==> r == Failed(UnknownPump, l)
    ensures pump in rig.pumps ==>
      r.state.trace == l.trace + [Sent(Mix(rig.pumps[pump].pin, seconds.GetOr(DefaultPurgeTime)))]
    ensures pump in rig.pumps ==>
      r.state.waiting == ClearBuffer(l).waiting && r.state.rx == NextFrame(ClearBuffer(l).rx).rest
    ensures pump in rig.pumps ==>
      (r.Done? <==> NextFrame(ClearBuffer(l).rx).Got?)
      && (r.Failed? ==> r.fault == NextFrame(ClearBuffer(l).rx).fault)
  {
    if pump !in rig.pumps then Failed(UnknownPump, l)
    else Ignore(RunTest(l, Mix(rig.pumps[pump].pin, seconds.GetOr(DefaultPurgeTime))))
  }

  /** The calibrated running time for a volume. */
  function PumpTime(p: Pump, volume: real): real {
    p.a * volume + p.b
  }

  /** Whether `run_pump` sends a command at all. */
  predicate Runs(p: Pump, volume: real) {
    volume > 0.0 && PumpTime(p, volume) > 0.0
  }

  /** `run_pump`: the pin is looked up first, so an unknown pump raises even for a zero
      volume; a command is sent only for a positive volume with a positive running time. */
  function RunPump(rig: Rig, l: Link, pump: char, volume: real): (r: Step)
    ensures pump !in rig.pumps ==> r == Failed(UnknownPump, l)
    ensures pump in rig.pumps && !Runs(rig.pumps[pump], volume) ==> r == Done((), l)
    ensures pump in rig.pumps && Runs(rig.pumps[pump], volume) ==>
      r.state.trace == l.trace + [Sent(Mix(rig.pumps[pump].pin, PumpTime(rig.pumps[pump], volume)))]
  {
    if pump !in rig.pumps then Failed(UnknownPump, l)
    else if Runs(rig.pumps[pump], volume) then
      Ignore(RunTest(l, Mix(rig.pumps[pump].pin, PumpTime(rig.pumps[pump], volume))))
    else Done((), l)
  }

  /** When `run_pump` sends a command, it is one `run_test` whose reply is ignored. */
  lemma RunPumpSends(rig: Rig, l: Link, pump: char, volume: real)
    requires pump in rig.pumps && Runs(rig.pumps[pump], volume)
    ensures RunPump(rig, l, pump, volume)
         == Ignore(RunTest(l, Mix(rig.pumps[pump].pin, PumpTime(rig.pumps[pump], volume))))
  {
  }

  /** `flush`: fill the cell with water. */
  function Flush(rig: Rig, l: Link): (r: Step)
    ensures 'W' !in rig.pumps ==> r == Failed(UnknownPump, l)
    ensures 'W' in rig.pumps && !Runs(rig.pumps['W'], rig.cellVolume) ==> r == Done((), l)
    ensures 'W' in rig.pumps && Runs(rig.pumps['W'], rig.cellVolume) ==>
      r.state.trace == l.trace + [Sent(Mix(rig.pumps['W'].pin, PumpTime(rig.pumps['W'], rig.cellVolume)))]
  {
    RunPump(rig, l, 'W', rig.cellVolume)
  }

  /** `drain`: run the drain pump for the given time, or for `drain_time` when none is given. */
  function Drain(rig: Rig, l: Link, seconds: Option<real>): (r: Step)
    ensures 'D' !in rig.pumps ==> r == Failed(UnknownPump, l)
    ensures 'D' in rig.pumps && seconds.None? ==>
      r.state.trace == l.trace + [Sent(Mix(rig.pumps['D'].pin, rig.drainTime))]
    ensures 'D' in rig.pumps && seconds.Some? ==>
      r.state.trace == l.trace + [Sent(Mix(rig.pumps['D'].pin, seconds.value))]
  {
    PurgePump(rig, l, 'D', Some(seconds.GetOr(rig.drainTime)))
  }

  /** `time.sleep(1)`. */
  function Paused(l: Link): Link {
    l.(trace := l.trace + [Pause(1.0)])
  }

  /** One line of a fixed command sequence. */
  datatype Op = Dose(pump: char, volume: real) | Purge(pump: char, seconds: real) | Sleep

  function Apply(rig: Rig, l: Link, op: Op): Step {
    match op
    case Dose(pump, volume) => RunPump(rig, l, pump, volume)
    case Purge(pump, seconds) => PurgePump(rig, l, pump, Some(seconds))
    case Sleep => Done((), Paused(l))
  }

  /** The lines run one after the other; the first fault ends the sequence. */
  function Run(rig: Rig, l: Link, ops: seq<Op>): Step
    decreases |ops|
  {
    if ops == [] then Done((), l)
    else
      match Apply(rig, l, ops[0])
      case Failed(f, s) => Failed(f, s)
      case Done(_, s) => Run(rig, s, ops[1..])
  }

  /** The first line of a sequence runs first. */
  lemma RunFirst(rig: Rig, l: Link, ops: seq<Op>)
    requires ops != []
    ensures Apply(rig, l, ops[0]).Failed? ==> Run(rig, l, ops) == Apply(rig, l, ops[0])
    ensures Apply(rig, l, ops[0]).Done? ==> Run(rig, l, ops) == Run(rig, Apply(rig, l, ops[0]).state, ops[1..])
  {
  }

  /** Running two sequences one after the other is running their concatenation. */
  lemma {:induction false} RunAppend(rig: Rig, l: Link, a: seq<Op>, b: seq<Op>)
    ensures Run(rig, l, a + b) == match Run(rig, l, a)
                                  case Failed(f, s) => Failed(f, s)
                                  case Done(_, s) => Run(rig, s, b)
    decreases |a|
  {
    if a == [] {
      assert a + b == b;
    } else {
      assert (a + b)[0] == a[0];
      assert (a + b)[1..] == a[1..] + b;
      match Apply(rig, l, a[0])
      case Failed(_, _) =>
      case Done(_, s) => RunAppend(rig, s, a[1..], b);
    }
  }

  /** A pause in front of a sequence. */
  lemma RunAfterSleep(rig: Rig, l: Link, ops: seq<Op>)
    ensures Run(rig, l, [Sleep] + ops) == Run(rig, Paused(l), ops)
  {
    assert ([Sleep] + ops)[1..] == ops;
  }

  /** `reset`: `drain()`, `flush()`, `drain()`, each followed by a one-second pause. */
  function ResetOps(rig: Rig): seq<Op> {
    [Purge('D', rig.drainTime), Sleep, Dose('W', rig.cellVolume), Sleep, Purge('D', rig.drainTime), Sleep]
  }

  function Reset(rig: Rig, l: Link): (r: Step)
    ensures Performs(l, r, Events(rig, ResetOps(rig)))
  {
    RunPerforms(rig, l, ResetOps(rig));
    Run(rig, l, ResetOps(rig))
  }

  /** `measure`: send `<Meas>`, then read frames until the colour reading. */
  function Measure(l: Link): (r: Outcome<Link, seq<int>>)
    ensures r.state.trace == l.trace + [Sent(Meas)]
  {
    match RunTest(l, Meas)
    case Failed(f, s) => Failed(f, s)
    case Done(_, s) =>
      match ReadRgb(s.rx)
      case Got(v, rest) => Done(v, s.(rx := rest))
      case Fail(f, rest) => Failed(f, s.(rx := rest))
  }

  /** The volumes `mix_color` dispenses: normalised weights times the cell volume. */
  function Volumes(rig: Rig, m: seq<real>): (v: seq<real>)
    requires Mixable(m)
    ensures |v| == |m|
  {
    Scale(Normalize(m), rig.cellVolume)
  }

  /** The dispensing part of `mix_color`: R, G, B, Y in that order, a second apart. */
  function DoseOps(v: seq<real>): seq<Op>
    requires |v| == 4
  {
    [Dose('R', v[0]), Sleep, Dose('G', v[1]), Sleep, Dose('B', v[2]), Sleep, Dose('Y', v[3]), Sleep]
  }

  /** The hardware part of `mix_color`: dispense, measure, pause, reset. */
  function Dispense(rig: Rig, l: Link, m: seq<real>): (r: Outcome<Link, seq<int>>)
    requires |m| == 4 ==> Mixable(m)
    ensures |m| != 4 ==> r == Failed(WrongShape, l)
  {
    if |m| != 4 then Failed(WrongShape, l)
    else Cycle(rig, l, DoseOps(Volumes(rig, m)), [Sleep] + ResetOps(rig))
  }

  /** Run the lines `before`, measure, then run the lines `after`; the first fault ends it.
      What is sent is the lines' commands and the measurement, in this order, or a prefix of
      them when a fault ends it. */
  function Cycle(rig: Rig, l: Link, before: seq<Op>, after: seq<Op>): (r: Outcome<Link, seq<int>>)
    ensures Performs(l, r, Events(rig, before) + [Sent(Meas)] + Events(rig, after))
  {
    var o1 := Run(rig, l, before);
    var tail := [Sent(Meas)] + Events(rig, after);
    RunPerforms(rig, l, before);
    assert Events(rig, before) + tail == Events(rig, before) + [Sent(Meas)] + Events(rig, after);
    if o1.Failed? then
      PerformsThen(l, o1, Events(rig, before), o1, tail);
      Failed(o1.fault, o1.state)
    else
      MeasureThenPerforms(rig, o1.state, after);
      PerformsThen(l, o1, Events(rig, before), MeasureThen(rig, o1.state, after), tail);
      MeasureThen(rig, o1.state, after)
  }

  /** Measure, then run the lines `after`; the reading is the result. */
  function MeasureThen(rig: Rig, l: Link, after: seq<Op>): Outcome<Link, seq<int>> {
    match Measure(l)
    case Failed(f, s) => Failed(f, s)
    case Done(rgb, s2) =>
      match Run(rig, s2, after)
      case Failed(f, s) => Failed(f, s)
      case Done(_, s3) => Done(rgb, s3)
  }

  /** The controller's state: the link, the two targets and the mixture log. */
  datatype Host = Host(link: Link, targetMixture: Option<seq<real>>, targetColor: Option<seq<int>>,
                       log: seq<LogRecord>)

  /** A colour reading as the log stores it (every value is read back as a float). */
  function AsReals(v: seq<int>): (r: seq<real>)
    ensures |r| == |v| && forall i :: 0 <= i < |v| ==> r[i] == v[i] as real
  {
    seq(|v|, i requires 0 <= i < |v| => v[i] as real)
  }

  function TargetReals(t: Option<seq<int>>): (r: Option<seq<real>>)
    ensures r.Some? <==> t.Some?
  {
    match t
    case None => None
    case Some(v) => Some(AsReals(v))
  }

  /** `mix_color`: dispense and measure, then append a log record unless the target is being
      changed. Logging happens after the reset, so a missing target raises only once the
      whole sequence has run. */
  function MixColor(rig: Rig, h: Host, m: seq<real>, changingTarget: bool): (r: Outcome<Host, seq<int>>)
    requires |m| == 4 ==> Mixable(m)
    ensures r.state.link == Dispense(rig, h.link, m).state
    ensures r.state.targetMixture == h.targetMixture && r.state.targetColor == h.targetColor
    ensures Dispense(rig, h.link, m).Failed? ==> r.Failed? && r.fault == Dispense(rig, h.link, m).fault
    ensures r.Done? <==> Dispense(rig, h.link, m).Done?
                         && (changingTarget || (h.targetMixture.Some? && h.targetColor.Some?
                             && |Dispense(rig, h.link, m).value| >= 2
                             && |h.targetMixture.value| >= 2 && |h.targetColor.value| >= 2))
    ensures r.Done? ==> r.value == Dispense(rig, h.link, m).value
    ensures r.Done? && !changingTarget ==>
      r.state.log == h.log + [LogRecord(Normalize(m), AsReals(r.value), h.targetMixture.value,
                                        AsReals(h.targetColor.value))]
    ensures r.Failed? || changingTarget ==> r.state.log == h.log
    ensures Dispense(rig, h.link, m).Done? && !changingTarget && (h.targetMixture.None? || h.targetColor.None?)
            ==> r.Failed? && r.fault == TargetUnset
    ensures Dispense(rig, h.link, m).Done? && r.Failed? ==>
              r.fault == TargetUnset || r.fault == EmptyField || r.fault == ScalarField
    ensures Dispense(rig, h.link, m).Done? && !changingTarget && h.targetMixture.Some? && h.targetColor.Some? ==>
              ((r.Failed? && r.fault == EmptyField) <==>
                 |Dispense(rig, h.link, m).value| == 0 || |h.targetMixture.value| == 0 || |h.targetColor.value| == 0)
    ensures Dispense(rig, h.link, m).Done? && !changingTarget && h.targetMixture.Some? && h.targetColor.Some? ==>
              ((r.Failed? && r.fault == ScalarField) <==>
                 |Dispense(rig, h.link, m).value| > 0 && |h.targetMixture.value| > 0 && |h.targetColor.value| > 0
                 && (|Dispense(rig, h.link, m).value| == 1 || |h.targetMixture.value| == 1 || |h.targetColor.value| == 1))
  {
    match Dispense(rig, h.link, m)
    case Failed(f, l) => Failed(f, h.(link := l))
    case Done(rgb, l) =>
      if changingTarget then Done(rgb, h.(link := l))
      else
        match Record(Normalize(m), AsReals(rgb), h.targetMixture, TargetReals(h.targetColor))
        case Err(f) => Failed(f, h.(link := l))
        case Ok(rec) => Done(rgb, h.(link := l, log := h.log + [rec]))
  }

  /** `change_target`: store the mixture as given, mix it without logging, store the reading. */
  function ChangeTarget(rig: Rig, h: Host, m: seq<real>): (r: Outcome<Host, seq<int>>)
    requires |m| == 4 ==> Mixable(m)
    ensures r.state.targetMixture == Some(m)
    ensures r.Done? ==> r.state.targetColor == Some(r.value)
    ensures r.Failed? ==> r.state.targetColor == h.targetColor
    ensures r.state.log == h.log
    ensures r.state.link == Dispense(rig, h.link, m).state
    ensures r.Done? <==> Dispense(rig, h.link, m).Done?
    ensures r.Done? ==> r.value == Dispense(rig, h.link, m).value
    ensures r.Failed? ==> r.fault == Dispense(rig, h.link, m).fault
  {
    match MixColor(rig, h.(targetMixture := Some(m)), m, true)
    case Failed(f, s) => Failed(f, s)
    case Done(rgb, s) => Done(rgb, s.(targetColor := Some(rgb)))
  }

  // ---------------------------------------------------------------------------------------
  // The commands each sequence sends

  /** Either the trace grew by exactly `evs` and the step finished, or it failed after
      doing a prefix of `evs`. */
  predicate Performs<T>(l: Link, o: Outcome<Link, T>, evs: seq<Event>) {
    if o.Done? then o.state.trace == l.trace + evs
    else l.trace <= o.state.trace <= l.trace + evs
  }

  /** What one line does on the link when it completes. */
  function OpEvents(rig: Rig, op: Op): seq<Event> {
    match op
    case Dose(pump, volume) =>
      if pump in rig.pumps && Runs(rig.pumps[pump], volume) then
        [Sent(Mix(rig.pumps[pump].pin, PumpTime(rig.pumps[pump], volume)))]
      else []
    case Purge(pump, seconds) => if pump in rig.pumps then [Sent(Mix(rig.pumps[pump].pin, seconds))] else []
    case Sleep => [Pause(1.0)]
  }

  function Events(rig: Rig, ops: seq<Op>): seq<Event>
    decreases |ops|
  {
    if ops == [] then [] else OpEvents(rig, ops[0]) + Events(rig, ops[1..])
  }

  /** What `mix_color` does on the link, in order. */
  function MixEvents(rig: Rig, m: seq<real>): seq<Event>
    requires Mixable(m) && |m| == 4
  {
    Events(rig, DoseOps(Volumes(rig, m))) + [Sent(Meas)] + Events(rig, [Sleep] + ResetOps(rig))
  }

  lemma PrefixAppend(a: seq<Event>, b: seq<Event>, c: seq<Event>, d: seq<Event>)
    requires a <= b <= a + c
    ensures a <= b <= a + c + d
  {
    assert (a + c + d)[..|b|] == (a + c)[..|b|];
  }

  /** Two steps one after the other perform the concatenation of what each performs. */
  lemma {:induction false} PerformsThen<T, U>(l: Link, o1: Outcome<Link, T>, e1: seq<Event>,
                                              o2: Outcome<Link, U>, e2: seq<Event>)
    requires Performs(l, o1, e1)
    requires o1.Done? ==> Performs(o1.state, o2, e2)
    ensures o1.Failed? ==> Performs(l, o1, e1 + e2)
    ensures o1.Done? ==> Performs(l, o2, e1 + e2)
  {
    if o1.Failed? {
      PrefixAppend(l.trace, o1.state.trace, e1, e2);
    } else if o2.Done? {
      assert o2.state.trace == l.trace + e1 + e2;
    } else {
      assert l.trace + e1 <= o2.state.trace <= l.trace + e1 + e2;
      assert l.trace <= l.trace + e1;
    }
  }

  lemma ApplyPerforms(rig: Rig, l: Link, op: Op)
    ensures Performs(l, Apply(rig, l, op), OpEvents(rig, op))
  {
    var o := Apply(rig, l, op);
    if o.Failed? {
      assert l.trace <= l.trace + OpEvents(rig, op);
    }
  }

  /** A sequence of lines sends exactly their commands, in order, or a prefix of them when a
      line fails. */
  lemma {:induction false} RunPerforms(rig: Rig, l: Link, ops: seq<Op>)
    ensures Performs(l, Run(rig, l, ops), Events(rig, ops))
    decreases |ops|
  {
    if ops != [] {
      var o1 := Apply(rig, l, ops[0]);
      ApplyPerforms(rig, l, ops[0]);
      if o1.Done? {
        RunPerforms(rig, o1.state, ops[1..]);
      }
      PerformsThen(l, o1, OpEvents(rig, ops[0]), Run(rig, o1.state, ops[1..]), Events(rig, ops[1..]));
    }
  }

  /** `mix_color` performs the dispense R, G, B, Y, the measurement and the reset, in this
      order, and nothing else; a fault leaves a prefix of that sequence done. */
  lemma DispensePerforms(rig: Rig, l: Link, m: seq<real>)
    requires Mixable(m) && |m| == 4
    ensures Performs(l, Dispense(rig, l, m), MixEvents(rig, m))
  {
  }

  lemma MeasureThenPerforms(rig: Rig, l: Link, after: seq<Op>)
    ensures Performs(l, MeasureThen(rig, l, after), [Sent(Meas)] + Events(rig, after))
  {
    var o2 := Measure(l);
    if o2.Done? {
      RunPerforms(rig, o2.state, after);
      PerformsThen(l, o2, [Sent(Meas)], MeasureThen(rig, l, after), Events(rig, after));
    } else {
      assert l.trace <= o2.state.trace;
    }
  }

  /** `reset` drains for `drain_time`, flushes with one cell volume of water, and drains again. */
  lemma ResetOrder(rig: Rig)
    requires 'D' in rig.pumps && 'W' in rig.pumps
    ensures var drain := Sent(Mix(rig.pumps['D'].pin, rig.drainTime));
      Events(rig, ResetOps(rig))
        == [drain, Pause(1.0)] + OpEvents(rig, Dose('W', rig.cellVolume)) + [Pause(1.0), drain, Pause(1.0)]
  {
    var ops := ResetOps(rig);
    var drain := Sent(Mix(rig.pumps['D'].pin, rig.drainTime));
    EventsOfSix(rig, ops);
    assert OpEvents(rig, ops[0]) == [drain] && OpEvents(rig, ops[4]) == [drain];
    assert OpEvents(rig, ops[1]) == OpEvents(rig, ops[3]) == OpEvents(rig, ops[5]) == [Pause(1.0)];
  }

  lemma EventsOfSix(rig: Rig, ops: seq<Op>)
    requires |ops| == 6
    ensures Events(rig, ops) == OpEvents(rig, ops[0]) + OpEvents(rig, ops[1]) + OpEvents(rig, ops[2])
      + OpEvents(rig, ops[3]) + OpEvents(rig, ops[4]) + OpEvents(rig, ops[5])
  {
    var e := seq(6, i requires 0 <= i < 6 => OpEvents(rig, ops[i]));
    assert Events(rig, ops[..1]) == e[0] by {
      assert ops[..0] == [];
      EventsPrefix(rig, ops, 0);
    }
    assert Events(rig, ops[..2]) == e[0] + e[1] by { EventsPrefix(rig, ops, 1); }
    assert Events(rig, ops[..3]) == e[0] + e[1] + e[2] by { EventsPrefix(rig, ops, 2); }
    assert Events(rig, ops[..4]) == e[0] + e[1] + e[2] + e[3] by { EventsPrefix(rig, ops, 3); }
    assert Events(rig, ops[..5]) == e[0] + e[1] + e[2] + e[3] + e[4] by { EventsPrefix(rig, ops, 4); }
    assert Events(rig, ops[..6]) == e[0] + e[1] + e[2] + e[3] + e[4] + e[5] by { EventsPrefix(rig, ops, 5); }
    assert ops[..6] == ops;
  }

  lemma {:induction false} EventsAppend(rig: Rig, a: seq<Op>, b: seq<Op>)
    ensures Events(rig, a + b) == Events(rig, a) + Events(rig, b)
  {
    if a != [] {
      EventsAppend(rig, a[1..], b);
      assert (a + b)[0] == a[0] && (a + b)[1..] == a[1..] + b;
      assert Events(rig, a + b) == OpEvents(rig, a[0]) + Events(rig, a[1..] + b);
      assert Events(rig, a) == OpEvents(rig, a[0]) + Events(rig, a[1..]);
    } else {
      assert a + b == b;
    }
  }

  lemma EventsPrefix(rig: Rig, ops: seq<Op>, k: nat)
    requires k < |ops|
    ensures Events(rig, ops[..k + 1]) == Events(rig, ops[..k]) + OpEvents(rig, ops[k])
  {
    assert ops[..k + 1] == ops[..k] + [ops[k]];
    EventsAppend(rig, ops[..k], [ops[k]]);
    assert [ops[k]][1..] == [];
  }

  lemma EventsOfEight(rig: Rig, ops: seq<Op>)
    requires |ops| == 8
    ensures Events(rig, ops) == OpEvents(rig, ops[0]) + OpEvents(rig, ops[1]) + OpEvents(rig, ops[2])
      + OpEvents(rig, ops[3]) + OpEvents(rig, ops[4]) + OpEvents(rig, ops[5]) + OpEvents(rig, ops[6])
      + OpEvents(rig, ops[7])
  {
    var e := seq(8, i requires 0 <= i < 8 => OpEvents(rig, ops[i]));
    assert Events(rig, ops[..1]) == e[0] by {
      assert ops[..0] == [];
      EventsPrefix(rig, ops, 0);
    }
    assert Events(rig, ops[..2]) == e[0] + e[1] by { EventsPrefix(rig, ops, 1); }
    assert Events(rig, ops[..3]) == e[0] + e[1] + e[2] by { EventsPrefix(rig, ops, 2); }
    assert Events(rig, ops[..4]) == e[0] + e[1] + e[2] + e[3] by { EventsPrefix(rig, ops, 3); }
    assert Events(rig, ops[..5]) == e[0] + e[1] + e[2] + e[3] + e[4] by { EventsPrefix(rig, ops, 4); }
    assert Events(rig, ops[..6]) == e[0] + e[1] + e[2] + e[3] + e[4] + e[5] by { EventsPrefix(rig, ops, 5); }
    assert Events(rig, ops[..7]) == e[0] + e[1] + e[2] + e[3] + e[4] + e[5] + e[6] by {
      EventsPrefix(rig, ops, 6);
    }
    assert Events(rig, ops[..8]) == e[0] + e[1] + e[2] + e[3] + e[4] + e[5] + e[6] + e[7] by {
      EventsPrefix(rig, ops, 7);
    }
    assert ops[..8] == ops;
  }

  /** The four doses go to R, G, B, Y in that order, a second apart. */
  lemma DoseOrder(rig: Rig, v: seq<real>)
    requires |v| == 4
    ensures Events(rig, DoseOps(v))
         == OpEvents(rig, Dose('R', v[0])) + [Pause(1.0)] + OpEvents(rig, Dose('G', v[1])) + [Pause(1.0)]
            + OpEvents(rig, Dose('B', v[2])) + [Pause(1.0)] + OpEvents(rig, Dose('Y', v[3])) + [Pause(1.0)]
  {
    EventsOfEight(rig, DoseOps(v));
  }

  /** The four volumes add up to the cell volume, and none is negative when the cell volume
      is not. */
  lemma DoseVolumes(rig: Rig, m: seq<real>)
    requires Mixable(m) && |m| == 4
    ensures var v := Volumes(rig, m);
      v[0] + v[1] + v[2] + v[3] == rig.cellVolume && (rig.cellVolume >= 0.0 ==> NonNegative(v))
  {
    VolumesFillCell(m, rig.cellVolume);
    SumOfFour(Volumes(rig, m));
  }

  /** `run_test` returns the first whole frame after the bytes it discarded. */
  lemma RunTestReads(l: Link, cmd: Command, junk: seq<Byte>, p: string, rest: seq<Byte>)
    requires StartMarker !in junk && Framable(p)
    requires ClearBuffer(l).rx == junk + Wrap(p) + rest
    ensures RunTest(l, cmd) == Done(p, Link(rest, ClearBuffer(l).waiting, l.trace + [Sent(cmd)]))
  {
    FrameRoundTrip(junk, p, rest);
  }

  /** `measure` skips the acknowledgement of `<Meas>` and returns what `get_rgb` reads from
      the bytes after it (with `ReadRgbOfReading`: the reading `RGB:r,g,b` that follows). */
  lemma MeasureReads(l: Link, ack: string, after: seq<Byte>)
    requires Framable(ack) && ClearBuffer(l).rx == Wrap(ack) + after
    ensures Measure(l) == match ReadRgb(after)
                          case Got(v, rest) => Done(v, Link(rest, ClearBuffer(l).waiting, l.trace + [Sent(Meas)]))
                          case Fail(f, rest) => Failed(f, Link(rest, ClearBuffer(l).waiting, l.trace + [Sent(Meas)]))
  {
    RunTestReads(l, Meas, [], ack, after);
    assert [] + Wrap(ack) + after == ClearBuffer(l).rx;
  }
}
