/** `PumpController`: the object the experiment drives. Its fields are the serial link (the
    bytes still to come, the arrival schedule, what has been sent), the two targets and the
    mixture log; each method changes them as the Python method does, byte by byte where the
    Python loops, and is proved to end in the state the functions of `HostFraming` and
    `MixingSequence` describe. */
module PumpControl {
  import opened Wrappers
  import opened Text
  import opened Mixture
  import opened HostFraming
  import opened MixingSequence

  /** A method's result agrees with the outcome the specification gives. */
  predicate Reports<S, T(==)>(r: Result<T, Fault>, o: Outcome<S, T>) {
    match o
    case Done(v, _) => r == Ok(v)
    case Failed(f, _) => r == Err(f)
  }

  /** A method's result agrees with what the specification reads off the line. */
  predicate ReportsRead<T(==)>(r: Result<T, Fault>, rd: Read<T>) {
    match rd
    case Got(v, _) => r == Ok(v)
    case Fail(f, _) => r == Err(f)
  }

  /** The frames read before `r`, put in front of the frames `r` reads. */
  function After(msgs: seq<string>, r: Read<seq<string>>): Read<seq<string>> {
    match r
    case Got(more, rest) => Got(msgs + more, rest)
    case Fail(f, rest) => Fail(f, rest)
  }

  lemma AfterNothing(r: Read<seq<string>>)
    ensures After([], r) == r
  {
    if r.Got? {
      assert [] + r.value == r.value;
    }
  }

  lemma AfterTwice(msgs: seq<string>, m: string, r: Read<seq<string>>)
    ensures After(msgs, After([m], r)) == After(msgs + [m], r)
  {
    if r.Got? {
      assert msgs + ([m] + r.value) == msgs + [m] + r.value;
    }
  }

  class PumpController {
    const rig: Rig
    var rx: seq<Byte>
    var waiting: seq<nat>
    var trace: seq<Event>
    var targetMixture: Option<seq<real>>
    var targetColor: Option<seq<int>>
    var log: seq<LogRecord>

    function Line(): Link
      reads this
    {
      Link(rx, waiting, trace)
    }

    function State(): Host
      reads this
    {
      Host(Line(), targetMixture, targetColor, log)
    }

    /** The fields `__init__` sets before the handshake: no target yet, an empty log. */
    constructor (rig: Rig, rx: seq<Byte>, waiting: seq<nat>)
      ensures this.rig == rig
      ensures State() == Host(Link(rx, waiting, []), None, None, [])
    {
      this.rig := rig;
      this.rx := rx;
      this.waiting := waiting;
      trace := [];
      targetMixture := None;
      targetColor := None;
      log := [];
    }

    /** `__init__`: open the port and wait for the handshake. A handshake that does not
        complete gives no controller. */
    static method Open(rig: Rig, rx: seq<Byte>, waiting: seq<nat>) returns (r: Result<PumpController, Fault>)
      ensures AwaitReady(rx).Fail? ==> r == Err(AwaitReady(rx).fault)
      ensures AwaitReady(rx).Got? ==> (r.Ok? && fresh(r.value) && r.value.rig == rig
        && r.value.State() == Host(Link(AwaitReady(rx).rest, waiting, []), None, None, []))
    {
      var c := new PumpController(rig, rx, waiting);
      var banner := c.WaitForArduino();
      if banner.Err? {
        return Err(banner.error);
      }
      return Ok(c);
    }

    /** `ser.read()`: the next byte, or `None` when no byte will ever come. */
    method Read() returns (x: Option<Byte>)
      modifies this
      ensures old(rx) == [] ==> x == None && rx == []
      ensures old(rx) != [] ==> x == Some(old(rx)[0]) && rx == old(rx)[1..]
      ensures State() == old(State()).(link := old(Line()).(rx := rx))
    {
      if rx == [] {
        return None;
      }
      x := Some(rx[0]);
      rx := rx[1..];
    }

    /** `recv_from_arduino`: skip to a `<`, then collect bytes up to the next `>`. */
    method RecvFromArduino() returns (r: Result<string, Fault>)
      modifies this
      ensures ReportsRead(r, NextFrame(old(rx)))
      ensures State() == old(State()).(link := old(Line()).(rx := NextFrame(old(rx)).rest))
    {
      var found := SkipToStart();
      if !found {
        return Err(Starved);
      }
      r := CaptureFrame();
    }

    /** The first loop of `recv_from_arduino`: read bytes until a `<`. */
    method SkipToStart() returns (found: bool)
      modifies this
      ensures found ==> Capture(rx) == NextFrame(old(rx))
      ensures !found ==> NextFrame(old(rx)) == Fail(Starved, rx)
      ensures State() == old(State()).(link := old(Line()).(rx := rx))
    {
      var x: Byte := 'z' as int;
      while x != StartMarker
        invariant x != StartMarker ==> NextFrame(old(rx)) == NextFrame(rx)
        invariant x == StartMarker ==> NextFrame(old(rx)) == Capture(rx)
        invariant State() == old(State()).(link := old(Line()).(rx := rx))
        decreases |rx|
      {
        ghost var before := rx;
        var next := Read();
        if next.None? {
          return false;
        }
        x := next.value;
        assert before == [x] + rx;
        NextFrameFirst(x, rx);
      }
      return true;
    }

    /** The second loop of `recv_from_arduino`, after the `<`: collect the bytes up to the
        next `>`, dropping any further `<`. */
    method CaptureFrame() returns (r: Result<string, Fault>)
      modifies this
      ensures ReportsRead(r, Capture(old(rx)))
      ensures State() == old(State()).(link := old(Line()).(rx := Capture(old(rx)).rest))
    {
      ghost var want := Capture(rx);
      var ck: string := "";
      var next := Read();
      if next.None? {
        return Err(Starved);
      }
      var x := next.value;
      PrependEmpty(want);
      while x != EndMarker
        invariant want == Prepend(ck, Capture([x] + rx))
        invariant State() == old(State()).(link := old(Line()).(rx := rx))
        decreases |rx|
      {
        CaptureByte(want, ck, x, rx);
        if x != StartMarker {
          if x >= 128 {
            return Err(Undecodable);
          }
          ck := ck + [x as char];
        }
        ghost var before := rx;
        next := Read();
        if next.None? {
          return Err(Starved);
        }
        x := next.value;
        assert [x] + rx == before;
      }
      CaptureByte(want, ck, x, rx);
      return Ok(ck);
    }

    /** `wait_for_arduino`: read frames until one announces readiness; the result lists the
        frames read (the Python prints them). */
    method WaitForArduino() returns (r: Result<seq<string>, Fault>)
      modifies this
      ensures ReportsRead(r, AwaitReady(old(rx)))
      ensures State() == old(State()).(link := old(Line()).(rx := AwaitReady(old(rx)).rest))
    {
      var msg: string := "";
      var msgs: seq<string> := [];
      NotContainsWithoutFirst(msg, ReadyBanner);
      AfterNothing(AwaitReady(rx));
      while !Contains(msg, ReadyBanner)
        invariant !Contains(msg, ReadyBanner) ==> AwaitReady(old(rx)) == After(msgs, AwaitReady(rx))
        invariant Contains(msg, ReadyBanner) ==> AwaitReady(old(rx)) == Got(msgs, rx)
        invariant State() == old(State()).(link := old(Line()).(rx := rx))
        decreases |rx|
      {
        var m := RecvFromArduino();
        if m.Err? {
          return Err(m.error);
        }
        AfterTwice(msgs, m.value, AwaitReady(rx));
        msg := m.value;
        msgs := msgs + [msg];
      }
      return Ok(msgs);
    }

    /** `clear_serial_buffer`: read and drop every byte that has arrived. */
    method ClearSerialBuffer()
      modifies this
      ensures State() == old(State()).(link := ClearBuffer(old(Line())))
    {
      var inWaiting := if waiting == [] then 0 else waiting[0];
      if waiting != [] {
        waiting := waiting[1..];
      }
      ghost var dropped: nat := 0;
      while inWaiting > 0 && rx != []
        invariant dropped <= |old(rx)| && rx == old(rx)[dropped..]
        invariant old(waiting) != [] ==> dropped + inWaiting == old(waiting)[0]
        invariant old(waiting) == [] ==> inWaiting == 0 && dropped == 0
        invariant State() == old(State()).(link := Link(rx, ClearBuffer(old(Line())).waiting, old(trace)))
        decreases inWaiting
      {
        var _ := Read();
        inWaiting := inWaiting - 1;
        dropped := dropped + 1;
      }
      assert dropped == Discarded(old(Line()));
    }

    /** `run_test`: clear the buffer, send the command, read one reply frame. */
    method RunTest(cmd: Command) returns (r: Result<string, Fault>)
      modifies this
      ensures Reports(r, MixingSequence.RunTest(old(Line()), cmd))
      ensures State() == old(State()).(link := MixingSequence.RunTest(old(Line()), cmd).state)
    {
      ClearSerialBuffer();
      trace := trace + [Sent(cmd)];
      r := RecvFromArduino();
    }

    /** `get_rgb`: read and parse frames until one contains "RGB". */
    method GetRgb() returns (r: Result<seq<int>, Fault>)
      modifies this
      ensures ReportsRead(r, ReadRgb(old(rx)))
      ensures State() == old(State()).(link := old(Line()).(rx := ReadRgb(old(rx)).rest))
    {
      var msg: string := "";
      var rgbVals: seq<int> := [];
      NotContainsWithoutFirst(msg, RgbTag);
      while !Contains(msg, RgbTag)
        invariant !Contains(msg, RgbTag) ==> ReadRgb(old(rx)) == ReadRgb(rx)
        invariant Contains(msg, RgbTag) ==> ReadRgb(old(rx)) == Got(rgbVals, rx)
        invariant State() == old(State()).(link := old(Line()).(rx := rx))
        decreases |rx|
      {
        var m := RecvFromArduino();
        if m.Err? {
          return Err(m.error);
        }
        var parsed := ParseRgb(m.value);
        if parsed.Err? {
          return Err(parsed.error);
        }
        msg := m.value;
        rgbVals := parsed.value;
      }
      return Ok(rgbVals);
    }

    /** `measure`. */
    method Measure() returns (r: Result<seq<int>, Fault>)
      modifies this
      ensures Reports(r, MixingSequence.Measure(old(Line())))
      ensures State() == old(State()).(link := MixingSequence.Measure(old(Line())).state)
    {
      var reply := RunTest(Meas);
      if reply.Err? {
        return Err(reply.error);
      }
      r := GetRgb();
    }

    /** `purge_pump`. */
    method PurgePump(pump: char, seconds: Option<real>) returns (r: Result<(), Fault>)
      modifies this
      ensures Reports(r, MixingSequence.PurgePump(rig, old(Line()), pump, seconds))
      ensures State() == old(State()).(link := MixingSequence.PurgePump(rig, old(Line()), pump, seconds).state)
    {
      if pump !in rig.pumps {
        return Err(UnknownPump);
      }
      var reply := RunTest(Mix(rig.pumps[pump].pin, seconds.GetOr(DefaultPurgeTime)));
      r := if reply.Ok? then Ok(()) else Err(reply.error);
    }

    /** `run_pump`. */
    method RunPump(pump: char, volume: real) returns (r: Result<(), Fault>)
      modifies this
      ensures Reports(r, MixingSequence.RunPump(rig, old(Line()), pump, volume))
      ensures State() == old(State()).(link := MixingSequence.RunPump(rig, old(Line()), pump, volume).state)
    {
      if pump !in rig.pumps {
        return Err(UnknownPump);
      }
      var p := rig.pumps[pump];
      if volume > 0.0 {
        var pumpTime := PumpTime(p, volume);
        if pumpTime > 0.0 {
          RunPumpSends(rig, Line(), pump, volume);
          var reply := RunTest(Mix(p.pin, pumpTime));
          return if reply.Ok? then Ok(()) else Err(reply.error);
        }
      }
      return Ok(());
    }

    /** `flush`. */
    method Flush() returns (r: Result<(), Fault>)
      modifies this
      ensures Reports(r, MixingSequence.Flush(rig, old(Line())))
      ensures State() == old(State()).(link := MixingSequence.Flush(rig, old(Line())).state)
    {
      r := RunPump('W', rig.cellVolume);
    }

    /** `drain`. */
    method Drain(seconds: Option<real>) returns (r: Result<(), Fault>)
      modifies this
      ensures Reports(r, MixingSequence.Drain(rig, old(Line()), seconds))
      ensures State() == old(State()).(link := MixingSequence.Drain(rig, old(Line()), seconds).state)
    {
      if seconds.None? {
        r := PurgePump('D', Some(rig.drainTime));
      } else {
        r := PurgePump('D', Some(seconds.value));
      }
    }

    /** `reset`. */
    method Reset() returns (r: Result<(), Fault>)
      modifies this
      ensures Reports(r, MixingSequence.Reset(rig, old(Line())))
      ensures State() == old(State()).(link := MixingSequence.Reset(rig, old(Line())).state)
    {
      ghost var spec := MixingSequence.Reset(rig, Line());
      ghost var todo := ResetOps(rig);
      RunFirst(rig, Line(), todo);
      r := Drain(None);
      if r.Err? {
        return;
      }
      todo := todo[1..];
      RunFirst(rig, Line(), todo);
      Sleep();
      todo := todo[1..];
      RunFirst(rig, Line(), todo);
      r := Flush();
      if r.Err? {
        return;
      }
      todo := todo[1..];
      RunFirst(rig, Line(), todo);
      Sleep();
      todo := todo[1..];
      RunFirst(rig, Line(), todo);
      r := Drain(None);
      if r.Err? {
        return;
      }
      todo := todo[1..];
      RunFirst(rig, Line(), todo);
      Sleep();
      todo := todo[1..];
      assert todo == [];
      assert spec == Done((), Line());
    }

    /** One pump of `mix_color` and the one-second pause after it. */
    method DoseThenPause(pump: char, volume: real) returns (r: Result<(), Fault>)
      modifies this
      ensures Reports(r, Run(rig, old(Line()), [Op.Dose(pump, volume), Op.Sleep]))
      ensures State() == old(State()).(link := Run(rig, old(Line()), [Op.Dose(pump, volume), Op.Sleep]).state)
    {
      ghost var ops := [Op.Dose(pump, volume), Op.Sleep];
      RunFirst(rig, Line(), ops);
      r := RunPump(pump, volume);
      if r.Err? {
        return;
      }
      RunFirst(rig, Line(), ops[1..]);
      Sleep();
      assert ops[1..][1..] == [];
    }

    /** Lines 427-435 of `mix_color`: the four pumps, R, G, B, Y, a second apart. */
    method RunPumps(volumes: seq<real>) returns (r: Result<(), Fault>)
      requires |volumes| == 4
      modifies this
      ensures Reports(r, Run(rig, old(Line()), DoseOps(volumes)))
      ensures State() == old(State()).(link := Run(rig, old(Line()), DoseOps(volumes)).state)
    {
      ghost var red, green := [Op.Dose('R', volumes[0]), Op.Sleep], [Op.Dose('G', volumes[1]), Op.Sleep];
      ghost var blue, yellow := [Op.Dose('B', volumes[2]), Op.Sleep], [Op.Dose('Y', volumes[3]), Op.Sleep];
      assert DoseOps(volumes) == red + (green + (blue + yellow));
      RunAppend(rig, Line(), red, green + (blue + yellow));
      r := DoseThenPause('R', volumes[0]);
      if r.Err? {
        return;
      }
      RunAppend(rig, Line(), green, blue + yellow);
      r := DoseThenPause('G', volumes[1]);
      if r.Err? {
        return;
      }
      RunAppend(rig, Line(), blue, yellow);
      r := DoseThenPause('B', volumes[2]);
      if r.Err? {
        return;
      }
      r := DoseThenPause('Y', volumes[3]);
    }

    /** Lines 420-441 of `mix_color`: normalise, dispense, measure, reset. */
    method Dispense(m: seq<real>) returns (r: Result<seq<int>, Fault>)
      requires |m| == 4 ==> Mixable(m)
      modifies this
      ensures Reports(r, MixingSequence.Dispense(rig, old(Line()), m))
      ensures State() == old(State()).(link := MixingSequence.Dispense(rig, old(Line()), m).state)
    {
      if |m| != 4 {
        return Err(WrongShape);
      }
      var volumes := Scale(Normalize(m), rig.cellVolume);
      var s := RunPumps(volumes);
      if s.Err? {
        return Err(s.error);
      }
      r := Measure();
      if r.Err? {
        return;
      }
      RunAfterSleep(rig, Line(), ResetOps(rig));
      Sleep();
      s := Reset();
      if s.Err? {
        return Err(s.error);
      }
    }

    /** `mix_color`: dispense and measure, then log unless the target is being changed. */
    method MixColor(m: seq<real>, changingTarget: bool) returns (r: Result<seq<int>, Fault>)
      requires |m| == 4 ==> Mixable(m)
      modifies this
      ensures Reports(r, MixingSequence.MixColor(rig, old(State()), m, changingTarget))
      ensures State() == MixingSequence.MixColor(rig, old(State()), m, changingTarget).state
    {
      ghost var h := State();
      r := Dispense(m);
      ghost var d := MixingSequence.Dispense(rig, h.link, m);
      assert State() == h.(link := d.state);
      if r.Err? {
        assert d.Failed?;
        return;
      }
      assert d.Done? && d.value == r.value;
      if !changingTarget {
        var row := Record(Normalize(m), AsReals(r.value), targetMixture, TargetReals(targetColor));
        if row.Err? {
          return Err(row.error);
        }
        log := log + [row.value];
      }
    }

    /** `change_target`: the mixture is stored before mixing, so it stays changed even when
        mixing fails. */
    method ChangeTarget(m: seq<real>) returns (r: Result<seq<int>, Fault>)
      requires |m| == 4 ==> Mixable(m)
      modifies this
      ensures Reports(r, MixingSequence.ChangeTarget(rig, old(State()), m))
      ensures State() == MixingSequence.ChangeTarget(rig, old(State()), m).state
    {
      targetMixture := Some(m);
      r := MixColor(m, true);
      if r.Ok? {
        targetColor := Some(r.value);
      }
    }

    /** `time.sleep(1)`. */
    method Sleep()
      modifies this
      ensures State() == old(State()).(link := Paused(old(Line())))
    {
      trace := trace + [Pause(1.0)];
    }
  }
}
