/** The two ends of the serial link side by side: what the host writes is what the firmware
    dispatches on, what the firmware writes is what the host reads, and where the two frame
    receivers part ways (a stray `<` inside a frame). */
module Protocol {
  import opened Wrappers
  import opened Text
  import opened HostFraming
  import MS = MixingSequence
  import opened Comms

  /** Text that can stand as one field of a command: not empty, ASCII, and free of the
      markers, the comma and NUL. */
  predicate Field(s: string) {
    s != [] && Framable(s) && Comma !in s && Nul !in s
  }

  /** The payload of the frame the host writes for a command: `Mix,<pin>,<seconds>` or
      `Meas`. `seconds` is Python's `str` of the duration, given as `fmt`. */
  function Payload(cmd: MS.Command, fmt: real -> string): string {
    match cmd
    case Mix(pin, d) => "Mix" + [Comma] + IntText(pin) + [Comma] + fmt(d)
    case Meas => "Meas"
  }

  /** What the firmware is meant to do for a command: run the pump on that pin for that
      duration and reply, or reply and measure. */
  function Intended(cmd: MS.Command, fmt: real -> string, halfSeconds: int): seq<Event> {
    match cmd
    case Mix(pin, d) => [RunPump(IntText(pin), fmt(d)), Reply(Payload(cmd, fmt), halfSeconds)]
    case Meas => [Reply("Meas", halfSeconds), RunMeasurement]
  }

  /** The decimal text of an integer is a field. */
  lemma IntTextField(n: int)
    ensures Field(IntText(n))
  {
    IntTextFramable(n);
    var s := IntText(n);
    forall i | 0 <= i < |s| ensures s[i] != Nul {
    }
  }

  /** The firmware splits `Mix,<pin>,<seconds>` back into its three fields. */
  lemma MixTokens(pin: int, seconds: string)
    requires Field(seconds)
    ensures Tokens("Mix" + [Comma] + IntText(pin) + [Comma] + seconds) == ["Mix", IntText(pin), seconds]
  {
    var parts := ["Mix", IntText(pin), seconds];
    IntTextField(pin);
    assert Comma !in parts[0] && parts[0] != [];
    assert Join(parts[2..], Comma) == seconds;
    assert Join(parts[1..], Comma) == IntText(pin) + [Comma] + seconds;
    assert Join(parts, Comma) == "Mix" + [Comma] + IntText(pin) + [Comma] + seconds;
    TokensOfJoin(parts);
  }

  /** Every command the host sends, framed as `run_test` frames it, makes the firmware do
      what the command means, provided the payload fits the firmware's buffer; the pin is
      read back by `atoi` as the number the host wrote, when C's `int` can hold it. */
  lemma CommandUnderstood(f: Fw, cmd: MS.Command, fmt: real -> string)
    requires Valid(f)
    requires cmd.Mix? ==> Field(fmt(cmd.duration))
    requires |Payload(cmd, fmt)| < BuffSize
    requires cmd.Mix? ==> IntMin <= cmd.pin <= IntMax
    ensures Feed(f, ['<'] + Payload(cmd, fmt) + ['>']).out == f.out + Intended(cmd, fmt, f.now / 512)
    ensures cmd.Mix? ==> Atoi(IntText(cmd.pin)) == cmd.pin
  {
    if cmd.Mix? {
      MixUnderstood(f, cmd.pin, fmt(cmd.duration));
      AtoiOfIntText(cmd.pin);
    } else {
      MeasUnderstood(f);
    }
  }

  lemma MixUnderstood(f: Fw, pin: int, seconds: string)
    requires Valid(f) && Field(seconds)
    requires |"Mix" + [Comma] + IntText(pin) + [Comma] + seconds| < BuffSize
    ensures var p := "Mix" + [Comma] + IntText(pin) + [Comma] + seconds;
      Feed(f, ['<'] + p + ['>']).out == f.out + [RunPump(IntText(pin), seconds), Reply(p, f.now / 512)]
  {
    var p := "Mix" + [Comma] + IntText(pin) + [Comma] + seconds;
    IntTextField(pin);
    MixTokens(pin, seconds);
    FrameDispatch(f, p);
    assert Kept(p) == p;
  }

  lemma MeasUnderstood(f: Fw)
    requires Valid(f)
    ensures Feed(f, ['<'] + "Meas" + ['>']).out == f.out + [Reply("Meas", f.now / 512), RunMeasurement]
  {
    SingleToken("Meas");
    FrameDispatch(f, "Meas");
    assert Kept("Meas") == "Meas";
  }

  /** The reply frame's payload: `Msg <message> Time <t>`. */
  function ReplyText(message: string, halfSeconds: int): string {
    "Msg " + message + " Time " + IntText(halfSeconds)
  }

  lemma ReplyFramable(message: string, halfSeconds: int)
    requires Framable(message)
    ensures Framable(ReplyText(message, halfSeconds))
  {
    IntTextFramable(halfSeconds);
    assert Framable("Msg ") && Framable(" Time ");
    FramableConcat("Msg ", message);
    FramableConcat("Msg " + message, " Time ");
    FramableConcat("Msg " + message + " Time ", IntText(halfSeconds));
  }

  /** The bytes of the reply frame, `<Msg message Time t>`. */
  function ReplyFrame(message: string, halfSeconds: int): seq<Byte>
    requires Framable(message)
  {
    ReplyFramable(message, halfSeconds);
    Wrap(ReplyText(message, halfSeconds))
  }

  /** A reply to a framable payload is read back whole by `recv_from_arduino`, which leaves
      exactly the bytes after it. */
  lemma ReplyReadBack(message: string, halfSeconds: int, rest: seq<Byte>)
    requires Framable(message)
    ensures NextFrame(ReplyFrame(message, halfSeconds) + rest) == Got(ReplyText(message, halfSeconds), rest)
  {
    ReplyFramable(message, halfSeconds);
    WrappedReadBack(ReplyText(message, halfSeconds), rest);
  }

  /** A frame at the head of the input is read back whole. */
  lemma WrappedReadBack(p: string, rest: seq<Byte>)
    requires Framable(p)
    ensures NextFrame(Wrap(p) + rest) == Got(p, rest)
  {
    FrameRoundTrip([], p, rest);
    assert [] + Wrap(p) + rest == Wrap(p) + rest;
  }

  /** The line ending `Serial.println` writes after every frame: carriage return, line feed. */
  const LineEnd: seq<Byte> := [13, 10]

  /** The firmware answers `<Meas>` with its reply line and then the reading line; the host's
      `measure` reads past the reply and returns the reading, leaving the reading's line
      ending unread. */
  lemma MeasureRoundTrip(l: MS.Link, halfSeconds: int, r: int, g: int, b: int, rest: seq<Byte>)
    requires MS.ClearBuffer(l).rx == ReplyFrame("Meas", halfSeconds) + (LineEnd + (RgbFrame(r, g, b) + (LineEnd + rest)))
    ensures MS.Measure(l) == MS.Done([r, g, b], MS.Link(LineEnd + rest, MS.ClearBuffer(l).waiting, l.trace + [MS.Sent(MS.Meas)]))
  {
    var reading := RgbFrame(r, g, b) + (LineEnd + rest);
    ReplyFramable("Meas", halfSeconds);
    ReadRgbOfReading(r, g, b, LineEnd + rest);
    ReadRgbSkipsJunk(LineEnd, reading);
    MS.MeasureReads(l, ReplyText("Meas", halfSeconds), LineEnd + reading);
  }

  /** The banner `setup()` prints completes the host's handshake at once. */
  lemma HandshakeOnBanner(rest: seq<Byte>)
    ensures Framable(ReadyBanner)
    ensures AwaitReady(Wrap(ReadyBanner) + rest) == Got([ReadyBanner], rest)
  {
    assert Framable(ReadyBanner);
    ContainsAt(ReadyBanner, ReadyBanner, 0);
    AwaitReadyOnFrame(ReadyBanner, rest);
  }

  /** The two receivers disagree on a stray `<` inside a frame: for the bytes `<a<b>` the host
      returns `a` and `b` joined, while the firmware restarts at the second `<` and dispatches
      on `b` alone. */
  lemma StrayStartDiffers(f: Fw, a: string, b: string, rest: seq<Byte>)
    requires Framable(a) && Framable(b) && Nul !in b && Valid(f)
    ensures NextFrame([StartMarker] + Encode(a) + [StartMarker] + Encode(b) + [EndMarker] + rest) == Got(a + b, rest)
    ensures Feed(f, ['<'] + a + (['<'] + b + ['>'])).out == f.out + Respond(Kept(b), f.now / 512)
  {
    StrayStartKept(a, b, rest);
    RestartDropsPrefix(f, ['<'] + a, b);
  }
}
