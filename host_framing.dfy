/** What the host reads from the serial line, as functions of the bytes still to come:
    one `<...>` frame (`recv_from_arduino`), the start-up handshake (`wait_for_arduino`)
    and the colour reading (`get_rgb`). Each returns what it read and the bytes it left unread.
    The loops that compute these, byte by byte, are the methods of `PumpControl.PumpController`. */
module HostFraming {
  import opened Wrappers
  import opened Text

  const StartMarker: Byte := 60
  const EndMarker: Byte := 62
  const ReadyBanner: string := "Arduino is ready"
  const RgbTag: string := "RGB"

  /** Why a host operation does not return normally.
      Starved: the bytes ran out before a complete frame; the program would block in `ser.read()`.
      Undecodable: a payload byte of 128 or more, on which the per-byte `decode("utf-8")` raises.
      NoColon: `msg.split(':')[1]` raises `IndexError` on a frame without a colon.
      NotInteger: `int(...)` raises `ValueError` on a field that is not a decimal integer.
      TargetUnset: `write_to_logfile` raises `TypeError` while a target is still `None`.
      UnknownPump: the pump table has no entry for the pump named (`KeyError`).
      WrongShape: the mixture does not have four weights (`reshape(4,)` raises `ValueError`).
      EmptyField: `write_to_logfile` joins a list of no values to `""`, on which `literal_eval`
        raises `SyntaxError`.
      ScalarField: `write_to_logfile` joins a list of one value to a single number, which
        `literal_eval` reads as a number rather than a tuple; iterating it raises `TypeError`. */
  datatype Fault = Starved | Undecodable | NoColon | NotInteger | TargetUnset | UnknownPump | WrongShape
                 | EmptyField | ScalarField

  /** A value read from the line together with the bytes left unread, or a fault with the
      bytes left unread when it was raised. */
  datatype Read<+T> = Got(value: T, rest: seq<Byte>) | Fail(fault: Fault, rest: seq<Byte>)

  predicate IsSuffix(rest: seq<Byte>, rx: seq<Byte>) {
    |rest| <= |rx| && rest == rx[|rx| - |rest|..]
  }

  predicate Ascii(s: string) {
    forall i :: 0 <= i < |s| ==> s[i] < 128 as char
  }

  /** Text that can travel as the payload of one frame. */
  predicate Framable(p: string) {
    Ascii(p) && '<' !in p && '>' !in p
  }

  /** `str.encode('utf-8')` on ASCII text. */
  function Encode(s: string): (r: seq<Byte>)
    requires Ascii(s)
    ensures |r| == |s|
  {
    seq(|s|, i requires 0 <= i < |s| => s[i] as int)
  }

  /** The bytes of one frame carrying `p`. */
  function Wrap(p: string): seq<Byte>
    requires Ascii(p)
  {
    [StartMarker] + Encode(p) + [EndMarker]
  }

  /** The inner loop of `recv_from_arduino`, started just after a `<`: every byte up to the
      next `>` is decoded and appended, except a further `<`, which is dropped. */
  function Capture(rx: seq<Byte>): (r: Read<string>)
    ensures IsSuffix(r.rest, rx)
    ensures r.Got? ==> |r.rest| < |rx|
    ensures r.Fail? ==> r.fault == Starved || r.fault == Undecodable
  {
    if rx == [] then Fail(Starved, [])
    else if rx[0] == EndMarker then Got([], rx[1..])
    else if rx[0] == StartMarker then Capture(rx[1..])
    else if rx[0] >= 128 then Fail(Undecodable, rx[1..])
    else
      match Capture(rx[1..])
      case Got(p, rest) => Got([rx[0] as char] + p, rest)
      case Fail(f, rest) => Fail(f, rest)
  }

  /** `recv_from_arduino`: skip to the first `<`, then capture up to the next `>`. */
  function NextFrame(rx: seq<Byte>): (r: Read<string>)
    ensures IsSuffix(r.rest, rx)
    ensures r.Got? ==> |r.rest| < |rx|
    ensures r.Fail? ==> r.fault == Starved || r.fault == Undecodable
  {
    if rx == [] then Fail(Starved, [])
    else if rx[0] == StartMarker then Capture(rx[1..])
    else NextFrame(rx[1..])
  }

  /** One step of the search for a `<`, on the byte `x` just read. */
  lemma NextFrameFirst(x: Byte, rest: seq<Byte>)
    ensures NextFrame([x] + rest) == if x == StartMarker then Capture(rest) else NextFrame(rest)
  {
    assert ([x] + rest)[0] == x && ([x] + rest)[1..] == rest;
  }

  function Prepend(a: string, r: Read<string>): Read<string> {
    match r
    case Got(p, rest) => Got(a + p, rest)
    case Fail(f, rest) => Fail(f, rest)
  }

  /** One step of the capture loop, on the byte `x` it has just read. */
  lemma CaptureFirst(x: Byte, rest: seq<Byte>)
    ensures Capture([x] + rest) == (if x == EndMarker then Got([], rest)
                                   else if x == StartMarker then Capture(rest)
                                   else if x >= 128 then Fail(Undecodable, rest)
                                   else Prepend([x as char], Capture(rest)))
  {
    assert ([x] + rest)[0] == x && ([x] + rest)[1..] == rest;
  }

  /** The capture loop's invariant, `want == Prepend(kept, Capture([x] + rest))`, across one
      byte `x`: a byte other than a marker is kept, a `<` is dropped, a `>` ends the frame,
      and a byte of 128 or more cannot be decoded. */
  lemma CaptureByte(want: Read<string>, kept: string, x: Byte, rest: seq<Byte>)
    requires want == Prepend(kept, Capture([x] + rest))
    ensures x == EndMarker ==> want == Got(kept, rest)
    ensures x == StartMarker ==> want == Prepend(kept, Capture(rest))
    ensures x != EndMarker && x != StartMarker && x >= 128 ==> want == Fail(Undecodable, rest)
    ensures x != EndMarker && x != StartMarker && x < 128 ==>
      want == Prepend(kept + [x as char], Capture(rest))
  {
    CaptureFirst(x, rest);
    PrependPrepend(kept, [x as char], Capture(rest));
    assert kept + [] == kept;
  }

  lemma {:induction false} CaptureText(a: string, x: seq<Byte>)
    requires Framable(a)
    ensures Capture(Encode(a) + x) == Prepend(a, Capture(x))
  {
    if a != [] {
      var c := a[0] as int;
      assert c != StartMarker && c != EndMarker && c < 128 by {
        assert a[0] != '<' && a[0] != '>' && a[0] < 128 as char;
      }
      EncodeCons(a, x);
      PrependEmpty(Capture([c] + (Encode(a[1..]) + x)));
      CaptureByte(Capture(Encode(a) + x), [], c, Encode(a[1..]) + x);
      CaptureText(a[1..], x);
      PrependPrepend([a[0]], a[1..], Capture(x));
      assert [] + [c as char] == [a[0]] && [a[0]] + a[1..] == a;
    } else {
      assert Encode(a) + x == x;
      PrependEmpty(Capture(x));
    }
  }

  lemma EncodeCons(a: string, x: seq<Byte>)
    requires a != [] && Ascii(a)
    ensures Ascii(a[1..]) && Encode(a) + x == [a[0] as int] + (Encode(a[1..]) + x)
  {
    assert Encode(a) == [a[0] as int] + Encode(a[1..]);
  }

  lemma PrependEmpty(r: Read<string>)
    ensures Prepend([], r) == r
  {
    if r.Got? {
      assert [] + r.value == r.value;
    }
  }

  lemma PrependPrepend(a: string, b: string, r: Read<string>)
    ensures Prepend(a, Prepend(b, r)) == Prepend(a + b, r)
  {
    if r.Got? {
      assert a + (b + r.value) == a + b + r.value;
    }
  }

  /** Bytes before the first `<` are discarded. */
  lemma {:induction false} JunkSkipped(junk: seq<Byte>, x: seq<Byte>)
    requires StartMarker !in junk
    ensures NextFrame(junk + x) == NextFrame(x)
  {
    if junk != [] {
      assert junk + x == [junk[0]] + (junk[1..] + x);
      NextFrameFirst(junk[0], junk[1..] + x);
      JunkSkipped(junk[1..], x);
    } else {
      assert junk + x == x;
    }
  }

  /** A frame carrying `p`, after any bytes without a `<`, is read back as `p`, and exactly
      the bytes after its `>` are left. */
  lemma FrameRoundTrip(junk: seq<Byte>, p: string, rest: seq<Byte>)
    requires StartMarker !in junk && Framable(p)
    ensures NextFrame(junk + Wrap(p) + rest) == Got(p, rest)
  {
    JunkSkipped(junk, Wrap(p) + rest);
    assert junk + Wrap(p) + rest == junk + (Wrap(p) + rest);
    assert (Wrap(p) + rest)[1..] == Encode(p) + ([EndMarker] + rest);
    CaptureText(p, [EndMarker] + rest);
    assert ([EndMarker] + rest)[1..] == rest;
    assert p + [] == p;
  }

  /** A stray `<` inside an open frame is dropped and the bytes before it are kept:
      `<AB<CD>` reads as `ABCD`. */
  lemma StrayStartKept(a: string, b: string, rest: seq<Byte>)
    requires Framable(a) && Framable(b)
    ensures NextFrame([StartMarker] + Encode(a) + [StartMarker] + Encode(b) + [EndMarker] + rest)
         == Got(a + b, rest)
  {
    var y := Encode(b) + ([EndMarker] + rest);
    var x := [StartMarker] + y;
    calc {
      NextFrame([StartMarker] + Encode(a) + [StartMarker] + Encode(b) + [EndMarker] + rest);
    == { StrayShape(Encode(a), Encode(b), rest); NextFrameFirst(StartMarker, Encode(a) + x); }
      Capture(Encode(a) + x);
    == { CaptureText(a, x); }
      Prepend(a, Capture(x));
    == { CaptureFirst(StartMarker, y); }
      Prepend(a, Capture(y));
    == { CaptureText(b, [EndMarker] + rest); }
      Prepend(a, Prepend(b, Capture([EndMarker] + rest)));
    == { CaptureFirst(EndMarker, rest); assert b + [] == b; }
      Prepend(a, Got(b, rest));
    }
  }

  lemma StrayShape(a: seq<Byte>, b: seq<Byte>, rest: seq<Byte>)
    ensures [StartMarker] + a + [StartMarker] + b + [EndMarker] + rest
         == [StartMarker] + (a + ([StartMarker] + (b + ([EndMarker] + rest))))
  {
  }

  /** Index of the first occurrence of `b`, or the length when there is none. */
  function IndexOf(rx: seq<Byte>, b: Byte): (k: nat)
    ensures k <= |rx| && b !in rx[..k] && (k < |rx| ==> rx[k] == b)
  {
    if rx == [] then 0
    else if rx[0] == b then 0
    else
      assert rx[..1 + IndexOf(rx[1..], b)] == [rx[0]] + rx[1..][..IndexOf(rx[1..], b)];
      1 + IndexOf(rx[1..], b)
  }

  /** The characters of the bytes, with every `<` left out. */
  function DropStarts(bs: seq<Byte>): string {
    if bs == [] then []
    else if bs[0] == StartMarker then DropStarts(bs[1..])
    else [bs[0] as char] + DropStarts(bs[1..])
  }

  lemma {:induction false} CaptureSpan(rx: seq<Byte>)
    requires Capture(rx).Got?
    ensures var e := |rx| - |Capture(rx).rest| - 1;
      0 <= e < |rx| && rx[e] == EndMarker && EndMarker !in rx[..e]
      && Capture(rx).value == DropStarts(rx[..e]) && Framable(Capture(rx).value)
  {
    var e := |rx| - |Capture(rx).rest| - 1;
    if rx[0] != EndMarker {
      CaptureSpan(rx[1..]);
      assert rx[..e][1..] == rx[1..][..e - 1];
    } else {
      assert rx[..e] == [];
    }
  }

  /** `p` is what lies strictly between positions `s` and `e` of `rx`, where a `>` sits at `e`,
      none comes earlier, and every `<` is dropped. */
  predicate Spans(rx: seq<Byte>, s: int, e: int, p: string) {
    0 <= s < e < |rx| && rx[e] == EndMarker && EndMarker !in rx[s + 1..e]
    && p == DropStarts(rx[s + 1..e]) && Framable(p)
  }

  lemma SpansShift(rx: seq<Byte>, s: int, e: int, p: string)
    requires rx != [] && Spans(rx[1..], s, e, p)
    ensures Spans(rx, s + 1, e + 1, p)
  {
    assert rx[1..][s + 1..e] == rx[s + 2..e + 1];
  }

  /** What `recv_from_arduino` returns: the bytes strictly between the first `<` and the next
      `>`, with every further `<` dropped; the payload holds neither marker, and reading
      resumes just after that `>`. */
  lemma {:induction false} FrameSpan(rx: seq<Byte>)
    requires NextFrame(rx).Got?
    ensures Spans(rx, IndexOf(rx, StartMarker), |rx| - |NextFrame(rx).rest| - 1, NextFrame(rx).value)
  {
    var e := |rx| - |NextFrame(rx).rest| - 1;
    if rx[0] == StartMarker {
      assert Capture(rx[1..]) == NextFrame(rx);
      CaptureSpan(rx[1..]);
      assert rx[1..][..e - 1] == rx[1..e];
    } else {
      assert NextFrame(rx[1..]) == NextFrame(rx);
      FrameSpan(rx[1..]);
      SpansShift(rx, IndexOf(rx[1..], StartMarker), e - 1, NextFrame(rx).value);
    }
  }

  /** `n` frames read one after another, as the host's loops do. */
  function ReadFrames(rx: seq<Byte>, n: nat): (r: Read<seq<string>>)
    ensures r.Got? ==> |r.value| == n
  {
    if n == 0 then Got([], rx)
    else
      match NextFrame(rx)
      case Fail(f, rest) => Fail(f, rest)
      case Got(msg, rest) =>
        match ReadFrames(rest, n - 1)
        case Got(msgs, r) => Got([msg] + msgs, r)
        case Fail(f, r) => Fail(f, r)
  }

  /** `wait_for_arduino`: frames are read (and printed) until one whose payload contains
      "Arduino is ready"; the result lists every frame read. */
  function AwaitReady(rx: seq<Byte>): (r: Read<seq<string>>)
    ensures IsSuffix(r.rest, rx)
    decreases |rx|
  {
    match NextFrame(rx)
    case Fail(f, rest) => Fail(f, rest)
    case Got(msg, rest) =>
      if Contains(msg, ReadyBanner) then Got([msg], rest)
      else
        match AwaitReady(rest)
        case Got(msgs, r) => Got([msg] + msgs, r)
        case Fail(f, r) => Fail(f, r)
  }

  /** The handshake returns right after the first frame that announces readiness: every
      earlier frame was read in order and did not contain the banner. */
  lemma {:induction false} AwaitReadyStopsAtBanner(rx: seq<Byte>)
    requires AwaitReady(rx).Got?
    ensures var msgs := AwaitReady(rx).value;
      |msgs| >= 1 && Contains(msgs[|msgs| - 1], ReadyBanner)
      && (forall k :: 0 <= k < |msgs| - 1 ==> !Contains(msgs[k], ReadyBanner))
      && ReadFrames(rx, |msgs|) == Got(msgs, AwaitReady(rx).rest)
    decreases |rx|
  {
    var f := NextFrame(rx);
    var msgs := AwaitReady(rx).value;
    if Contains(f.value, ReadyBanner) {
      assert msgs == [f.value];
      assert ReadFrames(f.rest, 0) == Got([], f.rest);
      assert [f.value] + [] == [f.value];
    } else {
      var tail := AwaitReady(f.rest);
      AwaitReadyStopsAtBanner(f.rest);
      assert msgs == [f.value] + tail.value;
      assert ReadFrames(rx, |msgs|) == Got(msgs, AwaitReady(rx).rest);
      forall k | 0 <= k < |msgs| - 1 ensures !Contains(msgs[k], ReadyBanner) {
        if k > 0 {
          assert msgs[k] == tail.value[k - 1];
        }
      }
    }
  }

  /** A banner frame ends the wait at once; any other frame is read and passed over. */
  lemma AwaitReadyOnFrame(p: string, rest: seq<Byte>)
    requires Framable(p)
    ensures Contains(p, ReadyBanner) ==> AwaitReady(Wrap(p) + rest) == Got([p], rest)
    ensures !Contains(p, ReadyBanner) ==>
      AwaitReady(Wrap(p) + rest) == match AwaitReady(rest)
                                    case Got(msgs, r) => Got([p] + msgs, r)
                                    case Fail(f, r) => Fail(f, r)
  {
    FrameRoundTrip([], p, rest);
    assert [] + Wrap(p) + rest == Wrap(p) + rest;
  }

  /** `list(map(int, fields))`. */
  function ParseInts(fields: seq<string>): (r: Result<seq<int>, Fault>)
    ensures r.Ok? ==> |r.value| == |fields|
    ensures r.Err? ==> r.error == NotInteger
  {
    if fields == [] then Ok([])
    else
      match ParseInt(fields[0])
      case None => Err(NotInteger)
      case Some(v) =>
        match ParseInts(fields[1..])
        case Ok(vs) => Ok([v] + vs)
        case Err(e) => Err(e)
  }

  /** `list(map(int, msg.split(':')[1].split(',')))`. */
  function ParseRgb(msg: string): (r: Result<seq<int>, Fault>)
    ensures r.Err? ==> r.error == NoColon || r.error == NotInteger
    ensures r.Ok? ==> |r.value| >= 1
  {
    var fields := Split(msg, ':');
    if |fields| < 2 then Err(NoColon) else ParseInts(Split(fields[1], ','))
  }

  /** `get_rgb`: read a frame and parse it, and repeat until the frame read contains "RGB". */
  function ReadRgb(rx: seq<Byte>): (r: Read<seq<int>>)
    ensures IsSuffix(r.rest, rx)
    ensures r.Got? ==> |r.value| >= 1
    ensures r.Fail? ==> r.fault == Starved || r.fault == Undecodable || r.fault == NoColon || r.fault == NotInteger
    decreases |rx|
  {
    match NextFrame(rx)
    case Fail(f, rest) => Fail(f, rest)
    case Got(msg, rest) =>
      match ParseRgb(msg)
      case Err(f) => Fail(f, rest)
      case Ok(v) => if Contains(msg, RgbTag) then Got(v, rest) else ReadRgb(rest)
  }

  /** The payload the firmware sends after a measurement. */
  function RgbText(r: int, g: int, b: int): string {
    RgbTag + ":" + IntText(r) + "," + IntText(g) + "," + IntText(b)
  }

  lemma IntTextFramable(n: int)
    ensures Framable(IntText(n)) && ',' !in IntText(n) && ':' !in IntText(n)
  {
    var s := IntText(n);
    forall i | 0 <= i < |s| ensures s[i] < 128 as char && s[i] != '<' && s[i] != '>'
                                  && s[i] != ',' && s[i] != ':' {
    }
  }

  lemma RgbTextFramable(r: int, g: int, b: int)
    ensures Framable(RgbText(r, g, b))
  {
    IntTextFramable(r);
    IntTextFramable(g);
    IntTextFramable(b);
    assert Framable(RgbTag + ":") && Framable(",");
    FramableConcat(RgbTag + ":", IntText(r));
    FramableConcat(RgbTag + ":" + IntText(r), ",");
    FramableConcat(RgbTag + ":" + IntText(r) + ",", IntText(g));
    FramableConcat(RgbTag + ":" + IntText(r) + "," + IntText(g), ",");
    FramableConcat(RgbTag + ":" + IntText(r) + "," + IntText(g) + ",", IntText(b));
  }

  lemma FramableConcat(a: string, b: string)
    requires Framable(a) && Framable(b)
    ensures Framable(a + b)
  {
    forall i | 0 <= i < |a + b| ensures (a + b)[i] < 128 as char {
      if i >= |a| {
        assert (a + b)[i] == b[i - |a|];
      }
    }
  }

  lemma SplitReading(r: int, g: int, b: int)
    ensures Split(RgbText(r, g, b), ':') == [RgbTag, IntText(r) + "," + IntText(g) + "," + IntText(b)]
  {
    IntTextFramable(r);
    IntTextFramable(g);
    IntTextFramable(b);
    SplitTagged(RgbTag, IntText(r), IntText(g), IntText(b));
  }

  /** A tag and three comma-separated fields, none holding a colon, split at the one colon. */
  lemma SplitTagged(tag: string, x: string, y: string, z: string)
    requires ':' !in tag && ':' !in x && ':' !in y && ':' !in z
    ensures Split(tag + ":" + x + "," + y + "," + z, ':') == [tag, x + "," + y + "," + z]
  {
    var values := x + "," + y + "," + z;
    assert tag + ":" + x + "," + y + "," + z == tag + [':'] + values;
    assert ':' !in values;
    SplitField(tag, ':', values);
    SplitField(values, ':', []);
  }

  lemma SplitValues(r: int, g: int, b: int)
    ensures Split(IntText(r) + "," + IntText(g) + "," + IntText(b), ',') == [IntText(r), IntText(g), IntText(b)]
  {
    IntTextFramable(r);
    IntTextFramable(g);
    IntTextFramable(b);
    var parts := [IntText(r), IntText(g), IntText(b)];
    assert Join(parts[2..], ',') == IntText(b);
    assert Join(parts[1..], ',') == IntText(g) + [','] + IntText(b);
    assert Join(parts, ',') == IntText(r) + "," + IntText(g) + "," + IntText(b);
    SplitJoin(parts, ',');
  }

  lemma ParseRgbOfReading(r: int, g: int, b: int)
    ensures ParseRgb(RgbText(r, g, b)) == Ok([r, g, b])
  {
    SplitReading(r, g, b);
    SplitValues(r, g, b);
    ParseIntsOfTexts(r, g, b);
  }

  lemma ParseIntsOfTexts(r: int, g: int, b: int)
    ensures ParseInts([IntText(r), IntText(g), IntText(b)]) == Ok([r, g, b])
  {
    ParseIntRoundTrip(r);
    ParseIntRoundTrip(g);
    ParseIntRoundTrip(b);
    ParseThree(IntText(r), IntText(g), IntText(b), r, g, b);
  }

  lemma ParseThree(x: string, y: string, z: string, u: int, v: int, w: int)
    requires ParseInt(x) == Some(u) && ParseInt(y) == Some(v) && ParseInt(z) == Some(w)
    ensures ParseInts([x, y, z]) == Ok([u, v, w])
  {
    ParseIntsCons(z, [], w, []);
    assert [z] + [] == [z] && [w] + [] == [w];
    ParseIntsCons(y, [z], v, [w]);
    assert [y] + [z] == [y, z] && [v] + [w] == [v, w];
    ParseIntsCons(x, [y, z], u, [v, w]);
    assert [x] + [y, z] == [x, y, z] && [u] + [v, w] == [u, v, w];
  }

  lemma ParseIntsCons(field: string, fields: seq<string>, v: int, vs: seq<int>)
    requires ParseInt(field) == Some(v) && ParseInts(fields) == Ok(vs)
    ensures ParseInts([field] + fields) == Ok([v] + vs)
  {
    assert ([field] + fields)[0] == field;
    assert ([field] + fields)[1..] == fields;
  }

  /** The frame the firmware sends after a measurement. */
  function RgbFrame(r: int, g: int, b: int): seq<Byte> {
    RgbTextFramable(r, g, b);
    Wrap(RgbText(r, g, b))
  }

  /** A reading `RGB:r,g,b` is returned as `[r, g, b]`, with exactly its frame consumed. */
  lemma ReadRgbOfReading(r: int, g: int, b: int, rest: seq<Byte>)
    ensures ReadRgb(RgbFrame(r, g, b) + rest) == Got([r, g, b], rest)
  {
    var msg := RgbText(r, g, b);
    RgbTextFramable(r, g, b);
    ParseRgbOfReading(r, g, b);
    ContainsAt(msg, RgbTag, 0);
    ReadRgbTakesFrame(msg, rest);
  }

  /** A frame that parses and contains "RGB" is the one returned. */
  lemma ReadRgbTakesFrame(p: string, rest: seq<Byte>)
    requires Framable(p) && ParseRgb(p).Ok? && Contains(p, RgbTag)
    ensures ReadRgb(Wrap(p) + rest) == Got(ParseRgb(p).value, rest)
  {
    FrameRoundTrip([], p, rest);
    assert [] + Wrap(p) + rest == Wrap(p) + rest;
  }

  /** Bytes before the next `<` (the line ending `println` leaves) do not change the reading. */
  lemma ReadRgbSkipsJunk(junk: seq<Byte>, x: seq<Byte>)
    requires StartMarker !in junk
    ensures ReadRgb(junk + x) == ReadRgb(x)
  {
    JunkSkipped(junk, x);
  }

  /** A frame that parses but does not contain "RGB" is passed over. */
  lemma ReadRgbSkipsFrame(p: string, rest: seq<Byte>)
    requires Framable(p) && ParseRgb(p).Ok? && !Contains(p, RgbTag)
    ensures ReadRgb(Wrap(p) + rest) == ReadRgb(rest)
  {
    FrameRoundTrip([], p, rest);
    assert [] + Wrap(p) + rest == Wrap(p) + rest;
  }

  /** A frame without a colon, such as the firmware's `Msg Meas Time 3` acknowledgement,
      is not passed over: `get_rgb` raises `IndexError` on it. */
  lemma ReadRgbRejectsColonless(p: string, rest: seq<Byte>)
    requires Framable(p) && ':' !in p
    ensures ReadRgb(Wrap(p) + rest) == Fail(NoColon, rest)
  {
    SplitField(p, ':', []);
    assert ParseRgb(p) == Err(NoColon);
    FrameRoundTrip([], p, rest);
    assert [] + Wrap(p) + rest == Wrap(p) + rest;
    assert NextFrame(Wrap(p) + rest) == Got(p, rest);
  }

  /** `msgs` are the frames a `get_rgb` call reads from `rx`, ending in the reading `v`. */
  ghost predicate RgbTrail(rx: seq<Byte>, msgs: seq<string>, v: seq<int>, rest: seq<Byte>) {
    && ReadFrames(rx, |msgs|) == Got(msgs, rest) && |msgs| >= 1
    && Contains(msgs[|msgs| - 1], RgbTag) && ParseRgb(msgs[|msgs| - 1]) == Ok(v)
    && (forall k :: 0 <= k < |msgs| - 1 ==> !Contains(msgs[k], RgbTag) && ParseRgb(msgs[k]).Ok?)
  }

  lemma RgbTrailCons(rx: seq<Byte>, tail: seq<string>, v: seq<int>, rest: seq<Byte>)
    requires NextFrame(rx).Got? && !Contains(NextFrame(rx).value, RgbTag) && ParseRgb(NextFrame(rx).value).Ok?
    requires RgbTrail(NextFrame(rx).rest, tail, v, rest)
    ensures RgbTrail(rx, [NextFrame(rx).value] + tail, v, rest)
  {
    var msgs := [NextFrame(rx).value] + tail;
    assert ReadFrames(rx, |msgs|) == Got(msgs, rest);
    forall k | 0 <= k < |msgs| - 1 ensures !Contains(msgs[k], RgbTag) && ParseRgb(msgs[k]).Ok? {
      if k > 0 {
        assert msgs[k] == tail[k - 1];
      }
    }
  }

  /** What `get_rgb` returns comes from the first frame containing "RGB"; every frame read
      before it parsed and did not contain "RGB". */
  lemma {:induction false} ReadRgbSource(rx: seq<Byte>)
    requires ReadRgb(rx).Got?
    ensures exists msgs :: RgbTrail(rx, msgs, ReadRgb(rx).value, ReadRgb(rx).rest)
    decreases |rx|
  {
    var f := NextFrame(rx);
    if Contains(f.value, RgbTag) {
      var msgs := [f.value];
      assert ReadFrames(f.rest, 0) == Got([], f.rest);
      assert [f.value] + [] == msgs;
      assert RgbTrail(rx, msgs, ReadRgb(rx).value, ReadRgb(rx).rest);
    } else {
      ReadRgbSource(f.rest);
      var tail :| RgbTrail(f.rest, tail, ReadRgb(rx).value, ReadRgb(rx).rest);
      RgbTrailCons(rx, tail, ReadRgb(rx).value, ReadRgb(rx).rest);
    }
  }
}
