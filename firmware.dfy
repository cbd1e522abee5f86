/** The globals of `comms.h` as one object: `inputBuffer` and `messageFromPC` are arrays of
    `buffSize` characters written in place, the other globals are fields. Every method does
    what the C function of the same name does, step by step, and is proved to end in the
    state that the function of `Comms` of the same name gives. */
module Firmware {
  import opened Wrappers
  import opened Text
  import opened Comms

  /** `strcpy(dst, src)`: copy the characters of `src` up to its first NUL, then the NUL. */
  method CopyString(dst: array<char>, src: array<char>)
    requires dst != src && |CStr(src[..], 0)| < dst.Length
    modifies dst
    ensures dst[..] == Comms.Strcpy(old(dst[..]), src[..])
  {
    ghost var s := CStr(src[..], 0);
    ghost var before := dst[..];
    assert forall k :: 0 <= k < |s| ==> src[k] == s[k] && src[k] != Nul;
    var i := 0;
    while i < src.Length && src[i] != Nul
      invariant 0 <= i <= |s|
      invariant forall k :: 0 <= k < i ==> dst[k] == s[k]
      invariant forall k :: i <= k < dst.Length ==> dst[k] == before[k]
      decreases src.Length - i
    {
      dst[i] := src[i];
      i := i + 1;
    }
    dst[i] := Nul;
    CopiedString(before, src[..], dst[..]);
  }

  /** A buffer that holds the string of `src`, then a NUL, then the rest of `before`, is what
      `strcpy` leaves. */
  lemma CopiedString(before: seq<char>, src: seq<char>, after: seq<char>)
    requires |CStr(src, 0)| < |before| == |after|
    requires forall k :: 0 <= k < |CStr(src, 0)| ==> after[k] == CStr(src, 0)[k]
    requires after[|CStr(src, 0)|] == Nul
    requires forall k :: |CStr(src, 0)| < k < |after| ==> after[k] == before[k]
    ensures after == Comms.Strcpy(before, src)
  {
    var s := CStr(src, 0);
    assert after == s + [Nul] + before[|s| + 1..];
  }

  /** `strtok(s, ",")`, with the position it resumes from passed in and handed back instead
      of kept in a hidden static: `from` is `None` where the C library would return NULL at
      once. Leading commas are skipped, the comma that ends the token is overwritten with
      NUL, and `next` is where the following call resumes. */
  method NextToken(buf: array<char>, from: Option<nat>) returns (start: Option<nat>, next: Option<nat>)
    requires from.Some? ==> from.value <= buf.Length
    modifies buf
    ensures Comms.Strtok(old(buf[..]), from) == Tok(start, buf[..], next)
  {
    if from.None? {
      return None, None;
    }
    var i := from.value;
    while i < buf.Length && buf[i] == Comma
      invariant from.value <= i <= buf.Length
      invariant SkipDelims(buf[..], from.value) == SkipDelims(buf[..], i)
      decreases buf.Length - i
    {
      i := i + 1;
    }
    if i == buf.Length || buf[i] == Nul {
      return None, None;
    }
    var e := i;
    while e < buf.Length && buf[e] != Comma && buf[e] != Nul
      invariant i <= e <= buf.Length
      invariant TokenEnd(buf[..], i) == TokenEnd(buf[..], e)
      decreases buf.Length - e
    {
      e := e + 1;
    }
    if e == buf.Length || buf[e] == Nul {
      return Some(i), None;
    }
    buf[e] := Nul;
    return Some(i), Some(e + 1);
  }

  class Board {
    const inputBuffer: array<char>
    const messageFromPC: array<char>
    var bytesRecvd: nat
    var readInProgress: bool
    var newDataFromPC: bool
    var pin: int
    var duration: string
    var curMillis: U32
    var out: seq<Event>

    function State(): Fw
      reads this, inputBuffer, messageFromPC
    {
      Fw(inputBuffer[..], messageFromPC[..], bytesRecvd, readInProgress, newDataFromPC, pin, duration,
         curMillis, out)
    }

    /** Two distinct buffers of `buffSize` characters, and the write index inside the first. */
    predicate Valid()
      reads this, inputBuffer, messageFromPC
    {
      inputBuffer != messageFromPC && Comms.Valid(State())
    }

    /** The board after `setup()`: zeroed globals. */
    constructor ()
      ensures Valid() && State() == Boot()
    {
      inputBuffer := new char[BuffSize](_ => Nul);
      messageFromPC := new char[BuffSize](_ => Nul);
      bytesRecvd := 0;
      readInProgress := false;
      newDataFromPC := false;
      pin := 0;
      duration := "0.0";
      curMillis := 0;
      out := [];
    }

    /** `replyToPC`. */
    method ReplyToPC()
      requires Valid()
      modifies this
      ensures Valid() && State() == Comms.ReplyToPC(old(State()))
    {
      if newDataFromPC {
        newDataFromPC := false;
        out := out + [Reply(CStr(messageFromPC[..], 0), curMillis / 512)];
      }
    }

    /** `parseData`: copy the payload, then dispatch on its first token. */
    method ParseData()
      requires Valid() && ParseReady(State())
      modifies this, inputBuffer, messageFromPC
      ensures Valid() && State() == Comms.ParseData(old(State()))
    {
      CStrBound(inputBuffer[..], 0, bytesRecvd);
      CopyString(messageFromPC, inputBuffer);
      ghost var g := State();
      var start, next := NextToken(inputBuffer, Some(0));
      ghost var t1 := Tok(start, inputBuffer[..], next);
      assert Valid();
      if start.None? {
        ReplyToPC();
      } else if CStr(inputBuffer[..], start.value) == "Mix" {
        MixCommand(next, t1);
        assert Comms.MixCommand(g.(buf := t1.buf), t1) == Comms.MixCommand(g, t1);
      } else if CStr(inputBuffer[..], start.value) == "Meas" {
        ReplyToPC();
        out := out + [RunMeasurement];
      } else {
        ReplyToPC();
      }
    }

    /** The `Mix` branch of `parseData`: `pin = atoi(…)` on the second token, `duration` from
        the third, `runPump`, then the reply. */
    method MixCommand(next: Option<nat>, ghost t1: Tok)
      requires Valid() && Tokenised(t1) && t1.buf == inputBuffer[..] && t1.next == next
      modifies this, inputBuffer
      ensures Valid() && State() == Comms.MixCommand(old(State()), t1)
    {
      var s2, n2 := NextToken(inputBuffer, next);
      if s2.None? {
        ReplyToPC();
        return;
      }
      var pinText := CStr(inputBuffer[..], s2.value);
      pin := Atoi(pinText);
      var s3, n3 := NextToken(inputBuffer, n2);
      if s3.None? {
        ReplyToPC();
        return;
      }
      duration := CStr(inputBuffer[..], s3.value);
      out := out + [RunPump(pinText, duration)];
      ReplyToPC();
    }

    /** `getDataFromPC`: `x` is the byte `Serial.read()` returns, or `None` when
        `Serial.available()` is 0. */
    method GetDataFromPC(x: Option<char>)
      requires Valid()
      modifies this, inputBuffer, messageFromPC
      ensures Valid()
      ensures x.None? ==> State() == old(State())
      ensures x.Some? ==> State() == GetData(old(State()), x.value)
    {
      if x.None? {
        return;
      }
      var c := x.value;
      if c == '>' {
        readInProgress := false;
        newDataFromPC := true;
        inputBuffer[bytesRecvd] := Nul;
        assert State() == EndFrame(old(State()));
        ParseData();
      }
      if readInProgress {
        inputBuffer[bytesRecvd] := c;
        bytesRecvd := bytesRecvd + 1;
        if bytesRecvd == BuffSize {
          bytesRecvd := BuffSize - 1;
        }
      }
      if c == '<' {
        bytesRecvd := 0;
        readInProgress := true;
      }
    }

    /** One pass of `loop()`: read the clock, then poll the serial port once. */
    method Loop(now: U32, x: Option<char>)
      requires Valid()
      modifies this, inputBuffer, messageFromPC
      ensures Valid()
      ensures x.None? ==> State() == old(State()).(now := now)
      ensures x.Some? ==> State() == GetData(old(State()).(now := now), x.value)
    {
      curMillis := now;
      GetDataFromPC(x);
    }

    /** `loop()` run once per byte of `xs`, all within one clock reading. */
    method Receive(now: U32, xs: seq<char>)
      requires Valid()
      modifies this, inputBuffer, messageFromPC
      ensures Valid() && State() == Feed(old(State()).(now := now), xs)
    {
      var i := 0;
      curMillis := now;
      while i < |xs|
        invariant 0 <= i <= |xs| && Valid()
        invariant Feed(old(State()).(now := now), xs) == Feed(State(), xs[i..])
        decreases |xs| - i
      {
        assert xs[i..][1..] == xs[i + 1..];
        Loop(now, Some(xs[i]));
        i := i + 1;
      }
    }
  }
}
