/** The Arduino side of the serial link (`comms.h`) as functions of its global state: the
    byte-at-a-time frame receiver `getDataFromPC`, the command dispatcher `parseData` with its
    in-place `strtok`, and `replyToPC`. `Firmware.Board` runs the same steps on arrays. */
module Comms {
  import opened Wrappers
  import opened Text

  /** `buffSize`: the size of `inputBuffer` and `messageFromPC`. */
  const BuffSize: nat := 40
  const Nul: char := 0 as char
  const Comma: char := ','

  /** `unsigned long curMillis`. */
  type U32 = n: int | 0 <= n < 0x1_0000_0000

  /** What the board does that the host can observe: a pump run, `runPump(atoi(pinText),
      atof(duration))`, kept as the two texts handed to `atoi` and `atof`; a colour
      measurement (`runMeasurement`); or the reply frame `<Msg message Time t>`. */
  datatype Event = RunPump(pinText: string, duration: string) | RunMeasurement | Reply(message: string, halfSeconds: int)

  /** The globals of `comms.h`, and everything the board has done so far (`out`). */
  datatype Fw = Fw(buf: seq<char>, message: seq<char>, recvd: nat, reading: bool, newData: bool,
                   pin: int, duration: string, now: U32, out: seq<Event>)

  /** Both buffers have their declared size and the write index is inside `inputBuffer`. */
  predicate Valid(f: Fw) {
    |f.buf| == BuffSize && |f.message| == BuffSize && f.recvd < BuffSize
  }

  /** The state after `setup()`: zeroed globals, nothing done yet. */
  function Boot(): (f: Fw)
    ensures Valid(f)
  {
    Fw(seq(BuffSize, _ => Nul), seq(BuffSize, _ => Nul), 0, false, false, 0, "0.0", 0, [])
  }

  // ---------------------------------------------------------------------------------------
  // C strings

  /** The C string stored at `buf[i..]`: the characters up to the first NUL. */
  function CStr(buf: seq<char>, i: nat): (s: string)
    ensures Nul !in s
    ensures i <= |buf| ==> i + |s| <= |buf| && s == buf[i..i + |s|]
    ensures i + |s| < |buf| ==> buf[i + |s|] == Nul
    decreases |buf| - i
  {
    if i >= |buf| || buf[i] == Nul then [] else [buf[i]] + CStr(buf, i + 1)
  }

  /** A string ends at the first NUL. */
  lemma {:induction false} CStrUpTo(buf: seq<char>, i: nat, n: nat)
    requires i <= n < |buf| && buf[n] == Nul
    requires forall k :: i <= k < n ==> buf[k] != Nul
    ensures CStr(buf, i) == buf[i..n]
    decreases n - i
  {
    if i < n {
      CStrUpTo(buf, i + 1, n);
      assert buf[i..n] == [buf[i]] + buf[i + 1..n];
    }
  }

  lemma CStrBound(buf: seq<char>, i: nat, n: nat)
    requires i <= n < |buf| && buf[n] == Nul
    ensures |CStr(buf, i)| <= n - i
  {
  }

  /** `strcpy(dst, src)`: the string at `src` and its terminator are copied to the front of
      `dst`; the rest of `dst` is left as it was. */
  function Strcpy(dst: seq<char>, src: seq<char>): (r: seq<char>)
    requires |CStr(src, 0)| < |dst|
    ensures |r| == |dst| && CStr(r, 0) == CStr(src, 0)
  {
    var s := CStr(src, 0);
    var r := s + [Nul] + dst[|s| + 1..];
    CStrUpTo(r, 0, |s|);
    r
  }

  /** `atoi`: leading blanks, an optional sign, then as many decimal digits as follow, read
      left to right; no digits gives 0. */
  function Atoi(s: string): (r: int)
    ensures AllDigits(s) ==> r == DigitsValue(s)
    ensures (forall i :: 0 <= i < |s| ==> !IsDigit(s[i])) ==> r == 0
  {
    if s == [] then 0
    else if IsBlank(s[0]) then Atoi(s[1..])
    else
      DigitsAccumulate(s);
      Signed(s)
  }

  lemma DigitsAccumulate(s: string)
    ensures AllDigits(s) ==> Accumulate(s, 0) == DigitsValue(s)
  {
    if AllDigits(s) {
      AccumulateDigits(s);
    }
  }

  /** After the blanks: an optional sign, then the digits. */
  function Signed(s: string): int
    requires s != []
  {
    if s[0] == '-' then 0 - Accumulate(s[1..], 0)
    else if s[0] == '+' then Accumulate(s[1..], 0)
    else Accumulate(s, 0)
  }

  predicate IsBlank(c: char) {
    c == ' ' || c == '\t' || c == '\n' || c == '\r' || c == 11 as char || c == 12 as char
  }

  /** The digit loop of `atoi`: each digit multiplies what was read so far by ten and adds
      itself; the first non-digit ends the number. */
  function Accumulate(s: string, acc: nat): nat {
    if s != [] && IsDigit(s[0]) then Accumulate(s[1..], acc * 10 + (s[0] as int - '0' as int)) else acc
  }

  lemma {:induction false} AccumulateSnoc(s: string, c: char, acc: nat)
    requires AllDigits(s) && IsDigit(c)
    ensures Accumulate(s + [c], acc) == Accumulate(s, acc) * 10 + (c as int - '0' as int)
  {
    if s != [] {
      assert (s + [c])[1..] == s[1..] + [c];
      AccumulateSnoc(s[1..], c, acc * 10 + (s[0] as int - '0' as int));
    }
  }

  /** Read left to right, a string of digits has the value `DigitsValue` gives it. */
  lemma {:induction false} AccumulateDigits(s: string)
    requires AllDigits(s)
    ensures Accumulate(s, 0) == DigitsValue(s)
    decreases |s|
  {
    if s != [] {
      var init, c := s[..|s| - 1], s[|s| - 1];
      assert s == init + [c];
      AccumulateDigits(init);
      AccumulateSnoc(init, c, 0);
    }
  }

  /** The range C's `int` has on every Arduino board (16 bits on the AVR boards, wider on
      32-bit ones); outside the board's range `atoi`'s result is undefined. */
  const IntMin: int := -32768
  const IntMax: int := 32767

  /** `atoi` reads back the decimal text of any integer C's `int` can hold. */
  lemma AtoiOfIntText(n: int)
    requires IntMin <= n <= IntMax
    ensures Atoi(IntText(n)) == n
  {
    var s := IntText(n);
    if n < 0 {
      assert s[1..] == DigitsText(-n);
      AccumulateDigits(s[1..]);
      DigitsRoundTrip(-n);
    } else {
      AccumulateDigits(s);
      DigitsRoundTrip(n);
    }
  }

  // ---------------------------------------------------------------------------------------
  // strtok(…, ",")

  /** The first position from `i` that is not a comma. */
  function SkipDelims(buf: seq<char>, i: nat): (j: nat)
    requires i <= |buf|
    ensures i <= j <= |buf| && (j < |buf| ==> buf[j] != Comma)
    decreases |buf| - i
  {
    if i == |buf| || buf[i] != Comma then i else SkipDelims(buf, i + 1)
  }

  /** The first position from `i` holding a comma or a NUL. */
  function TokenEnd(buf: seq<char>, i: nat): (j: nat)
    requires i <= |buf|
    ensures i <= j <= |buf| && (j < |buf| ==> buf[j] == Comma || buf[j] == Nul)
    decreases |buf| - i
  {
    if i == |buf| || buf[i] == Comma || buf[i] == Nul then i else TokenEnd(buf, i + 1)
  }

  /** Everything a token spans is neither a comma nor a NUL. */
  lemma {:induction false} TokenEndSpans(buf: seq<char>, i: nat)
    requires i <= |buf|
    ensures forall k :: i <= k < TokenEnd(buf, i) ==> buf[k] != Comma && buf[k] != Nul
    decreases |buf| - i
  {
    if i < |buf| && buf[i] != Comma && buf[i] != Nul {
      TokenEndSpans(buf, i + 1);
    }
  }

  /** What one `strtok` call returns (`start`, `None` for NULL), the buffer after it wrote
      its terminator, and where the next `strtok(NULL, ",")` resumes (`None`: it returns NULL). */
  datatype Tok = Tok(start: Option<nat>, buf: seq<char>, next: Option<nat>)

  /** `strtok` with "," as the only delimiter, resuming at `from`: skip commas; at the end of
      the string there is no token; otherwise the token runs to the next comma, which is
      overwritten with NUL, or to the end of the string, after which nothing is left. */
  function Strtok(buf: seq<char>, from: Option<nat>): (t: Tok)
    requires from.Some? ==> from.value <= |buf|
    ensures |t.buf| == |buf|
    ensures t.next.Some? ==> t.start.Some? && t.start.value < t.next.value <= |buf|
  {
    if from.None? then Tok(None, buf, None)
    else
      var s := SkipDelims(buf, from.value);
      if s == |buf| || buf[s] == Nul then Tok(None, buf, None) else TokenAt(buf, s)
  }

  /** The token that starts at `s`. */
  function TokenAt(buf: seq<char>, s: nat): (t: Tok)
    requires s < |buf|
    ensures |t.buf| == |buf| && t.start == Some(s)
    ensures t.next.Some? ==> s < t.next.value <= |buf|
  {
    var e := TokenEnd(buf, s);
    if e == |buf| || buf[e] == Nul then Tok(Some(s), buf, None)
    else Tok(Some(s), buf[e := Nul], Some(e + 1))
  }

  /** The text of a token `strtok` returned. */
  function TokenText(t: Tok): string
    requires t.start.Some?
  {
    CStr(t.buf, t.start.value)
  }

  // ---------------------------------------------------------------------------------------
  // The reference: the tokens of a string

  /** The length of the field at the front of `s`, up to the first comma. */
  function FieldLen(s: string): (k: nat)
    ensures k <= |s|
  {
    if s == [] || s[0] == Comma then 0 else 1 + FieldLen(s[1..])
  }

  /** The non-empty comma-separated fields of `s`, in order: what successive `strtok` calls
      return on it. */
  function Tokens(s: string): seq<string>
    decreases |s|
  {
    if s == [] then []
    else if s[0] == Comma then Tokens(s[1..])
    else [s[..FieldLen(s)]] + Tokens(s[FieldLen(s)..])
  }

  /** Leading commas produce no token. */
  lemma {:induction false} SkipTokens(buf: seq<char>, i: nat, n: nat)
    requires i <= n < |buf| && buf[n] == Nul
    ensures SkipDelims(buf, i) <= n
    ensures Tokens(buf[i..n]) == Tokens(buf[SkipDelims(buf, i)..n])
    decreases n - i
  {
    if buf[i] == Comma {
      SkipTokens(buf, i + 1, n);
      assert buf[i..n][1..] == buf[i + 1..n];
    }
  }

  lemma {:induction false} FieldIsToken(buf: seq<char>, j: nat, n: nat)
    requires j <= n < |buf| && buf[n] == Nul
    requires forall k :: j <= k < n ==> buf[k] != Nul
    ensures TokenEnd(buf, j) - j == FieldLen(buf[j..n])
    decreases n - j
  {
    if j < n && buf[j] != Comma {
      FieldIsToken(buf, j + 1, n);
      assert buf[j..n][1..] == buf[j + 1..n];
    }
  }

  /** `strtok(NULL, ",")` may resume at `from`: the string there ends with the NUL at `n`. */
  predicate Resumable(buf: seq<char>, from: Option<nat>, n: nat) {
    && n < |buf| && buf[n] == Nul
    && (from.Some? ==> from.value <= n && forall k :: from.value <= k < n ==> buf[k] != Nul)
  }

  /** The tokens that later `strtok` calls resuming at `from` will still return. */
  function Remaining(buf: seq<char>, from: Option<nat>, n: nat): seq<string>
    requires Resumable(buf, from, n)
  {
    if from.None? then [] else Tokens(buf[from.value..n])
  }

  /** A token and what follows it. */
  lemma TokensSplit(buf: seq<char>, s: nat, n: nat)
    requires s < n < |buf| && buf[n] == Nul && buf[s] != Comma
    requires forall k :: s <= k < n ==> buf[k] != Nul
    ensures s < TokenEnd(buf, s) <= n
    ensures Tokens(buf[s..n]) == [buf[s..TokenEnd(buf, s)]] + Tokens(buf[TokenEnd(buf, s)..n])
  {
    var e := TokenEnd(buf, s);
    FieldIsToken(buf, s, n);
    var w := buf[s..n];
    assert w[..FieldLen(w)] == buf[s..e];
    assert w[FieldLen(w)..] == buf[e..n];
  }

  /** The token at `s` is the first of the tokens from `s`; the next call resumes after the
      comma it overwrote, or returns NULL when the string ended. */
  lemma TokenAtStep(buf: seq<char>, s: nat, n: nat)
    requires s < n < |buf| && buf[n] == Nul && buf[s] != Comma
    requires forall k :: s <= k < n ==> buf[k] != Nul
    ensures var t := TokenAt(buf, s);
      && Resumable(t.buf, t.next, n) && Tokens(buf[s..n]) != []
      && TokenText(t) == Tokens(buf[s..n])[0]
      && Remaining(t.buf, t.next, n) == Tokens(buf[s..n])[1..]
      && (t.next.None? ==> t.buf == buf)
      && (t.next.Some? ==> buf[t.next.value - 1] == Comma && t.buf == buf[t.next.value - 1 := Nul])
  {
    var t := TokenAt(buf, s);
    var e := TokenEnd(buf, s);
    TokensSplit(buf, s, n);
    TokenEndSpans(buf, s);
    CStrUpTo(t.buf, s, e);
    assert t.buf[s..e] == buf[s..e];
    if e < n {
      assert buf[e..n][1..] == buf[e + 1..n];
      assert t.buf[e + 1..n] == buf[e + 1..n];
    }
  }

  /** One `strtok` call returns the first of the tokens left and leaves the others for the
      next call; NULL exactly when none are left. */
  lemma StrtokStep(buf: seq<char>, from: Option<nat>, n: nat)
    requires Resumable(buf, from, n)
    ensures var t := Strtok(buf, from);
      && Resumable(t.buf, t.next, n)
      && (t.start.None? <==> Remaining(buf, from, n) == [])
      && (t.start.Some? ==> TokenText(t) == Remaining(buf, from, n)[0])
      && (t.start.Some? ==> Remaining(t.buf, t.next, n) == Remaining(buf, from, n)[1..])
      && (t.next.None? ==> t.buf == buf)
      && (t.next.Some? ==>
            (from.Some? && from.value < t.next.value <= n
             && buf[t.next.value - 1] == Comma && t.buf == buf[t.next.value - 1 := Nul]))
  {
    if from.Some? {
      var s := SkipDelims(buf, from.value);
      SkipTokens(buf, from.value, n);
      assert Remaining(buf, from, n) == Tokens(buf[s..n]);
      if s < n {
        assert Strtok(buf, from) == TokenAt(buf, s);
        TokenAtStep(buf, s, n);
      } else {
        assert buf[s..n] == [];
      }
    }
  }

  // ---------------------------------------------------------------------------------------
  // replyToPC, parseData, getDataFromPC

  /** `replyToPC`: only when new data has come in, send `<Msg message Time t>` once, with `t`
      the time in units of 512 ms (`curMillis >> 9`), and clear the flag. */
  function ReplyToPC(f: Fw): (r: Fw)
    ensures !r.newData
    ensures r.out == f.out + (if f.newData then [Reply(CStr(f.message, 0), f.now / 512)] else [])
    ensures r.(newData := f.newData, out := f.out) == f
  {
    if f.newData then f.(newData := false, out := f.out + [Reply(CStr(f.message, 0), f.now / 512)])
    else f
  }

  /** `parseData` may run: the write index holds the terminator `getDataFromPC` wrote. */
  predicate ParseReady(f: Fw) {
    Valid(f) && f.buf[f.recvd] == Nul
  }

  /** What `strtok` may be handed next: a buffer of the right size and a resume point in it. */
  predicate Tokenised(t: Tok) {
    && |t.buf| == BuffSize
    && (t.next.Some? ==> t.start.Some? && t.next.value <= |t.buf|)
  }

  /** `parseData`: copy the payload into `messageFromPC`, then dispatch on its first token.
      `Mix,<pin>,<duration>` sets `pin` and `duration`, runs the pump and replies; `Meas`
      replies and then measures; anything else only replies. Where the code hands a missing
      token (NULL) to `strcmp`, `atoi` or `atof`, this model replies only; see
      `NullArgument` for the code as written. */
  function ParseData(f: Fw): (r: Fw)
    requires ParseReady(f)
    ensures Valid(r) && r.recvd == f.recvd && r.reading == f.reading && r.now == f.now
    ensures !r.newData && CStr(r.message, 0) == CStr(f.buf, 0)
  {
    CStrBound(f.buf, 0, f.recvd);
    var g := f.(message := Strcpy(f.message, f.buf));
    Dispatch(g, Strtok(g.buf, Some(0)))
  }

  /** The branch on the first token `t1`. */
  function Dispatch(g: Fw, t1: Tok): (r: Fw)
    requires Valid(g) && Tokenised(t1)
    ensures Valid(r) && !r.newData && r.recvd == g.recvd && r.reading == g.reading && r.now == g.now && r.message == g.message
  {
    if t1.start.None? then ReplyToPC(g.(buf := t1.buf))
    else if TokenText(t1) == "Mix" then MixCommand(g, t1)
    else if TokenText(t1) == "Meas" then
      var h := ReplyToPC(g.(buf := t1.buf));
      h.(out := h.out + [RunMeasurement])
    else ReplyToPC(g.(buf := t1.buf))
  }

  /** `Mix`: the pin is `atoi` of the second token and the duration the third token. */
  function MixCommand(g: Fw, t1: Tok): (r: Fw)
    requires Valid(g) && Tokenised(t1)
    ensures Valid(r) && !r.newData && r.recvd == g.recvd && r.reading == g.reading && r.now == g.now && r.message == g.message
  {
    var t2 := Strtok(t1.buf, t1.next);
    if t2.start.None? then ReplyToPC(g.(buf := t2.buf))
    else
      var pin := Atoi(TokenText(t2));
      var t3 := Strtok(t2.buf, t2.next);
      if t3.start.None? then ReplyToPC(g.(buf := t3.buf, pin := pin))
      else
        var duration := TokenText(t3);
        ReplyToPC(g.(buf := t3.buf, pin := pin, duration := duration, out := g.out + [RunPump(TokenText(t2), duration)]))
  }

  /** The `>` branch of `getDataFromPC` up to the call of `parseData`: the frame is closed,
      new data is flagged and the payload is terminated where the write index stands. */
  function EndFrame(f: Fw): (r: Fw)
    requires Valid(f)
    ensures ParseReady(r) && r.newData && !r.reading && r.recvd == f.recvd
    ensures r.buf[..r.recvd] == f.buf[..f.recvd]
  {
    f.(reading := false, newData := true, buf := f.buf[f.recvd := Nul])
  }

  /** `getDataFromPC` on one byte. The order matters: `>` first ends the frame and parses,
      then a byte is stored if a frame is open (the index saturates at `buffSize - 1`), then
      `<` starts a new frame from the beginning of the buffer. */
  function GetData(f: Fw, x: char): (r: Fw)
    requires Valid(f)
    ensures Valid(r) && r.now == f.now
    ensures x != '>' ==> r.out == f.out && r.newData == f.newData && r.message == f.message
    ensures !f.reading && x != '<' && x != '>' ==> r == f
    ensures x == '<' ==> r.reading && r.recvd == 0
    ensures x == '>' ==> !r.reading && !r.newData
  {
    var f1 := if x == '>' then ParseData(EndFrame(f)) else f;
    var f2 := if f1.reading then
                f1.(buf := f1.buf[f1.recvd := x], recvd := if f1.recvd + 1 == BuffSize then BuffSize - 1 else f1.recvd + 1)
              else f1;
    if x == '<' then f2.(recvd := 0, reading := true) else f2
  }

  /** `loop()` fed with the bytes `xs`, one per call. */
  function Feed(f: Fw, xs: seq<char>): (r: Fw)
    requires Valid(f)
    ensures Valid(r) && r.now == f.now
    decreases |xs|
  {
    if xs == [] then f else Feed(GetData(f, xs[0]), xs[1..])
  }

  /** What the board does for a frame whose payload (after truncation) is `q`. */
  function Respond(q: string, halfSeconds: int): (r: seq<Event>)
    ensures Reply(q, halfSeconds) in r && |r| <= 2
    ensures RunMeasurement in r <==> Tokens(q) != [] && Tokens(q)[0] == "Meas"
    ensures forall e :: e in r && e.RunPump? ==>
              |Tokens(q)| >= 3 && Tokens(q)[0] == "Mix" && e == RunPump(Tokens(q)[1], Tokens(q)[2])
    ensures |Tokens(q)| >= 3 && Tokens(q)[0] == "Mix" ==> RunPump(Tokens(q)[1], Tokens(q)[2]) in r
  {
    Answer(Tokens(q), q, halfSeconds)
  }

  /** What the board does for the tokens `toks` of a payload `q`. */
  function Answer(toks: seq<string>, q: string, halfSeconds: int): seq<Event> {
    var reply := Reply(q, halfSeconds);
    if toks == [] then [reply]
    else if toks[0] == "Mix" && |toks| >= 3 then [RunPump(toks[1], toks[2]), reply]
    else if toks[0] == "Meas" then [reply, RunMeasurement]
    else [reply]
  }

  /** What the buffer keeps of a payload `p`: its first `buffSize - 1` characters. */
  function Kept(p: string): (q: string)
    ensures |q| <= |p| && |q| < BuffSize && q == p[..|q|]
  {
    if |p| < BuffSize then p else p[..BuffSize - 1]
  }

  function Min(a: nat, b: nat): nat {
    if a < b then a else b
  }

  // ---------------------------------------------------------------------------------------
  // Properties

  lemma {:induction false} FeedAppend(f: Fw, a: seq<char>, b: seq<char>)
    requires Valid(f)
    ensures Feed(f, a + b) == Feed(Feed(f, a), b)
    decreases |a|
  {
    if a == [] {
      assert a + b == b;
    } else {
      var g := GetData(f, a[0]);
      assert (a + b)[0] == a[0] && (a + b)[1..] == a[1..] + b;
      assert Feed(f, a + b) == Feed(g, a[1..] + b);
      FeedAppend(g, a[1..], b);
    }
  }

  /** Bytes without a `>` produce nothing and leave the flag and the message alone. */
  lemma {:induction false} FeedWithoutEnd(f: Fw, xs: seq<char>)
    requires Valid(f) && '>' !in xs
    ensures Feed(f, xs).out == f.out && Feed(f, xs).newData == f.newData
    ensures Feed(f, xs).message == f.message
    decreases |xs|
  {
    if xs != [] {
      FeedWithoutEnd(GetData(f, xs[0]), xs[1..]);
    }
  }

  /** Inside an open frame the payload fills the buffer from the front; past 39 characters
      the last slot is overwritten, so only the first 39 are kept. */
  lemma {:induction false} FillPayload(f: Fw, p: string)
    requires Valid(f) && f.reading && f.recvd == 0
    requires '<' !in p && '>' !in p
    ensures var g := Feed(f, p);
      && g.reading && g.recvd == Min(|p|, BuffSize - 1)
      && g.buf[..g.recvd] == p[..g.recvd]
      && g.(buf := f.buf, recvd := 0) == f
    decreases |p|
  {
    if p != [] {
      var p', x := p[..|p| - 1], p[|p| - 1];
      assert p == p' + [x];
      FillPayload(f, p');
      FeedAppend(f, p', [x]);
      var g' := Feed(f, p');
      assert Feed(g', [x]) == GetData(g', x);
      var g := GetData(g', x);
      if |p'| < BuffSize - 1 {
        assert g.buf[..g.recvd] == g'.buf[..g'.recvd] + [x];
      } else {
        assert g.buf[..g.recvd] == g'.buf[..g'.recvd];
      }
    }
  }

  /** `Mix` runs the pump exactly when a pin and a duration token follow, then replies. */
  lemma MixRespond(g: Fw, t1: Tok, n: nat)
    requires Valid(g) && Tokenised(t1) && g.newData
    requires Resumable(t1.buf, t1.next, n)
    ensures var rest := Remaining(t1.buf, t1.next, n);
      MixCommand(g, t1).out == g.out + (if |rest| >= 2 then [RunPump(rest[0], rest[1])] else [])
                                      + [Reply(CStr(g.message, 0), g.now / 512)]
  {
    StrtokStep(t1.buf, t1.next, n);
    var t2 := Strtok(t1.buf, t1.next);
    if t2.start.Some? {
      StrtokStep(t2.buf, t2.next, n);
    }
  }

  /** The branch on the first token answers as `Answer` says for the tokens left. */
  lemma DispatchAnswers(g: Fw, t1: Tok, n: nat, toks: seq<string>)
    requires Valid(g) && g.newData && Tokenised(t1) && Resumable(t1.buf, t1.next, n)
    requires t1.start.None? <==> toks == []
    requires t1.start.Some? ==> TokenText(t1) == toks[0] && Remaining(t1.buf, t1.next, n) == toks[1..]
    ensures Dispatch(g, t1).out == g.out + Answer(toks, CStr(g.message, 0), g.now / 512)
  {
    if t1.start.Some? && TokenText(t1) == "Mix" {
      MixRespond(g, t1, n);
    }
  }

  /** `parseData`'s dispatch on a payload `q` answers as `Respond` says. */
  lemma DispatchRespond(g: Fw, n: nat, q: string)
    requires Valid(g) && g.newData && Resumable(g.buf, Some(0), n)
    requires Remaining(g.buf, Some(0), n) == Tokens(q) && CStr(g.message, 0) == q
    ensures Dispatch(g, Strtok(g.buf, Some(0))).out == g.out + Respond(q, g.now / 512)
  {
    StrtokStep(g.buf, Some(0), n);
    DispatchAnswers(g, Strtok(g.buf, Some(0)), n, Tokens(q));
  }

  /** Without a comma in the payload, `strtok` writes nothing into the buffer. */
  lemma DispatchKeepsBuffer(g: Fw, n: nat, q: string)
    requires Valid(g) && Resumable(g.buf, Some(0), n)
    requires g.buf[..n] == q && Comma !in q
    ensures Dispatch(g, Strtok(g.buf, Some(0))).buf == g.buf
  {
    var t1 := Strtok(g.buf, Some(0));
    StrtokStep(g.buf, Some(0), n);
    assert t1.buf == g.buf;
  }

  /** `parseData` on a terminated payload `q` does what `Respond` says, and keeps `q` as the
      message. */
  lemma ParseDispatch(f: Fw, q: string)
    requires ParseReady(f) && f.newData
    requires f.buf[..f.recvd] == q && Nul !in q
    ensures ParseData(f).out == f.out + Respond(q, f.now / 512)
    ensures CStr(ParseData(f).message, 0) == q
    ensures Comma !in q ==> ParseData(f).buf == f.buf
  {
    var n := f.recvd;
    assert forall k :: 0 <= k < n ==> f.buf[k] == q[k];
    CStrUpTo(f.buf, 0, n);
    assert f.buf[0..n] == q;
    CStrBound(f.buf, 0, n);
    var g := f.(message := Strcpy(f.message, f.buf));
    assert Remaining(g.buf, Some(0), n) == Tokens(q);
    DispatchRespond(g, n, q);
    if Comma !in q {
      DispatchKeepsBuffer(g, n, q);
    }
  }

  /** Opening a frame and sending `p` leaves what the buffer keeps of `p` at its front. */
  lemma OpenFrameState(f: Fw, p: string)
    requires Valid(f) && '<' !in p && '>' !in p
    ensures var g := Feed(f, ['<'] + p);
      && g.reading && g.recvd == |Kept(p)| && g.buf[..g.recvd] == Kept(p)
      && g.out == f.out && g.newData == f.newData && g.now == f.now
  {
    FeedAppend(f, ['<'], p);
    assert Feed(f, ['<']) == GetData(f, '<');
    FillPayload(GetData(f, '<'), p);
  }

  /** Closing a frame whose buffered payload is `q` answers `q` as `Respond` says. */
  lemma CloseFrame(g: Fw, q: string)
    requires Valid(g) && g.buf[..g.recvd] == q && Nul !in q
    ensures var h := GetData(g, '>');
      && h.out == g.out + Respond(q, g.now / 512)
      && !h.reading && !h.newData && h.recvd == g.recvd
      && CStr(h.message, 0) == q
      && (Comma !in q ==> h.buf[..h.recvd] == q && h.buf[h.recvd] == Nul)
  {
    assert GetData(g, '>') == ParseData(EndFrame(g));
    ParseDispatch(EndFrame(g), q);
  }

  /** A whole frame `<p>`, from any state: the payload, cut to 39 characters, is dispatched as
      `Respond` says and becomes the message; the board is left idle with no pending reply. */
  lemma FrameDispatch(f: Fw, p: string)
    requires Valid(f)
    requires '<' !in p && '>' !in p && Nul !in p
    ensures var g := Feed(f, ['<'] + p + ['>']);
      var q := Kept(p);
      && g.out == f.out + Respond(q, f.now / 512)
      && !g.reading && !g.newData && g.recvd == |q|
      && CStr(g.message, 0) == q
      && (Comma !in p ==> g.buf[..g.recvd] == q && g.buf[g.recvd] == Nul)
  {
    var q := Kept(p);
    assert Nul !in q && (Comma !in p ==> Comma !in q) by {
      assert forall k :: 0 <= k < |q| ==> q[k] == p[k];
    }
    OpenFrameState(f, p);
    CloseFrame(Feed(f, ['<'] + p), q);
    FeedSnoc(f, ['<'] + p, '>');
  }

  /** A `>` with no frame open parses the buffer again, up to the write index. */
  lemma StrayEnd(g: Fw, q: string)
    requires Valid(g) && !g.reading && g.buf[..g.recvd] == q && Nul !in q
    ensures GetData(g, '>').out == g.out + Respond(q, g.now / 512)
  {
    assert GetData(g, '>') == ParseData(EndFrame(g));
    ParseDispatch(EndFrame(g), q);
  }

  /** After a frame without commas, whose buffer `strtok` left as it was, a stray `>`
      answers the same payload a second time. */
  lemma StrayEndRepeats(f: Fw, p: string)
    requires Valid(f) && '<' !in p && '>' !in p && Nul !in p && Comma !in p
    ensures var q := Kept(p);
      GetData(Feed(f, ['<'] + p + ['>']), '>').out == f.out + Respond(q, f.now / 512) + Respond(q, f.now / 512)
  {
    var q := Kept(p);
    FrameDispatch(f, p);
    assert Nul !in q by {
      assert forall k :: 0 <= k < |q| ==> q[k] == p[k];
    }
    StrayEndAfter(Feed(f, ['<'] + p + ['>']), q, f.out);
  }

  lemma StrayEndAfter(g: Fw, q: string, before: seq<Event>)
    requires Valid(g) && !g.reading && g.buf[..g.recvd] == q && Nul !in q
    requires g.out == before + Respond(q, g.now / 512)
    ensures GetData(g, '>').out == before + Respond(q, g.now / 512) + Respond(q, g.now / 512)
  {
    StrayEnd(g, q);
  }

  lemma FeedSnoc(f: Fw, xs: seq<char>, x: char)
    requires Valid(f)
    ensures Feed(f, xs + [x]) == GetData(Feed(f, xs), x)
  {
    FeedAppend(f, xs, [x]);
    var g := Feed(f, xs);
    assert Feed(g, [x]) == Feed(GetData(g, x), []);
  }

  /** The tokens of the payloads the findings use. */
  lemma LiteralTokens()
    ensures Tokens("") == [] && Tokens("Mix") == ["Mix"] && Tokens("Mix,3") == ["Mix", "3"]
  {
    SingleToken("Mix");
    SingleToken("3");
    assert "Mix,3" == "Mix" + [Comma] + "3";
    TokenField("Mix", "3");
  }

  // ---------------------------------------------------------------------------------------
  // The code as written: NULL tokens

  /** The library call that `parseData` as written hands a NULL token, if any: `strcmp` when
      the payload holds no token at all, `atoi` when `Mix` has no pin, `atof` when it has no
      duration. The model's `ParseData` replies only in those cases. */
  function NullArgument(f: Fw): Option<string>
    requires ParseReady(f)
  {
    var t1 := Strtok(f.buf, Some(0));
    if t1.start.None? then Some("strcmp")
    else if TokenText(t1) != "Mix" then None
    else
      var t2 := Strtok(t1.buf, t1.next);
      if t2.start.None? then Some("atoi")
      else if Strtok(t2.buf, t2.next).start.None? then Some("atof")
      else None
  }

  /** Which call gets NULL depends only on the payload's tokens. */
  lemma NullArgumentTokens(f: Fw, q: string)
    requires ParseReady(f) && f.buf[..f.recvd] == q && Nul !in q
    ensures var toks := Tokens(q);
      NullArgument(f) == (if toks == [] then Some("strcmp")
                          else if toks[0] == "Mix" && |toks| == 1 then Some("atoi")
                          else if toks[0] == "Mix" && |toks| == 2 then Some("atof")
                          else None)
  {
    var n := f.recvd;
    assert forall k :: 0 <= k < n ==> f.buf[k] == q[k];
    assert f.buf[0..n] == q;
    StrtokStep(f.buf, Some(0), n);
    var t1 := Strtok(f.buf, Some(0));
    if t1.start.Some? && TokenText(t1) == "Mix" {
      StrtokStep(t1.buf, t1.next, n);
      var t2 := Strtok(t1.buf, t1.next);
      if t2.start.Some? {
        StrtokStep(t2.buf, t2.next, n);
      }
    }
  }

  /** A field followed by a comma is one token. */
  lemma {:induction false} TokenField(a: string, rest: string)
    requires a != [] && Comma !in a
    ensures Tokens(a + [Comma] + rest) == [a] + Tokens(rest)
  {
    var s := a + [Comma] + rest;
    FieldLenStop(a, rest);
    assert s[..|a|] == a;
    assert s[|a|..][1..] == rest;
  }

  lemma {:induction false} FieldLenStop(a: string, rest: string)
    requires Comma !in a
    ensures FieldLen(a + [Comma] + rest) == |a|
  {
    if a != [] {
      FieldLenStop(a[1..], rest);
      assert (a + [Comma] + rest)[1..] == a[1..] + [Comma] + rest;
    }
  }

  /** Joining non-empty comma-free fields with commas and tokenising gives the fields back. */
  lemma {:induction false} TokensOfJoin(parts: seq<string>)
    requires |parts| >= 1
    requires forall i :: 0 <= i < |parts| ==> parts[i] != [] && Comma !in parts[i]
    ensures Tokens(Join(parts, Comma)) == parts
  {
    if |parts| == 1 {
      SingleToken(parts[0]);
    } else {
      TokensOfJoin(parts[1..]);
      TokenField(parts[0], Join(parts[1..], Comma));
    }
  }

  /** Which call the code as written hands NULL for a frame that is cut off before its `>`. */
  lemma NullArgumentOfFrame(f: Fw, p: string)
    requires Valid(f) && '<' !in p && '>' !in p && Nul !in p && |p| < BuffSize
    ensures var toks := Tokens(p);
      NullArgument(EndFrame(Feed(f, ['<'] + p))) == (if toks == [] then Some("strcmp")
                          else if toks[0] == "Mix" && |toks| == 1 then Some("atoi")
                          else if toks[0] == "Mix" && |toks| == 2 then Some("atof")
                          else None)
    ensures NullArgument(EndFrame(Feed(f, ['<'] + p))).Some? <==> MissingToken(Tokens(p))
  {
    OpenFrameState(f, p);
    assert Kept(p) == p;
    NullArgumentTokens(EndFrame(Feed(f, ['<'] + p)), p);
  }

  /** Payloads `""`, `"Mix"` and `"Mix,3"` (the frames `<>`, `<Mix>` and `<Mix,3>`) make the
      code as written pass NULL to `strcmp`, `atoi` and `atof` respectively. */
  lemma NullReachesLibrary(f: Fw, q: string)
    requires ParseReady(f) && f.buf[..f.recvd] == q
    ensures q == "" ==> NullArgument(f) == Some("strcmp")
    ensures q == "Mix" ==> NullArgument(f) == Some("atoi")
    ensures q == "Mix,3" ==> NullArgument(f) == Some("atof")
  {
    LiteralTokens();
    if q == "" || q == "Mix" || q == "Mix,3" {
      NullArgumentTokens(f, q);
    }
  }

  /** The tokens of a payload for which the code as written hands NULL to a library call:
      none at all, or `Mix` with fewer than two arguments. */
  predicate MissingToken(toks: seq<string>) {
    toks == [] || (toks[0] == "Mix" && |toks| < 3)
  }

  /** Where the code as written hands NULL to a library call, this model answers the frame
      with its reply and nothing else. */
  lemma MissingTokenReplyOnly(f: Fw, p: string)
    requires Valid(f) && '<' !in p && '>' !in p && Nul !in p && |p| < BuffSize
    requires MissingToken(Tokens(p))
    ensures Feed(f, ['<'] + p + ['>']).out == f.out + [Reply(p, f.now / 512)]
  {
    FrameDispatch(f, p);
    assert Kept(p) == p;
  }

  /** `replyToPC` sends at most one frame per piece of new data: a second call sends nothing. */
  lemma ReplyOnce(f: Fw)
    ensures ReplyToPC(ReplyToPC(f)) == ReplyToPC(f)
    ensures |ReplyToPC(f).out| == |f.out| + (if f.newData then 1 else 0)
  {
  }

  /** A payload with no comma is one token. */
  lemma {:induction false} SingleToken(q: string)
    requires q != [] && Comma !in q
    ensures Tokens(q) == [q]
  {
    assert FieldLen(q) == |q| by { FieldLenNoComma(q); }
    assert q[..|q|] == q && q[|q|..] == [];
  }

  lemma {:induction false} FieldLenNoComma(q: string)
    requires Comma !in q
    ensures FieldLen(q) == |q|
  {
    if q != [] {
      FieldLenNoComma(q[1..]);
    }
  }

  /** Whatever arrived before a `<`, if it holds no `>`, is dropped: the frame that `<`
      opens is answered as if nothing had come before it. */
  lemma RestartDropsPrefix(f: Fw, a: string, p: string)
    requires Valid(f) && '>' !in a
    requires '<' !in p && '>' !in p && Nul !in p
    ensures Feed(f, a + (['<'] + p + ['>'])).out == f.out + Respond(Kept(p), f.now / 512)
  {
    FeedAppend(f, a, ['<'] + p + ['>']);
    FeedWithoutEnd(f, a);
    FrameDispatch(Feed(f, a), p);
  }
}
