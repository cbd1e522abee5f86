# Colour-mixing pump controller: a Dafny model

The system mixes coloured liquids and measures the result. A Python controller on a PC
(`PumpController`) sends text commands over a serial line to an Arduino. The Arduino
(`comms.h`) runs a pump for a given time (`<Mix,pin,seconds>`) or measures the colour in
the cell (`<Meas>`) and answers with frames of its own (`<Msg … Time …>`, `<RGB:r,g,b>`).
A simulated controller (`SilicoPumpController`) offers the same `mix_color` and
`change_target` with no hardware: it computes the colour from a fixed primary matrix plus
noise.

The project models both ends of the serial line and the simulated controller:

| file | module | what it models |
|---|---|---|
| `wrappers.dfy` | `Wrappers` | `Option` and `Result` |
| `text.dfy` | `Text` | decimal text of integers, Python's `int` on text, `str.split`/`join`, substring search |
| `mixture.dfy` | `Mixture` | clamping, normalising and scaling a mixture; the log record |
| `host_framing.dfy` | `HostFraming` | the host's frame reader over the bytes still to come: `recv_from_arduino`, `wait_for_arduino`, `get_rgb` |
| `mixing_sequence.dfy` | `MixingSequence` | the host's command sequences as functions of the link state: `run_test`, `purge_pump`, `run_pump`, `flush`, `drain`, `reset`, `measure`, `mix_color`, `change_target` |
| `pump_controller.dfy` | `PumpControl` | class `PumpController`: the same operations as methods with loops over its fields, each proved to end where the `MixingSequence`/`HostFraming` function says |
| `silico_pump_controller.dfy` | `Silico` | the simulated mix and class `SilicoPumpController` |
| `comms.dfy` | `Comms` | the Arduino's globals as a value `Fw` and `getDataFromPC`, `parseData` (with `strcpy`, `strtok`, `atoi`) and `replyToPC` as functions of it |
| `firmware.dfy` | `Firmware` | class `Board`: the same globals as fields and two `char` arrays written in place, each method proved against the `Comms` function of the same name |
| `protocol.dfy` | `Protocol` | both ends together: what the host writes is what the board acts on, and what the board writes is what the host reads |

The serial line, seen from the host, is a `Link`. It holds every byte the Arduino will
send that the host has not read yet, and how many of those bytes have arrived at each
coming `clear_serial_buffer`. That count replaces the timing of the real line. It also
holds the trace of commands sent and pauses taken. A read that runs out of bytes is the
fault `Starved`: the real program blocks in `ser.read()` forever. The Python exceptions the
core can raise are faults as well:
- `Undecodable`: a byte of 128 or more inside a frame (`UnicodeDecodeError`).
- `NoColon`: a frame without `:` in `get_rgb` (`IndexError`).
- `NotInteger`: a field `int` cannot parse (`ValueError`).
- `UnknownPump`: a pump missing from the configuration (`KeyError`).
- `WrongShape`: a mixture that is not four long (`reshape(4,)`).
- `TargetUnset`: logging while no target is set (`TypeError` in `write_to_logfile`).
- `EmptyField`: logging an empty list, whose joined text `literal_eval` cannot read (`SyntaxError`).
- `ScalarField`: logging a one-element list, which `literal_eval` reads back as a number that
  the float conversion cannot iterate (`TypeError`). Every field is read back before any is
  converted, so an empty field anywhere is reported first.

Each command sequence states the result or fault of the Python code and the new state. It
also states that the trace grows by exactly the commands and pauses of that sequence, or by
a prefix of them when a fault ends it early (`Performs`).

The Arduino side is modelled byte by byte. `GetData` is one call of `getDataFromPC` with
one byte, and `Feed` runs it over a sequence of bytes. The events the board produces are
the pump runs, the measurements and the reply frames. `strtok` keeps its resume position
in a hidden static variable; here that position is passed in and handed back.

## Model

| member | source | states |
|---|---|---|
| `Text.ParseIntRoundTrip` | pump_controller/pump_controller.py:227 | `int` reads the decimal text of any integer back as that integer |
| `Text.ParseInt` | pump_controller/pump_controller.py:227 | Python's `int` on ASCII text: surrounding tab, line feed, vertical tab, form feed, carriage return and space are stripped, a sign may lead, single `_` may separate digits; blank text is rejected, and a negative result comes from a leading `-` |
| `Text.ParseIntIgnoresSpace` | pump_controller/pump_controller.py:227 | whitespace around a field does not change what `int` reads, so `int(" 12\r")` is `int("12")` |
| `Text.SeparatorNotSpace` | pump_controller/pump_controller.py:227 | the separator characters 28 to 31 are not whitespace to `int`: a field starting with one fails |
| `Text.ParseIntGrouped` | pump_controller/pump_controller.py:227 | an underscore between two digit groups is skipped: `int("1_0")` is `int("10")`, the value of the digits |
| `Text.SplitJoin` | pump_controller/pump_controller.py:227 | splitting fields joined by a separator that none of them contains gives the fields back |
| `Mixture.NormalizeIsDistribution` | pump_controller/pump_controller.py:420-422 | after clamping negatives to 0 and dividing by the sum, every weight is non-negative and the weights sum to 1 |
| `Mixture.NormalizeShares` | pump_controller/pump_controller.py:421-422 | a negative weight becomes 0; every other weight times the clamped sum is the original weight |
| `Mixture.VolumesFillCell` | pump_controller/pump_controller.py:426 | the scaled volumes add up to the cell volume, and none is negative when the cell volume is not |
| `Mixture.SumScale` | pump_controller/pump_controller.py:426 | scaling every element by `k` scales the sum by `k` |
| `Mixture.Clamp` | pump_controller/pump_controller.py:421 | clamping keeps the length, leaves no negative weight, and keeps every weight that was not negative |
| `Mixture.Normalize` | pump_controller/pump_controller.py:420-422 | the normalised weights keep the length and are non-negative |
| `Mixture.NegativeWeightExample` | pump_controller/pump_controller.py:420-422 | `[-0.5, 0.5, 0.5, 0.5]` normalises to `[0, 1/3, 1/3, 1/3]` |
| `Mixture.Record` | pump_controller/utils.py:17-34 | a log row exists exactly when both targets are set and every field has at least two values; an unset target fails with `TargetUnset`; otherwise an empty field in any column fails with `EmptyField`, and only when no field is empty does a one-value field fail with `ScalarField`; the row holds the mixture, the measurement and the two targets |
| `Mixture.EmptyBeforeScalar` | pump_controller/utils.py:28-34 | with a one-value measurement and an empty target mixture, the empty field's fault is the one raised |
| `HostFraming.CaptureByte` | pump_controller/pump_controller.py:109-113 | one step of the capture loop: `>` ends the frame with the text kept so far, `<` is skipped, a byte of 128 or more cannot be decoded, any other byte is appended |
| `HostFraming.Capture` | pump_controller/pump_controller.py:109-115 | the capture loop consumes part of the input, at least one byte for a frame, and fails only for want of bytes or on an undecodable byte |
| `HostFraming.NextFrame` | pump_controller/pump_controller.py:105-115 | `recv_from_arduino` leaves a suffix of the input, shorter after a frame; it fails only by starving or on an undecodable byte; a byte other than `<` in front is skipped |
| `HostFraming.JunkSkipped` | pump_controller/pump_controller.py:106-107 | bytes before the first `<` do not change what is read |
| `HostFraming.CaptureText` | pump_controller/pump_controller.py:109-113 | capturing over the bytes of a marker-free ASCII text puts that text in front of what is captured after it |
| `HostFraming.FrameRoundTrip` | pump_controller/pump_controller.py:105-115 | after bytes without `<`, a frame `<p>` around a marker-free ASCII `p` is read as exactly `p`, and exactly the bytes after `>` remain |
| `HostFraming.StrayStartKept` | pump_controller/pump_controller.py:110-112 | `<a<b>` is read as `a` followed by `b`: a second `<` is dropped and the text before it is kept |
| `HostFraming.CaptureSpan` | pump_controller/pump_controller.py:109-115 | a captured frame ends at the first `>`; its text is the bytes before it with every `<` removed, and that text is ASCII without markers |
| `HostFraming.FrameSpan` | pump_controller/pump_controller.py:105-115 | a frame that is read runs from the first `<` to the first `>` after it; its text is the bytes in between without `<` |
| `HostFraming.ReadFrames` | pump_controller/pump_controller.py:137-142 | reading `n` frames successfully gives `n` texts |
| `HostFraming.AwaitReady` | pump_controller/pump_controller.py:137-142 | `wait_for_arduino` leaves a suffix of the input it started on |
| `HostFraming.AwaitReadyStopsAtBanner` | pump_controller/pump_controller.py:137-142 | the handshake returns the frames it read: the last contains "Arduino is ready", none before it does, and they are exactly the next that many frames |
| `HostFraming.AwaitReadyOnFrame` | pump_controller/pump_controller.py:137-142 | a frame containing the banner ends the handshake; any other frame is recorded and the wait goes on |
| `HostFraming.ParseInts` | pump_controller/pump_controller.py:227 | `map(int, …)` gives one integer per field, and the only fault is `NotInteger` |
| `HostFraming.ParseRgb` | pump_controller/pump_controller.py:227 | parsing a frame gives at least one value; it fails only for a missing colon or a field `int` rejects |
| `HostFraming.ReadRgb` | pump_controller/pump_controller.py:221-229 | `get_rgb` leaves a suffix of the input and returns at least one value; its faults are starving, an undecodable byte, a missing colon and a non-integer field |
| `HostFraming.ParseRgbOfReading` | pump_controller/pump_controller.py:227 | the text `RGB:r,g,b` parses to `[r, g, b]` |
| `HostFraming.ReadRgbOfReading` | pump_controller/pump_controller.py:221-229 | `get_rgb` on the frame `<RGB:r,g,b>` returns `[r, g, b]` and consumes exactly that frame |
| `HostFraming.ReadRgbTakesFrame` | pump_controller/pump_controller.py:222-229 | a frame that parses and contains "RGB" is the one returned |
| `HostFraming.ReadRgbSkipsFrame` | pump_controller/pump_controller.py:222-229 | a frame that parses but does not contain "RGB" is passed over |
| `HostFraming.ReadRgbRejectsColonless` | pump_controller/pump_controller.py:227 | any frame without `:` makes `get_rgb` fail with `NoColon`, even one that is not a reading |
| `HostFraming.ReadRgbSkipsJunk` | pump_controller/pump_controller.py:222-226 | bytes before the next `<` do not change what `get_rgb` returns |
| `HostFraming.ReadRgbSource` | pump_controller/pump_controller.py:221-229 | every reading returned comes from a run of frames that parse and lack "RGB", followed by one that contains it |
| `MixingSequence.ClearBuffer` | pump_controller/pump_controller.py:161-162 | the bytes that have arrived are dropped from the front, nothing else changes, and the arrival schedule moves on |
| `MixingSequence.RunTest` | pump_controller/pump_controller.py:164-199 | the command is sent exactly once after the clear, and the reply is the next frame read after it |
| `MixingSequence.RunTestReads` | pump_controller/pump_controller.py:182-197 | when a frame `<p>` follows the cleared bytes, `run_test` returns `p` and leaves the bytes after it |
| `MixingSequence.PurgePump` | pump_controller/pump_controller.py:283-302 | an unknown pump fails with nothing sent; otherwise exactly one `Mix` with the pump's pin and the given time (10 s by default) is sent, and the reply consumed is the next frame after the cleared bytes; the call fails exactly when that read fails |
| `MixingSequence.RunPump` | pump_controller/pump_controller.py:323-329 | an unknown pump fails even for zero volume; nothing is sent unless both the volume and `a*volume+b` are positive; otherwise one `Mix` with the calibrated time is sent |
| `MixingSequence.Flush` | pump_controller/pump_controller.py:347 | `flush` runs the water pump `W` for the cell volume |
| `MixingSequence.Drain` | pump_controller/pump_controller.py:366-369 | `drain` runs pump `D` for the given time, or for `drain_time` when none is given |
| `MixingSequence.Measure` | pump_controller/pump_controller.py:276-278 | `measure` sends `Meas` and nothing else |
| `MixingSequence.MeasureReads` | pump_controller/pump_controller.py:276-278 | `measure` skips the acknowledgement frame and returns what `get_rgb` reads from the bytes after it |
| `MixingSequence.RunAppend` | pump_controller/pump_controller.py:389-396 | running two sequences one after the other is running their concatenation, and a fault in the first stops both |
| `MixingSequence.RunPerforms` | pump_controller/pump_controller.py:389-396 | a sequence either sends exactly its commands and pauses, or fails after a prefix of them |
| `MixingSequence.ResetOrder` | pump_controller/pump_controller.py:389-396 | `reset` is drain, pause, flush, pause, drain, pause, in that order |
| `MixingSequence.Reset` | pump_controller/pump_controller.py:373-396 | `reset` sends exactly the events of drain, pause, flush, pause, drain, pause, or a prefix of them when a fault ends it |
| `MixingSequence.DoseOrder` | pump_controller/pump_controller.py:427-435 | the four doses go R, G, B, Y, each followed by a one-second pause |
| `MixingSequence.DoseVolumes` | pump_controller/pump_controller.py:420-426 | the four dosed volumes add up to the cell volume and are non-negative when it is |
| `MixingSequence.Dispense` | pump_controller/pump_controller.py:420 | a mixture that is not four long fails with `WrongShape` before anything is sent, whatever its sum |
| `MixingSequence.DispensePerforms` | pump_controller/pump_controller.py:420-441 | mixing sends the four doses with pauses, a pause, `Meas`, a pause and the reset, or a prefix of these when a fault ends it |
| `MixingSequence.Cycle` | pump_controller/pump_controller.py:427-441 | dosing, measuring, then the lines after: the trace grows by their events or a prefix of them |
| `MixingSequence.MixColor` | pump_controller/pump_controller.py:398-447 | the link ends where dispensing leaves it; the targets are untouched; a dispensing fault is passed on unchanged; the call succeeds exactly when dispensing does and, unless changing the target, both targets are set and every logged field has at least two values; one log row is appended exactly then, holding the normalised mixture, the reading and both targets; a missing target fails with `TargetUnset`; with both set, it fails with `EmptyField` exactly when a logged field is empty, and with `ScalarField` exactly when none is empty and one has a single value |
| `MixingSequence.ChangeTarget` | pump_controller/pump_controller.py:450-469 | the target mixture is stored even when mixing fails, including a mixture not four long; the target colour becomes the reading on success and is kept on failure; the result or fault is that of dispensing; nothing is logged |
| `PumpControl.PumpController.constructor` | pump_controller/pump_controller.py:41-42 | a new controller has no target mixture, no target colour and an empty log |
| `PumpControl.PumpController.Open` | pump_controller/pump_controller.py:34-42 | the controller exists only once the handshake has read the banner; it starts on the bytes after the banner |
| `PumpControl.PumpController.Read` | pump_controller/pump_controller.py:107 | `ser.read()` takes the first byte still to come, or none when nothing will come |
| `PumpControl.PumpController.SkipToStart` | pump_controller/pump_controller.py:106-107 | the loop stops just past the first `<`, or reports that none will come |
| `PumpControl.PumpController.CaptureFrame` | pump_controller/pump_controller.py:109-115 | the capture loop returns what `Capture` gives and consumes exactly the bytes it reads |
| `PumpControl.PumpController.RecvFromArduino` | pump_controller/pump_controller.py:75-117 | the method returns the next frame (`NextFrame`) and leaves exactly the bytes after it |
| `PumpControl.PumpController.WaitForArduino` | pump_controller/pump_controller.py:119-142 | the loop ends in the state `AwaitReady` gives, returning the frames it read |
| `PumpControl.PumpController.ClearSerialBuffer` | pump_controller/pump_controller.py:144-162 | the loop drops exactly the bytes that have arrived |
| `PumpControl.PumpController.RunTest` | pump_controller/pump_controller.py:164-199 | the method returns and leaves what `MixingSequence.RunTest` gives |
| `PumpControl.PumpController.GetRgb` | pump_controller/pump_controller.py:204-229 | the loop returns and leaves what `ReadRgb` gives |
| `PumpControl.PumpController.Measure` | pump_controller/pump_controller.py:259-278 | the method returns and leaves what `MixingSequence.Measure` gives |
| `PumpControl.PumpController.PurgePump` | pump_controller/pump_controller.py:283-302 | the method, with the time defaulting to 10 s, returns and leaves what `MixingSequence.PurgePump` gives |
| `PumpControl.PumpController.RunPump` | pump_controller/pump_controller.py:304-329 | the method returns and leaves what `MixingSequence.RunPump` gives |
| `PumpControl.PumpController.Flush` | pump_controller/pump_controller.py:331-347 | the method returns and leaves what `MixingSequence.Flush` gives |
| `PumpControl.PumpController.Drain` | pump_controller/pump_controller.py:349-369 | the method returns and leaves what `MixingSequence.Drain` gives |
| `PumpControl.PumpController.Sleep` | pump_controller/pump_controller.py:390 | a pause of one second is added to the trace and nothing else changes |
| `PumpControl.PumpController.Reset` | pump_controller/pump_controller.py:373-396 | the method returns and leaves what `MixingSequence.Reset` gives |
| `PumpControl.PumpController.DoseThenPause` | pump_controller/pump_controller.py:427-428 | one dose and the pause after it, as the two-line sequence gives |
| `PumpControl.PumpController.RunPumps` | pump_controller/pump_controller.py:427-435 | the four doses with their pauses, as `DoseOps` gives |
| `PumpControl.PumpController.Dispense` | pump_controller/pump_controller.py:420-441 | the method returns and leaves what `MixingSequence.Dispense` gives |
| `PumpControl.PumpController.MixColor` | pump_controller/pump_controller.py:398-447 | the method returns and leaves the whole state `MixingSequence.MixColor` gives |
| `PumpControl.PumpController.ChangeTarget` | pump_controller/pump_controller.py:450-469 | the method returns and leaves the whole state `MixingSequence.ChangeTarget` gives |
| `Silico.Exact` | pump_controller/silico_pump_controller.py:57-67 | `np.dot` with the primary matrix gives `(255(r+y), 255(g+y), 255b)` |
| `Silico.ExactInGamut` | pump_controller/silico_pump_controller.py:57-67 | the colour of a non-negative mixture summing to 1 already lies in `[0, 255]` |
| `Silico.Clip` | pump_controller/silico_pump_controller.py:69 | clipping lands in `[0, 255]` and leaves values already there unchanged |
| `Silico.Mix` | pump_controller/silico_pump_controller.py:63-69 | the simulated colour has three channels, each in `[0, 255]` |
| `Silico.NoiselessIsExact` | pump_controller/silico_pump_controller.py:63-69 | with zero noise the simulated colour is the exact colour of the normalised mixture |
| `Silico.PrimaryExamples` | pump_controller/silico_pump_controller.py:57-61 | pure red mixes to `(255, 0, 0)` and pure yellow to `(255, 255, 0)` |
| `Silico.SilicoPumpController.constructor` | pump_controller/silico_pump_controller.py:24-27 | the noise level is kept, no target is set, the log is empty |
| `Silico.SilicoPumpController.MixColor` | pump_controller/silico_pump_controller.py:40-75 | a mixture not four long fails with `WrongShape`, whatever its sum; otherwise the result is the simulated colour; a row is logged only when not changing the target, and then only when both targets are set and each has at least two values (else the logging fault); the targets are untouched |
| `Silico.SilicoPumpController.ChangeTarget` | pump_controller/silico_pump_controller.py:77-98 | the target mixture is stored even when mixing fails, including a mixture not four long; on success the target colour is the result; nothing is logged |
| `Comms.Boot` | arduinobot_cpp/src/comms.h:5-17 | the globals after reset form a valid state |
| `Comms.CStr` | arduinobot_cpp/src/comms.h:40 | the C string at an index is the characters up to the first NUL, and contains no NUL |
| `Comms.Strcpy` | arduinobot_cpp/src/comms.h:40 | the copy keeps the buffer's size and holds the same C string as the source |
| `Comms.Atoi` | arduinobot_cpp/src/comms.h:55 | `atoi` on a run of digits is their decimal value, and on text with no digit at all it is 0 |
| `Comms.AtoiOfIntText` | arduinobot_cpp/src/comms.h:55 | `atoi` reads the decimal text of any integer that C's `int` holds (-32768 to 32767 on the board) back as that integer |
| `Comms.SkipDelims` | arduinobot_cpp/src/comms.h:47 | `strtok` skips to the first character that is not a comma |
| `Comms.TokenEnd` | arduinobot_cpp/src/comms.h:47 | a token ends at the first comma or NUL |
| `Comms.Strtok` | arduinobot_cpp/src/comms.h:47 | the buffer keeps its size; a resume position exists only after a token, past its start |
| `Comms.TokenAtStep` | arduinobot_cpp/src/comms.h:47 | a token found at `s` is the first comma-separated field of the text from `s`; only the comma after it is overwritten with NUL |
| `Comms.StrtokStep` | arduinobot_cpp/src/comms.h:47 | each `strtok` call returns the next field of the text, or NULL exactly when none is left, and writes NUL only over the comma that ends the token |
| `Comms.TokensOfJoin` | arduinobot_cpp/src/comms.h:47-58 | the fields `strtok` returns for non-empty comma-free parts joined by commas are those parts |
| `Comms.ReplyToPC` | arduinobot_cpp/src/comms.h:24-34 | a reply with the copied message and `curMillis/512` is written exactly when new data is flagged; the flag is cleared; nothing else changes |
| `Comms.ReplyOnce` | arduinobot_cpp/src/comms.h:24-34 | a second `replyToPC` writes nothing |
| `Comms.ParseData` | arduinobot_cpp/src/comms.h:37-76 | the message buffer holds the received payload; the flag is cleared; the receive state is untouched |
| `Comms.Respond` | arduinobot_cpp/src/comms.h:47-70 | every payload is answered with one reply and at most one other event; a measurement exactly when the first token is `Meas`; a pump run exactly when the tokens are `Mix` and at least two more, with those two |
| `Comms.Dispatch` | arduinobot_cpp/src/comms.h:47-70 | dispatching clears the new-data flag and leaves the receive state, the clock and the message alone |
| `Comms.MixCommand` | arduinobot_cpp/src/comms.h:50-63 | the `Mix` branch clears the flag and leaves the receive state, the clock and the message alone |
| `Comms.MixRespond` | arduinobot_cpp/src/comms.h:50-63 | `Mix` with two more fields runs the pump with them and then replies; with fewer it only replies |
| `Comms.DispatchRespond` | arduinobot_cpp/src/comms.h:47-70 | the dispatch writes what `Respond` gives for the tokens of the payload |
| `Comms.ParseDispatch` | arduinobot_cpp/src/comms.h:37-76 | for a received payload `q`, `parseData` writes what `Respond(q)` gives and copies `q`; the buffer is unchanged when `q` has no comma |
| `Comms.EndFrame` | arduinobot_cpp/src/comms.h:90-95 | `>` stops reading, flags new data and terminates the payload in place |
| `Comms.GetData` | arduinobot_cpp/src/comms.h:80-110 | only `>` produces output; outside a frame other bytes change nothing; `<` opens a frame at index 0 |
| `Comms.Kept` | arduinobot_cpp/src/comms.h:97-103 | the payload kept is a prefix of what was sent, shorter than the buffer |
| `Comms.Feed` | arduinobot_cpp/src/comms.h:80-110 | feeding bytes keeps the globals valid and does not move the clock |
| `Comms.FeedAppend` | arduinobot_cpp/src/comms.h:80-110 | feeding two byte sequences one after the other is feeding their concatenation |
| `Comms.FeedWithoutEnd` | arduinobot_cpp/src/comms.h:80-110 | bytes without `>` produce nothing and leave the flag and the message alone |
| `Comms.FillPayload` | arduinobot_cpp/src/comms.h:97-103 | inside a frame the payload fills the buffer from the front; past 39 characters the last slot is overwritten |
| `Comms.OpenFrameState` | arduinobot_cpp/src/comms.h:97-108 | after `<p` the buffer holds the kept prefix of `p` and nothing has been written |
| `Comms.CloseFrame` | arduinobot_cpp/src/comms.h:90-95 | `>` dispatches on the received payload and copies it |
| `Comms.FrameDispatch` | arduinobot_cpp/src/comms.h:80-110 | a frame `<p>` makes the board do what `Respond` gives for the kept prefix of `p` |
| `Comms.StrayEnd` | arduinobot_cpp/src/comms.h:90-95 | a `>` outside a frame dispatches again on what is left in the buffer |
| `Comms.StrayEndRepeats` | arduinobot_cpp/src/comms.h:90-95 | a second `>` after a comma-free frame repeats its answer |
| `Comms.RestartDropsPrefix` | arduinobot_cpp/src/comms.h:105-108 | a `<` restarts the frame: what came before it has no effect |
| `Comms.NullArgumentTokens` | arduinobot_cpp/src/comms.h:47-59 | which library call receives a NULL token, by the tokens of the payload |
| `Comms.NullReachesLibrary` | arduinobot_cpp/src/comms.h:47-59 | the empty payload, `Mix` and `Mix,3` hand NULL to `strcmp`, `atoi` and `atof` |
| `Comms.NullArgumentOfFrame` | arduinobot_cpp/src/comms.h:47-59 | a frame hands NULL to a library call exactly when its tokens are empty or a `Mix` with fewer than three |
| `Comms.MissingTokenReplyOnly` | arduinobot_cpp/src/comms.h:47-70 | corrected behaviour: a frame with a missing field is answered with the reply alone |
| `Firmware.CopyString` | arduinobot_cpp/src/comms.h:40 | the loop leaves the destination array as `Strcpy` gives |
| `Firmware.NextToken` | arduinobot_cpp/src/comms.h:47 | the two loops return the token start and resume position and leave the array as `Strtok` gives |
| `Firmware.Board.constructor` | arduinobot_cpp/src/comms.h:5-17 | the new board's state is `Boot` |
| `Firmware.Board.ReplyToPC` | arduinobot_cpp/src/comms.h:24-34 | the method leaves the state `Comms.ReplyToPC` gives |
| `Firmware.Board.ParseData` | arduinobot_cpp/src/comms.h:37-76 | copying, tokenising in place and dispatching leave the state `Comms.ParseData` gives |
| `Firmware.Board.MixCommand` | arduinobot_cpp/src/comms.h:50-63 | the `Mix` branch leaves the state `Comms.MixCommand` gives |
| `Firmware.Board.GetDataFromPC` | arduinobot_cpp/src/comms.h:80-110 | with no byte available nothing changes; otherwise the state is what `GetData` gives |
| `Firmware.Board.Loop` | arduinobot_cpp/src/main.cpp:16-20 | the clock is read, then at most one byte is handled |
| `Firmware.Board.Receive` | arduinobot_cpp/src/main.cpp:16-20 | `loop()` once per byte leaves the state `Feed` gives |
| `Protocol.MixTokens` | arduinobot_cpp/src/comms.h:47-58 | the board splits the host's `Mix,<pin>,<seconds>` back into those three fields |
| `Protocol.CommandUnderstood` | arduinobot_cpp/src/comms.h:37-76 | every command the host frames, if it fits the buffer and its pin fits C's `int`, makes the board do what it means, and `atoi` recovers the pin |
| `Protocol.MixUnderstood` | arduinobot_cpp/src/comms.h:50-63 | `<Mix,pin,seconds>` runs that pump with those texts and then replies |
| `Protocol.MeasUnderstood` | arduinobot_cpp/src/comms.h:65-67 | `<Meas>` replies and then measures |
| `Protocol.ReplyReadBack` | arduinobot_cpp/src/comms.h:24-34 | the host reads the board's reply frame as `Msg <message> Time <t>` and leaves exactly the bytes after it |
| `Protocol.MeasureRoundTrip` | pump_controller/pump_controller.py:259-278 | with the board's reply line and reading line on the wire, `measure` returns the reading |
| `Protocol.HandshakeOnBanner` | arduinobot_cpp/src/main.cpp:10 | the banner `setup()` prints ends the host's handshake at once |
| `Protocol.StrayStartDiffers` | arduinobot_cpp/src/comms.h:105-108 | for `<a<b>` the host reads `a` and `b` joined, while the board acts on `b` alone |

## Left out

- The hardware behind `runPump` and `runMeasurement` (`controls.h`) is left out. A pump run
  and a measurement are events, and the reading the board prints is a parameter.
- `setup.py`, the package `__init__` files, the serial-port discovery in `serial_help.py` and
  the plotting in `colors_help.py` are left out: they sit outside the mixing and serial protocol.
- Serial timing is left out. How many bytes have arrived at each buffer clear is an input.
  The busy-wait for `in_waiting` is left out, because a read that runs out of bytes is
  already `Starved`.
- PumpControl.PumpController.RecvFromArduino: the `timeout` is not modelled. The time is
  checked only before the first read, so once bytes are being read the loops can block.
  Running out of bytes is `Starved`, not `TimeoutError`.
- Reading `config.json` (`get_config`) is left out. The pump table, cell volume and drain
  time are the `Rig` value given to the constructor.
- Creating the CSV log file is left out, and so are the file paths. The log is the list of
  records appended. Text formatting of floats in the log and in `Mix` commands is left out:
  the host's trace keeps the `Command` value.
- `atof` and the C `float duration` are left out. The board keeps the duration as the text
  of the third token. The pin is kept as the text `atoi` receives.
- Mixture.Normalize: requires a positive clamped sum. With a zero sum the source divides by
  zero and numpy gives NaN weights. Floating point is not modelled (`real` is exact).
- MixingSequence.Dispense, MixingSequence.MixColor, MixingSequence.ChangeTarget: require a
  positive clamped sum of a four-long mixture, for the same reason. A mixture of any other
  length is accepted and fails with `WrongShape`.
- PumpControl.PumpController.MixColor: requires a positive clamped sum of a four-long
  mixture, for the same reason; so do `Dispense` and `ChangeTarget`.
- Silico.SilicoPumpController.MixColor: requires a positive clamped sum of a four-long
  mixture, for the same reason; so does `ChangeTarget`. The Gaussian noise is a parameter
  (`noise`), not drawn at random.
- Text.ParseInt: only ASCII digits and the ASCII whitespace `int` skips (tab to carriage
  return, and space) are modelled. Python's `int` also accepts other Unicode digits and
  spaces, but no such character reaches it here: a frame byte of 128 or more already fails
  decoding (`Undecodable`).
- Comms.Atoi: unbounded. C's `atoi` is undefined outside the range of `int`, so
  `AtoiOfIntText` and `Protocol.CommandUnderstood` are stated for -32768 to 32767, the range
  of `int` on the 16-bit board.
- The `print` calls are left out.
- Firmware.NextToken: the hidden static position of `strtok` is passed in and handed back.
  `None` stands for the NULL first argument after the string is used up.
- Comms.FrameDispatch: covers payloads up to any length, but dispatch is stated on `Kept(p)`,
  the first 39 characters. The overwriting of the last slot is stated by `FillPayload`.
- `unsigned long` wrap-around of `millis()` is not exercised. The clock is a 32-bit value
  given to `Loop`, and `curMillis >> 9` is `curMillis / 512`.

In these places the code behaves otherwise than its docstrings suggest, and the model follows
the code:
- `recv_from_arduino` is documented as reading until the end marker
  (pump_controller/pump_controller.py:89-91). A stray `<` inside a frame does not restart
  the capture: it is dropped and the text before it is kept (`HostFraming.StrayStartKept`).
  The board does restart (`Protocol.StrayStartDiffers`).
- `get_rgb` is documented as waiting for a message containing "RGB"
  (pump_controller/pump_controller.py:215-218). It parses every frame before that test, so a
  frame that is not a reading raises unless it holds a colon followed by integer fields
  (`HostFraming.ReadRgbRejectsColonless`).
- `mix_color` is documented as logging the mixture with the target mixture and colour
  (pump_controller/pump_controller.py:415). While a target is unset, or a logged list has
  fewer than two values, `write_to_logfile` raises instead (`TargetUnset`, `EmptyField`,
  `ScalarField`).
- `mix_color` is documented as making the weights add up to 1
  (pump_controller/pump_controller.py:411). Neither controller guards against a zero sum;
  both divide by it.

## Findings

| source | as written | input that shows it | evidently intended | confidence | as-written member | corrected member |
|---|---|---|---|---|---|---|
| arduinobot_cpp/src/comms.h:47-59 | the pointer `strtok` returns is passed to `strcmp`, `atoi` and `atof` without a NULL check | the frames `<>`, `<Mix>` and `<Mix,3>`: the first gives `strcmp(NULL, …)`, the others `atoi(NULL)` and `atof(NULL)` (undefined behaviour) | a frame with a missing field is answered with the reply alone | not executed; high | `Comms.NullReachesLibrary` | `Comms.MissingTokenReplyOnly` |
