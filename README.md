# Access control door: a Dafny model

This project models the two pieces of control logic in an Arduino access-control firmware.

**The door controller** (`src/main.cpp`) is a timed state machine over five globals:
- whether the door is open;
- when the servo last moved;
- when the door was opened;
- the last button reading;
- when that reading last changed.

A debounced push button opens the door, and so does a card whose first four UID bytes match a row of the whitelist. The continuous-rotation servo is stopped once its 360 ms travel time has passed. An open door closes itself after 3000 ms. All time differences are `unsigned long` subtractions that wrap modulo 2^32.

Each operation is a function from the old globals to a `Step`: the new globals plus the servo commands written (`Open`, `Close`, `Stop`). The class `DoorControl.Controller` holds the same globals as fields and is proved against those functions. On top of that the model proves:
- the debounce rules;
- when stops and auto-closes happen;
- that an open door is never opened again and its deadline never moves;
- that over any run of the main loop, door movements alternate with the door's state.

**The authorisation client** (`src/RFIDAuth.h`) does the following:
- renders a card UID as lower-case hexadecimal;
- posts it, with the device identifier, as JSON in a hand-framed HTTP/1.1 request;
- waits for a first response byte, giving up once more than 5000 ms have passed;
- scans the response header lines;
- closes the connection.

The network is a value `RfidAuth.Network`. It says whether `connect` succeeds, what `millis()` and `available()` answer on each turn of the wait loop, and which bytes the server sends. The Wi-Fi client is the class `RfidAuth.Client`: a log of the bytes written, the unread response, an open flag and a count of `stop()` calls. `RfidAuth.RFIDAuth.CheckCardAuthorization` is proved to:
- return `Granted(net)`;
- write exactly the framed request when the connection succeeds, and nothing otherwise;
- leave the connection stopped;
- call `stop()` exactly once after a successful connect.

The lemmas then say what `Granted` means:
- a refused connection or a timeout refuses;
- the last status line of the header decides;
- nothing after the blank line matters;
- a status line with no digit `2`, followed by ordinary header fields, refuses.

Arduino's `String` and `Print` operations that the client uses are modelled in `ArduinoString`. They come with inverse parsers: `formatUID` round-trips, and `Content-Length` reads back as the body length.

Files:
- `platform.dfy`: the machine types `byte` and `u32`, the wrap-around `Elapsed`, and the reader's `Uid` record.
- `arduino_string.dfy`: `String(b, HEX)`, decimal printing, `toLowerCase`, `startsWith` and `indexOf`.
- `door_control.dfy`: `src/main.cpp`.
- `rfid_auth.dfy`: `src/RFIDAuth.h`.

Where the behaviour could be read more than one way, the model follows the code:
- The grant test is the substring `"200"` at an index above 0 in a line that starts with `HTTP/1.1`. It is not a test for a 2xx status class.
- A press is accepted only when the reading has been stable for strictly more than 50 ms.
- The auto-close deadline runs from the `openDoor` call, not from the end of the servo's travel.
- There is no encryption anywhere in these two files.

## Model

| member | source | states |
|---|---|---|
| Platform.Elapsed | src/main.cpp:76 | `now - since` on `unsigned long`: the difference modulo 2^32, so that `since` plus the result is `now` again after a roll-over |
| DoorControl.CompareUid | src/main.cpp:210-220 | true exactly when the first four bytes of the reader's buffer equal the whitelist row, byte by byte |
| DoorControl.IsAuthorized | src/main.cpp:152-160 | true exactly when some row of the whitelist matches the card; false for an empty whitelist |
| DoorControl.AfterOpen | src/main.cpp:188-190 | the door state `openDoor` leaves: open, with the last action and the opening time both now, and the button globals untouched |
| DoorControl.AfterClose | src/main.cpp:199-200 | the door state `closeDoor` leaves: closed, with the last action now, and the opening time and button globals untouched |
| DoorControl.ButtonStep | src/main.cpp:111-138 | `checkButton` as a function: it writes nothing or one `Open` of a closed door, and records the reading; `ButtonDebounce` states exactly when |
| DoorControl.CardStep | src/main.cpp:162-177 | the door part of `processRFIDCard`: it writes nothing or one `Open`, the latter exactly when the card is whitelisted and the door is closed |
| DoorControl.TimerStep | src/main.cpp:76-85 | the two timer checks: they never open, and they either leave the door as it was or close an open door at the check time |
| DoorControl.InputStep | src/main.cpp:66-73 | the button and the card together never write `Close` or `Stop` |
| DoorControl.LoopStep | src/main.cpp:64-86 | one pass of `loop()`, the input half followed by the timer half; its meaning is stated by `LoopWhileOpen` and `LoopStepAlternates` |
| DoorControl.Run | src/main.cpp:64-86 | successive passes of `loop()`, the commands of each following those before; its meaning is stated by `RunAlternates` and `OpenDeadlineKept` |
| DoorControl.Controller.constructor | src/main.cpp:35-40 | the globals start closed, with both timestamps 0, the button `High`, the debounce time 0 and no servo command |
| DoorControl.Controller.OpenDoor | src/main.cpp:184-193 | the door is open, `lastDoorAction` and `doorOpenStartTime` are now, the button globals are unchanged, and `Open` is written to the servo |
| DoorControl.Controller.CloseDoor | src/main.cpp:195-203 | the door is closed, `lastDoorAction` is now, `doorOpenStartTime` and the button globals are unchanged, and `Close` is written to the servo |
| DoorControl.Controller.StopServo | src/main.cpp:205-208 | `Stop` is written to the servo and no global changes |
| DoorControl.Controller.CheckButton | src/main.cpp:111-138 | the new globals and servo commands are the button step's, whose meaning `ButtonDebounce` states |
| DoorControl.Controller.ProcessRFIDCard | src/main.cpp:140-182 | the new globals and servo commands are the card step's, whose meaning `CardDecision` states |
| DoorControl.Controller.CheckTimers | src/main.cpp:75-85 | the new globals and servo commands are the timer step's, whose meaning `TimerStop` and `TimerAutoClose` state |
| DoorControl.Controller.Loop | src/main.cpp:64-86 | one pass of `loop()`: button, then an optional card, then the two timer checks, composed in that order |
| DoorControl.ButtonDebounce | src/main.cpp:117-137 | the reading is always recorded; the debounce time moves only when the reading changes; a changed reading accepts no press; `Open` is written exactly when the reading is stable for more than 50 ms, is `Low`, 360 ms have passed since the last movement and the door is closed; otherwise the door's movement state is untouched |
| DoorControl.CardDecision | src/main.cpp:162-177 | a card not on the whitelist changes nothing; a card presented to an open door changes nothing; a whitelisted card opens a closed door |
| DoorControl.TimerStop | src/main.cpp:76-79 | `Stop` is written exactly when at least 360 ms have passed, by wrap-around subtraction, since the last open or close, so none is written within 360 ms of one |
| DoorControl.TimerAutoClose | src/main.cpp:82-85 | `Close` is written exactly when the door is open and 3000 ms have passed since it was opened; the door is then closed, and otherwise nothing changes; the timers never open |
| DoorControl.InputsOpenOnce | src/main.cpp:66-73 | button and card together write at most one `Open`, only to a closed door, and otherwise leave the movement state alone |
| DoorControl.LoopWhileOpen | src/main.cpp:64-86 | a pass over an open door writes no `Open`; it closes exactly when the dwell time has passed; a door still open keeps its opening time and last action |
| DoorControl.LoopStepAlternates | src/main.cpp:64-86 | a pass's movements alternate starting from the current state, and the door ends in the state they lead to |
| DoorControl.RunAlternates | src/main.cpp:64-86 | over any number of passes, `Open` and `Close` strictly alternate, so the door is never opened twice without a close between, and the final state matches the count of movements |
| DoorControl.OpenDeadlineKept | src/main.cpp:64-86 | over passes that write no `Close`, an open door stays open, is never opened again, and its auto-close deadline never moves |
| ArduinoString.Hex | src/RFIDAuth.h:26 | `String(b, HEX)`: one lower-case digit below 0x10, two otherwise, with no leading zero, and the digits' value is `b` |
| ArduinoString.Decimal | src/RFIDAuth.h:79 | `println(length)`: at least one decimal digit, with no leading zero unless the number is 0 |
| ArduinoString.DecimalRoundTrip | src/RFIDAuth.h:79 | the printed length reads back as the same number |
| ArduinoString.ParseDecimal | src/RFIDAuth.h:79 | the reading of a decimal field succeeds exactly on a non-empty string of digits |
| ArduinoString.ToLowerCase | src/RFIDAuth.h:28 | the same length; each upper-case letter becomes its own lower-case letter, and every other character is unchanged |
| ArduinoString.StartsWith | src/RFIDAuth.h:104 | `startsWith`: the prefix fits and the string's first characters are the prefix |
| ArduinoString.IndexOf | src/RFIDAuth.h:106 | the first index where the pattern occurs, or -1 when it occurs nowhere |
| RfidAuth.HexPair | src/RFIDAuth.h:22-26 | a byte as exactly two lower-case digits whose value is the byte, the first being `0` exactly when the byte is below 0x10 |
| RfidAuth.PaddedHex | src/RFIDAuth.h:22-26 | the optional `"0"` followed by `String(b, HEX)` is always the two-digit rendering |
| RfidAuth.LowerHexUnchanged | src/RFIDAuth.h:28 | `toLowerCase` leaves a lower-case hexadecimal string as it is |
| RfidAuth.HexString | src/RFIDAuth.h:17-30 | `2 * n` characters for `n` bytes, all in `[0-9a-f]` |
| RfidAuth.HexRoundTrip | src/RFIDAuth.h:17-30 | parsing the rendering two digits at a time gives back the bytes |
| RfidAuth.HexInjective | src/RFIDAuth.h:17-30 | two UIDs with the same rendering are equal |
| RfidAuth.HexStringAt | src/RFIDAuth.h:20-27 | byte `i` sits at positions `2i` and `2i+1`, with a leading `0` exactly when it is below 0x10 |
| RfidAuth.RFIDAuth.FormatUid | src/RFIDAuth.h:17-30 | the loop's string is the two-digit rendering of the first `size` bytes: `2 * size` lower-case hexadecimal characters |
| RfidAuth.JsonBody | src/RFIDAuth.h:63-68 | the JSON document with the `UUID` and `content` members, as a plain concatenation |
| RfidAuth.Request | src/RFIDAuth.h:74-82 | the bytes of the nine `print`/`println` calls in order; `RequestIsCrLf` and `RequestFraming` state what they mean |
| RfidAuth.RequestIsCrLf | src/RFIDAuth.h:74-82 | the bytes written are the seven request lines, each ended by CR LF |
| RfidAuth.RequestFraming | src/RFIDAuth.h:74-82 | read back by lines, the request is the request line, then `Host`, `Content-Type`, `Content-Length` and `Connection`, then the blank line ending the header, then the JSON body; `Content-Length` reads back as the body's length |
| RfidAuth.RFIDAuth.SendRequest | src/RFIDAuth.h:74-82 | the client's byte log grows by exactly the framed request |
| RfidAuth.SplitLine | src/RFIDAuth.h:102 | `readStringUntil('\n')`: a line with no newline, and the rest, which together with the dropped newline rebuild the input |
| RfidAuth.HeaderLines | src/RFIDAuth.h:108-111 | the header is a prefix of the lines, with no `"\r"` before its last line, and it ends in `"\r"` when lines remain after it |
| RfidAuth.LastStatusLine | src/RFIDAuth.h:104-107 | the last line starting with `HTTP/1.1`, or none when no line does |
| RfidAuth.IsStatusLine | src/RFIDAuth.h:104 | a line that starts with `HTTP/1.1` |
| RfidAuth.Grants | src/RFIDAuth.h:106 | `indexOf("200") > 0`; `GrantsMeans` states that on a status line this is "`200` occurs" |
| RfidAuth.Scan | src/RFIDAuth.h:99-112 | the header loop over the lines: each status line sets the verdict and `"\r"` ends it; `ScanDecides`, `ScanIgnoresBody` and `RefusedWithoutTwo` state what it computes |
| RfidAuth.ScanDecides | src/RFIDAuth.h:99-112 | the header loop's verdict is decided by the last status line of the header; with no status line, the verdict it started with stands |
| RfidAuth.GrantsMeans | src/RFIDAuth.h:104-107 | a status line grants exactly when `200` occurs in it anywhere |
| RfidAuth.ScanIgnoresBody | src/RFIDAuth.h:108-111 | lines after the first `"\r"` do not affect the verdict |
| RfidAuth.ScanGrantsOnly | src/RFIDAuth.h:99-112 | a grant implies a status line with `200` inside the header |
| RfidAuth.RefusedWithoutTwo | src/RFIDAuth.h:104-107 | a response whose first line has no digit `2`, such as `HTTP/1.1 403 Forbidden`, followed by header fields that are not status lines, is refused whatever follows its header |
| RfidAuth.TimedOut | src/RFIDAuth.h:85-94 | the wait loop leaves at a turn with no data, that is by the deadline; `TimeoutMeans` states it without the exit turn |
| RfidAuth.TimeoutMeans | src/RFIDAuth.h:85-94 | the wait times out exactly when a clock reading more than 5000 ms, by wrap-around subtraction, after the start comes before any byte is available |
| RfidAuth.Granted | src/RFIDAuth.h:123-134 | the exchange's verdict: the connection succeeded, data came before the timeout, and the header scan grants; `RefusalCases` states the refusals |
| RfidAuth.RefusalCases | src/RFIDAuth.h:40-135 | a refused connection refuses; a server that never sends refuses; a grant implies a `200` status line in the header |
| RfidAuth.Client.Connect | src/RFIDAuth.h:47 | succeeds as the network allows; on success the server's bytes are what the connection delivers; nothing is written |
| RfidAuth.Client.Print | src/RFIDAuth.h:75 | the text is appended to the bytes written |
| RfidAuth.Client.Println | src/RFIDAuth.h:74 | the text and CR LF are appended to the bytes written |
| RfidAuth.Client.Connected | src/RFIDAuth.h:100 | the connection is up while it is open and response bytes remain |
| RfidAuth.Client.Available | src/RFIDAuth.h:116 | whether unread response bytes remain |
| RfidAuth.Client.ReadStringUntilNewline | src/RFIDAuth.h:102 | consumes one line and its newline from the unread bytes |
| RfidAuth.Client.Read | src/RFIDAuth.h:118 | consumes the first unread byte |
| RfidAuth.Client.Stop | src/RFIDAuth.h:133 | the connection is closed, its unread bytes are gone, and one more `stop()` is counted |
| RfidAuth.RFIDAuth.constructor | src/RFIDAuth.h:33-38 | the server address, port and device identifier are stored, with a fresh, unconnected client |
| RfidAuth.RFIDAuth.AwaitResponse | src/RFIDAuth.h:85-94 | returns whether data arrived before the timeout; on a timeout the connection is stopped once; otherwise nothing changes |
| RfidAuth.RFIDAuth.ReadHeaders | src/RFIDAuth.h:99-112 | the loop's verdict is the header scan over the response's lines |
| RfidAuth.RFIDAuth.ReadBody | src/RFIDAuth.h:114-119 | the body is every remaining byte, in order, and none remains |
| RfidAuth.RFIDAuth.CheckCardAuthorization | src/RFIDAuth.h:40-135 | the result is the exchange's verdict. The connection is closed on return. `stop()` is called exactly once when `connect` succeeded and never otherwise. The request is written only after a successful connect |

## Left out

- Serial logging in both files: output only, with no effect on any state.
- The MFRC522 driver (`PICC_IsNewCardPresent`, `PICC_ReadCardSerial`, `PICC_HaltA`, `PCD_StopCrypto1`), SPI, `setup` and `initializeHardware`. They are hardware calls, so a card read is an input of `Tick`. The model does not include the `stopServo` that `initializeHardware` issues at start-up.
- Servo PWM values, the LEDs, `tone`, and `signalAccessGranted`/`signalAccessDenied` with their blocking `delay`. These are actuators; the servo is the abstract command log `Open`/`Close`/`Stop`.
- `millis()`: every reading is an explicit timestamp. Within one operation all readings are taken to be the same instant. For example, `openDoor` reads the clock twice, and the model gives `lastDoorAction` and `doorOpenStartTime` the same value.
- The contents of `secrets.h` (the whitelist and its size). secrets.h is not part of this model, so the whitelist is a parameter.
- Wi-Fi transport internals. The network is the `Network` value: `available()` answers on each turn of the wait loop as the value says, and after the wait the connection delivers the whole `response` at once. The model does not tie the wait's answers to the response being non-empty; an empty response scans as a refusal. `connected()` is taken to hold while the connection is open and unread bytes remain, because the server closes after its answer.
- ArduinoJson serialisation. `JsonBody` is a plain concatenation of the two fields, and no escaping is claimed.
- The response body is only printed, so `ReadBody` returns it and nothing else uses it.
- RfidAuth.RFIDAuth.CheckCardAuthorization: it requires that the wait loop ends at some turn (`WaitEnds`). Without that precondition, with a clock that never advances past the deadline and no data, the source spins forever.
- RfidAuth.RFIDAuth.FormatUid: it requires `size` to be at most the 10-byte buffer, which the reader driver guarantees. The source does not check this.
- Arduino `String` is a NUL-terminated byte buffer, and the model's strings are sequences of characters. The model therefore assumes responses with no NUL byte and an ASCII device identifier. With a NUL inside a line, `startsWith`, `indexOf` and `==` stop at the NUL in the source, but the model compares the whole line. For example, `"HTTP/1.1 \0200 OK\r"` grants in the model and not in the source, and `"\r\0x"` ends the header in the source and not in the model. With a non-ASCII identifier, `jsonString.length()` counts bytes while the model's `Content-Length` counts characters.
- Encryption, IV generation and padding: none appears in the modelled files.
