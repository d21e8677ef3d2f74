# xl-driver-demo adapter core, in Dafny

This project models the core of the `XLDriver` adapter in
`src/driver/xl_driver.py`. The adapter sits between a small Qt window and the
vendor CAN driver library. The model covers five parts:

- **Version word.** `parse_dll_version` splits the library's 32-bit version
  word into a major, minor and build number (module `Version`).
- **Transmit payload.** `send_message` takes the payload as hex text, deletes
  the spaces, and reads each two-character chunk as one base-16 byte. It then
  fills a transmit event record: tag, id, dlc, flags, and the payload copied
  byte by byte into the record's fixed 8-byte array. The transmit status then
  decides success or an exception. The frame id typed in the window is read
  with the same base-16 reading (`src/ui/app.py:140`).
  - Modules `Hex` and `Driver`: `Driver.XLEvent` and `Driver.XLDriver.SendMessage`.
- **Received payload text.** A received frame is logged as its id in
  Python's `hex()` form and its first `dlc` bytes as upper-case two-digit
  groups joined by single spaces. The model proves that this text decodes
  back to exactly those bytes.
- **Receive loop.** `receive_message` sets `listen`, logs a heartbeat, and
  loops while `listen` holds. Each iteration handles one wait result:
  - a signalled wait (0) drains the queue: it polls receive, logs every
    frame, stops at "queue empty", and raises on any other status;
  - a timeout (0x102) logs another heartbeat;
  - any other result raises.
  - Module `Dispatch` specifies the loop as functions (`Drain`, `HandleWait`,
    `Run`). `Driver.XLDriver.ReceiveMessage` and `Driver.XLDriver.DrainQueue` are
    imperative loops, and `Driver.XLDriver.HandleWaitResult` is one
    iteration; all are proved equal to those functions.
- **Stop.** `stop_listen` clears the flag, which the loop sees at its next
  check.

The vendor library and the operating-system wait cannot be seen from here.
What they return is an input to the model:

- the transmit status;
- the sequence of wait results;
- the sequence of receive results.

The stop request comes from another thread. It is modelled by `stopAfter`:
the number of outer iterations that begin before the cleared flag is seen.

The comment at `src/driver/xl_driver.py:196` says the text is cut into items
of two characters each, and a classic CAN event carries at most eight payload
bytes. The code checks neither an even digit count nor the eight-byte bound
up front, and the model follows the code:

- a final lone digit becomes a byte of its own (`Hex.DecodeDigitsAt`);
- a ninth byte raises an index error after the first eight have been written
  (`Driver.XLEvent.FillTransmit`).

## Model

| member | source | states |
|---|---|---|
| Version.ParseDllVersion | src/driver/xl_driver.py:81-85 | the three fields fit 8, 8 and 16 bits; for a 32-bit word the major number is its top byte |
| Version.ParseThenEncode | src/driver/xl_driver.py:81-85 | every 32-bit version word is recovered exactly from its three fields |
| Version.EncodeThenParse | src/driver/xl_driver.py:81-85 | fields in range, packed into a word, are split back into the same fields |
| Version.ParseInjective | src/driver/xl_driver.py:81-85 | two different 32-bit words never give the same version |
| Version.ParseExample | src/driver/xl_driver.py:81-85 | 0x01020003 is version 1.2.3 |
| Hex.UpperDigit | src/driver/xl_driver.py:236 | the upper-case digit written for a value below 16 reads back as that value |
| Hex.LowerDigit | src/driver/xl_driver.py:215 | the lower-case digit hex() writes reads back as its value |
| Hex.HexValue | src/ui/app.py:140 | a base-16 reading of n digits is a number below 16^n |
| Hex.HexValueLeadingZero | src/ui/app.py:140 | a leading zero digit does not change the number read |
| Hex.LowerDigits | src/driver/xl_driver.py:215 | hex() writes at least one digit, all lower case, exactly one below 16, and no leading zero for any n > 0 |
| Hex.HexLiteral | src/driver/xl_driver.py:215 | hex() text starts with "0x" followed by at least one hex digit and nothing else |
| Hex.LowerDigitsValue | src/driver/xl_driver.py:236 | the digits of the id in a log line read back as the id |
| Hex.RemoveSpaces | src/driver/xl_driver.py:197 | the result has no spaces and is no longer than the text; hex text becomes pure digits; text without spaces is unchanged |
| Hex.RemoveSpacesAppend | src/driver/xl_driver.py:197 | deleting spaces from a concatenation deletes them from each part |
| Hex.RemoveSpacesIdempotent | src/driver/xl_driver.py:197 | deleting spaces a second time changes nothing |
| Hex.DecodeDigits | src/driver/xl_driver.py:198 | one byte per two digits, and one more for a lone final digit |
| Hex.DecodePayload | src/driver/xl_driver.py:197-198 | the byte count is half the digit count, rounded up |
| Hex.DecodeDigitsAt | src/driver/xl_driver.py:198 | byte i is 16 times digit 2i plus digit 2i+1; a lone final digit is a byte alone |
| Hex.DecodePayloadAt | src/driver/xl_driver.py:197-198 | the same, counted over the digits of the payload text with the spaces removed |
| Hex.DecodeIgnoresSpace | src/driver/xl_driver.py:197-198 | inserting a space anywhere in the payload text does not change the bytes sent |
| Hex.DecodeExample | src/driver/xl_driver.py:197-198 | "DE AD" decodes to the bytes 0xDE 0xAD |
| Hex.FormatByte | src/driver/xl_driver.py:236 | a byte is shown as two upper-case digits: the high nibble, then the low nibble |
| Hex.FormatByteValue | src/driver/xl_driver.py:236 | the two digits shown for a byte read back as that byte |
| Hex.FormatPayload | src/driver/xl_driver.py:236 | n bytes are shown in 3n-1 characters, and no bytes as empty text |
| Hex.FormatPayloadAt | src/driver/xl_driver.py:236 | group i sits at characters 3i and 3i+1 and spells byte i; a space follows every group but the last |
| Hex.FormatPayloadIsHexText | src/driver/xl_driver.py:236 | the received-payload text is valid payload text for sending |
| Hex.RemoveSpacesFormat | src/driver/xl_driver.py:236 | deleting the separators leaves the digit pairs of the bytes in order |
| Hex.DecodeDigitsOfFormat | src/driver/xl_driver.py:236 | reading the digit pairs back gives the bytes |
| Hex.FormatThenDecode | src/driver/xl_driver.py:236 | decoding the logged payload text, as send does, gives back exactly the received bytes |
| Dispatch.ReceivedLine | src/driver/xl_driver.py:234-236 | a received frame is logged with its id and exactly dlc payload bytes |
| Dispatch.Render | src/driver/xl_driver.py:37-39 | each line is the single-space join of its log call's arguments (lines 214-215, 220, 236 and 247); its length is its variable parts' lengths plus the fixed text's width |
| Dispatch.SentTextShowsIdAndPayload | src/driver/xl_driver.py:215 | the sent line, its arguments joined by single spaces as `log()` at lines 37-39 does, shows `hex()` of the id at a fixed offset, whose digits read back as the id, and ends with the payload text exactly as typed |
| Dispatch.ReceivedTextDecodes | src/driver/xl_driver.py:236 | the logged text ends with the payload groups, and these decode back to the first dlc bytes of the event |
| Dispatch.Drain | src/driver/xl_driver.py:228-243 | a drain consumes no more receive results than it is given |
| Dispatch.DrainCounts | src/driver/xl_driver.py:228-243 | each consumed result logs one line, except the one that ends the drain; a drain logs no heartbeat |
| Dispatch.DrainUnfold | src/driver/xl_driver.py:233-243 | one step of Drain's definition, used by DrainQueue's loop proof: the first receive result decides between logging and going on, ending on queue-empty, and raising |
| Dispatch.DrainLogsLeadingFrames | src/driver/xl_driver.py:228-243 | the drain logs exactly the leading frames in order, and the first other result decides how it ends |
| Dispatch.HandleWait | src/driver/xl_driver.py:224-249 | only a signalled wait reads receive results; the loop never stops by itself inside an iteration |
| Dispatch.HeartbeatsPerWait | src/driver/xl_driver.py:245-247 | an iteration logs one heartbeat for a timeout and none otherwise |
| Dispatch.Run | src/driver/xl_driver.py:223-249 | the loop begins no more iterations than the stop allows or wait results exist; a stop is seen only once every allowed iteration has begun |
| Dispatch.RunStep | src/driver/xl_driver.py:223-247 | one step of Run's definition, used by the heartbeat count and by RunFrom: an iteration that goes on is followed by the loop over what is left |
| Dispatch.RunFrom | src/driver/xl_driver.py:223-249 | one step of Run's definition from any point, used by ReceiveMessage's loop proof: the next iteration, then the loop from where that iteration stopped, unless it raised |
| Dispatch.HeartbeatPerTimeout | src/driver/xl_driver.py:245-247 | the heartbeats logged equal the timed-out waits among the wait results consumed |
| Dispatch.HeartbeatAfterIteration | src/driver/xl_driver.py:245-247 | the same, when the first iteration goes on |
| Dispatch.LaterStopExtendsLog | src/driver/xl_driver.py:251-252 | a later stop only appends to the log; a run that ended before its stop was seen does not depend on when the stop came |
| Dispatch.LaterStopAfterIteration | src/driver/xl_driver.py:251-252 | the same, when the first iteration goes on |
| Dispatch.StopBeforeFirstCheck | src/driver/xl_driver.py:223 | a stop seen at the first check logs nothing more and ends the loop |
| Dispatch.UnknownWaitResultFails | src/driver/xl_driver.py:248-249 | an unexpected wait result raises at once, logging nothing |
| Driver.XLEvent.constructor | src/driver/xl_driver.py:200 | a new event record is zeroed, with a payload array of the given capacity (the adapter asks for 8) |
| Driver.XLEvent.FillTransmit | src/driver/xl_driver.py:201-206 | sets tag, id, dlc and flags; the array's prefix holds the bytes and the rest is untouched; it raises exactly when the payload is longer than the array |
| Driver.XLDriver.constructor | src/driver/xl_driver.py:34 | a new adapter is not listening and has logged nothing |
| Driver.XLDriver.SendMessage | src/driver/xl_driver.py:195-215 | the record is filled before transmit, so whatever the status its dlc is the decoded length, its first dlc bytes are the decoded payload (the first 8 when longer) and the entries after them stay zero; more than 8 bytes or a failed transmit raises; only success logs its two lines |
| Driver.XLDriver.StopListen | src/driver/xl_driver.py:251-252 | clears the listen flag and nothing else |
| Driver.XLDriver.DrainQueue | src/driver/xl_driver.py:228-243 | the polling loop logs, consumes and ends exactly as Drain specifies |
| Driver.XLDriver.HandleWaitResult | src/driver/xl_driver.py:224-249 | one outer iteration logs, consumes and ends exactly as HandleWait specifies |
| Driver.XLDriver.ReceiveMessage | src/driver/xl_driver.py:218-249 | logs the opening heartbeat and then exactly what Run logs, ends as Run ends, and leaves listen set unless it stopped |

## Left out

- Loading the vendor library and every configuration call are not modelled. This covers open/close driver, get/set application config, driver config, channel mask, port, notification and activation. They are vendor calls with nothing to compute.
- The vendor calls `xlCanTransmit` and `xlReceive` are not modelled; their results are inputs. So is `WaitForSingleObject` and its 1000 ms timeout, because timing is not modelled.
- The status codes are reduced to success, queue-empty and any other code. The enumeration's names, and the exception messages built from them, are not modelled. An exception is a returned `Failure` that names its cause.
- The Qt log signal is modelled as appending a `LogLine` to the adapter's `log`. `Dispatch.Render` gives the text of each line, the log call's arguments joined by single spaces as `log()` does (`src/driver/xl_driver.py:37-39`); `Dispatch.SentTextShowsIdAndPayload` and `Dispatch.ReceivedTextDecodes` state what the two frame lines show. The driver-version log line and `error()` are not modelled.
- Threads are not modelled. `stop_listen` is issued by the model between outer iterations, after `stopAfter` of them. A stop that lands during an iteration has the same effect as one at the iteration's end, because the flag is checked only at the top of the loop. A stop issued before `receive_message` sets `listen` (`src/driver/xl_driver.py:219`) is overwritten by that assignment and never seen; `stopAfter` cannot express that race.
- Dispatch.Run: running out of given wait or receive results ends the model's loop with `InputExhausted`. The program would instead keep waiting; this is the model's horizon, not a behaviour of the program.
- Hex.DecodePayload: requires the payload text to hold only hex digits and spaces. On a one- or two-character chunk, Python's `int(..., 16)` also accepts surrounding whitespace and a sign (`"-1"` reads as -1, which the loop at `src/driver/xl_driver.py:205-206` writes into the byte array with no range check); an underscore or a lone `0x` in a chunk raises `ValueError`. None of this is modelled.
- Hex.HexValue: models the frame-id reading for strings of hex digits only. Its requires also admits the empty string, on which it gives 0 where `int("", 16)` raises `ValueError`. The `0x` prefix, sign, underscores and whitespace that `int()` accepts are not modelled, and neither is the `ValueError` on malformed text.
- The field widths of the vendor's event record are not modelled; its definition is not part of this model. The id, dlc and flags are kept as unbounded numbers, and the payload array's capacity is a constructor parameter, 8 in the adapter, and is the record's only bound.
- A received event is a value given as input. The fresh record that `xlReceive` fills is not modelled as an object.
- The Qt window, the worker thread and the channel list are not modelled.
