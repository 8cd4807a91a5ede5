# btrd gateway: a Dafny model of its decision logic

btrd is a gateway for small remote devices on serial lines (Bluetooth
serial links in practice). Each device (`Btdev`) has three kinds of items:
- ADCs, read through an arithmetic expression;
- DS18B20 temperature sensors, read as an LSB and an MSB byte;
- switches, which can be read, set and cleared.

A goroutine per device polls every item forever. It counts consecutive
errors and, after a cycle that ends with more than `maxerrors` of them, it
closes the port, pauses and reopens it. An HTTP API reads the cached
values and sets or clears switches.

This project models that logic and proves its properties:

| file | module | what it models |
|---|---|---|
| `wrappers.dfy` | `Wrappers` | `Byte`, `Option`, `Outcome` (an error or nil) and `Result` |
| `serial.dfy` | `Serial` | the serial port and line (below), plus the reference executor `RunOps` |
| `temperature.dfy` | `Temperature` | `ConvertTemp` as integer arithmetic |
| `btrd.dfy` | `Btrd` | the items and their codecs; `getFloat` |
| `config.dfy` | `Config` | the validation and binding that `loadConfig` does on the decoded map |
| `handlers.dfy` | `Handlers` | the decisions of `readHandler` and `changeHandler` |
| `poller.dfy` | `Poller` | the polling loop: per-item counting, the end-of-cycle recovery, and a bounded run of cycles |

How the model represents the system:
- **The line is a script.** Each write or read on an open port consumes the
  next scripted reply (`WriteOk`/`WriteErr`, `ReadOk(b)`/`ReadErr`). A
  missing reply or a reply of the wrong kind makes the operation fail. On a
  closed port every operation fails and consumes nothing. Opening the port
  consumes an `OpenOk`/`OpenErr` reply.
- **The line keeps an event log.** Every write, read, open and close is
  appended to it, in order, and so are the two sleeps of the polling loop
  (`ErrPause`, `FaultPause`).
- **Codecs are checked against a reference.** `Serial.RunOps` performs a
  list of writes and reads and stops at the first failure. Each codec's
  contract ties its I/O to `RunOps` on the codec's own operation list.
- **Temperatures are in sixteenths of a degree.** `ConvertTemp` only ever
  produces multiples of 1/16, so the model needs no floating point.
- **Configuration errors are results.** Every `log.Fatalf` of `loadConfig`
  becomes a `Failure` naming the device key and the missing field.

The temperature decoder drops bits 3–6 of the MSB: `msb << 4` is
truncated to a byte before the `& 127` mask. A set sign bit then subtracts
the full 128 degrees from the 11-bit magnitude. So MSB 0x19, LSB 0x01 gives
16.0625 degrees, and MSB 0x91, LSB 0x00 gives −112; `Temperature.Examples`
states these and other values the code computes. For registers whose MSB
bits 3–7 agree, as the sensor delivers them, the result is the register's
16-bit two's-complement value.

## Model

| member | source | states |
|---|---|---|
| `Temperature.Sixteenths` | btrd.go:91-100 | In sixteenths of a degree, the decode is (msb & 7)·256 + lsb, minus 2048 when bit 7 of msb is set. |
| `Temperature.Range` | btrd.go:92-98 | The result lies in [0, 127.9375] degrees when the sign bit is clear, and in [−128, −0.0625] when it is set. |
| `Temperature.IgnoresMiddleBits` | btrd.go:94 | Bits 3–6 of the MSB never change the result: decoding msb & 0x87 gives the same value. |
| `Temperature.MatchesInt16` | btrd.go:91-100 | For a sign-extended register (MSB bits 3–7 equal), the decode equals the int16 value of msb·256 + lsb, the DS18B20 reading. |
| `Temperature.Onto` | btrd.go:91-100 | Every reading from −128 to 127.9375 degrees, in steps of 1/16, is the decode of some sign-extended register. |
| `Temperature.Injective` | btrd.go:91-100 | Two sign-extended registers with the same reading are the same register. |
| `Temperature.Examples` | btrd.go:91-100 | The worked examples as the code computes them: 0x0191 is 25.0625, 0x1901 is 16.0625, 0x9100 is −112, plus the datasheet values +125, −25.0625, −0.5 and −55. |
| `Btrd.GetFloat` | btrd.go:77-88 | A float64, float32 or int converts to its number without error. Anything else yields NaN and an error. |
| `Serial.OpenPort` | btrd.go:244-254 | The port is open afterwards iff it already was or the open succeeds. A failed open leaves the previous handle, because `serport` is only assigned on success. The attempt is logged. |
| `Serial.ClosePort` | btrd.go:256-258 | Afterwards the port is closed; the close is logged and no reply is consumed. |
| `Serial.RunOps` | btrd.go:139-164 | A list of writes and reads performed in order, stopping at the first failure. It succeeds iff every operation is answered. It consumes exactly the replies of the operations performed and logs those operations. |
| `Serial.AnsweredIsFirstFailure` | btrd.go:139-164 | The count of answered operations is exact: all earlier operations succeed and the next one fails. |
| `Serial.RunOpsEvents` | btrd.go:139-164 | A run logs the operations it performed, in order, up to and including the first that failed, and nothing after it. |
| `Serial.TraceIsPerformed` | btrd.go:139-164 | The event trace of a run is the list of its performed operations' events. |
| `Btrd.Ask` | btrd.go:106-114 | One write then one read behaves like the two-operation reference run. It yields the byte of the `ReadOk` reply, or a write or read error. |
| `Btrd.AskThen` | btrd.go:141-159 | A run that starts with an exchange stops where the exchange fails, and otherwise continues from the line the exchange leaves. |
| `Btrd.AdcReadValue` | btrd.go:103-136 | The I/O is the reference run of write `Cmdget`, read. A transport, parse or evaluation failure leaves the cache unchanged. A numeric result is cached. A non-numeric result caches NaN and returns an error. |
| `Btrd.TmptChain` | btrd.go:139-164 | The four operations of a temperature read are two exchanges. The first byte read is the LSB (script position 1) and the second is the MSB (position 3). |
| `Btrd.TmptReadValue` | btrd.go:139-164 | Succeeds iff all four operations are answered. Only then is the cache set, to `ConvertTemp(msb, lsb)`. The first failure stops the I/O and leaves the cache unchanged. |
| `Btrd.SwtReadValue` | btrd.go:167-187 | Succeeds iff the write and read succeed and the byte is 0 or 1. On success the cache becomes that byte. Otherwise it returns an error and the cache is unchanged. |
| `Btrd.SetBit` | btrd.go:190-207 | Succeeds iff `Cmdset` is written, a byte is read and it is 'K'. The item, including its cache, is returned unchanged. |
| `Btrd.ClearBit` | btrd.go:210-227 | Succeeds iff `Cmdclr` is written, a byte is read and it is 'K'. The item, including its cache, is returned unchanged. |
| `Btrd.SwitchReadKeepsBinary` | btrd.go:167-187 | A switch read keeps a cache that is 0 or 1 in {0, 1}. It is the cache's only writer, so the cache never leaves {0, 1}. |
| `Config.FirstMissing` | restapi/restapi.go:39-73 | The item loops report nothing iff no item has an empty required field. Otherwise they report a field that some item lacks. |
| `Config.CheckDevice` | restapi/restapi.go:32-73 | The checks on one device pass iff `Baud` is non-zero, `Devfile` is non-empty and every item has all its required fields. A reported field is really missing. |
| `Config.BindSetsOnlyIdentity` | restapi/restapi.go:31-62 | Binding sets the device id to its key and every item's `Btdev` reference to its device, and changes nothing else. |
| `Config.LoadConfig` | restapi/restapi.go:30-75 | Succeeds iff every device passes its checks. On success the keys are kept, each device's id is its key, each item refers to its device and nothing else changed. On failure the reported device really lacks the reported field. |
| `Config.DuplicateIdsAccepted` | restapi/restapi.go:61-73 | Item ids are never compared: a device with two switches of the same id passes. |
| `Config.ExprAndVrefUnchecked` | restapi/restapi.go:39-47 | `Expr` and `Vref` never affect validation. |
| `Handlers.Find` | restapi/restapi.go:82-87 | Returns the first index whose element matches, or none when no element does. |
| `Handlers.ReadHandler` | restapi/restapi.go:78-111 | An unknown device or kind gives 400. Otherwise the answer is 200 iff some item of that kind matches, and the first match decides the body. A switch only matches when its cache is 0 or 1; the loop skips any other. |
| `Handlers.SwitchReadAnswers` | restapi/restapi.go:95-106 | With every switch cache in {0, 1}, the first matching switch answers "true\n" for 1 and "false\n" for 0, never 400. |
| `Handlers.Actuate` | restapi/restapi.go:127-148 | For the found switch: 200 iff the set or clear command succeeds, 500 iff it fails, and the devices are unchanged. |
| `Handlers.FindFirstSwt` | restapi/restapi.go:127-128 | The first switch with a matching id is the one the lookup loop stops at. |
| `Handlers.ChangeHandler` | restapi/restapi.go:113-153 | An unknown device or a kind other than swts gives 400, and a body read error gives 500. A body other than "true"/"false" gives 400 before any lookup. No matching switch gives 400. Otherwise the first match is set or cleared, with 200 on success and 500 on failure. The devices are never changed. |
| `Handlers.ReadAfterChange` | restapi/restapi.go:113-153 | A GET straight after any POST returns what it returned before, even after an acknowledged set or clear. |
| `Poller.CounterAfter` | restapi/restapi.go:181-208 | After a run of outcomes the counter is the number of failures after the last success. If nothing succeeded it is the previous value plus the number of outcomes. |
| `Poller.Extend` | restapi/restapi.go:184-189 | One more outcome resets the counter on success and adds one to it, and to the failure count, on failure. |
| `Poller.AdcFacts` | restapi/restapi.go:183-190 | An ADC read changes only that ADC's cache. It logs no pause, and on a closed port it fails without consuming a reply. |
| `Poller.TmptFacts` | restapi/restapi.go:191-199 | A temperature read changes only that sensor's cache. It logs no pause, and on a closed port it fails without consuming a reply. |
| `Poller.SwtFacts` | restapi/restapi.go:200-207 | A switch read changes only that switch's cache and keeps switch caches in {0, 1}. It logs no pause, and on a closed port it fails without consuming a reply. |
| `Poller.ExchangeFacts` | restapi/restapi.go:183-207 | Any item's `ReadValue` changes only that item's cache, logs no pause, keeps switch caches in {0, 1}, and on a closed port fails without consuming a reply. |
| `Poller.TallyFacts` | restapi/restapi.go:184-189 | The counting after an exchange: the visit records the item and the outcome; success sets the counter to 0; failure adds one and sleeps `errpause` exactly once. |
| `Poller.StepReadsItem` | restapi/restapi.go:183-207 | One exchange of the cycle, per kind: the outcome is whether that kind's `ReadValue` returned nil, the item becomes the one `ReadValue` returned, and the line is the codec's, with an `errpause` appended after a failure. |
| `Poller.StepFacts` | restapi/restapi.go:183-207 | One exchange changes only its item's cache and records one visit to it. Success resets the counter; failure increments it and adds exactly one pause. On a closed port it fails without consuming a reply. |
| `Poller.PollItem` | restapi/restapi.go:183-207 | One loop iteration equals the reference exchange `Step`: the item's `ReadValue`, then the counting. It has all the consequences listed for `StepFacts`. |
| `Poller.SweepOfFacts` | restapi/restapi.go:183-208 | The reference sweep over a list of items visits them in that order. Its counter ends at `CounterAfter` of the outcomes, with one pause per failure. Only caches change. On a closed port every visit fails and no reply is consumed. |
| `Poller.SweepOfLast` | restapi/restapi.go:183-208 | The reference sweep over a list is the sweep over all but the last item, then the exchange with the last item from the state that sweep left. |
| `Poller.SweepOfNext` | restapi/restapi.go:183-208 | The reference sweep over the first k+1 items is the sweep over the first k, then the exchange with item k. |
| `Poller.SweepNext` | restapi/restapi.go:183-208 | One more loop iteration extends the reference sweep by one item. |
| `Poller.PollAll` | restapi/restapi.go:183-208 | The three item loops equal the reference sweep `SweepOf` over the given items, in order. Hence the visits follow that order, the counter ends at `CounterAfter` of the outcomes with one pause per failure, only caches change, and on a closed port every visit fails and no reply is consumed. |
| `Poller.Recover` | restapi/restapi.go:209-219 | A counter at most `maxerrors` leaves the state alone. Above it: close, `failtimeout` pause and reopen are logged in that order, the counter becomes 0 whether or not the reopen worked, and only the port changes. |
| `Poller.TurnOf` | restapi/restapi.go:182-219 | A turn is `Recover` applied after the reference sweep over the cycle order. It reopens iff the counter after that sweep exceeds `maxerrors`. |
| `Poller.CheckFacts` | restapi/restapi.go:182-219 | After any sweep over the cycle order, the check reopens iff the counter exceeds `maxerrors`. The counter then ends within 0..3, only caches and the port have changed, and on a closed port it reopens iff the previous counter plus the item count exceeds 3. |
| `Poller.Cycle` | restapi/restapi.go:182-219 | A cycle equals the reference `Turn`: the reference sweep over all ADCs, then all sensors, then all switches, followed by `Recover`. It reopens iff the counter after the sweep exceeds `maxerrors`, with every consequence listed for `CheckFacts`. |
| `Poller.CyclesToReopen` | restapi/restapi.go:209-219 | On a port that stays closed, the number of cycles before recovery is at least 1 and at most 4 − c. It is 1 iff one cycle's failures push the counter over `maxerrors`. |
| `Poller.CyclesNext` | restapi/restapi.go:182-220 | One more turn of the `for` loop extends the reference run `Cycles` by one `Turn`, counting a reopening when that turn reopened. |
| `Poller.SuperviseNext` | restapi/restapi.go:182-220 | One turn of the loop keeps the supervision bounds and extends the reference run by one turn. |
| `Poller.Supervise` | restapi/restapi.go:181-220 | The first `n` turns of the loop equal the reference run `Cycles`: `n` `Turn`s in a row, counting reopenings. Between cycles the counter stays within 0..`maxerrors`, only caches and the port change, and switch caches stay in {0, 1}. A closed port with at least one item is reopened within `CyclesToReopen` cycles. |

## Left out

- Serial I/O through the serial library is replaced by the scripted line. Partial writes, the 5-second read timeout and the difference between a short read and an error are all just a failing reply.
- The nil port after a failed initial `OpenPort` (restapi/restapi.go:177-180) is not modelled: the polling state starts from whatever port value it is given.
- The `defer bt.ClosePort()` calls (restapi/restapi.go:180, 216) are not modelled: inside the endless loop they never run.
- The `sermux`/`valmux` locks, the goroutines and the HTTP server's concurrency are not modelled. The model is single-threaded and runs one device's loop.
- `govaluate` is a foreign library: parsing and evaluation are an uninterpreted `Evaluator`.
- Float arithmetic is not modelled: ADC values are reals without float64 rounding.
- The `%.2f\n` and `%3.1f\n` response formatting is kept symbolic, as response bodies.
- TOML decoding, flags, file reading and logging are left out; `loadConfig` starts from the decoded map. A `log.Fatal` is a `Failure` result rather than a process exit.
- `time.Sleep` appears only as `ErrPause`/`FaultPause` events; the durations are the constants `ErrPauseSeconds` and `FailTimeoutSeconds`.
- The Go `int` counter is unbounded in the model. Within one cycle it never exceeds `maxerrors` plus the item count, so overflow does not arise.
- Poller.Supervise: the endless `for` loop is cut off after a given number of cycles `n`, and the contract speaks about that bounded run.
- The `Value()` getters (btrd.go:57-75) only take a lock and return the cache; the handlers read the cache fields directly.
- The unreachable `default` case of `changeHandler`'s inner `switch` (restapi/restapi.go:142-144) has no counterpart: `Handlers.ChangeHandler` chooses set or clear from a body already known to be "true" or "false".
