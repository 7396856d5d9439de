# RP2040 keyboard firmware core, modelled in Dafny

This project models the logic core of the firmware of a keyboard with a built-in
joystick mouse:

- **Debounce.** Each of the 6 × 17 matrix positions has a debounce latch. A latch accepts
  a change of its raw input at once, then ignores further changes for 50 scan ticks.
  When it accepts a press, the press callback fires.
- **Key table.** The static `KEY_MAPPING` gives the HID keyboard usage code wired at each
  position.
- **Matrix scan (`scan_keys`).** Once per scan tick the scan clears three bounded buffers:
  32 keyboard codes, 10 consumer codes and 2 mouse buttons. It then updates every latch in
  row-major order and resolves each pressed position's `KeyFunction` into the buffers.
  A push onto a full buffer panics.
- **Mouse tracker.** It decodes the joystick's five-byte reading and calibrates against
  the first reading. It passes each offset through `mouse_curve` and accumulates the
  movement. Each pointer report takes whole units of 40000 out of the accumulator,
  clamped to a signed byte.
- **Mode arbitration.** "Mouseness" adds up the reported movement while only mouse-modifier
  keys are held. Once it reaches 5, the next scan resolves `Dual` positions to their mouse
  buttons, whose bits are OR-ed into the pointer report. The comment at
  firmware/src/main.rs:80 says the space keys are meant to become buttons, but the table in
  firmware/src/key_table.rs holds only plain keys, so there mouse mode changes nothing
  (`Scan.PlainTableScan`).

Modules:
- `Debounce` (debounce.dfy) holds the latch. It is both a value function `Step` and the
  class `DebounceState`. The class models the struct of firmware/src/debounce.rs on its
  own. The scan keeps its latches as values in an `array2<Latch>` and updates each cell
  through `Step`, which `DebounceState.Update` is proved to agree with.
- `KeyTable` (key_table.dfy) holds the table and its inverse `WiredAt`.
- `Scan` (scan.dfy) holds the buffers, the resolution functions and the imperative scan.
  The scan works over an `array2` of latches and the class `ScanBuffers`.
- `Mouse` (mouse.dfy) holds the decode, the curve, the reports and the class
  `MouseTracker`.
- `Mode` (mode.dfy) holds the button bitmask and the mouseness step.
- `Controller` (controller.dfy) holds the main loop's state and its scan and keyboard
  ticks.

Each method is proved against a specification function of the old state and its inputs.
The properties the firmware relies on are lemmas about those functions. Examples:
- The scan panics exactly when the pressed positions contribute more than a buffer holds.
  Otherwise the buffers hold exactly that contribution, without duplicate keyboard codes.
- Accepted changes of a latch are at least 50 ticks apart.
- Decoding the canonical five-byte encoding of a sample gives back the sample.
- Reporting and then accounting for an axis leaves less than one unit.

Panics (`unwrap` on a full `heapless::Vec`, `i16::try_from`, `abs` of -128) are modelled
as outcomes: `CapacityExceeded`, `ReadPanic`, `AbsPanic`, or an `ok`/`completed` flag that
is false.

firmware/src/debounce.rs:12-22 is a cooldown latch, not a hysteresis counter: a single
contrary sample after the cooldown flips the state (`Debounce.SingleGlitchFlips`).

## Model

| member | source | states |
|---|---|---|
| Debounce.StepBehaviour | firmware/src/debounce.rs:12-22 | an input equal to the latched state is a no-op; the state changes exactly when the input differs and the clock has reached the deadline; a change takes the input and sets the deadline to clock + 50; the callback fires exactly on a false→true change |
| Debounce.DebounceState.Current | firmware/src/debounce.rs:6-9 | the latch value has the object's two fields |
| Debounce.DebounceState.constructor | firmware/src/debounce.rs:25-32 | the default state is released with deadline 0 |
| Debounce.DebounceState.Update | firmware/src/debounce.rs:12-22 | the new state and the callback flag are what `Step` gives for the old state, input and clock; the result is the new state |
| Debounce.CooldownSeparation | firmware/src/debounce.rs:13-16 | with non-decreasing clocks, no change is accepted before the initial deadline, and consecutive accepted changes are at least 50 ticks apart |
| Debounce.PressesCountRisingChanges | firmware/src/debounce.rs:15-19 | over any run, the final state is the initial one flipped once per accepted change, and the callback count is the number of false→true changes |
| Debounce.CooldownIgnoresBounce | firmware/src/debounce.rs:13 | samples that all arrive before the deadline change nothing and fire nothing |
| Debounce.SingleGlitchFlips | firmware/src/debounce.rs:13-15 | after the cooldown, one contrary sample flips the state |
| Debounce.ReleasedAcceptsFirstPress | firmware/src/debounce.rs:25-32 | from the default latch, a press is accepted at any clock and fires the callback |
| KeyTable.AsKeyFunctions | firmware/src/key_table.rs:6-121 | the scanned table has the mapping's shape, and each entry is `Key` of the mapped code |
| KeyTable.MappingIsMatrix | firmware/src/main.rs:70-71 | `KEY_MAPPING` has 6 rows of 17 entries, as the scan asserts |
| KeyTable.WiredAt | firmware/src/key_table.rs:6-121 | a position it returns is in the matrix, holds the code, and the code is not `NoEventIndicated` |
| KeyTable.Row0WiredAt | firmware/src/key_table.rs:7-25 | every code in row 0 is found at its own position, except the second Space at column 9 |
| KeyTable.Row1WiredAt | firmware/src/key_table.rs:26-44 | every code in row 1 is found at its own position |
| KeyTable.Row2WiredAt | firmware/src/key_table.rs:45-63 | every code in row 2 is found at its own position |
| KeyTable.Row3WiredAt | firmware/src/key_table.rs:64-82 | every code in row 3 is found at its own position |
| KeyTable.Row4WiredAt | firmware/src/key_table.rs:83-101 | every code in row 4 is found at its own position |
| KeyTable.Row5WiredAt | firmware/src/key_table.rs:102-120 | every code in row 5 is found at its own position |
| KeyTable.WiredAtInvertsTable | firmware/src/key_table.rs:6-121 | every wired position is where `WiredAt` finds its code, except (0, 9) |
| KeyTable.WiredAtMostOnceExceptSpace | firmware/src/key_table.rs:14-17 | two distinct positions with the same wired code both hold Space, at (0, 6) and (0, 9) |
| KeyTable.SpacePositions | firmware/src/key_table.rs:14-17 | a position holds Space iff it is (0, 6) or (0, 9) |
| KeyTable.WiredAtComplete | firmware/src/key_table.rs:6-121 | `WiredAt` finds a code iff some position holds it and it is not `NoEventIndicated` |
| KeyTable.TableLayout | firmware/src/key_table.rs:84-118 | column 0 is `NoEventIndicated` except Mute in row 4; VolumeDown and VolumeUp are at (5, 14) and (5, 15) |
| Scan.AddKeyCode | firmware/src/main.rs:529-533 | a code already present changes nothing; otherwise it is pushed; the push panics only when 32 codes are held |
| Scan.AddKeyCodes | firmware/src/main.rs:537-543 | on success every code of the `MultiKey` is in the keyboard buffer, and the other buffers are unchanged |
| Scan.PushConsumerCode | firmware/src/main.rs:534-536 | succeeds iff fewer than 10 consumer codes are held, and appends the code |
| Scan.PushMouseButton | firmware/src/main.rs:544-546 | succeeds iff fewer than 2 buttons are held, and appends the button |
| Scan.ResolveKey | firmware/src/main.rs:525-553 | released positions, `Nothing` and `Key(NoEventIndicated)` add nothing; whatever succeeds only appends |
| Scan.ResolveRow | firmware/src/main.rs:521-554 | resolving a row only appends to the buffers |
| Scan.ResolveRows | firmware/src/main.rs:516-556 | resolving the rows only appends to the buffers |
| Scan.DistinctCardinality | firmware/src/main.rs:529-533 | a keyboard buffer without duplicates has as many elements as distinct codes |
| Scan.SubsetCardinality | firmware/src/main.rs:529-533 | a subset of the codes is no larger |
| Scan.PlusAssociative | firmware/src/main.rs:516-556 | contributions combine associatively, so row-by-row accumulation is well defined |
| Scan.OverflowPersists | firmware/src/main.rs:531 | once a contribution overflows a buffer, adding more cannot make it fit |
| Scan.ConsistentRealizesItself | firmware/src/main.rs:410-417 | buffers within capacity, without duplicate codes, realize their own contents |
| Scan.AddKeyCodeRealizes | firmware/src/main.rs:529-533 | adding a code panics iff the set of codes would exceed 32; otherwise the buffer holds the old codes plus the new one, without duplicates |
| Scan.ChainRealizes | firmware/src/main.rs:516-556 | resolving a prefix and then the rest realizes the sum of their contributions, including a panic in either part |
| Scan.AddKeyCodesRealizes | firmware/src/main.rs:537-543 | a `MultiKey` panics iff the union of codes exceeds 32; otherwise the buffer holds exactly that union |
| Scan.ResolveKeyRealizes | firmware/src/main.rs:525-553 | one position panics iff its contribution does not fit; otherwise the buffers hold old plus contribution |
| Scan.ResolveRowRealizes | firmware/src/main.rs:521-554 | a row panics iff the row's contribution does not fit; otherwise the buffers hold exactly old plus contribution and stay consistent |
| Scan.ResolveRowRealizesBase | firmware/src/main.rs:521 | past the last position of a row, consistent buffers realize their own contents |
| Scan.ResolveRowRealizesStep | firmware/src/main.rs:521-554 | position c followed by the rest of the row panics iff their contribution does not fit; otherwise the buffers hold exactly old plus that contribution |
| Scan.ResolveRowsRealizesStep | firmware/src/main.rs:516-556 | row r followed by the rows below it panics iff their contribution does not fit; otherwise the buffers hold exactly old plus that contribution |
| Scan.ResolveRowsRealizesBase | firmware/src/main.rs:516 | past the last row, consistent buffers realize their own contents |
| Scan.ResolveRowsRealizes | firmware/src/main.rs:516-556 | the rows from r on panic iff their contribution does not fit; otherwise the buffers hold exactly old plus that contribution |
| Scan.ScanFromClearedRealizes | firmware/src/main.rs:513-556 | a scan from cleared buffers panics iff the table's contribution exceeds a capacity; otherwise the buffers hold exactly that contribution |
| Scan.ScanBuffers.Value | firmware/src/main.rs:410-417 | the value has the object's three fields |
| Scan.ScanBuffers.constructor | firmware/src/main.rs:410-417 | the default buffers are empty |
| Scan.ScanBuffers.Clear | firmware/src/main.rs:419-425 | all three buffers become empty |
| Scan.ScanBuffers.InsertKeyCode | firmware/src/main.rs:529-533 | the in-place update has the outcome `AddKeyCode` gives for the old buffers |
| Scan.ScanBuffers.InsertKeyCodes | firmware/src/main.rs:537-543 | the `for_each` loop has the outcome `AddKeyCodes` gives for the old buffers |
| Scan.ScanBuffers.PushConsumer | firmware/src/main.rs:534-536 | the in-place push has the outcome of `PushConsumerCode` |
| Scan.ScanBuffers.PushButton | firmware/src/main.rs:544-546 | the in-place push has the outcome of `PushMouseButton` |
| Scan.ScanBuffers.Resolve | firmware/src/main.rs:525-553 | the in-place match has the outcome `ResolveKey` gives for the old buffers |
| Scan.ScanPosition | firmware/src/main.rs:522-553 | the position's latch steps as `Step` says; the buffers take the `ResolveKey` outcome of the new state; every other latch is unchanged |
| Scan.ScanRow | firmware/src/main.rs:521-554 | the row's buffers outcome is `ResolveRow` of the stepped states; on success every latch of the row has stepped and the callback count is the row's presses; other rows are unchanged |
| Scan.SteppedLatches | firmware/src/main.rs:516-556 | latches that each equal their stepped value make the whole array equal `StepAll` |
| Scan.ScanMatrix | firmware/src/main.rs:516-556 | both loops give the `ResolveRows` outcome of the stepped states; on success every latch has stepped and the callback count is the table's presses |
| Scan.ScanKeys | firmware/src/main.rs:503-557 | the scan's outcome is `ResolveRows` from cleared buffers; it panics iff the pressed positions' contribution exceeds a capacity, and otherwise the buffers hold exactly that contribution; on success every latch has stepped and the press count is right |
| Scan.PlainRowContribution | firmware/src/main.rs:526-533 | a row of plain keys contributes exactly the set of its pressed codes other than `NoEventIndicated` |
| Scan.PlainTableContribution | firmware/src/main.rs:516-556 | a table of plain keys contributes exactly its pressed codes |
| Scan.PlainTableScan | firmware/src/main.rs:503-557 | scanning the key table panics iff more than 32 distinct codes are pressed; otherwise the keyboard buffer holds exactly those codes once each, and the other buffers are empty |
| Scan.QuietRowPresses | firmware/src/debounce.rs:13-19 | a row whose readings equal the latched states fires no callback |
| Scan.QuietTablePresses | firmware/src/debounce.rs:13-19 | a matrix whose readings equal the latched states fires no callback |
| Scan.QuietScan | firmware/src/main.rs:521-523 | when every reading equals its latched state, the scan leaves the latches as they are, sees the readings as the pressed states, and fires no callback |
| Mouse.MouseCurve | firmware/src/main.rs:442-449 | an i16 offset maps into i32; the result is zero iff the offset is, with the same sign |
| Mouse.MouseCurveLinear | firmware/src/main.rs:447 | the curve is odd and additive |
| Mouse.BigEndian | firmware/src/main.rs:493-494 | two bytes give a value in [0, 65535] |
| Mouse.ReadMouseRaw | firmware/src/main.rs:486-501 | a failed read gives none; it panics iff byte 0 or byte 2 is ≥ 0x80; a sample has x in (-32768, 0] and y in [0, 32768), and the button is pressed iff byte 4 is 1 |
| Mouse.Encode | firmware/src/main.rs:486-501 | a canonical encoding of a decodable sample, the inverse of the decode, is five bytes |
| Mouse.DecodeEncode | firmware/src/main.rs:486-501 | decoding the encoding of a decodable sample gives it back |
| Mouse.EncodeDecode | firmware/src/main.rs:486-501 | a buffer that decodes, with byte 4 at most 1, is the encoding of its sample |
| Mouse.DecodedDifferencesFit | firmware/src/main.rs:465-466 | `raw - origin` of decoded samples cannot overflow i16, and its curve fits i32 |
| Mouse.TrackCalibrates | firmware/src/main.rs:456-468 | the first reading becomes the origin and adds no movement; the origin never changes afterwards; the button is the latest reading's |
| Mouse.TrackAllFromOrigin | firmware/src/main.rs:456-468 | over any run of readings from a calibrated tracker, the origin stays put and the accumulator gains the curve of each offset |
| Mouse.FirstReadingIsOrigin | firmware/src/main.rs:460-462 | from power-up, the first reading is the origin for the whole run |
| Mouse.ScaleDown | firmware/src/main.rs:471-472 | i64 division by 40000 truncates toward zero and never overshoots |
| Mouse.Clamp | firmware/src/main.rs:471-472 | the value is clamped to [lo, hi] |
| Mouse.ReportAxis | firmware/src/main.rs:471-475 | the reported axis is an i8; it is zero iff less than one unit is held; it never exceeds the held movement; it saturates at 127 and -128 |
| Mouse.Report | firmware/src/main.rs:470-477 | the report's axes are i8, and the button mask is 1 iff the button is down |
| Mouse.AxisRemainder | firmware/src/main.rs:470-482 | report then account leaves less than one unit of the movement's sign within the i8 range, and takes 127 or 128 units beyond it |
| Mouse.Drained | firmware/src/main.rs:470-482 | repeated report and account cycles end with less than one unit left, of the movement's sign or zero |
| Mouse.MouseTracker.Value | firmware/src/main.rs:434-440 | the value has the object's three fields |
| Mouse.MouseTracker.constructor | firmware/src/main.rs:434-440 | the default tracker is uncalibrated, with nothing accumulated and the button up |
| Mouse.MouseTracker.Update | firmware/src/main.rs:456-468 | panics iff the decode panics; a failed read changes nothing; a reading gives `Track` of the old state |
| Mouse.MouseTracker.PopulateReport | firmware/src/main.rs:470-477 | the report is `Report` of the tracker's state |
| Mouse.MouseTracker.AccountReport | firmware/src/main.rs:479-482 | the reported units are taken out of the accumulator |
| Mode.ButtonBits | firmware/src/main.rs:325-330 | bit 0 is set iff Left is held, bit 1 iff Right is held, and no other bit |
| Mode.WithButtons | firmware/src/main.rs:325-332 | the motion is unchanged; bits 0 and 1 are set iff they already were or the button is held; other bits are unchanged |
| Mode.ApplyButtons | firmware/src/main.rs:325-332 | the `for_each` loop gives the report with the held buttons OR-ed in |
| Mode.MousenessStep | firmware/src/main.rs:334-344 | while only modifiers are held it adds |x| + |y|; otherwise it drops to 0 |
| Mode.MouseModeAfterStep | firmware/src/main.rs:337-348 | mouse mode after the tick holds iff only modifiers are held and the movement so far reaches 5; it persists while only modifiers are held |
| Mode.AbsAsWritten | firmware/src/main.rs:334-335 | `u64::try_from(v.abs())` fails iff v is -128 |
| Mode.MousenessStepAsWritten | firmware/src/main.rs:334-344 | the step as written panics iff the report's x or y is -128 |
| Mode.AsWrittenAgreesAwayFromMinimum | firmware/src/main.rs:334-344 | away from -128, the code as written and the corrected step agree |
| Mode.MinimumReportPanics | firmware/src/main.rs:334-335 | a tracker holding 128 units of leftward movement reports x = -128, and the step as written panics |
| Controller.Firmware.constructor | firmware/src/main.rs:256-280 | the loop starts with clock, press counter and mouseness at zero, released latches, empty buffers and an uncalibrated tracker |
| Controller.Firmware.ScanTick | firmware/src/main.rs:298-309 | the clock advances by one; the scan of the table in the mode mouseness selects has the `ResolveRows` outcome; on success the latches have stepped and the press counter grew by the callbacks |
| Controller.Firmware.KeyboardTick | firmware/src/main.rs:319-379 | the tracker updates only from clock 500; the report is `Report` of the updated tracker with the buttons OR-ed in; mouseness takes `MousenessStep` and the LED shows mouse mode; the tracker accounts for the report iff it was written; the tick panics iff the decode panics or the populated report has x or y at -128 (`abs` overflows); where it does not panic, the as-written mouseness step agrees with `MousenessStep` |
| Controller.Polled | firmware/src/main.rs:320-324 | before clock 500 the mouse is not read |

## Left out

- USB and HID (enumeration, report writing, `WouldBlock`/`Duplicate` handling and the write-failure panics) are not modelled. Whether the mouse report was written is the parameter `reportWritten` of `KeyboardTick`.
- The consumer report (main.rs:381-403) is left out. It copies at most the report's capacity of consumer codes, and that capacity belongs to the HID library, which is not part of this model.
- The scan does not go through `Debounce.DebounceState` objects: it holds one `Latch` value per position in an `array2` and replaces it with `Step`, so aliasing between debouncer objects is not modelled.
- The start-up gate `scan_clock * HID_TICK_AND_MATRIX_SCAN_PERIOD_MS >= 500` is modelled with the period of 1 ms folded in (`MouseStartTicks`).
- The countdown timers, the 100 µs poll delay, the row-pin settle delay and the GPIO reads are left out. A scan receives its column readings as the matrix `raw`.
- The I2C transfer is not modelled: its outcome is the parameter `read`. The press-counter telegram to address 0x08 is left out too; `ScanTick` only keeps the counter it sends.
- The LED pin is left out. `KeyboardTick` returns the level it would be set to.
- The dead cubic branch of `mouse_curve` (`if false`) is not modelled.
- The wheel and pan fields of `WheelMouseReport` are left out; the firmware never sets them.
- `KeyFunction`, `MouseButton` and `MOUSE_MODIFIER_KEYS` are defined outside the core files. `KeyFunction` has the variants the scan matches on. The modifier set is a parameter of `MousenessStep` and `KeyboardTick`.
- `KEY_MAPPING` is declared as a table of `Keyboard` codes, but `scan_keys` matches its entries as `KeyFunction`s. The model reads each entry as `Key(code)` (`AsKeyFunctions`); the scan itself is modelled for any table of `KeyFunction`s.
- `Keyboard` is the HID usage ID as a number in [0, 255], and only the codes the table uses are named.
- Scan.ScanKeys, Controller.Firmware.ScanTick: the scan clock, the press counter and mouseness are unbounded naturals. The u64 overflow is not modelled, since it would take over 500 million years at one tick per millisecond.
- Mouse.MouseTracker.Update: the i64 accumulator is an unbounded integer, and its overflow is not modelled.
- Scan.ScanKeys: the latched states after a panic are not described. The scan stops at the first panic, and the firmware never continues after one.
- `press_action` is modelled by its effect: a flag per latch update and a count per scan.

## Findings

| source | as written | input that shows it | evidently intended | confidence | as-written member | corrected member |
|---|---|---|---|---|---|---|
| firmware/src/main.rs:334-335 | `u64::try_from(mouse_report.x.abs()).unwrap()` on an i8: `abs` of -128 overflows, so the keyboard tick panics | a tracker holding at least 128 units (5,120,000) of negative x or y movement, which `populate_report` clamps to -128. One reading far enough from the origin adds up to about 16,000,000 | add the magnitude, 128, as `unsigned_abs` does | not executed | Mode.MousenessStepAsWritten (and Mode.MinimumReportPanics) | Mode.MousenessStep |
