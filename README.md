# IR remote command path of the C-Robot

This project models the infrared command path of the C-Robot firmware: a
Raspberry Pi Pico that decodes NEC remote-control frames and drives two
motors.

It models and proves properties of four things:

- **`wait_for_level`**: the level-wait primitive.
- **`ir_getkey`**: the NEC frame decoder. It reads:
  - a lead edge;
  - a 9 ms lead pulse, accepted from 8000 to 10000 µs;
  - a 4.5 ms space, accepted from 3500 to 5000 µs;
  - 32 data bits, each packed least-significant bit first into a 4-byte buffer.

  It then runs a complement checksum and returns the command byte.
- **`process_ir_command`**: the command dispatcher.
- **The control loop body of `main`**: it polls the decoder, dispatches each
  key with its own copy of the command switch, and forces a stop on the 801st
  failed poll in a row (the counter test `n > 800` of main.c:122).

## Modules

- `robot.dfy`, module `Robot`: the motor driver. Each driver call appends one
  `Action` to the event log of a `Motors` object.
- `bits.dfy`, module `Bits`: arithmetic of the frame.
  - `Weight` is the value of a bit string read least-significant bit first.
  - `Field(bits, k)` is the slice of byte `k`.
  - `ByteValue` is the packed value of byte `k`.
  - Lemmas about appending, flipping and extracting bits, and about the
    byte-level OR.
- `ir.dfy`, module `Ir`:
  - the scripted receiver line, with the `WaitForLevel` polling loop;
  - the decoder `GetKey`, with its bit loop `ReadDataBits` on an `array<bv8>`;
  - the dispatcher `ProcessIrCommand`.

  Each is proved against a pure specification:
  - `Wait` for the level wait;
  - `ReadBit`, `ReadBits`, `Preamble`, `FrameKey` and `DecodeSpec` for the decoder;
  - `Dispatch` for the dispatcher.
- `control.dfy`, module `Control`: the control loop as a `ControlLoop` class
  with fields `speed` and `n`.
  - `Step` is one pass of the loop body.
  - `Run` makes a bounded number of passes.
  - Both are specified by `Iteration`, `RunFrom` and `Poll`.
  - Lemmas cover the idle counter, the auto-stop and the speed.
- `necframes.dfy`, module `NecFrames`: properties of the decoder.
  - What each stage accepts and rejects.
  - How one bit is classified.
  - That the checksum is a complement test.
  - An encoder of nominal NEC pulse trains with the round trip
    "encode then decode gives back the command".
  - A tolerant round trip: any pulse train whose timings fall in the
    decoder's windows (`InWindow`) decodes to the command it carries.
  - Rejection of every single-bit error.
  - An end-to-end scenario.

### The scripted line

The model has no real pin or clock. The receiver line is a script: entry `k`
is the number of microseconds after the start of the `k`-th wait at which
the awaited level appears.

- Each wait consumes one entry. An entry 0 stands for a line already at the
  awaited level.
- Once the script is exhausted the awaited level never comes, so every later
  wait times out. The empty script is therefore the receiver resting at its
  idle (high) level with no transmission: the decoder's first wait, for the
  line to go low, is one the line never meets. A real line resting high
  would meet a wait for the high level at once; a script models that with an
  entry 0, not by running out.

`WaitForLevel` runs the source as a polling loop against a clock that
advances one microsecond per poll. It gives up once the time spent exceeds
the timeout, the strict `>` of ir.c:43, so an edge that arrives exactly at
the timeout is still seen.

### Integer widths

- **`uint32_t t`.** `wait_for_level` returns `int64_t`, and `ir_getkey`
  stores the result in `uint32_t t`. `ToU32` models that conversion as the
  value modulo 2^32, so a timeout (-1) reads as 4294967295.
  - In the lead-pulse and space stages this value is above the window and is
    rejected.
  - In the bit loop it is neither below 200 nor at most 1200, so a high pulse
    that never ends is read as a one bit, not an abort. The model reproduces
    this behaviour, and `NecFrames.TimedOutHighPulseIsOne` and
    `NecFrames.TimedOutLastBit` state it.
- **`data[4]`.** The buffer is `array<bv8>`, and the bit is ORed in as
  `data[i / 8] | (1 << (i % 8))`.
- **Checksum.** `(uint8_t)(data[0] + data[1])` is computed, as C does, by
  promoting both bytes to `int`, adding, and truncating modulo 256.
- **`uint16_t speed`.** The speed is an integer kept in [0, 65535] by every
  operation. The source's `*speed + 6553 < 65536` is evaluated in `int`, so
  the guard is exact and no 16-bit wrap-around can happen.

## Model

| member | source | states |
|---|---|---|
| `Robot.Motors.MotorStop` | robot.c:52-62 | one stop event is appended to the driver log |
| `Robot.Motors.MotorForward` | robot.c:64-74 | one forward event, with the given duty, is appended to the log |
| `Robot.Motors.MotorBackward` | robot.c:76-86 | one backward event, with the given duty, is appended to the log |
| `Robot.Motors.MotorLeft` | robot.c:88-98 | one left-turn event, with the given duty, is appended to the log |
| `Robot.Motors.MotorRight` | robot.c:100-110 | one right-turn event, with the given duty, is appended to the log |
| `Bits.Weight` | ir.c:79-82 | the value of n bits read least-significant first is below 2^n |
| `Bits.ByteValue` | ir.c:64-82 | the value byte k of the buffer gets from its eight bits is in [0, 255], so it fits the `uint8_t` slot |
| `Bits.ByteValueAppend` | ir.c:76-82 | receiving bit `i` adds 2^(i mod 8) to byte i div 8 exactly when the bit is set and leaves every other byte unchanged; before it arrives, that byte is below 2^(i mod 8) |
| `Bits.SetBit` | ir.c:81 | ORing `1 << j` into a byte whose value is below 2^j adds exactly 2^j, so the OR never meets a bit already set |
| `Bits.ByteBit` | ir.c:76-82 | bit i mod 8 of byte i div 8 is bit `i` of the frame, and flipping bit `i` leaves every other byte unchanged |
| `Bits.WeightToBits` | ir.c:79-82 | a value below 2^n split into n bits, least-significant first, packs back to itself |
| `Bits.WeightFlip` | ir.c:79-82 | flipping one bit moves the packed value by exactly 2^j, down if the bit was set and up otherwise |
| `Ir.ToU32` | ir.c:56 | the `uint32_t` conversion is below 2^32, is the identity on [0, 2^32), and maps -1 to 4294967295 |
| `Ir.Wait` | ir.c:36-49 | a wait reports -1 or a time in [0, timeout], and consumes exactly one script entry unless the script is exhausted |
| `Ir.PulseScript.WaitForLevel` | ir.c:36-49 | the polling loop returns the time until the level if it is no more than the timeout and -1 otherwise, consuming one entry, as `Wait` says |
| `Ir.ReadBit` | ir.c:68-82 | a successful bit reading yields exactly one bit, and a failed one yields none |
| `Ir.ReadBits` | ir.c:67-83 | a successful reading of n bits yields exactly n bits |
| `Ir.ChecksumOk` | ir.c:86 | on byte values, the truncated-sum test passes exactly when byte 1 is 255 minus byte 0 and byte 3 is 255 minus byte 2 |
| `Ir.Preamble` | ir.c:52-61 | an accepted preamble has consumed exactly its three waits: the lead edge, the lead pulse and the space |
| `Ir.PutBit` | ir.c:76-81 | setting bit i changes only byte i div 8, and while that byte is below 2^(i mod 8) it grows by 2^(i mod 8) for a one and stays for a zero |
| `Ir.FrameKey` | ir.c:86-90 | the key of a complete frame is -1 or a byte in [0, 255] |
| `Ir.DecodeSpec` | ir.c:51-91 | one decode attempt yields -1 or a command byte in [0, 255] |
| `Ir.FailurePersists` | ir.c:69-73 | once a bit reading has failed, reading further bits changes neither the outcome nor the line consumed |
| `Ir.PackStep` | ir.c:76-82 | if the buffer holds the packed bytes of the bits so far, ORing in the next bit keeps it so |
| `Ir.PackedKey` | ir.c:86-90 | the buffer's checksum test and return value agree with `FrameKey` on the packed bits |
| `Ir.EdgeFails` | ir.c:53 | a timed-out lead-edge wait ends the attempt with -1, having consumed exactly that wait |
| `Ir.LeadChecked` | ir.c:56-57 | a lead pulse outside [8000, 10000] after `uint32_t` conversion ends the attempt with -1; one inside it makes the preamble's outcome the space check |
| `Ir.PreambleFails` | ir.c:60-61 | a rejected preamble ends the attempt with -1, with the line consumed by the preamble |
| `Ir.AfterPreamble` | ir.c:63-91 | after an accepted preamble the attempt is the 32-bit reading followed by the checksum |
| `Ir.BitLowFails` | ir.c:69 | a timed-out rise before a data bit makes the whole 32-bit read fail at that point |
| `Ir.BitHighFails` | ir.c:72-73 | a high pulse measured below 200 µs makes the whole 32-bit read fail at that point |
| `Ir.BitRead` | ir.c:71-82 | a successful bit extends the reading by one bit, set exactly when the measurement exceeds 1200 |
| `Ir.SetDataBit` | ir.c:76-81 | ORing bit i into byte i div 8, at position i mod 8, changes the buffer exactly as `PutBit` says and nothing else |
| `Ir.ReadDataBits` | ir.c:64-83 | the bit loop succeeds exactly when `ReadBits` does, consumes the same line, and leaves each byte of the buffer equal to the packed value of its eight bits |
| `Ir.GetKey` | ir.c:51-91 | the decoder returns what `DecodeSpec` gives for the line, and consumes the same waits |
| `Ir.ProcessIrCommand` | ir.c:93-139 | the new speed and the driver calls are those of the command table `Dispatch`, and the speed stays in [0, 65535] |
| `Ir.Dispatch` | ir.c:95-138 | every command keeps the speed in [0, 65535] and issues at most one driver call; a command that calls the driver keeps the speed, and only 0x09, 0x15 and 0x07 change it |
| `Ir.Repeat` | ir.c:95-138 | a code other than 0x09, 0x15 and 0x07, however often repeated, never changes the speed |
| `Ir.MovementCodes` | ir.c:96-119 | 0x18 forward(speed), 0x52 backward(speed), 0x08 left(13107), 0x5A right(13107) and 0x1C stop each issue exactly that one call and keep the speed |
| `Ir.OnlySpeedCodesChangeSpeed` | ir.c:95-138 | only 0x09, 0x15 and 0x07 change the speed, and those three issue no driver call |
| `Ir.UnknownCodesIgnored` | ir.c:136-137 | a code outside the table changes nothing and calls nothing |
| `Ir.SpeedCodes` | ir.c:121-134 | 0x09 sets 32768; 0x15 adds 6553 exactly when the sum is below 65536 and otherwise keeps the speed; 0x07 subtracts 6553 exactly when the speed exceeds 6553 and otherwise keeps it |
| `Ir.RepeatedIncrease` | ir.c:126-129 | repeated 0x15 never leaves [0, 65535] and never lowers the speed; from a speed within 6553 of 65536 it never moves |
| `Ir.IncreaseFrom` | ir.c:126-129 | once repeated increases reach a speed from which another step would reach 65536, further ones change nothing |
| `Ir.RepeatedDecrease` | ir.c:131-134 | repeated 0x07 from a positive speed never goes below 1 or above the start, and from 6553 or less it never moves |
| `Ir.DecreaseFrom` | ir.c:131-134 | once repeated decreases reach 6553 or less, further ones change nothing |
| `Ir.SaturationExamples` | ir.c:126-134 | 59215 never changes under repeated 0x15; 50000 becomes 56553, then 63106, and then stays there; 6554 becomes 1 after one 0x07 and then stays 1 |
| `Control.ControlLoop.constructor` | main.c:57-61 | the loop starts with speed 32768 and n = 0 |
| `Control.ControlLoop.Step` | main.c:64-129 | one pass returns what `GetKey` returns, and moves speed, n and the driver log as `Iteration` says; the inline switch therefore acts exactly like `Dispatch`, as `ProcessIrCommand` does |
| `Control.ControlLoop.Run` | main.c:64-130 | `k` passes return the keys `Poll` gives for the line, with state and driver log as `RunFrom` says for those keys |
| `Control.Iteration` | main.c:66-125 | a pass keeps speed in [0, 65535] and n in [0, 800], issues at most one driver call, resets n on a decoded key, and keeps the speed on a failed one |
| `Control.RunFrom` | main.c:64-130 | repeated passes keep speed in [0, 65535] and n in [0, 800], and issue at most one driver call per pass |
| `Control.Poll` | main.c:64-66 | k polls of the decoder give k keys, each -1 or a byte in [0, 255] |
| `Control.SuccessResetsIdle` | main.c:66-116 | a decoded key resets n to 0 and has exactly the dispatcher's effect |
| `Control.FailureCounts` | main.c:117-125 | a failed decode keeps the speed; below 800 it only increments n, and at n = 800 it issues one stop and resets n to 0 |
| `Control.OnlySpeedCodesChangeSpeed` | main.c:99-125 | a pass changes the speed only when it decodes 0x09, 0x15 or 0x07 |
| `Control.IdleRun` | main.c:117-125 | from n = 0, k failed polls issue exactly k div 801 stops and leave n = k mod 801, with the speed unchanged |
| `Control.AutoStopThreshold` | main.c:121-125 | 800 failures in a row issue no stop; the 801st issues exactly one and resets n |
| `Control.SilentLine` | ir.c:53 | with the receiver resting at its idle level, the lead-edge wait of every attempt times out, so every poll gives -1 |
| `Control.SilentRun` | main.c:57-125 | from start-up with no transmission, k passes stop the motors k div 801 times and leave n = k mod 801 at speed 32768 |
| `NecFrames.WaitOutcome` | ir.c:36-49 | a wait succeeds exactly when the level comes within the timeout, then reports that time, and otherwise reports exactly -1 |
| `NecFrames.PreambleWindows` | ir.c:52-61 | the preamble is accepted exactly when the edge comes within 150000 µs, the lead pulse lasts 8000 to 10000 µs and the space 3500 to 5000 µs, and then three waits are consumed |
| `NecFrames.RejectedPreamble` | ir.c:53-61 | a lead edge, lead pulse or space outside its window, including a timed-out one, makes the attempt return -1 |
| `NecFrames.ToleranceBoundaries` | ir.c:56-61 | 7999 and 10001 are rejected and 8000 and 10000 accepted for the lead; 3499 and 5001 are rejected and 3500 and 5000 accepted for the space |
| `NecFrames.ReadBitCases` | ir.c:68-82 | a bit is read exactly when the rise comes within 1000 µs and the high pulse is not measured below 200 µs; it is a one exactly when the pulse is over 1200 µs or never ends |
| `NecFrames.TimedOutHighPulseIsOne` | ir.c:72-81 | a high pulse that times out is read as a one bit, not an abort |
| `NecFrames.BitThresholds` | ir.c:69-82 | 199 aborts; 200 and 1200 are zeros; 1201 is a one; a rise at 1001 µs aborts |
| `NecFrames.ChecksumComplement` | ir.c:86 | for bytes, (x + y) mod 256 is 0xFF exactly when y = 255 - x |
| `NecFrames.ChecksumIsComplement` | ir.c:85-86 | for `uint8_t` values, the truncated sum is 0xFF exactly when the second is the bitwise complement of the first |
| `NecFrames.ReadBitsOfPulses` | ir.c:67-83 | a nominal pulse train of any bit string reads back as that bit string and consumes exactly its pulses |
| `NecFrames.FieldsOfFrame` | ir.c:64-82 | the four bytes of an encoded frame pack back to the bytes encoded |
| `NecFrames.DecodeTrain` | ir.c:51-91 | a frame within 150 ms of idle decodes to the key its 32 bits give, leaving the rest of the line |
| `NecFrames.ChecksumDecides` | ir.c:86-90 | an encoded frame yields its command byte exactly when bytes 1 and 3 are the complements of bytes 0 and 2, and -1 otherwise |
| `NecFrames.BitTolerant` | ir.c:68-82 | a rise within 1000 µs followed by a high pulse in [200, 1200] µs reads as a zero, and one over 1200 µs as a one |
| `NecFrames.NominalInWindow` | ir.c:68-82 | the nominal 560/560 and 560/1690 µs timings of every bit lie in the decoder's windows |
| `NecFrames.ReadBitsTolerant` | ir.c:67-83 | any pulse train whose every bit lies in the decoder's windows reads back as that bit string and consumes exactly its pulses |
| `NecFrames.DecodeTolerant` | ir.c:51-91 | a lead edge within 150 ms, a lead in [8000, 10000] µs, a space in [3500, 5000] µs and 32 in-window bits decode to the key of those bits, leaving the rest of the line |
| `NecFrames.NecFrameKey` | ir.c:86-90 | the bits of a frame (address, ~address, command, ~command) pass the checksum and give the command |
| `NecFrames.TolerantRoundTrip` | ir.c:51-91 | a frame (address, ~address, command, ~command) sent with any timings inside the decoder's windows decodes to the command |
| `NecFrames.RoundTrip` | ir.c:51-91 | a frame (address, ~address, command, ~command) sent with nominal timings decodes to the command |
| `NecFrames.FlipMovesOneByte` | ir.c:76-82 | flipping bit j of a frame moves only byte j div 8, by 2^(j mod 8) |
| `NecFrames.FlipBreaksChecksum` | ir.c:86-90 | flipping any one bit of a frame that passes the checksum makes it fail |
| `NecFrames.SingleBitErrorRejected` | ir.c:64-90 | a well-formed frame with any one of its 32 bits corrupted decodes to -1 |
| `NecFrames.TimedOutLastBit` | ir.c:72-83 | if the line stays high after the last mark, the frame still completes, with that last bit read as a one |
| `NecFrames.ForwardScenario` | ir.c:86-97 | frame (0x00, 0xFF, 0x18, 0xE7) decodes to 0x18, which drives forward at the current speed |
| `NecFrames.CorruptedScenario` | ir.c:86-90 | the same frame with 0xE6 as its last byte fails the checksum and decodes to -1 |

## Left out

- robot.c (`setup_pwm` and the bodies of `motor_*`) writes PWM and GPIO
  registers and makes no decisions. Each driver call is recorded only as an
  event with its duty cycle.
- Hardware initialisation in `main` (`stdio_init_all`, `gpio_init`,
  `gpio_set_dir`, `gpio_pull_up`, `setup_pwm`) is not modelled. The same
  goes for every `printf` and for `sleep_ms(1)`, which are output or delay
  only. As a result, the auto-stop is counted in loop passes, not in
  milliseconds.
- The real pin and clock are replaced by the script:
  - `gpio_get`, `get_absolute_time` and `absolute_time_diff_us` are not
    modelled;
  - neither are the `gpio` and `level` parameters of `wait_for_level`: the
    script says when the awaited level appears.
  - The returned time is the scripted edge time. In the firmware it is read
    after the loop exits, so it can be a few microseconds later than the
    edge; the model does not capture this.
- The non-terminating `while (1)` of `main` becomes `Run`, a bounded number
  of passes.
- `Ir.GetKey` does not hold the bit loop inline. It is the separate method
  `Ir.ReadDataBits`, with the OR write in `Ir.SetDataBit`. The code and order
  of the waits are unchanged.
- `Ir.ReadBit` states only the number of bits it yields; what it accepts and
  how it classifies a bit is stated by `NecFrames.ReadBitCases`.
- `Ir.ReadBits` states only the number of bits it yields; what a nominal
  train produces is stated by `NecFrames.ReadBitsOfPulses`.
- `Ir.FrameKey` and `Ir.DecodeSpec` state only the range of the key. Which
  frames they accept is stated by `NecFrames.ChecksumDecides`,
  `NecFrames.PreambleWindows`, `NecFrames.RoundTrip` and
  `NecFrames.TolerantRoundTrip`.
- `Ir.Wait` states the range of the result and what is consumed; the exact
  outcome is stated by `NecFrames.WaitOutcome`.
