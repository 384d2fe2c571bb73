/** The infrared side of the robot: the level-wait primitive, the NEC frame
    decoder and the command dispatcher.

    The receiver line and the microsecond clock are replaced by a script.
    Entry k of the script is how many microseconds after the start of the
    k-th wait the awaited level appears on the line; a line already at that
    level is an entry 0.  Each wait consumes one entry.  Once the script is
    exhausted the awaited level never comes, so every later wait times out:
    this is the receiver resting at its idle (high) level while the decoder
    waits for it to go low. */
module Ir {
  import opened Bits
  import opened Robot

  // Timeouts and tolerance windows of the decoder, in microseconds.
  const LeadEdgeTimeout: nat := 150000
  const LeadPulseTimeout: nat := 12000
  const LeadMin: nat := 8000
  const LeadMax: nat := 10000
  const SpaceTimeout: nat := 7000
  const SpaceMin: nat := 3500
  const SpaceMax: nat := 5000
  const BitLowTimeout: nat := 1000
  const BitHighTimeout: nat := 2500
  const BitHighMin: nat := 200
  const OneThreshold: nat := 1200
  const FrameLength: nat := 32

  /** 2^32: `uint32_t` keeps a value modulo this. */
  const U32: nat := 0x1_0000_0000

  /** The conversion `uint32_t t = <int64_t>`: the value modulo 2^32.
      A timeout sentinel -1 becomes 4294967295. */
  function ToU32(x: int): (t: nat)
    ensures t < U32
    ensures 0 <= x < U32 ==> t == x
    ensures x == -1 ==> t == U32 - 1
  {
    x % U32
  }

  // ---------------------------------------------------------------------
  // Level-wait primitive

  /** What one wait reports and the script it leaves for the next. */
  datatype Waited = Waited(elapsed: int, rest: seq<nat>)

  /** One wait with the given timeout: the time until the awaited level if it
      is no more than the timeout, and -1 otherwise. */
  function Wait(script: seq<nat>, timeout: nat): (w: Waited)
    ensures w.elapsed == -1 || 0 <= w.elapsed <= timeout
    ensures w.rest == if script == [] then [] else script[1..]
  {
    if script == [] then Waited(-1, [])
    else Waited(if script[0] <= timeout then script[0] else -1, script[1..])
  }

  /** The receiver line together with the clock, driven by a script. */
  class PulseScript {
    const edges: seq<nat>
    var cursor: nat

    ghost predicate Valid()
      reads this
    {
      cursor <= |edges|
    }

    /** The part of the script not yet consumed. */
    ghost function Remaining(): seq<nat>
      reads this
      requires Valid()
    {
      edges[cursor..]
    }

    constructor (script: seq<nat>)
      ensures Valid() && Remaining() == script
    {
      edges := script;
      cursor := 0;
    }

    /** Polls the line in a loop on a clock that advances one microsecond per
        poll, until the awaited level shows or the time spent exceeds the
        timeout. */
    method WaitForLevel(timeout: nat) returns (elapsed: int)
      requires Valid()
      modifies this
      ensures Valid()
      ensures Wait(old(Remaining()), timeout) == Waited(elapsed, Remaining())
    {
      var clock: nat := 0;
      while !(cursor < |edges| && clock >= edges[cursor])
        invariant cursor == old(cursor)
        invariant clock <= timeout
        invariant cursor < |edges| ==> clock <= edges[cursor]
        decreases timeout - clock
      {
        clock := clock + 1;
        if clock > timeout {
          if cursor < |edges| {
            cursor := cursor + 1;
          }
          return -1;
        }
      }
      cursor := cursor + 1;
      elapsed := clock;
    }
  }

  // ---------------------------------------------------------------------
  // Frame decoder

  /** The bits read so far, whether reading went well, and what is left of
      the script. */
  datatype Reading = Reading(ok: bool, bits: seq<bool>, rest: seq<nat>)

  /** One data bit: wait for the line to rise, then time the high pulse.  The
      duration passes through `uint32_t`, so a timed-out high pulse is
      4294967295: not below the minimum, and above the one-threshold. */
  function ReadBit(script: seq<nat>): (r: Reading)
    ensures r.ok ==> |r.bits| == 1
    ensures !r.ok ==> r.bits == []
  {
    var rise := Wait(script, BitLowTimeout);
    if rise.elapsed < 0 then Reading(false, [], rise.rest)
    else
      var high := Wait(rise.rest, BitHighTimeout);
      var t := ToU32(high.elapsed);
      if t < BitHighMin then Reading(false, [], high.rest)
      else Reading(true, [t > OneThreshold], high.rest)
  }

  /** `n` data bits in arrival order; the first failure ends the reading. */
  function ReadBits(script: seq<nat>, n: nat): (r: Reading)
    ensures r.ok ==> |r.bits| == n
  {
    if n == 0 then Reading(true, [], script)
    else
      var before := ReadBits(script, n - 1);
      if !before.ok then before
      else
        var b := ReadBit(before.rest);
        Reading(b.ok, before.bits + b.bits, b.rest)
  }

  /** The frame check: each byte plus the next, truncated to 8 bits, is 0xFF. */
  function ChecksumOk(b0: int, b1: int, b2: int, b3: int): (ok: bool)
    ensures 0 <= b0 < 256 && 0 <= b1 < 256 && 0 <= b2 < 256 && 0 <= b3 < 256 ==>
              (ok <==> b1 == 255 - b0 && b3 == 255 - b2)
  {
    (b0 + b1) % 256 == 0xFF && (b2 + b3) % 256 == 0xFF
  }

  /** The key a complete 32-bit frame yields: its third byte if both
      checksums hold, and -1 otherwise. */
  function FrameKey(bits: seq<bool>): (key: int)
    ensures key == -1 || 0 <= key < 256
  {
    if ChecksumOk(ByteValue(bits, 0), ByteValue(bits, 1), ByteValue(bits, 2), ByteValue(bits, 3))
    then ByteValue(bits, 2)
    else -1
  }

  /** Lead edge, lead pulse and space: whether all three were in their
      windows, and what is left of the script. */
  datatype Stage = Stage(ok: bool, rest: seq<nat>)

  function Preamble(script: seq<nat>): (st: Stage)
    ensures st.ok ==> |script| >= 3 && st.rest == script[3..]
  {
    var edge := Wait(script, LeadEdgeTimeout);
    if edge.elapsed < 0 then Stage(false, edge.rest)
    else
      var lead := Wait(edge.rest, LeadPulseTimeout);
      var t1 := ToU32(lead.elapsed);
      if t1 < LeadMin || t1 > LeadMax then Stage(false, lead.rest)
      else
        var space := Wait(lead.rest, SpaceTimeout);
        var t2 := ToU32(space.elapsed);
        Stage(SpaceMin <= t2 <= SpaceMax, space.rest)
  }

  /** The outcome of one decode attempt: the command byte or -1, and what is
      left of the script. */
  datatype Attempt = Attempt(key: int, rest: seq<nat>)

  /** One decode attempt: lead edge, lead pulse, space, 32 bits, checksum. */
  function DecodeSpec(script: seq<nat>): (a: Attempt)
    ensures a.key == -1 || 0 <= a.key < 256
  {
    var p := Preamble(script);
    if !p.ok then Attempt(-1, p.rest)
    else
      var r := ReadBits(p.rest, FrameLength);
      if !r.ok then Attempt(-1, r.rest)
      else Attempt(FrameKey(r.bits), r.rest)
  }

  /** Once reading has failed, reading further bits changes nothing. */
  lemma {:induction false} FailurePersists(script: seq<nat>, m: nat, n: nat)
    requires m <= n && !ReadBits(script, m).ok
    ensures ReadBits(script, n) == ReadBits(script, m)
  {
    if m < n {
      FailurePersists(script, m, n - 1);
    }
  }

  /** The 4-byte buffer holds the packed value of the bits read so far. */
  ghost predicate Packs(data: seq<bv8>, bits: seq<bool>)
  {
    |data| == 4 && forall k :: 0 <= k < 4 ==> data[k] as int == ByteValue(bits, k)
  }

  /** Bit i is ORed into byte i / 8 at position i % 8 when it is set. */
  function PutBit(data: seq<bv8>, i: nat, b: bool): (r: seq<bv8>)
    requires i / 8 < |data|
    ensures |r| == |data|
    ensures forall k :: 0 <= k < |data| && k != i / 8 ==> r[k] == data[k]
    ensures data[i / 8] as int < Pow2(i % 8) ==>
              r[i / 8] as int == data[i / 8] as int + (if b then Pow2(i % 8) else 0)
  {
    if !b then data
    else
      var j := i / 8;
      var r := data[j := data[j] | ((1 as bv8) << (i % 8))];
      if data[j] as int < Pow2(i % 8) then SetBit(data[j], i % 8); r else r
  }

  lemma PackStep(data: seq<bv8>, bits: seq<bool>, b: bool)
    requires Packs(data, bits) && |bits| < FrameLength
    ensures Packs(PutBit(data, |bits|, b), bits + [b])
  {
    var i := |bits|;
    forall k | 0 <= k < 4
      ensures ByteValue(bits + [b], k)
              == if k == i / 8 then ByteValue(bits, k) + (if b then Pow2(i % 8) else 0)
                 else ByteValue(bits, k)
      ensures k == i / 8 ==> ByteValue(bits, k) < Pow2(i % 8)
    {
      ByteValueAppend(bits, b, k);
    }
    if b {
      SetBit(data[i / 8], i % 8);
    }
  }

  /** The buffer's checksum test and result agree with `FrameKey`. */
  lemma PackedKey(b0: int, b1: int, b2: int, b3: int, bits: seq<bool>)
    requires b0 == ByteValue(bits, 0) && b1 == ByteValue(bits, 1)
    requires b2 == ByteValue(bits, 2) && b3 == ByteValue(bits, 3)
    ensures FrameKey(bits) == if (b0 + b1) % 256 == 0xFF && (b2 + b3) % 256 == 0xFF then b2 else -1
  {
  }

  // Single steps of the specification, one per exit of the decoder.

  lemma EdgeFails(script: seq<nat>, rest: seq<nat>)
    requires Wait(script, LeadEdgeTimeout) == Waited(-1, rest)
    ensures DecodeSpec(script) == Attempt(-1, rest)
  {
  }

  lemma LeadChecked(script: seq<nat>, r0: int, rest0: seq<nat>, r1: int, rest1: seq<nat>)
    requires Wait(script, LeadEdgeTimeout) == Waited(r0, rest0) && r0 >= 0
    requires Wait(rest0, LeadPulseTimeout) == Waited(r1, rest1)
    ensures !(LeadMin <= ToU32(r1) <= LeadMax) ==> DecodeSpec(script) == Attempt(-1, rest1)
    ensures LeadMin <= ToU32(r1) <= LeadMax ==>
              Preamble(script) == Stage(SpaceMin <= ToU32(Wait(rest1, SpaceTimeout).elapsed) <= SpaceMax,
                                        Wait(rest1, SpaceTimeout).rest)
  {
  }

  lemma PreambleFails(script: seq<nat>)
    requires !Preamble(script).ok
    ensures DecodeSpec(script) == Attempt(-1, Preamble(script).rest)
  {
  }

  lemma AfterPreamble(script: seq<nat>, afterSpace: seq<nat>)
    requires Preamble(script) == Stage(true, afterSpace)
    ensures var r := ReadBits(afterSpace, FrameLength);
            DecodeSpec(script) == if r.ok then Attempt(FrameKey(r.bits), r.rest) else Attempt(-1, r.rest)
  {
  }

  lemma BitLowFails(start: seq<nat>, i: nat, bits: seq<bool>, here: seq<nat>, rest: seq<nat>)
    requires i < FrameLength && ReadBits(start, i) == Reading(true, bits, here)
    requires Wait(here, BitLowTimeout) == Waited(-1, rest)
    ensures ReadBits(start, FrameLength) == Reading(false, bits, rest)
  {
    assert ReadBit(here) == Reading(false, [], rest);
    assert ReadBits(start, i + 1) == Reading(false, bits + [], rest);
    FailurePersists(start, i + 1, FrameLength);
  }

  lemma BitHighFails(start: seq<nat>, i: nat, bits: seq<bool>, here: seq<nat>,
                     r1: int, mid: seq<nat>, r2: int, rest: seq<nat>)
    requires i < FrameLength && ReadBits(start, i) == Reading(true, bits, here)
    requires Wait(here, BitLowTimeout) == Waited(r1, mid) && r1 >= 0
    requires Wait(mid, BitHighTimeout) == Waited(r2, rest) && ToU32(r2) < BitHighMin
    ensures ReadBits(start, FrameLength) == Reading(false, bits, rest)
  {
    assert ReadBit(here) == Reading(false, [], rest);
    assert ReadBits(start, i + 1) == Reading(false, bits + [], rest);
    FailurePersists(start, i + 1, FrameLength);
  }

  lemma BitRead(start: seq<nat>, i: nat, bits: seq<bool>, here: seq<nat>,
                r1: int, mid: seq<nat>, r2: int, rest: seq<nat>)
    requires ReadBits(start, i) == Reading(true, bits, here)
    requires Wait(here, BitLowTimeout) == Waited(r1, mid) && r1 >= 0
    requires Wait(mid, BitHighTimeout) == Waited(r2, rest) && ToU32(r2) >= BitHighMin
    ensures ReadBits(start, i + 1) == Reading(true, bits + [ToU32(r2) > OneThreshold], rest)
  {
  }

  /** `data[i / 8] |= (1 << (i % 8))`: sets bit i of the 4-byte buffer. */
  method SetDataBit(data: array<bv8>, i: nat)
    requires i < FrameLength && data.Length == 4
    modifies data
    ensures data[..] == PutBit(old(data[..]), i, true)
  {
    var idx := i / 8;
    var bit := i % 8;
    data[idx] := data[idx] | (1 << bit);
  }

  /** The bit loop of the decoder: reads 32 bits from the line and ORs each
      long pulse into `data`, stopping at the first failed bit. */
  method ReadDataBits(src: PulseScript, data: array<bv8>) returns (ok: bool)
    requires src.Valid() && data.Length == 4 && data[..] == [0, 0, 0, 0]
    modifies src, data
    ensures src.Valid()
    ensures ReadBits(old(src.Remaining()), FrameLength).ok == ok
    ensures ReadBits(old(src.Remaining()), FrameLength).rest == src.Remaining()
    ensures ok ==> Packs(data[..], ReadBits(old(src.Remaining()), FrameLength).bits)
  {
    ghost var start := src.Remaining();
    ghost var bits: seq<bool> := [];
    for i := 0 to FrameLength
      invariant src.Valid()
      invariant |bits| == i
      invariant ReadBits(start, i) == Reading(true, bits, src.Remaining())
      invariant Packs(data[..], bits)
    {
      ghost var here := src.Remaining();
      var r := src.WaitForLevel(BitLowTimeout);
      ghost var r1, mid := r, src.Remaining();
      if r < 0 {
        BitLowFails(start, i, bits, here, mid);
        return false;
      }
      r := src.WaitForLevel(BitHighTimeout);
      var t := ToU32(r);
      if t < BitHighMin {
        BitHighFails(start, i, bits, here, r1, mid, r, src.Remaining());
        return false;
      }
      BitRead(start, i, bits, here, r1, mid, r, src.Remaining());
      ghost var before := data[..];
      PackStep(before, bits, t > OneThreshold);
      if t > OneThreshold {
        SetDataBit(data, i);
      }
      assert data[..] == PutBit(before, i, t > OneThreshold);
      bits := bits + [t > OneThreshold];
    }
    return true;
  }

  /** Decodes one frame from the line: a return value of -1 means no valid
      frame was seen on this attempt. */
  method GetKey(src: PulseScript) returns (key: int)
    requires src.Valid()
    modifies src
    ensures src.Valid()
    ensures DecodeSpec(old(src.Remaining())) == Attempt(key, src.Remaining())
  {
    ghost var script := src.Remaining();
    var r := src.WaitForLevel(LeadEdgeTimeout);
    if r < 0 {
      EdgeFails(script, src.Remaining());
      return -1;
    }
    ghost var r0, rest0 := r, src.Remaining();
    r := src.WaitForLevel(LeadPulseTimeout);
    var t := ToU32(r);
    LeadChecked(script, r0, rest0, r, src.Remaining());
    if t < LeadMin || t > LeadMax {
      return -1;
    }
    r := src.WaitForLevel(SpaceTimeout);
    t := ToU32(r);
    if t < SpaceMin || t > SpaceMax {
      PreambleFails(script);
      return -1;
    }
    ghost var afterSpace := src.Remaining();
    AfterPreamble(script, afterSpace);
    var data := new bv8[4](_ => 0);
    assert data[..] == [0, 0, 0, 0];
    var ok := ReadDataBits(src, data);
    if !ok {
      return -1;
    }
    ghost var bits := ReadBits(afterSpace, FrameLength).bits;
    // The C sums promote both bytes to int before truncating to 8 bits.
    var b0, b1, b2, b3 := data[0] as int, data[1] as int, data[2] as int, data[3] as int;
    assert data[..][0] == data[0] && data[..][1] == data[1] && data[..][2] == data[2] && data[..][3] == data[3];
    PackedKey(b0, b1, b2, b3, bits);
    if (b0 + b1) % 256 == 0xFF && (b2 + b3) % 256 == 0xFF {
      key := b2;
    } else {
      key := -1;
    }
  }

  // ---------------------------------------------------------------------
  // Command dispatcher

  const TurnDuty: int := 13107
  const DefaultSpeed: int := 32768
  const SpeedStep: int := 6553

  /** A value a `uint16_t` can hold. */
  predicate IsU16(x: int)
  {
    0 <= x < 0x1_0000
  }

  /** What one command does: the new speed and the driver calls it makes. */
  datatype Effect = Effect(speed: int, actions: seq<Action>)

  /** The command table: five movement codes, three speed codes, and every
      other code ignored. */
  function Dispatch(key: int, speed: int): (e: Effect)
    ensures IsU16(speed) ==> IsU16(e.speed)
    ensures |e.actions| <= 1
    ensures e.actions != [] ==> e.speed == speed
    ensures e.speed != speed ==> key == 0x09 || key == 0x15 || key == 0x07
  {
    match key
    case 0x18 => Effect(speed, [Forward(speed)])
    case 0x08 => Effect(speed, [Left(TurnDuty)])
    case 0x1C => Effect(speed, [Stop])
    case 0x5A => Effect(speed, [Right(TurnDuty)])
    case 0x52 => Effect(speed, [Backward(speed)])
    case 0x09 => Effect(DefaultSpeed, [])
    case 0x15 => Effect(if speed + SpeedStep < 0x1_0000 then speed + SpeedStep else speed, [])
    case 0x07 => Effect(if speed > SpeedStep then speed - SpeedStep else speed, [])
    case _ => Effect(speed, [])
  }

  /** The `uint16_t *speed` the dispatcher is handed. */
  class SpeedCell {
    var value: int

    constructor (v: int)
      ensures value == v
    {
      value := v;
    }
  }

  /** Carries out one command: adjusts the speed through the pointer or
      calls the motor driver. */
  method ProcessIrCommand(key: int, speed: SpeedCell, motors: Motors)
    requires IsU16(speed.value)
    modifies speed, motors
    ensures IsU16(speed.value)
    ensures speed.value == Dispatch(key, old(speed.value)).speed
    ensures motors.log == old(motors.log) + Dispatch(key, old(speed.value)).actions
  {
    match key
    case 0x18 =>
      motors.MotorForward(speed.value);
    case 0x08 =>
      motors.MotorLeft(TurnDuty);
    case 0x1C =>
      motors.MotorStop();
    case 0x5A =>
      motors.MotorRight(TurnDuty);
    case 0x52 =>
      motors.MotorBackward(speed.value);
    case 0x09 =>
      speed.value := DefaultSpeed;
    case 0x15 =>
      if speed.value + SpeedStep < 0x1_0000 {
        speed.value := speed.value + SpeedStep;
      }
    case 0x07 =>
      if speed.value > SpeedStep {
        speed.value := speed.value - SpeedStep;
      }
    case _ =>
  }

  // ---------------------------------------------------------------------
  // Properties of the dispatcher

  /** Movement codes keep the speed and issue exactly one driver call; the
      turns run at the fixed turn duty, the others at the current speed. */
  lemma MovementCodes(speed: int)
    ensures Dispatch(0x18, speed) == Effect(speed, [Forward(speed)])
    ensures Dispatch(0x52, speed) == Effect(speed, [Backward(speed)])
    ensures Dispatch(0x08, speed) == Effect(speed, [Left(13107)])
    ensures Dispatch(0x5A, speed) == Effect(speed, [Right(13107)])
    ensures Dispatch(0x1C, speed) == Effect(speed, [Stop])
  {
  }

  /** Only the reset, increase and decrease codes change the speed, and
      those three make no driver call. */
  lemma OnlySpeedCodesChangeSpeed(key: int, speed: int)
    ensures Dispatch(key, speed).speed != speed ==> key == 0x09 || key == 0x15 || key == 0x07
    ensures key == 0x09 || key == 0x15 || key == 0x07 ==> Dispatch(key, speed).actions == []
  {
  }

  /** A code outside the table does nothing at all. */
  lemma UnknownCodesIgnored(key: int, speed: int)
    requires key !in {0x18, 0x08, 0x1C, 0x5A, 0x52, 0x09, 0x15, 0x07}
    ensures Dispatch(key, speed) == Effect(speed, [])
  {
  }

  /** The three speed codes: reset to 32768; add 6553 exactly when the sum
      stays below 65536; subtract 6553 exactly when speed exceeds 6553. */
  lemma SpeedCodes(speed: int)
    ensures Dispatch(0x09, speed).speed == 32768
    ensures Dispatch(0x15, speed).speed == speed + 6553 <==> speed + 6553 < 65536
    ensures Dispatch(0x15, speed).speed == speed <==> speed + 6553 >= 65536
    ensures Dispatch(0x07, speed).speed == speed - 6553 <==> speed > 6553
    ensures Dispatch(0x07, speed).speed == speed <==> speed <= 6553
  {
  }

  /** The speed after the same code is received `k` times in a row. */
  function Repeat(key: int, speed: int, k: nat): (r: int)
    ensures key != 0x09 && key != 0x15 && key != 0x07 ==> r == speed
  {
    if k == 0 then speed else Dispatch(key, Repeat(key, speed, k - 1)).speed
  }

  /** Repeated increases never leave [0, 65535] nor lower the speed, and once
      another step would reach 65536 the speed no longer moves. */
  lemma {:induction false} RepeatedIncrease(speed: int, k: nat)
    requires IsU16(speed)
    ensures IsU16(Repeat(0x15, speed, k)) && speed <= Repeat(0x15, speed, k)
    ensures speed + SpeedStep >= 0x1_0000 ==> Repeat(0x15, speed, k) == speed
  {
    if k > 0 {
      RepeatedIncrease(speed, k - 1);
    }
  }

  /** Repeated decreases never drop below 1 from a positive speed, and once
      the speed is at most 6553 it no longer moves. */
  lemma {:induction false} RepeatedDecrease(speed: int, k: nat)
    requires IsU16(speed) && speed >= 1
    ensures IsU16(Repeat(0x07, speed, k)) && 1 <= Repeat(0x07, speed, k) <= speed
    ensures speed <= SpeedStep ==> Repeat(0x07, speed, k) == speed
  {
    if k > 0 {
      RepeatedDecrease(speed, k - 1);
    }
  }

  /** From 59215 increases change nothing; 50000 climbs to 56553 and 63106
      and then stays; from 6554 one decrease gives 1 and further ones change
      nothing. */
  lemma SaturationExamples(k: nat)
    ensures Repeat(0x15, 59215, k) == 59215
    ensures Repeat(0x15, 50000, 1) == 56553 && Repeat(0x15, 50000, 2 + k) == 63106
    ensures Repeat(0x07, 6554, k + 1) == 1
  {
    RepeatedIncrease(59215, k);
    assert Repeat(0x15, 50000, 2) == 63106;
    IncreaseFrom(2, 50000, k);
    assert Repeat(0x07, 6554, 1) == 1;
    DecreaseFrom(1, 6554, k);
  }

  /** Once repeated increases reach a speed from which another step would
      reach 65536, further ones change nothing. */
  lemma {:induction false} IncreaseFrom(j: nat, speed: int, k: nat)
    requires Repeat(0x15, speed, j) + SpeedStep >= 0x1_0000
    ensures Repeat(0x15, speed, j + k) == Repeat(0x15, speed, j)
  {
    if k > 0 {
      IncreaseFrom(j, speed, k - 1);
    }
  }

  /** Once repeated decreases reach 6553 or less, further ones change
      nothing. */
  lemma {:induction false} DecreaseFrom(j: nat, speed: int, k: nat)
    requires IsU16(speed) && speed >= 1 && Repeat(0x07, speed, j) <= SpeedStep
    ensures Repeat(0x07, speed, j + k) == Repeat(0x07, speed, j)
  {
    if k > 0 {
      DecreaseFrom(j, speed, k - 1);
    }
  }
}
