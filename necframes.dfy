/** Properties of the NEC frame decoder: what each stage accepts, how one bit
    is classified, the complement checksum, and the round trip through a
    pulse train of nominal NEC timings. */
module NecFrames {
  import opened Bits
  import opened Robot
  import opened Ir

  // ---------------------------------------------------------------------
  // The level wait and the preamble

  /** A wait reports the scripted time when it is within the timeout and
      exactly -1 otherwise; once the script is exhausted every wait times out. */
  lemma WaitOutcome(script: seq<nat>, timeout: nat)
    ensures Wait(script, timeout).elapsed >= 0 <==> script != [] && script[0] <= timeout
    ensures Wait(script, timeout).elapsed >= 0 ==> Wait(script, timeout).elapsed == script[0]
    ensures Wait(script, timeout).elapsed < 0 ==> Wait(script, timeout).elapsed == -1
  {
  }

  /** The preamble is accepted exactly when the lead edge comes within
      150 ms, the lead pulse lasts 8000..10000 µs and the space 3500..5000 µs,
      all bounds inclusive.  A timed-out lead pulse or space is rejected too:
      its -1 becomes 4294967295 in `uint32_t`, above either window. */
  lemma PreambleWindows(script: seq<nat>)
    ensures Preamble(script).ok <==>
              |script| >= 3 && script[0] <= LeadEdgeTimeout
              && LeadMin <= script[1] <= LeadMax && SpaceMin <= script[2] <= SpaceMax
    ensures Preamble(script).ok ==> Preamble(script).rest == script[3..]
  {
    if script != [] && script[0] <= LeadEdgeTimeout {
      var lead := Wait(script[1..], LeadPulseTimeout);
      assert lead.elapsed == -1 ==> ToU32(lead.elapsed) > LeadMax;
      if LeadMin <= ToU32(lead.elapsed) <= LeadMax {
        assert script[1..][1..] == script[2..];
        var space := Wait(script[2..], SpaceTimeout);
        assert space.elapsed == -1 ==> ToU32(space.elapsed) > SpaceMax;
        if |script| >= 3 {
          assert script[2..][1..] == script[3..];
        }
      }
    }
  }

  /** A rejected preamble makes the whole attempt return -1. */
  lemma RejectedPreamble(script: seq<nat>)
    requires !(|script| >= 3 && script[0] <= LeadEdgeTimeout
               && LeadMin <= script[1] <= LeadMax && SpaceMin <= script[2] <= SpaceMax)
    ensures DecodeSpec(script).key == -1
  {
    PreambleWindows(script);
  }

  /** The tolerance windows at and just beyond their edges. */
  lemma ToleranceBoundaries(edge: nat, tail: seq<nat>)
    requires edge <= LeadEdgeTimeout
    ensures !Preamble([edge, 7999, 4500] + tail).ok
    ensures Preamble([edge, 8000, 4500] + tail).ok
    ensures Preamble([edge, 10000, 4500] + tail).ok
    ensures !Preamble([edge, 10001, 4500] + tail).ok
    ensures !Preamble([edge, 9000, 3499] + tail).ok
    ensures Preamble([edge, 9000, 3500] + tail).ok
    ensures Preamble([edge, 9000, 5000] + tail).ok
    ensures !Preamble([edge, 9000, 5001] + tail).ok
  {
    PreambleWindows([edge, 7999, 4500] + tail);
    PreambleWindows([edge, 8000, 4500] + tail);
    PreambleWindows([edge, 10000, 4500] + tail);
    PreambleWindows([edge, 10001, 4500] + tail);
    PreambleWindows([edge, 9000, 3499] + tail);
    PreambleWindows([edge, 9000, 3500] + tail);
    PreambleWindows([edge, 9000, 5000] + tail);
    PreambleWindows([edge, 9000, 5001] + tail);
  }

  // ---------------------------------------------------------------------
  // One data bit

  /** A bit is read exactly when the line rises within 1000 µs and the high
      pulse is not measured below 200 µs; it is a one exactly when the
      measurement exceeds 1200 µs.  A high pulse that never ends (the script
      is exhausted or it runs past 2500 µs) is therefore a one. */
  lemma ReadBitCases(script: seq<nat>)
    ensures ReadBit(script).ok <==>
              script != [] && script[0] <= BitLowTimeout
              && (|script| == 1 || script[1] >= BitHighMin)
    ensures ReadBit(script).ok ==>
              ReadBit(script).bits == [|script| == 1 || script[1] > OneThreshold]
              && ReadBit(script).rest == if |script| == 1 then [] else script[2..]
  {
    if script != [] && script[0] <= BitLowTimeout {
      var high := Wait(script[1..], BitHighTimeout);
      assert high.elapsed == -1 ==> ToU32(high.elapsed) == U32 - 1;
      if |script| > 1 {
        assert script[1..][1..] == script[2..];
      }
    }
  }

  /** The as-written treatment of a timed-out high pulse: it is not an abort
      but a one bit. */
  lemma TimedOutHighPulseIsOne(rise: nat, high: nat, tail: seq<nat>)
    requires rise <= BitLowTimeout && high > BitHighTimeout
    ensures ReadBit([rise, high] + tail) == Reading(true, [true], tail)
    ensures ReadBit([rise]) == Reading(true, [true], [])
  {
    ReadBitCases([rise, high] + tail);
    assert ([rise, high] + tail)[2..] == tail;
    ReadBitCases([rise]);
  }

  /** The boundaries of the bit classification: below 200 aborts, 200 and
      1200 are zeros, 1201 is a one; a rise later than 1000 µs aborts. */
  lemma BitThresholds(tail: seq<nat>)
    ensures !ReadBit([560, 199] + tail).ok
    ensures ReadBit([560, 200] + tail) == Reading(true, [false], tail)
    ensures ReadBit([560, 1200] + tail) == Reading(true, [false], tail)
    ensures ReadBit([560, 1201] + tail) == Reading(true, [true], tail)
    ensures !ReadBit([1001, 560] + tail).ok
  {
    assert ([560, 200] + tail)[1..][1..] == tail;
    assert ([560, 1200] + tail)[1..][1..] == tail;
    assert ([560, 1201] + tail)[1..][1..] == tail;
  }

  // ---------------------------------------------------------------------
  // The checksum

  /** For bytes, the truncated sum is 0xFF exactly when the second byte is
      the bitwise complement of the first. */
  lemma ChecksumComplement(x: int, y: int)
    requires 0 <= x < 256 && 0 <= y < 256
    ensures (x + y) % 256 == 0xFF <==> y == 255 - x
  {
  }

  /** The same test on the buffer's bytes: the second is `~` of the first. */
  lemma ChecksumIsComplement(x: bv8, y: bv8)
    ensures (x as int + y as int) % 256 == 0xFF <==> y == !x
  {
    var z := !x;
    ComplementValue(x);
    ByteRange(x);
    ByteRange(y);
    ChecksumComplement(x as int, y as int);
    if y as int == z as int {
      ByteInjective(y, z);
    }
  }

  lemma ByteRange(v: bv8)
    ensures 0 <= v as int < 256
  {
  }

  lemma ByteInjective(u: bv8, v: bv8)
    requires u as int == v as int
    ensures u == v
  {
  }

  /** The complement of a byte is 255 minus it. */
  lemma ComplementValue(v: bv8)
    ensures (!v) as int == 255 - v as int
  {
    assert !v == 0xFF - v;
  }

  // ---------------------------------------------------------------------
  // Encoding a frame as a pulse train

  /** Nominal NEC timings in microseconds: a 9 ms lead pulse, a 4.5 ms space,
      and for each bit a 560 µs mark followed by a 560 µs (zero) or
      1690 µs (one) space. */
  const NominalLead: nat := 9000
  const NominalSpace: nat := 4500
  const NominalMark: nat := 560
  const NominalZero: nat := 560
  const NominalOne: nat := 1690

  /** The two waits one bit takes. */
  function BitPulses(b: bool): (s: seq<nat>)
  {
    [NominalMark, if b then NominalOne else NominalZero]
  }

  /** The waits of a bit string, in arrival order. */
  function Pulses(bits: seq<bool>): (s: seq<nat>)
    ensures |s| == 2 * |bits|
  {
    if bits == [] then [] else Pulses(bits[..|bits| - 1]) + BitPulses(bits[|bits| - 1])
  }

  /** The 32 bits of the four bytes of a frame, each least-significant bit
      first. */
  function Frame(b0: nat, b1: nat, b2: nat, b3: nat): (bits: seq<bool>)
    ensures |bits| == FrameLength
  {
    ToBits(b0, 8) + ToBits(b1, 8) + ToBits(b2, 8) + ToBits(b3, 8)
  }

  /** A well-formed frame: address, its complement, command, its
      complement. */
  function NecFrame(address: nat, command: nat): (bits: seq<bool>)
    requires address < 256 && command < 256
    ensures |bits| == FrameLength
  {
    Frame(address, 255 - address, command, 255 - command)
  }

  /** The line as a remote drives it: an idle gap before the lead pulse, the
      preamble, then the bits. */
  function Train(idle: nat, bits: seq<bool>): (line: seq<nat>)
  {
    [idle, NominalLead, NominalSpace] + Pulses(bits)
  }

  /** One bit within the decoder's tolerance: the line rises within 1000 µs,
      and the high pulse lasts 200..1200 µs for a zero and more than
      1200 µs for a one. */
  predicate BitInWindow(rise: nat, high: nat, b: bool)
  {
    rise <= BitLowTimeout && if b then high > OneThreshold else BitHighMin <= high <= OneThreshold
  }

  /** Two waits per bit, each pair within the tolerance for its bit. */
  predicate InWindow(p: seq<nat>, bits: seq<bool>)
  {
    |p| == 2 * |bits| && forall i :: 0 <= i < |bits| ==> BitInWindow(p[2 * i], p[2 * i + 1], bits[i])
  }

  /** Bit pulses within the tolerance are read back as the bits they encode,
      and consume exactly their own waits. */
  lemma {:induction false} ReadBitsTolerant(p: seq<nat>, bits: seq<bool>, tail: seq<nat>)
    requires InWindow(p, bits)
    ensures ReadBits(p + tail, |bits|) == Reading(true, bits, tail)
  {
    if bits != [] {
      var n := |bits|;
      var init, q := bits[..n - 1], p[..2 * n - 2];
      InWindowPrefix(p, bits);
      var last := [p[2 * n - 2], p[2 * n - 1]] + tail;
      assert p + tail == q + last;
      ReadBitsTolerant(q, init, last);
      assert BitInWindow(p[2 * (n - 1)], p[2 * (n - 1) + 1], bits[n - 1]);
      BitTolerant(p[2 * n - 2], p[2 * n - 1], bits[n - 1], tail);
      assert init + [bits[n - 1]] == bits;
    }
  }

  lemma InWindowPrefix(p: seq<nat>, bits: seq<bool>)
    requires InWindow(p, bits) && bits != []
    ensures InWindow(p[..2 * |bits| - 2], bits[..|bits| - 1])
  {
    var n := |bits|;
    var init, q := bits[..n - 1], p[..2 * n - 2];
    forall i | 0 <= i < n - 1
      ensures BitInWindow(q[2 * i], q[2 * i + 1], init[i])
    {
      assert BitInWindow(p[2 * i], p[2 * i + 1], bits[i]);
    }
  }

  /** A pulse pair within the tolerance reads as its bit. */
  lemma BitTolerant(rise: nat, high: nat, b: bool, tail: seq<nat>)
    requires BitInWindow(rise, high, b)
    ensures ReadBit([rise, high] + tail) == Reading(true, [b], tail)
  {
    ReadBitCases([rise, high] + tail);
    assert ([rise, high] + tail)[2..] == tail;
  }

  /** The nominal timings are within the tolerance. */
  lemma {:induction false} NominalInWindow(bits: seq<bool>)
    ensures InWindow(Pulses(bits), bits)
  {
    if bits != [] {
      var n := |bits|;
      var init := bits[..n - 1];
      NominalInWindow(init);
      var p, q := Pulses(bits), Pulses(init);
      assert p == q + BitPulses(bits[n - 1]);
      forall i | 0 <= i < n
        ensures BitInWindow(p[2 * i], p[2 * i + 1], bits[i])
      {
        if i < n - 1 {
          assert p[2 * i] == q[2 * i] && p[2 * i + 1] == q[2 * i + 1] && bits[i] == init[i];
        }
      }
    }
  }

  /** Nominal bit pulses are read back as the bits they encode, and consume
      exactly their own waits. */
  lemma ReadBitsOfPulses(bits: seq<bool>, tail: seq<nat>)
    ensures ReadBits(Pulses(bits) + tail, |bits|) == Reading(true, bits, tail)
  {
    NominalInWindow(bits);
    ReadBitsTolerant(Pulses(bits), bits, tail);
  }

  /** Any frame whose edge, lead pulse, space and bit pulses are within the
      decoder's tolerance decodes to the key its 32 bits give, and leaves
      exactly what follows it. */
  lemma DecodeTolerant(edge: nat, lead: nat, space: nat, p: seq<nat>, bits: seq<bool>, tail: seq<nat>)
    requires edge <= LeadEdgeTimeout && LeadMin <= lead <= LeadMax && SpaceMin <= space <= SpaceMax
    requires |bits| == FrameLength && InWindow(p, bits)
    ensures DecodeSpec([edge, lead, space] + p + tail) == Attempt(FrameKey(bits), tail)
  {
    var s := [edge, lead, space] + p + tail;
    PreambleWindows(s);
    assert s[3..] == p + tail;
    ReadBitsTolerant(p, bits, tail);
  }

  /** A train with an idle gap within 150 ms decodes to the key its 32 bits
      give, and leaves exactly what follows it. */
  lemma DecodeTrain(idle: nat, bits: seq<bool>, tail: seq<nat>)
    requires idle <= LeadEdgeTimeout && |bits| == FrameLength
    ensures DecodeSpec(Train(idle, bits) + tail) == Attempt(FrameKey(bits), tail)
  {
    var s := Train(idle, bits) + tail;
    assert s == [idle, NominalLead, NominalSpace] + (Pulses(bits) + tail);
    PreambleWindows(s);
    assert s[3..] == Pulses(bits) + tail;
    ReadBitsOfPulses(bits, tail);
  }

  /** Each byte of an encoded frame packs back to the value encoded. */
  lemma FieldsOfFrame(b0: nat, b1: nat, b2: nat, b3: nat)
    requires b0 < 256 && b1 < 256 && b2 < 256 && b3 < 256
    ensures ByteValue(Frame(b0, b1, b2, b3), 0) == b0
    ensures ByteValue(Frame(b0, b1, b2, b3), 1) == b1
    ensures ByteValue(Frame(b0, b1, b2, b3), 2) == b2
    ensures ByteValue(Frame(b0, b1, b2, b3), 3) == b3
  {
    var f := Frame(b0, b1, b2, b3);
    assert Pow2(8) == 256 by {
      assert Pow2(4) == 16;
    }
    assert Field(f, 0) == ToBits(b0, 8);
    assert Field(f, 1) == ToBits(b1, 8);
    assert Field(f, 2) == ToBits(b2, 8);
    assert Field(f, 3) == ToBits(b3, 8);
    WeightToBits(b0, 8);
    WeightToBits(b1, 8);
    WeightToBits(b2, 8);
    WeightToBits(b3, 8);
  }

  /** An encoded frame is accepted exactly when both complement bytes are
      right, and then the command byte is returned. */
  lemma ChecksumDecides(b0: nat, b1: nat, b2: nat, b3: nat, idle: nat, tail: seq<nat>)
    requires b0 < 256 && b1 < 256 && b2 < 256 && b3 < 256 && idle <= LeadEdgeTimeout
    ensures DecodeSpec(Train(idle, Frame(b0, b1, b2, b3)) + tail)
            == Attempt(if b1 == 255 - b0 && b3 == 255 - b2 then b2 else -1, tail)
  {
    DecodeTrain(idle, Frame(b0, b1, b2, b3), tail);
    FieldsOfFrame(b0, b1, b2, b3);
    ChecksumComplement(b0, b1);
    ChecksumComplement(b2, b3);
  }

  /** Round trip: a well-formed frame sent with nominal timings decodes to
      its command byte, whatever the address. */
  lemma RoundTrip(address: nat, command: nat, idle: nat, tail: seq<nat>)
    requires address < 256 && command < 256 && idle <= LeadEdgeTimeout
    ensures DecodeSpec(Train(idle, NecFrame(address, command)) + tail) == Attempt(command, tail)
  {
    assert NecFrame(address, command) == Frame(address, 255 - address, command, 255 - command);
    ChecksumDecides(address, 255 - address, command, 255 - command, idle, tail);
  }

  /** A well-formed frame's key is its command byte. */
  lemma NecFrameKey(address: nat, command: nat)
    requires address < 256 && command < 256
    ensures FrameKey(NecFrame(address, command)) == command
  {
    FieldsOfFrame(address, 255 - address, command, 255 - command);
  }

  /** Round trip within tolerance: a well-formed frame whose edge, lead
      pulse, space and bit pulses are anywhere within the decoder's windows
      decodes to its command byte. */
  lemma TolerantRoundTrip(address: nat, command: nat, edge: nat, lead: nat, space: nat,
                          p: seq<nat>, tail: seq<nat>)
    requires address < 256 && command < 256
    requires edge <= LeadEdgeTimeout && LeadMin <= lead <= LeadMax && SpaceMin <= space <= SpaceMax
    requires InWindow(p, NecFrame(address, command))
    ensures DecodeSpec([edge, lead, space] + p + tail) == Attempt(command, tail)
  {
    DecodeTolerant(edge, lead, space, p, NecFrame(address, command), tail);
    NecFrameKey(address, command);
  }

  /** Flipping bit j moves only byte j / 8, by 2^(j % 8) up or down. */
  lemma FlipMovesOneByte(bits: seq<bool>, j: nat, k: nat)
    requires |bits| == FrameLength && j < FrameLength && k < 4
    ensures k != j / 8 ==> ByteValue(bits[j := !bits[j]], k) == ByteValue(bits, k)
    ensures k == j / 8 ==>
              ByteValue(bits[j := !bits[j]], k) as int
              == ByteValue(bits, k) as int + (if bits[j] then -(Pow2(j % 8) as int) else Pow2(j % 8) as int)
  {
    var flipped := bits[j := !bits[j]];
    if k == j / 8 {
      assert Field(flipped, k) == Field(bits, k)[j % 8 := !Field(bits, k)[j % 8]];
      WeightFlip(Field(bits, k), j % 8);
    } else {
      assert Field(flipped, k) == Field(bits, k);
    }
  }

  /** A frame whose checksums hold fails them once any one bit is flipped. */
  lemma FlipBreaksChecksum(bits: seq<bool>, j: nat)
    requires |bits| == FrameLength && j < FrameLength
    requires ChecksumOk(ByteValue(bits, 0), ByteValue(bits, 1), ByteValue(bits, 2), ByteValue(bits, 3))
    ensures FrameKey(bits[j := !bits[j]]) == -1
  {
    if j / 8 < 2 {
      FlipBreaksPair(bits, j, 0);
    } else {
      FlipBreaksPair(bits, j, 2);
    }
  }

  /** Flipping a bit of byte pair (lo, lo + 1) breaks that pair's sum. */
  lemma FlipBreaksPair(bits: seq<bool>, j: nat, lo: nat)
    requires |bits| == FrameLength && j < FrameLength && (lo == 0 || lo == 2)
    requires j / 8 == lo || j / 8 == lo + 1
    requires (ByteValue(bits, lo) + ByteValue(bits, lo + 1)) % 256 == 0xFF
    ensures (ByteValue(bits[j := !bits[j]], lo) + ByteValue(bits[j := !bits[j]], lo + 1)) % 256 != 0xFF
  {
    var g := bits[j := !bits[j]];
    FlipMovesOneByte(bits, j, lo);
    FlipMovesOneByte(bits, j, lo + 1);
    Pow2Monotone(j % 8, 7);
    assert Pow2(7) == 128 by {
      assert Pow2(4) == 16;
    }
    OffByPower(ByteValue(bits, lo), ByteValue(bits, lo + 1), ByteValue(g, lo), ByteValue(g, lo + 1), Pow2(j % 8));
  }

  /** Moving one byte of a complement pair by 0 < p <= 128 breaks it. */
  lemma OffByPower(x: int, y: int, x': int, y': int, p: int)
    requires 0 <= x < 256 && 0 <= y < 256 && (x + y) % 256 == 0xFF && 1 <= p <= 128
    requires (x' == x && (y' == y + p || y' == y - p)) || (y' == y && (x' == x + p || x' == x - p))
    ensures (x' + y') % 256 != 0xFF
  {
    assert x + y == 255;
  }

  /** Any single corrupted bit of a well-formed frame makes the attempt
      return -1: it moves one byte of a complement pair by a power of two
      below 256. */
  lemma SingleBitErrorRejected(address: nat, command: nat, j: nat, idle: nat, tail: seq<nat>)
    requires address < 256 && command < 256 && j < FrameLength && idle <= LeadEdgeTimeout
    ensures var f := NecFrame(address, command);
            DecodeSpec(Train(idle, f[j := !f[j]]) + tail) == Attempt(-1, tail)
  {
    var f := NecFrame(address, command);
    DecodeTrain(idle, f[j := !f[j]], tail);
    FieldsOfFrame(address, 255 - address, command, 255 - command);
    FlipBreaksChecksum(f, j);
  }

  /** If the line stays high after the mark of the last bit, the decoder still
      completes the frame, reading that bit as a one. */
  lemma TimedOutLastBit(idle: nat, bits: seq<bool>)
    requires idle <= LeadEdgeTimeout && |bits| == FrameLength - 1
    ensures DecodeSpec(Train(idle, bits) + [NominalMark]) == Attempt(FrameKey(bits + [true]), [])
  {
    var s := Train(idle, bits) + [NominalMark];
    assert s == [idle, NominalLead, NominalSpace] + (Pulses(bits) + [NominalMark]);
    PreambleWindows(s);
    assert s[3..] == Pulses(bits) + [NominalMark];
    ReadBitsOfPulses(bits, [NominalMark]);
    TimedOutHighPulseIsOne(NominalMark, BitHighTimeout + 1, []);
  }

  // ---------------------------------------------------------------------
  // End to end

  /** Address 0x00, command 0x18 decodes to 0x18, which drives forward at the
      current speed. */
  lemma ForwardScenario(speed: int)
    ensures DecodeSpec(Train(0, Frame(0x00, 0xFF, 0x18, 0xE7))) == Attempt(0x18, [])
    ensures Dispatch(DecodeSpec(Train(0, Frame(0x00, 0xFF, 0x18, 0xE7))).key, speed)
            == Effect(speed, [Forward(speed)])
  {
    var line := Train(0, Frame(0x00, 0xFF, 0x18, 0xE7));
    ChecksumDecides(0x00, 0xFF, 0x18, 0xE7, 0, []);
    assert line + [] == line;
  }

  /** The same frame with 0xE6 as its last byte is rejected. */
  lemma CorruptedScenario()
    ensures DecodeSpec(Train(0, Frame(0x00, 0xFF, 0x18, 0xE6))).key == -1
  {
    var line := Train(0, Frame(0x00, 0xFF, 0x18, 0xE6));
    ChecksumDecides(0x00, 0xFF, 0x18, 0xE6, 0, []);
    assert line + [] == line;
  }
}
