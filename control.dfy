/** The control loop of the robot: poll the decoder, dispatch a decoded key,
    and stop the motors when no key has arrived for a while. */
module Control {
  import opened Robot
  import opened Ir

  /** Speed at start-up (50% duty). */
  const InitialSpeed: int := 32768
  /** Consecutive failed polls tolerated before a forced stop. */
  const IdleLimit: int := 800

  /** The loop's own variables: `speed` and the idle counter `n`. */
  datatype LoopState = LoopState(speed: int, n: int)

  /** The invariant the loop keeps: speed fits in `uint16_t` and the idle
      counter is within [0, 800]. */
  predicate Good(s: LoopState)
  {
    IsU16(s.speed) && 0 <= s.n <= IdleLimit
  }

  /** The state after one iteration, and the driver calls it made. */
  datatype Transition = Transition(after: LoopState, actions: seq<Action>)

  /** One iteration, given what the decoder returned.  It keeps the loop's
      invariant and makes at most one driver call. */
  function Iteration(s: LoopState, key: int): (t: Transition)
    ensures Good(s) ==> Good(t.after)
    ensures |t.actions| <= 1
    ensures key >= 0 ==> t.after.n == 0
    ensures key < 0 ==> t.after.speed == s.speed
  {
    if key >= 0 then
      var e := Dispatch(key, s.speed);
      Transition(LoopState(e.speed, 0), e.actions)
    else if s.n + 1 > IdleLimit then Transition(LoopState(s.speed, 0), [Stop])
    else Transition(LoopState(s.speed, s.n + 1), [])
  }

  /** Iterations over a sequence of decoder results, in order.  The
      invariant holds after every run, and each pass makes at most one
      driver call. */
  function RunFrom(s: LoopState, keys: seq<int>): (t: Transition)
    ensures Good(s) ==> Good(t.after)
    ensures |t.actions| <= |keys|
  {
    if keys == [] then Transition(s, [])
    else
      var t := RunFrom(s, keys[..|keys| - 1]);
      var u := Iteration(t.after, keys[|keys| - 1]);
      Transition(u.after, t.actions + u.actions)
  }

  /** What `count` successive decode attempts return, and the script left. */
  datatype Polled = Polled(keys: seq<int>, rest: seq<nat>)

  function Poll(script: seq<nat>, count: nat): (p: Polled)
    ensures |p.keys| == count
    ensures forall i :: 0 <= i < count ==> p.keys[i] == -1 || 0 <= p.keys[i] < 256
  {
    if count == 0 then Polled([], script)
    else
      var p := Poll(script, count - 1);
      var a := DecodeSpec(p.rest);
      Polled(p.keys + [a.key], a.rest)
  }

  lemma PollStep(script: seq<nat>, i: nat, keys: seq<int>, here: seq<nat>, key: int, rest: seq<nat>)
    requires Poll(script, i) == Polled(keys, here)
    requires DecodeSpec(here) == Attempt(key, rest)
    ensures Poll(script, i + 1) == Polled(keys + [key], rest)
  {
  }

  lemma RunStep(s: LoopState, keys: seq<int>, key: int)
    ensures RunFrom(s, keys + [key]).after == Iteration(RunFrom(s, keys).after, key).after
    ensures RunFrom(s, keys + [key]).actions
            == RunFrom(s, keys).actions + Iteration(RunFrom(s, keys).after, key).actions
  {
    assert (keys + [key])[..|keys|] == keys;
  }

  lemma LogStep(log0: seq<Action>, acts: seq<Action>, before: seq<Action>, more: seq<Action>, after: seq<Action>)
    requires before == log0 + acts && after == before + more
    ensures after == log0 + (acts + more)
  {
  }

  /** `k` failed decode attempts in a row. */
  function Failures(k: nat): (keys: seq<int>)
    ensures |keys| == k
  {
    seq(k, _ => -1)
  }

  class ControlLoop {
    var speed: int
    var n: int
    const motors: Motors

    function State(): LoopState
      reads this
    {
      LoopState(speed, n)
    }

    ghost predicate Valid()
      reads this
    {
      Good(State())
    }

    constructor (motors: Motors)
      ensures Valid() && this.motors == motors
      ensures State() == LoopState(InitialSpeed, 0)
    {
      speed := InitialSpeed;
      n := 0;
      this.motors := motors;
    }

    /** One pass of the loop body, with its own copy of the command switch. */
    method Step(src: PulseScript) returns (key: int)
      requires Valid() && src.Valid()
      modifies this, motors, src
      ensures Valid() && src.Valid()
      ensures DecodeSpec(old(src.Remaining())) == Attempt(key, src.Remaining())
      ensures State() == Iteration(old(State()), key).after
      ensures motors.log == old(motors.log) + Iteration(old(State()), key).actions
    {
      key := GetKey(src);
      if key >= 0 {
        n := 0;
        match key
        case 0x18 =>
          motors.MotorForward(speed);
        case 0x08 =>
          motors.MotorLeft(13107);
        case 0x1C =>
          motors.MotorStop();
        case 0x5A =>
          motors.MotorRight(13107);
        case 0x52 =>
          motors.MotorBackward(speed);
        case 0x09 =>
          speed := 32768;
        case 0x15 =>
          if speed + 6553 < 65536 {
            speed := speed + 6553;
          }
        case 0x07 =>
          if speed > 6553 {
            speed := speed - 6553;
          }
        case _ =>
      } else {
        n := n + 1;
        if n > IdleLimit {
          n := 0;
          motors.MotorStop();
        }
      }
    }

    /** `iterations` passes of the loop, returning the decoder's results. */
    method Run(src: PulseScript, iterations: nat) returns (keys: seq<int>)
      requires Valid() && src.Valid()
      modifies this, motors, src
      ensures Valid() && src.Valid()
      ensures Poll(old(src.Remaining()), iterations) == Polled(keys, src.Remaining())
      ensures State() == RunFrom(old(State()), keys).after
      ensures motors.log == old(motors.log) + RunFrom(old(State()), keys).actions
    {
      ghost var script, s0, log0 := src.Remaining(), State(), motors.log;
      ghost var acts: seq<Action> := [];
      keys := [];
      for i := 0 to iterations
        invariant Valid() && src.Valid()
        invariant Poll(script, i) == Polled(keys, src.Remaining())
        invariant State() == RunFrom(s0, keys).after
        invariant acts == RunFrom(s0, keys).actions
        invariant motors.log == log0 + acts
      {
        ghost var here, st, before := src.Remaining(), State(), motors.log;
        var key := Step(src);
        ghost var u := Iteration(st, key);
        PollStep(script, i, keys, here, key, src.Remaining());
        RunStep(s0, keys, key);
        LogStep(log0, acts, before, u.actions, motors.log);
        acts := acts + u.actions;
        keys := keys + [key];
      }
    }
  }

  // ---------------------------------------------------------------------
  // Properties of the loop

  /** A decoded key resets the idle counter and is dispatched exactly as the
      dispatcher does it. */
  lemma SuccessResetsIdle(s: LoopState, key: int)
    requires key >= 0
    ensures Iteration(s, key).after == LoopState(Dispatch(key, s.speed).speed, 0)
    ensures Iteration(s, key).actions == Dispatch(key, s.speed).actions
  {
  }

  /** A failed decode keeps the speed and counts; only passing 800 stops. */
  lemma FailureCounts(s: LoopState)
    requires Good(s)
    ensures Iteration(s, -1).after.speed == s.speed
    ensures s.n < IdleLimit ==> Iteration(s, -1) == Transition(LoopState(s.speed, s.n + 1), [])
    ensures s.n == IdleLimit ==> Iteration(s, -1) == Transition(LoopState(s.speed, 0), [Stop])
  {
  }

  /** Speed changes only on a decoded reset, increase or decrease code. */
  lemma OnlySpeedCodesChangeSpeed(s: LoopState, key: int)
    requires Iteration(s, key).after.speed != s.speed
    ensures key == 0x09 || key == 0x15 || key == 0x07
  {
  }

  /** From n = 0, k failed polls issue exactly k div 801 stops and leave
      n = k mod 801. */
  lemma {:induction false} IdleRun(speed: int, k: nat)
    ensures RunFrom(LoopState(speed, 0), Failures(k))
            == Transition(LoopState(speed, k % (IdleLimit + 1)), Stops(k / (IdleLimit + 1)))
  {
    if k > 0 {
      assert Failures(k)[..k - 1] == Failures(k - 1);
      IdleRun(speed, k - 1);
      var m := (k - 1) % (IdleLimit + 1);
      if m == IdleLimit {
        assert k % (IdleLimit + 1) == 0 && k / (IdleLimit + 1) == (k - 1) / (IdleLimit + 1) + 1;
        assert Stops((k - 1) / (IdleLimit + 1)) + [Stop] == Stops(k / (IdleLimit + 1));
      } else {
        assert k % (IdleLimit + 1) == m + 1 && k / (IdleLimit + 1) == (k - 1) / (IdleLimit + 1);
        assert Stops((k - 1) / (IdleLimit + 1)) + [] == Stops(k / (IdleLimit + 1));
      }
    }
  }

  /** The 800th failure in a row issues no stop; the 801st issues one. */
  lemma AutoStopThreshold(speed: int)
    ensures RunFrom(LoopState(speed, 0), Failures(800)) == Transition(LoopState(speed, 800), [])
    ensures RunFrom(LoopState(speed, 0), Failures(801)) == Transition(LoopState(speed, 0), [Stop])
  {
    IdleRun(speed, 800);
    IdleRun(speed, 801);
    assert Stops(0) == [] && Stops(1) == [Stop];
  }

  /** With no transmission, the receiver rests at its idle level and no
      lead edge ever comes: every attempt fails. */
  lemma {:induction false} SilentLine(k: nat)
    ensures Poll([], k) == Polled(Failures(k), [])
  {
    if k > 0 {
      SilentLine(k - 1);
      assert Failures(k - 1) + [-1] == Failures(k);
    }
  }

  /** From start-up, with no transmission at all, k passes of the loop stop
      the motors k div 801 times. */
  lemma SilentRun(k: nat)
    ensures RunFrom(LoopState(InitialSpeed, 0), Poll([], k).keys)
            == Transition(LoopState(InitialSpeed, k % (IdleLimit + 1)), Stops(k / (IdleLimit + 1)))
  {
    SilentLine(k);
    IdleRun(InitialSpeed, k);
  }
}
