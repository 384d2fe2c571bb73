/** The motor driver, seen from the IR command path.  Its functions only write
    PWM and direction registers, so the model records each call as an event
    appended to a log, together with the duty cycle it was given. */
module Robot {

  /** One call of the motor driver: motor_forward, motor_backward,
      motor_left, motor_right (each with a 16-bit duty cycle) or motor_stop. */
  datatype Action =
    | Forward(duty: int)
    | Backward(duty: int)
    | Left(duty: int)
    | Right(duty: int)
    | Stop

  /** A log made of `k` stop actions and nothing else. */
  function Stops(k: nat): (log: seq<Action>)
    ensures |log| == k
    ensures forall i :: 0 <= i < k ==> log[i] == Stop
  {
    seq(k, _ => Stop)
  }

  /** The actuation collaborator: every driver call appends one event. */
  class Motors {
    var log: seq<Action>

    constructor ()
      ensures log == []
    {
      log := [];
    }

    method MotorForward(speed: int)
      modifies this
      ensures log == old(log) + [Forward(speed)]
    {
      log := log + [Forward(speed)];
    }

    method MotorBackward(speed: int)
      modifies this
      ensures log == old(log) + [Backward(speed)]
    {
      log := log + [Backward(speed)];
    }

    method MotorLeft(speed: int)
      modifies this
      ensures log == old(log) + [Left(speed)]
    {
      log := log + [Left(speed)];
    }

    method MotorRight(speed: int)
      modifies this
      ensures log == old(log) + [Right(speed)]
    {
      log := log + [Right(speed)];
    }

    method MotorStop()
      modifies this
      ensures log == old(log) + [Stop]
    {
      log := log + [Stop];
    }
  }
}
