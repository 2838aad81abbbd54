/** The older car-side program (Rasp/srcs/Rasp.cpp): the same message format
    and the same sticky mode switch, but the decoded values go to the pins
    unmapped on a 0..2000 PWM range, and the video stream's UDP socket is a
    global descriptor that `stopVideoStream` closes. */
module LegacyCar {
  import opened Seqs
  import opened Wire
  import opened Rrc

  /** The PWM range `setupGPIO` configures; REVERSE mirrors the accelerator in it. */
  const RANGE: int := 2000
  /** The fixed motor value while braking. */
  const BRAKE_PWM: int := 1000
  /** `sock` before any stream was started. */
  const NO_SOCKET: int := -1

  /** The value written to the motor pin, chosen with the mode already updated
      by this command: any brake above zero writes 1000, DRIVE writes the raw
      accelerator, REVERSE writes 2000 minus it. */
  function MotorOutput(mode: Mode, c: Command): (pwm: int) {
    if c.brake > 0 then BRAKE_PWM
    else if mode == Drive then c.accelerator
    else RANGE - c.accelerator
  }

  /** The pin writes one command causes, in order, from the mode before it:
      the raw steering goes to the servo, then the motor value. */
  function CommandWrites(mode: Mode, c: Command): (w: seq<PwmWrite>) {
    [PwmWrite(SERVO_PIN, c.steering), PwmWrite(MOTOR_PIN, MotorOutput(NextMode(mode, c.paddle), c))]
  }

  /** `sock` after `stopVideoStream`: a positive descriptor is closed and
      replaced by -1; any other value, 0 included, is left alone. */
  function AfterStop(sock: int): (r: int)
    ensures r <= 0
  {
    if sock > 0 then NO_SOCKET else sock
  }

  /** The descriptors `stopVideoStream` closes, given `sock` before the call. */
  function ClosedByStop(sock: int): (fds: seq<int>)
    ensures |fds| <= 1 && forall i :: 0 <= i < |fds| ==> fds[i] == sock && sock > 0
  {
    if sock > 0 then [sock] else []
  }

  /** The program's globals: `currentMode`, the stream socket `sock`, the log
      of PWM writes and the log of descriptors passed to `close`. */
  class LegacyCar {
    var mode: Mode
    var sock: int
    var writes: seq<PwmWrite>
    var closed: seq<int>

    constructor ()
      ensures mode == INITIAL_MODE && sock == NO_SOCKET && writes == [] && closed == []
    {
      mode := INITIAL_MODE;
      sock := NO_SOCKET;
      writes := [];
      closed := [];
    }

    /** One pass of the `handleCommand` loop body for one complete message.
        `garbage` is what the four variables hold where `sscanf` stored nothing;
        `c` is what they hold after the parse. */
    method HandleMessage(msg: string, garbage: Command) returns (c: Command)
      modifies this
      ensures c == Received(msg, garbage)
      ensures mode == NextMode(old(mode), c.paddle)
      ensures writes == old(writes) + CommandWrites(old(mode), c)
      ensures sock == old(sock) && closed == old(closed)
    {
      c := Received(msg, garbage);
      Apply(c);
    }

    /** The part of the loop body after the parse: the mode switch, then the
        raw servo write, then the motor write chosen with the updated mode. */
    method Apply(c: Command)
      modifies this
      ensures mode == NextMode(old(mode), c.paddle)
      ensures writes == old(writes) + CommandWrites(old(mode), c)
      ensures sock == old(sock) && closed == old(closed)
    {
      if c.paddle == 1 {
        mode := Drive;
      } else if c.paddle == -1 {
        mode := Reverse;
      }
      writes := writes + [PwmWrite(SERVO_PIN, c.steering)];
      if c.brake > 0 {
        writes := writes + [PwmWrite(MOTOR_PIN, BRAKE_PWM)];
      } else if mode == Drive {
        writes := writes + [PwmWrite(MOTOR_PIN, c.accelerator)];
      } else {
        writes := writes + [PwmWrite(MOTOR_PIN, RANGE - c.accelerator)];
      }
    }

    /** The `handleCommand` loop over one connection: every message read is
        handled in order until `read` reports the disconnect. */
    method Serve(msgs: seq<string>, garbage: seq<Command>) returns (cs: seq<Command>)
      requires |garbage| == |msgs|
      modifies this
      ensures cs == ReceivedAll(msgs, garbage)
      ensures mode == ModeAfter(old(mode), Paddles(cs))
      ensures writes == old(writes) + RunWrites(CommandWrites, old(mode), cs)
      ensures sock == old(sock) && closed == old(closed)
    {
      ghost var rs := ReceivedAll(msgs, garbage);
      ghost var m0, w0 := mode, writes;
      cs := [];
      var i := 0;
      while i < |msgs|
        invariant 0 <= i <= |msgs| && |rs| == |msgs|
        invariant cs == rs[..i]
        invariant mode == ModeAfter(m0, Paddles(cs)) && writes == w0 + RunWrites(CommandWrites, m0, cs)
        invariant sock == old(sock) && closed == old(closed)
      {
        var c := HandleNext(msgs, garbage, i, m0, w0, cs);
        cs := cs + [c];
        i := i + 1;
      }
      assert rs[..i] == rs;
    }

    /** One pass of the loop in `Serve`: the `i`-th message is parsed and
        handled, extending the run handled so far (`cs`, from mode `m0` and
        log `w0`) by its command. */
    method HandleNext(msgs: seq<string>, garbage: seq<Command>, i: nat,
                      ghost m0: Mode, ghost w0: seq<PwmWrite>, ghost cs: seq<Command>) returns (c: Command)
      requires |garbage| == |msgs| && i < |msgs| && cs == ReceivedAll(msgs, garbage)[..i]
      requires mode == ModeAfter(m0, Paddles(cs)) && writes == w0 + RunWrites(CommandWrites, m0, cs)
      modifies this
      ensures cs + [c] == ReceivedAll(msgs, garbage)[..i + 1]
      ensures mode == ModeAfter(m0, Paddles(cs + [c])) && writes == w0 + RunWrites(CommandWrites, m0, cs + [c])
      ensures sock == old(sock) && closed == old(closed)
    {
      ReceivedAllAt(msgs, garbage, i);
      c := HandleMessage(msgs[i], garbage[i]);
      ModeAfterSnoc(m0, cs, c);
      RunSnoc(CommandWrites, m0, cs, c);
      AppendAssoc(w0, RunWrites(CommandWrites, m0, cs), CommandWrites(ModeAfter(m0, Paddles(cs)), c));
      assert ReceivedAll(msgs, garbage)[..i + 1] == ReceivedAll(msgs, garbage)[..i] + [c];
    }

    /** `stopVideoStream`: only a positive `sock` is closed and reset to -1. */
    method StopVideoStream()
      modifies this
      ensures sock == AfterStop(old(sock))
      ensures closed == old(closed) + ClosedByStop(old(sock))
      ensures mode == old(mode) && writes == old(writes)
    {
      if sock > 0 {
        closed := closed + [sock];
        sock := NO_SOCKET;
      }
    }
  }

  /** Braking writes exactly 1000 to the motor, whatever the mode and the accelerator. */
  lemma BrakeFixed(m1: Mode, m2: Mode, c: Command, accelerator: int)
    requires c.brake > 0
    ensures MotorOutput(m1, c) == MotorOutput(m2, c.(accelerator := accelerator)) == BRAKE_PWM
  {
  }

  /** Without brake, DRIVE passes the accelerator through and REVERSE mirrors
      it in the 2000 range: the two outputs always add up to 2000. */
  lemma ThrottleByMode(c: Command)
    requires c.brake <= 0
    ensures MotorOutput(Drive, c) == c.accelerator
    ensures MotorOutput(Reverse, c) == RANGE - c.accelerator
    ensures MotorOutput(Drive, c) + MotorOutput(Reverse, c) == RANGE
  {
  }

  /** For an accelerator in 0..2000 the motor value stays in 0..2000 in either
      mode; the servo value is the steering as sent, with no bound of its own. */
  lemma MotorOutputBounded(mode: Mode, c: Command)
    requires 0 <= c.accelerator <= RANGE
    ensures 0 <= MotorOutput(mode, c) <= RANGE
    ensures CommandWrites(mode, c)[0].value == c.steering
  {
  }

  /** Feeding the same command twice: the second pass leaves the mode where the
      first put it and repeats exactly the same two writes. */
  lemma RepeatCommand(mode: Mode, c: Command)
    ensures var m := NextMode(mode, c.paddle);
      NextMode(m, c.paddle) == m && CommandWrites(m, c) == CommandWrites(mode, c)
  {
  }

  /** A second `stopVideoStream` closes nothing and leaves `sock` as it is. */
  lemma StopIdempotent(sock: int)
    ensures AfterStop(AfterStop(sock)) == AfterStop(sock)
    ensures ClosedByStop(AfterStop(sock)) == []
  {
  }

  /** A positive descriptor is closed exactly once and replaced by -1; a
      descriptor of 0 is never closed and never reset. */
  lemma StopCases(sock: int)
    ensures sock > 0 ==> AfterStop(sock) == NO_SOCKET && ClosedByStop(sock) == [sock]
    ensures sock <= 0 ==> AfterStop(sock) == sock && ClosedByStop(sock) == []
  {
  }

  /** The same commands drive the two programs differently: "999 1999 0 1"
      writes 999 and 1999 here, and a brake writes 1000 where the newer
      handler writes its remapped brake pulse. */
  lemma Examples(mode: Mode)
    ensures CommandWrites(mode, Command(999, 1999, 0, 1))
         == [PwmWrite(SERVO_PIN, 999), PwmWrite(MOTOR_PIN, 1999)]
    ensures CommandWrites(mode, Command(999, 0, 0, -1))
         == [PwmWrite(SERVO_PIN, 999), PwmWrite(MOTOR_PIN, 2000)]
    ensures CommandWrites(mode, Command(999, 0, 1999, 0))
         == [PwmWrite(SERVO_PIN, 999), PwmWrite(MOTOR_PIN, 1000)]
  {
  }
}
