/** The current car-side command handler (Rasp/srcs/CarControll.cpp): each
    message is decoded into four ints, the paddle updates the global drive
    mode, and the steering, accelerator and brake values are remapped from the
    0..1999 input range before one servo write and one motor write. */
module CarControl {
  import opened Seqs
  import opened Wire
  import opened Rrc

  function Abs(x: int): (a: nat) {
    if x < 0 then -x else x
  }

  /** C's `/` on ints: the quotient truncated toward zero. */
  function TruncDiv(a: int, b: int): (q: int)
    requires b != 0
    ensures a >= 0 && b > 0 ==> q == a / b
  {
    var q0 := Abs(a) / Abs(b);
    if (a < 0) == (b < 0) then q0 else -q0
  }

  /** The source's `map`: `(x - in_min) * (out_max - out_min) / (in_max - in_min) + out_min`
      with C's truncating division. `in_max == in_min` divides by zero there. */
  function Map(x: int, inMin: int, inMax: int, outMin: int, outMax: int): (r: int)
    requires inMax != inMin
  {
    TruncDiv((x - inMin) * (outMax - outMin), inMax - inMin) + outMin
  }

  // Input range shared by the three axes, and the output ranges.
  const IN_MIN: int := 0
  const IN_MAX: int := 1999
  const SERVO_MIN: int := 500
  const SERVO_MAX: int := 2500
  const PWM_MAX: int := 1024

  function SteeringPwm(steering: int): (pwm: int) {
    Map(steering, IN_MIN, IN_MAX, SERVO_MIN, SERVO_MAX)
  }

  function MotorPwm(accelerator: int): (pwm: int) {
    Map(accelerator, IN_MIN, IN_MAX, 0, PWM_MAX)
  }

  function BrakePwm(brake: int): (pwm: int) {
    Map(brake, IN_MIN, IN_MAX, 0, PWM_MAX)
  }

  /** The value written to the motor pin, chosen with the mode already updated
      by this command: any brake above zero wins, then DRIVE sends the
      accelerator pulse and REVERSE its complement in the 1024 range. */
  function MotorOutput(mode: Mode, c: Command): (pwm: int) {
    if c.brake > 0 then BrakePwm(c.brake)
    else if mode == Drive then MotorPwm(c.accelerator)
    else PWM_MAX - MotorPwm(c.accelerator)
  }

  /** The pin writes one command causes, in order, from the mode before it. */
  function CommandWrites(mode: Mode, c: Command): (w: seq<PwmWrite>) {
    var m := NextMode(mode, c.paddle);
    [PwmWrite(SERVO_PIN, SteeringPwm(c.steering)), PwmWrite(MOTOR_PIN, MotorOutput(m, c))]
  }

  /** The car: the global `currentMode` and the log of PWM writes so far. */
  class Car {
    var mode: Mode
    var writes: seq<PwmWrite>

    constructor ()
      ensures mode == INITIAL_MODE && writes == []
    {
      mode := INITIAL_MODE;
      writes := [];
    }

    /** One pass of the `handleCommand` loop body for one complete message.
        `garbage` is what the four variables hold where `sscanf` stored nothing;
        `c` is what they hold after the parse. */
    method HandleMessage(msg: string, garbage: Command) returns (c: Command)
      modifies this
      ensures c == Received(msg, garbage)
      ensures mode == NextMode(old(mode), c.paddle)
      ensures writes == old(writes) + CommandWrites(old(mode), c)
    {
      c := Received(msg, garbage);
      Apply(c);
    }

    /** The part of the loop body after the parse: the mode switch, then the
        servo write, then the motor write chosen with the updated mode. */
    method Apply(c: Command)
      modifies this
      ensures mode == NextMode(old(mode), c.paddle)
      ensures writes == old(writes) + CommandWrites(old(mode), c)
    {
      if c.paddle == 1 {
        mode := Drive;
      } else if c.paddle == -1 {
        mode := Reverse;
      }
      var steeringPwm := SteeringPwm(c.steering);
      var motorPwm := MotorPwm(c.accelerator);
      var brakePwm := BrakePwm(c.brake);
      writes := writes + [PwmWrite(SERVO_PIN, steeringPwm)];
      if c.brake > 0 {
        writes := writes + [PwmWrite(MOTOR_PIN, brakePwm)];
      } else if mode == Drive {
        writes := writes + [PwmWrite(MOTOR_PIN, motorPwm)];
      } else {
        writes := writes + [PwmWrite(MOTOR_PIN, PWM_MAX - motorPwm)];
      }
    }

    /** The `handleCommand` loop over one connection: every message read is
        handled in order until `read` reports the disconnect. `cs` are the
        commands the messages were parsed into. */
    method Serve(msgs: seq<string>, garbage: seq<Command>) returns (cs: seq<Command>)
      requires |garbage| == |msgs|
      modifies this
      ensures cs == ReceivedAll(msgs, garbage)
      ensures mode == ModeAfter(old(mode), Paddles(cs))
      ensures writes == old(writes) + RunWrites(CommandWrites, old(mode), cs)
    {
      ghost var rs := ReceivedAll(msgs, garbage);
      ghost var m0, w0 := mode, writes;
      cs := [];
      var i := 0;
      while i < |msgs|
        invariant 0 <= i <= |msgs| && |rs| == |msgs|
        invariant cs == rs[..i]
        invariant mode == ModeAfter(m0, Paddles(cs)) && writes == w0 + RunWrites(CommandWrites, m0, cs)
      {
        var c := HandleNext(msgs, garbage, i, m0, w0, cs);
        cs := cs + [c];
        i := i + 1;
      }
      assert rs[..i] == rs;
    }

    /** One pass of the loop in `Serve`: the `i`-th message is parsed and
        handled, extending the run handled so far (`cs`, from mode `m0` and
        log `w0`) by its command. */
    method HandleNext(msgs: seq<string>, garbage: seq<Command>, i: nat,
                      ghost m0: Mode, ghost w0: seq<PwmWrite>, ghost cs: seq<Command>) returns (c: Command)
      requires |garbage| == |msgs| && i < |msgs| && cs == ReceivedAll(msgs, garbage)[..i]
      requires mode == ModeAfter(m0, Paddles(cs)) && writes == w0 + RunWrites(CommandWrites, m0, cs)
      modifies this
      ensures cs + [c] == ReceivedAll(msgs, garbage)[..i + 1]
      ensures mode == ModeAfter(m0, Paddles(cs + [c])) && writes == w0 + RunWrites(CommandWrites, m0, cs + [c])
    {
      ReceivedAllAt(msgs, garbage, i);
      c := HandleMessage(msgs[i], garbage[i]);
      ModeAfterSnoc(m0, cs, c);
      RunSnoc(CommandWrites, m0, cs, c);
      AppendAssoc(w0, RunWrites(CommandWrites, m0, cs), CommandWrites(ModeAfter(m0, Paddles(cs)), c));
      assert ReceivedAll(msgs, garbage)[..i + 1] == ReceivedAll(msgs, garbage)[..i] + [c];
    }
  }

  // ---------------------------------------------------------------------------
  // Properties of map
  // ---------------------------------------------------------------------------

  lemma MulMonotone(a: int, b: int, k: int)
    requires a <= b && k >= 0
    ensures a * k <= b * k
  {
    assert b * k - a * k == (b - a) * k;
  }

  lemma MulCancelLess(x: int, y: int, d: int)
    requires d > 0 && x * d < y * d
    ensures x < y
  {
    if y <= x {
      MulMonotone(y, x, d);
    }
  }

  /** Euclidean division by a positive divisor is monotone in the dividend. */
  lemma DivMonotone(a: int, b: int, d: int)
    requires a <= b && d > 0
    ensures a / d <= b / d
  {
    var qa, qb := a / d, b / d;
    assert qa * d <= a;
    assert b < qb * d + d == (qb + 1) * d;
    MulCancelLess(qa, qb + 1, d);
  }

  /** Multiplying by a positive number and dividing by it again gives the number back. */
  lemma MulDivCancel(d: int, k: int)
    requires d > 0
    ensures (d * k) / d == k
  {
    var q := (d * k) / d;
    assert q * d <= d * k == k * d;
    assert k * d < q * d + d == (q + 1) * d;
    MulCancelLess(k, q + 1, d);
    assert q * d < k * d + d == (k + 1) * d;
    MulCancelLess(q, k + 1, d);
  }

  /** Truncating division undoes a multiplication by the divisor, whatever the signs. */
  lemma TruncDivCancel(d: int, k: int)
    requires d != 0
    ensures TruncDiv(d * k, d) == k
  {
    AbsMul(d, k);
    MulDivCancel(Abs(d), Abs(k));
  }

  /** The magnitude of a product, and its sign: negative exactly when the
      factors' signs differ and neither is zero. */
  lemma AbsMul(d: int, k: int)
    ensures Abs(d * k) == Abs(d) * Abs(k)
    ensures d * k < 0 <==> (d < 0 && k > 0) || (d > 0 && k < 0)
  {
    if d < 0 && k < 0 {
      assert d * k == (-d) * (-k);
    } else if d < 0 {
      assert d * k == -((-d) * k);
    } else if k < 0 {
      assert d * k == -(d * (-k));
    }
  }

  /** `map` sends the bottom of the input range to the bottom of the output range. */
  lemma MapAtInMin(inMin: int, inMax: int, outMin: int, outMax: int)
    requires inMax != inMin
    ensures Map(inMin, inMin, inMax, outMin, outMax) == outMin
  {
  }

  /** `map` sends the top of the input range to the top of the output range. */
  lemma MapAtInMax(inMin: int, inMax: int, outMin: int, outMax: int)
    requires inMax != inMin
    ensures Map(inMax, inMin, inMax, outMin, outMax) == outMax
  {
    TruncDivCancel(inMax - inMin, outMax - outMin);
  }

  /** On the input range, with an ascending output range, `map` is monotone and
      stays inside the output range. */
  lemma MapMonotoneBounded(x: int, y: int, inMin: int, inMax: int, outMin: int, outMax: int)
    requires inMin <= x <= y <= inMax && inMin < inMax && outMin <= outMax
    ensures outMin <= Map(x, inMin, inMax, outMin, outMax) <= Map(y, inMin, inMax, outMin, outMax) <= outMax
  {
    var d, k := inMax - inMin, outMax - outMin;
    MulMonotone(0, x - inMin, k);
    MulMonotone(x - inMin, y - inMin, k);
    MulMonotone(y - inMin, d, k);
    DivMonotone(0, (x - inMin) * k, d);
    DivMonotone((x - inMin) * k, (y - inMin) * k, d);
    DivMonotone((y - inMin) * k, d * k, d);
    MulDivCancel(d, k);
    assert k * d == d * k;
  }

  /** No clamping: past the top of the input range `map` keeps extrapolating,
      so a steering value of 2000 gives a servo pulse of 2501. */
  lemma SteeringBeyondRange()
    ensures SteeringPwm(2000) == 2501
  {
  }

  // ---------------------------------------------------------------------------
  // Properties of the command handler
  // ---------------------------------------------------------------------------

  predicate InInputRange(x: int) {
    IN_MIN <= x <= IN_MAX
  }

  /** For inputs in 0..1999 the servo pulse lies in 500..2500 and the motor and
      brake pulses in 0..1024. */
  lemma PwmBounds(c: Command)
    requires InInputRange(c.steering) && InInputRange(c.accelerator) && InInputRange(c.brake)
    ensures SERVO_MIN <= SteeringPwm(c.steering) <= SERVO_MAX
    ensures 0 <= MotorPwm(c.accelerator) <= PWM_MAX
    ensures 0 <= BrakePwm(c.brake) <= PWM_MAX
  {
    MapMonotoneBounded(c.steering, c.steering, IN_MIN, IN_MAX, SERVO_MIN, SERVO_MAX);
    MapMonotoneBounded(c.accelerator, c.accelerator, IN_MIN, IN_MAX, 0, PWM_MAX);
    MapMonotoneBounded(c.brake, c.brake, IN_MIN, IN_MAX, 0, PWM_MAX);
  }

  /** The motor output lies in 0..1024 in either mode for inputs in range. */
  lemma MotorOutputBounded(mode: Mode, c: Command)
    requires InInputRange(c.accelerator) && InInputRange(c.brake)
    ensures 0 <= MotorOutput(mode, c) <= PWM_MAX
  {
    MapMonotoneBounded(c.accelerator, c.accelerator, IN_MIN, IN_MAX, 0, PWM_MAX);
    MapMonotoneBounded(c.brake, c.brake, IN_MIN, IN_MAX, 0, PWM_MAX);
  }

  /** Braking preempts: with any brake above zero the motor gets the brake
      pulse, whatever the mode and the accelerator. */
  lemma BrakePreempts(m1: Mode, m2: Mode, c: Command, accelerator: int)
    requires c.brake > 0
    ensures MotorOutput(m1, c) == MotorOutput(m2, c.(accelerator := accelerator)) == BrakePwm(c.brake)
  {
  }

  /** Without brake, DRIVE sends the accelerator pulse and REVERSE mirrors it:
      the two outputs always add up to the full 1024 range. */
  lemma ThrottleByMode(c: Command)
    requires c.brake <= 0
    ensures MotorOutput(Drive, c) == MotorPwm(c.accelerator)
    ensures MotorOutput(Drive, c) + MotorOutput(Reverse, c) == PWM_MAX
  {
  }

  /** Full throttle gives 1024 in DRIVE and 0 in REVERSE. */
  lemma FullThrottle(steering: int, paddle: int)
    ensures MotorOutput(Drive, Command(steering, IN_MAX, 0, paddle)) == PWM_MAX
    ensures MotorOutput(Reverse, Command(steering, IN_MAX, 0, paddle)) == 0
  {
    MapAtInMax(IN_MIN, IN_MAX, 0, PWM_MAX);
  }

  /** Released pedals give 0 in DRIVE and the full 1024 in REVERSE: there is no
      neutral value for an idle car in REVERSE. */
  lemma ReleasedPedals(steering: int, paddle: int)
    ensures MotorOutput(Drive, Command(steering, 0, 0, paddle)) == 0
    ensures MotorOutput(Reverse, Command(steering, 0, 0, paddle)) == PWM_MAX
  {
  }

  /** Each command writes the servo once and then the motor once, and the
      command's own paddle decides the motor branch, whatever the mode before. */
  lemma CommandWritesShape(mode: Mode, c: Command)
    ensures var w := CommandWrites(mode, c);
      |w| == 2 && w[0] == PwmWrite(SERVO_PIN, SteeringPwm(c.steering)) && w[1].pin == MOTOR_PIN
    ensures c.paddle == 1 ==> CommandWrites(mode, c)[1].value == MotorOutput(Drive, c)
    ensures c.paddle == -1 ==> CommandWrites(mode, c)[1].value == MotorOutput(Reverse, c)
    ensures c.paddle != 1 && c.paddle != -1 ==> CommandWrites(mode, c)[1].value == MotorOutput(mode, c)
  {
  }

  /** Feeding the same command twice: the second pass leaves the mode where the
      first put it and repeats exactly the same two writes. */
  lemma RepeatCommand(mode: Mode, c: Command)
    ensures var m := NextMode(mode, c.paddle);
      NextMode(m, c.paddle) == m && CommandWrites(m, c) == CommandWrites(mode, c)
  {
  }

  /** A run of commands writes exactly two values per command, servo then motor. */
  lemma {:induction false} RunWritesShape(mode: Mode, cs: seq<Command>)
    ensures |RunWrites(CommandWrites, mode, cs)| == 2 * |cs|
    ensures forall i :: 0 <= i < |cs| ==>
      RunWrites(CommandWrites, mode, cs)[2 * i].pin == SERVO_PIN && RunWrites(CommandWrites, mode, cs)[2 * i + 1].pin == MOTOR_PIN
    decreases |cs|
  {
    if cs != [] {
      RunWritesShape(NextMode(mode, cs[0].paddle), cs[1..]);
      var rest := RunWrites(CommandWrites, NextMode(mode, cs[0].paddle), cs[1..]);
      assert RunWrites(CommandWrites, mode, cs) == CommandWrites(mode, cs[0]) + rest;
      forall i | 0 <= i < |cs|
        ensures RunWrites(CommandWrites, mode, cs)[2 * i].pin == SERVO_PIN && RunWrites(CommandWrites, mode, cs)[2 * i + 1].pin == MOTOR_PIN
      {
        if i > 0 {
          assert RunWrites(CommandWrites, mode, cs)[2 * i] == rest[2 * (i - 1)];
          assert RunWrites(CommandWrites, mode, cs)[2 * i + 1] == rest[2 * (i - 1) + 1];
        }
      }
    }
  }

  /** A message the client built from a command drives the car exactly as that
      command says, whatever the uninitialised variables held. */
  lemma EncodedMessageWrites(mode: Mode, c: Command, garbage: Command)
    ensures Received(Encode(c), garbage) == c
    ensures CommandWrites(mode, Received(Encode(c), garbage)) == CommandWrites(mode, c)
  {
    DecodeEncode(c);
    ReceivedDecoded(Encode(c), garbage);
  }

  /** Three examples: the command "999 1999 0 1" centres the servo (1499) and
      drives forward at 1024; "999 0 1999 0" brakes at 1024 in either mode;
      "999 0 0 -1" selects REVERSE, which sends 1024 with both pedals released. */
  lemma Examples(mode: Mode)
    ensures CommandWrites(Drive, Command(999, 1999, 0, 1))
         == [PwmWrite(SERVO_PIN, 1499), PwmWrite(MOTOR_PIN, 1024)]
    ensures CommandWrites(mode, Command(999, 0, 1999, 0))
         == [PwmWrite(SERVO_PIN, 1499), PwmWrite(MOTOR_PIN, 1024)]
    ensures NextMode(mode, Command(999, 0, 0, -1).paddle) == Reverse
    ensures CommandWrites(mode, Command(999, 0, 0, -1))
         == [PwmWrite(SERVO_PIN, 1499), PwmWrite(MOTOR_PIN, 1024)]
  {
  }
}
