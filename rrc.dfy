/** What the car-side programs share: the drive mode, the sticky mode switch
    driven by the paddle field, and the PWM pins the programs write. */
module Rrc {
  import opened Seqs
  import opened Wire

  /** `enum Mode { DRIVE, REVERSE }`; both car programs start in DRIVE. */
  datatype Mode = Drive | Reverse

  const INITIAL_MODE: Mode := Drive

  const SERVO_PIN: int := 1
  const MOTOR_PIN: int := 2

  /** One `pwmWrite(pin, value)` call, as seen on the GPIO side. */
  datatype PwmWrite = PwmWrite(pin: int, value: int)

  /** The mode after a command: paddle 1 selects DRIVE, paddle -1 selects
      REVERSE, and every other value leaves the mode as it was. */
  function NextMode(mode: Mode, paddle: int): (m: Mode) {
    if paddle == 1 then Drive
    else if paddle == -1 then Reverse
    else mode
  }

  /** The mode after a run of commands' paddle values, applied in order. */
  function ModeAfter(mode: Mode, paddles: seq<int>): (m: Mode)
    decreases |paddles|
  {
    if paddles == [] then mode
    else ModeAfter(NextMode(mode, paddles[0]), paddles[1..])
  }

  /** The paddle fields of a run of commands, in order. */
  function Paddles(cs: seq<Command>): (ps: seq<int>) {
    seq(|cs|, i requires 0 <= i < |cs| => cs[i].paddle)
  }

  /** Paddles of a longer run: one more command adds its paddle at the end,
      and dropping the first command drops its paddle. */
  lemma PaddlesSnoc(cs: seq<Command>, c: Command)
    ensures Paddles(cs + [c]) == Paddles(cs) + [c.paddle]
  {
  }

  lemma PaddlesTail(cs: seq<Command>)
    requires cs != []
    ensures Paddles(cs)[0] == cs[0].paddle
    ensures Paddles(cs)[1..] == Paddles(cs[1..])
  {
  }

  /** The pin writes of a run of commands, where `step` gives the writes one
      command makes from the mode before it (each car program has its own),
      and each command starts from the mode the previous one left. */
  function RunWrites(step: (Mode, Command) -> seq<PwmWrite>, mode: Mode, cs: seq<Command>): (w: seq<PwmWrite>)
    decreases |cs|
  {
    if cs == [] then []
    else step(mode, cs[0]) + RunWrites(step, NextMode(mode, cs[0].paddle), cs[1..])
  }

  /** Handling one more command extends the run by that command's writes,
      made from the mode the run left. */
  lemma {:induction false} RunSnoc(step: (Mode, Command) -> seq<PwmWrite>, mode: Mode, cs: seq<Command>, c: Command)
    ensures RunWrites(step, mode, cs + [c]) == RunWrites(step, mode, cs) + step(ModeAfter(mode, Paddles(cs)), c)
    decreases |cs|
  {
    if cs == [] {
      PaddlesSnoc(cs, c);
      assert cs + [c] == [c];
    } else {
      var m := NextMode(mode, cs[0].paddle);
      assert (cs + [c])[1..] == cs[1..] + [c];
      PaddlesTail(cs);
      RunSnoc(step, m, cs[1..], c);
      AppendAssoc(step(mode, cs[0]), RunWrites(step, m, cs[1..]), step(ModeAfter(m, Paddles(cs[1..])), c));
    }
  }

  /** One more paddle value moves the mode one more step. */
  lemma {:induction false} ModeAfterAppend(mode: Mode, ps: seq<int>, p: int)
    ensures ModeAfter(mode, ps + [p]) == NextMode(ModeAfter(mode, ps), p)
    decreases |ps|
  {
    if ps == [] {
      assert ps + [p] == [p];
    } else {
      assert (ps + [p])[1..] == ps[1..] + [p];
      ModeAfterAppend(NextMode(mode, ps[0]), ps[1..], p);
    }
  }

  /** Handling one more command moves the mode by that command's paddle. */
  lemma ModeAfterSnoc(mode: Mode, cs: seq<Command>, c: Command)
    ensures ModeAfter(mode, Paddles(cs + [c])) == NextMode(ModeAfter(mode, Paddles(cs)), c.paddle)
  {
    PaddlesSnoc(cs, c);
    ModeAfterAppend(mode, Paddles(cs), c.paddle);
  }

  /** Only the paddle values 1 and -1 ever change the mode. */
  lemma NextModeCases(mode: Mode, paddle: int)
    ensures NextMode(mode, paddle) == Drive <==> paddle == 1 || (paddle != -1 && mode == Drive)
    ensures NextMode(mode, paddle) != mode ==> paddle == 1 || paddle == -1
  {
  }

  /** A command applied twice in a row changes the mode at most the first time. */
  lemma NextModeIdempotent(mode: Mode, paddle: int)
    ensures NextMode(NextMode(mode, paddle), paddle) == NextMode(mode, paddle)
  {
  }

  /** Sticky mode: commands whose paddle is neither 1 nor -1 never move it. */
  lemma {:induction false} ModeAfterNeutral(mode: Mode, paddles: seq<int>)
    requires forall i :: 0 <= i < |paddles| ==> paddles[i] != 1 && paddles[i] != -1
    ensures ModeAfter(mode, paddles) == mode
    decreases |paddles|
  {
    if paddles != [] {
      ModeAfterNeutral(mode, paddles[1..]);
    }
  }

  /** The mode after a run is decided by the last paddle value 1 or -1 in it. */
  lemma {:induction false} ModeAfterLastShift(mode: Mode, paddles: seq<int>, k: nat)
    requires k < |paddles| && (paddles[k] == 1 || paddles[k] == -1)
    requires forall i :: k < i < |paddles| ==> paddles[i] != 1 && paddles[i] != -1
    ensures ModeAfter(mode, paddles) == (if paddles[k] == 1 then Drive else Reverse)
    decreases |paddles|
  {
    if k == 0 {
      ModeAfterNeutral(NextMode(mode, paddles[0]), paddles[1..]);
    } else {
      ModeAfterLastShift(NextMode(mode, paddles[0]), paddles[1..], k - 1);
    }
  }
}
