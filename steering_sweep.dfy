/** The servo sweep test (Rasp/tests/SteeringSweep.cpp): centre the servo,
    then while `keepRunning` holds sweep it centre to right, right to left and
    left back to centre in steps of 25, and centre it once more at the end.

    `keepRunning` is an atomic flag that a signal handler only ever clears, so
    its loads are modelled by one number: the first `trueLoads` loads return
    true and every later one false. Each `for` guard tests the position first
    and loads the flag only when the position is still in range. */
module SteeringSweep {
  import Seqs

  const SERVO_LEFT: int := 500
  const SERVO_CENTER: int := 1500
  const SERVO_RIGHT: int := 2500
  const STEP: int := 25

  /** Positions written by one uninterrupted pass of the three `for` loops. */
  const CYCLE_LEN: nat := 163
  /** Flag loads in one uninterrupted pass: the `while` test, then one per position. */
  const LOADS_PER_CYCLE: nat := 164

  /** The `k`-th position of a cycle: 41 steps up from the centre to the right
      end, 81 steps down to the left end, 41 steps up to the centre. */
  function CyclePos(k: int): (pos: int)
    requires 0 <= k < CYCLE_LEN
    ensures SERVO_LEFT <= pos <= SERVO_RIGHT
  {
    if k < 41 then SERVO_CENTER + STEP * k
    else if k < 122 then SERVO_RIGHT - STEP * (k - 41)
    else SERVO_LEFT + STEP * (k - 122)
  }

  function Cycle(): (s: seq<int>) {
    seq(CYCLE_LEN, k requires 0 <= k < CYCLE_LEN => CyclePos(k))
  }

  /** `n` positions from `start`, `step` apart. */
  function Ramp(start: int, n: nat, step: int): (s: seq<int>)
    ensures |s| == n && (n > 0 ==> s[0] == start)
    ensures forall i :: 0 < i < n ==> s[i] - s[i - 1] == step
  {
    seq(n, i requires 0 <= i < n => start + step * i)
  }

  /** `c` complete cycles, one after the other. */
  function Cycles(c: nat): (s: seq<int>)
    ensures |s| == CYCLE_LEN * c
  {
    if c == 0 then [] else Cycles(c - 1) + Cycle()
  }

  /** The positions written between the two centring writes when the flag
      reads true `loads` times: every group of 164 loads is one `while` test
      followed by the 163 positions of a cycle. */
  function Sweep(loads: nat): (s: seq<int>) {
    if loads == 0 then []
    else Cycles((loads - 1) / LOADS_PER_CYCLE) + Cycle()[..(loads - 1) % LOADS_PER_CYCLE]
  }

  /** The body of the `while` loop: the three `for` loops, writing from
      `loads0` flag loads onwards. A load that returns false ends the loop
      it is in, and each later loop then stops at its first load. */
  method SweepCycle(loads0: nat, trueLoads: nat) returns (ws: seq<int>, loads: nat)
    requires loads0 <= trueLoads
    ensures trueLoads - loads0 >= CYCLE_LEN ==> ws == Cycle() && loads == loads0 + CYCLE_LEN
    ensures trueLoads - loads0 < CYCLE_LEN ==> ws == Cycle()[..trueLoads - loads0] && loads > trueLoads
  {
    ghost var cycle := Cycle();
    ws := [];
    loads := loads0;
    var pos := SERVO_CENTER;
    while pos <= SERVO_RIGHT
      invariant |ws| <= 41 && pos == SERVO_CENTER + STEP * |ws|
      invariant ws == cycle[..|ws|]
      invariant loads == loads0 + |ws| <= trueLoads
      decreases SERVO_RIGHT - pos
    {
      var running := loads < trueLoads;
      loads := loads + 1;
      if !running {
        break;
      }
      assert cycle[..|ws| + 1] == ws + [pos];
      ws := ws + [pos];
      pos := pos + STEP;
    }
    pos := SERVO_RIGHT;
    while pos >= SERVO_LEFT
      invariant |ws| <= CYCLE_LEN && ws == cycle[..|ws|]
      invariant (loads == loads0 + |ws| <= trueLoads && 41 <= |ws| <= 122 && pos == SERVO_RIGHT - STEP * (|ws| - 41))
             || (loads > trueLoads && |ws| == trueLoads - loads0 < 122)
      decreases pos - SERVO_LEFT
    {
      var running := loads < trueLoads;
      loads := loads + 1;
      if !running {
        break;
      }
      assert cycle[..|ws| + 1] == ws + [pos];
      ws := ws + [pos];
      pos := pos - STEP;
    }
    pos := SERVO_LEFT;
    while pos <= SERVO_CENTER
      invariant |ws| <= CYCLE_LEN && ws == cycle[..|ws|]
      invariant (loads == loads0 + |ws| <= trueLoads && 122 <= |ws| <= CYCLE_LEN && pos == SERVO_LEFT + STEP * (|ws| - 122))
             || (loads > trueLoads && |ws| == trueLoads - loads0 < CYCLE_LEN)
      decreases SERVO_CENTER - pos
    {
      var running := loads < trueLoads;
      loads := loads + 1;
      if !running {
        break;
      }
      assert cycle[..|ws| + 1] == ws + [pos];
      ws := ws + [pos];
      pos := pos + STEP;
    }
    assert |ws| == CYCLE_LEN ==> cycle[..|ws|] == cycle;
  }

  /** The test's `main` after the setup: every servo position it writes, in
      order, when the flag reads true `trueLoads` times. The servo starts and
      ends at the centre, never leaves the range between the two ends, and
      moves by at most one step at a time until the final centring write. */
  method RunSweep(trueLoads: nat) returns (writes: seq<int>)
    ensures writes == [SERVO_CENTER] + Sweep(trueLoads) + [SERVO_CENTER]
    ensures InServoRange(writes)
    ensures Steady(writes[..|writes| - 1])
  {
    writes := [SERVO_CENTER];
    var swept := SweepWhile(trueLoads);
    writes := writes + swept;
    SweepSteady(trueLoads);
    writes := writes + [SERVO_CENTER];
    SweepInRange(trueLoads);
    assert writes[..|writes| - 1] == [SERVO_CENTER] + Sweep(trueLoads);
  }

  /** The `while (keepRunning.load())` loop: one load for its test, then a
      cycle as far as the flag lets it go. */
  method SweepWhile(trueLoads: nat) returns (writes: seq<int>)
    ensures writes == Sweep(trueLoads)
  {
    writes := [];
    var loads := 0;
    var running := loads < trueLoads;
    loads := loads + 1;
    ghost var cycles: nat := 0;
    while running
      invariant running ==> loads <= trueLoads && loads == LOADS_PER_CYCLE * cycles + 1
      invariant running ==> writes == Cycles(cycles)
      invariant !running ==> writes == Sweep(trueLoads)
      decreases if running then trueLoads - loads + 1 else 0
    {
      var ws;
      ws, loads := SweepCycle(loads, trueLoads);
      SweepAt(cycles, |ws|);
      writes := writes + ws;
      running := loads < trueLoads;
      loads := loads + 1;
      cycles := cycles + 1;
    }
  }

  /** Where a sweep stands `a` positions into the cycle after `c` complete ones. */
  lemma SweepAt(c: nat, a: nat)
    requires a <= CYCLE_LEN
    ensures Sweep(LOADS_PER_CYCLE * c + 1 + a) == Cycles(c) + Cycle()[..a]
    ensures a == CYCLE_LEN ==> Sweep(LOADS_PER_CYCLE * c + 1 + a) == Cycles(c + 1)
  {
    CycleSplit(c, a);
    if a == CYCLE_LEN {
      WholeCycle();
    }
  }

  /** Load number `164 * c + 1 + a` is `a` positions into cycle `c`. */
  lemma CycleSplit(c: nat, a: nat)
    requires a < LOADS_PER_CYCLE
    ensures (LOADS_PER_CYCLE * c + a) / LOADS_PER_CYCLE == c
    ensures (LOADS_PER_CYCLE * c + a) % LOADS_PER_CYCLE == a
  {
  }

  lemma WholeCycle()
    ensures Cycle()[..CYCLE_LEN] == Cycle()
  {
  }

  // ---------------------------------------------------------------------------
  // Properties of the sweep
  // ---------------------------------------------------------------------------

  predicate InServoRange(s: seq<int>) {
    forall i :: 0 <= i < |s| ==> SERVO_LEFT <= s[i] <= SERVO_RIGHT
  }

  predicate SmallStep(a: int, b: int) {
    b - a == 0 || b - a == STEP || b - a == -STEP
  }

  /** Successive positions differ by 0 or by one step either way. */
  predicate Steady(s: seq<int>) {
    forall i :: 0 < i < |s| ==> SmallStep(s[i - 1], s[i])
  }

  /** One cycle goes 1500 up to 2500, 2500 down to 500 and 500 up to 1500,
      25 at a time. */
  lemma CycleIsThreeRamps()
    ensures Cycle() == Ramp(SERVO_CENTER, 41, STEP) + Ramp(SERVO_RIGHT, 81, -STEP) + Ramp(SERVO_LEFT, 41, STEP)
    ensures Cycle()[0] == SERVO_CENTER && Cycle()[40] == SERVO_RIGHT && Cycle()[41] == SERVO_RIGHT
    ensures Cycle()[121] == SERVO_LEFT && Cycle()[122] == SERVO_LEFT && Cycle()[CYCLE_LEN - 1] == SERVO_CENTER
  {
    var r := Ramp(SERVO_CENTER, 41, STEP) + Ramp(SERVO_RIGHT, 81, -STEP) + Ramp(SERVO_LEFT, 41, STEP);
    forall k | 0 <= k < CYCLE_LEN
      ensures r[k] == Cycle()[k]
    {
    }
  }

  lemma InRangeAppend(s: seq<int>, t: seq<int>)
    requires InServoRange(s) && InServoRange(t)
    ensures InServoRange(s + t)
  {
    assert forall i :: |s| <= i < |s| + |t| ==> (s + t)[i] == t[i - |s|];
  }

  lemma CyclePrefixInRange(a: nat)
    requires a <= CYCLE_LEN
    ensures InServoRange(Cycle()[..a])
  {
  }

  lemma {:induction false} CyclesInRange(c: nat)
    ensures InServoRange(Cycles(c))
  {
    if c > 0 {
      CyclesInRange(c - 1);
      CyclePrefixInRange(CYCLE_LEN);
      WholeCycle();
      InRangeAppend(Cycles(c - 1), Cycle());
    }
  }

  /** Every position the sweep writes lies between the two ends of the servo. */
  lemma SweepInRange(loads: nat)
    ensures InServoRange([SERVO_CENTER] + Sweep(loads) + [SERVO_CENTER])
  {
    if loads > 0 {
      var q, r := (loads - 1) / LOADS_PER_CYCLE, (loads - 1) % LOADS_PER_CYCLE;
      CyclesInRange(q);
      CyclePrefixInRange(r);
      InRangeAppend(Cycles(q), Cycle()[..r]);
    }
    InRangeAppend([SERVO_CENTER], Sweep(loads));
    InRangeAppend([SERVO_CENTER] + Sweep(loads), [SERVO_CENTER]);
  }

  lemma SteadyAppend(s: seq<int>, t: seq<int>)
    requires Steady(s) && Steady(t) && s != []
    requires t != [] ==> SmallStep(s[|s| - 1], t[0])
    ensures Steady(s + t)
  {
    forall i | 0 < i < |s + t|
      ensures SmallStep((s + t)[i - 1], (s + t)[i])
    {
      if i > |s| {
        assert (s + t)[i - 1] == t[i - 1 - |s|] && (s + t)[i] == t[i - |s|];
      }
    }
  }

  lemma CycleSteady(a: nat)
    requires a <= CYCLE_LEN
    ensures Steady(Cycle()[..a])
  {
  }

  /** The centring write and any number of complete cycles move one step at a
      time, and end back at the centre. */
  lemma {:induction false} CyclesSteady(c: nat)
    ensures Steady([SERVO_CENTER] + Cycles(c))
    ensures ([SERVO_CENTER] + Cycles(c))[CYCLE_LEN * c] == SERVO_CENTER
  {
    if c > 0 {
      CyclesSteady(c - 1);
      CycleSteady(CYCLE_LEN);
      WholeCycle();
      assert [SERVO_CENTER] + Cycles(c) == ([SERVO_CENTER] + Cycles(c - 1)) + Cycle();
      SteadyAppend([SERVO_CENTER] + Cycles(c - 1), Cycle());
    }
  }

  /** From the first centring write to the last sweep position the servo
      moves by 0 or 25 at a time. */
  lemma SweepSteady(loads: nat)
    ensures Steady([SERVO_CENTER] + Sweep(loads))
  {
    if loads > 0 {
      var q, r := (loads - 1) / LOADS_PER_CYCLE, (loads - 1) % LOADS_PER_CYCLE;
      CyclesSteady(q);
      CycleSteady(r);
      assert Sweep(loads) == Cycles(q) + Cycle()[..r];
      Seqs.AppendAssoc([SERVO_CENTER], Cycles(q), Cycle()[..r]);
      if r > 0 {
        assert Cycle()[..r][0] == CyclePos(0);
      }
      SteadyAppend([SERVO_CENTER] + Cycles(q), Cycle()[..r]);
    }
  }

  /** Once the flag reads false nothing more is swept: one more true load
      writes at most one more position, none when it was the `while` test. */
  lemma SweepStep(loads: nat)
    ensures loads % LOADS_PER_CYCLE == 0 ==> Sweep(loads + 1) == Sweep(loads)
    ensures loads % LOADS_PER_CYCLE != 0 ==>
      Sweep(loads + 1) == Sweep(loads) + [Cycle()[loads % LOADS_PER_CYCLE - 1]]
  {
    var q, r := loads / LOADS_PER_CYCLE, loads % LOADS_PER_CYCLE;
    assert loads == LOADS_PER_CYCLE * q + r;
    if r == 0 {
      WhileTestLoad(q);
    } else {
      CycleLoad(q, r);
    }
  }

  /** A true `while` test after `q` complete cycles writes nothing. */
  lemma WhileTestLoad(q: nat)
    ensures Sweep(LOADS_PER_CYCLE * q + 1) == Sweep(LOADS_PER_CYCLE * q)
  {
    SweepAt(q, 0);
    if q > 0 {
      SweepAt(q - 1, CYCLE_LEN);
    }
  }

  /** The `r`-th true load of a cycle writes the cycle's `r`-th position. */
  lemma CycleLoad(q: nat, r: nat)
    requires 0 < r < LOADS_PER_CYCLE
    ensures Sweep(LOADS_PER_CYCLE * q + r + 1) == Sweep(LOADS_PER_CYCLE * q + r) + [Cycle()[r - 1]]
  {
    SweepAt(q, r - 1);
    SweepAt(q, r);
    CycleTakeSnoc(r);
    Seqs.AppendAssoc(Cycles(q), Cycle()[..r - 1], [Cycle()[r - 1]]);
  }

  lemma CycleTakeSnoc(r: nat)
    requires 0 < r <= CYCLE_LEN
    ensures Cycle()[..r] == Cycle()[..r - 1] + [Cycle()[r - 1]]
  {
  }
}
