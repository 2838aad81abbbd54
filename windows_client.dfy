/** The operator side on Windows (ClientWindows/srcs/Client.cpp): the same
    polls and messages as the Linux client, but a failed `connect` is not
    fatal (the loop runs and sends nothing) and Options (button 9) ends the
    loop after the pass that saw it. */
module WindowsClient {
  import opened Wire
  import opened Operator

  /** How many passes of `while (running)` run over the polls `fs`: up to and
      including the first poll with Options (button 9) held, or all of them. */
  function Passes(fs: seq<Frame>): (n: nat)
    ensures n <= |fs|
    decreases |fs|
  {
    if fs == [] then 0
    else if fs[0].button9 then 1
    else 1 + Passes(fs[1..])
  }

  /** The client's `main`. `setupOk` says whether SDL, the joystick, Winsock,
      the socket and the address all succeeded (otherwise it returns before
      the loop), `connectOk` whether `connect` did. The loop runs one pass per
      poll in `frames` while `running` holds: a pass that sees button 9 clears
      `running` but still sends its message, and every pass sends exactly when
      `connected`. `iterations` counts the passes that ran. */
  method RunWindowsClient(setupOk: bool, connectOk: bool, frames: seq<Frame>)
    returns (connected: bool, iterations: nat, sent: seq<string>)
    ensures connected == (setupOk && connectOk)
    ensures iterations == if setupOk then Passes(frames) else 0
    ensures sent == if connected then Messages(frames[..iterations]) else []
  {
    connected := false;
    iterations := 0;
    sent := [];
    if !setupOk {
      return;
    }
    if connectOk {
      connected := true;
    }
    var running := true;
    while running && iterations < |frames|
      invariant iterations <= |frames|
      invariant running ==> Passes(frames) == iterations + Passes(frames[iterations..])
      invariant !running ==> Passes(frames) == iterations
      invariant connected == connectOk
      invariant connected ==> sent == Messages(frames[..iterations])
      invariant !connected ==> sent == []
    {
      assert frames[iterations..][1..] == frames[iterations + 1..];
      var stop, out := Pass(frames[iterations], connected);
      if stop {
        running := false;
      }
      sent := sent + out;
      assert frames[..iterations + 1][..iterations] == frames[..iterations];
      iterations := iterations + 1;
    }
  }

  /** The body of one pass: the paddle if-chain, the check of button 9, and
      the message built and sent only when connected. */
  method Pass(f: Frame, connected: bool) returns (stop: bool, out: seq<string>)
    ensures stop == f.button9
    ensures out == if connected then [Message(f)] else []
  {
    var paddle := ReadPaddle(f.button4, f.button5);
    stop := f.button9;
    out := [];
    if connected {
      var command := Encode(Command(f.steering, f.accelerator, f.brake, paddle));
      out := [command];
    }
  }

  /** The passes that run are exactly those up to the first Options press: no
      earlier poll had button 9 held, and the loop ended either on a poll
      that had or because the polls ran out. */
  lemma {:induction false} PassesStopAtOptions(fs: seq<Frame>)
    ensures forall j :: 0 <= j < Passes(fs) - 1 ==> !fs[j].button9
    ensures Passes(fs) == |fs| || fs[Passes(fs) - 1].button9
    ensures fs != [] ==> Passes(fs) > 0
    decreases |fs|
  {
    if fs != [] && !fs[0].button9 {
      PassesStopAtOptions(fs[1..]);
      forall j | 0 <= j < Passes(fs) - 1
        ensures !fs[j].button9
      {
        if j > 0 {
          assert fs[j] == fs[1..][j - 1];
        }
      }
    }
  }

  /** A first press of Options in poll `k` makes pass `k` the last one. */
  lemma {:induction false} FirstOptionsPressIsLastPass(fs: seq<Frame>, k: nat)
    requires k < |fs| && fs[k].button9
    requires forall j :: 0 <= j < k ==> !fs[j].button9
    ensures Passes(fs) == k + 1
    decreases k
  {
    if k > 0 {
      assert forall j :: 0 <= j < k - 1 ==> fs[1..][j] == fs[j + 1];
      FirstOptionsPressIsLastPass(fs[1..], k - 1);
    }
  }
}
