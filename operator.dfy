/** The operator side on Linux (Client/srcs/Client.cpp): every pass of the main
    loop polls the steering wheel, turns the two paddle buttons into the
    paddle field and sends the four values as one text message. */
module Operator {
  import opened Wire
  import opened Rrc

  /** One poll of the wheel: the three axes after normalisation, and the
      buttons the loop looks at (4 and 5 are the paddles, 9 is Options). */
  datatype Frame = Frame(steering: int, accelerator: int, brake: int,
                         button4: bool, button5: bool, button9: bool)

  /** The paddle field: the left paddle (button 4) asks for REVERSE and wins
      over the right paddle (button 5), which asks for DRIVE; neither gives 0. */
  function Paddle(button4: bool, button5: bool): (p: int)
    ensures p == -1 <==> button4
    ensures p == 1 <==> !button4 && button5
    ensures p == 0 <==> !button4 && !button5
  {
    if button4 then -1
    else if button5 then 1
    else 0
  }

  /** The loop's if-chain on the local `paddle`, which starts at 0. */
  method ReadPaddle(button4: bool, button5: bool) returns (paddle: int)
    ensures paddle == Paddle(button4, button5)
  {
    paddle := 0;
    if button4 {
      paddle := -1;
    } else if button5 {
      paddle := 1;
    }
  }

  /** The command a poll produces. */
  function FrameCommand(f: Frame): (c: Command) {
    Command(f.steering, f.accelerator, f.brake, Paddle(f.button4, f.button5))
  }

  /** The text sent for a poll. */
  function Message(f: Frame): (msg: string) {
    Encode(FrameCommand(f))
  }

  /** The messages of a run of polls, in order. */
  function Messages(fs: seq<Frame>): (ms: seq<string>)
    ensures |ms| == |fs|
  {
    if fs == [] then []
    else Messages(fs[..|fs| - 1]) + [Message(fs[|fs| - 1])]
  }

  /** The commands of a run of polls, in order. */
  function Commands(fs: seq<Frame>): (cs: seq<Command>)
    ensures |cs| == |fs|
  {
    if fs == [] then []
    else Commands(fs[..|fs| - 1]) + [FrameCommand(fs[|fs| - 1])]
  }

  /** The client's `main`: when SDL, the joystick, the socket, the address or
      `connect` fails it returns before the loop and sends nothing; otherwise
      each poll is sent as its message. The loop never ends in the program;
      `frames` are the polls of the passes observed. */
  method RunClient(setupOk: bool, frames: seq<Frame>) returns (sent: seq<string>)
    ensures sent == if setupOk then Messages(frames) else []
  {
    sent := [];
    if !setupOk {
      return;
    }
    var i := 0;
    while i < |frames|
      invariant 0 <= i <= |frames|
      invariant sent == Messages(frames[..i])
    {
      var command := Poll(frames[i]);
      sent := sent + [command];
      assert frames[..i + 1][..i] == frames[..i];
      i := i + 1;
    }
    assert frames[..i] == frames;
  }

  /** The body of one pass: the paddle if-chain, then the message built from
      the axes and the paddle. */
  method Poll(f: Frame) returns (command: string)
    ensures command == Message(f)
  {
    var paddle := ReadPaddle(f.button4, f.button5);
    command := Encode(Command(f.steering, f.accelerator, f.brake, paddle));
  }

  lemma {:induction false} MessagesAt(fs: seq<Frame>, i: nat)
    requires i < |fs|
    ensures Messages(fs)[i] == Message(fs[i])
    decreases |fs|
  {
    if i < |fs| - 1 {
      MessagesAt(fs[..|fs| - 1], i);
    }
  }

  /** Each message is four decimal ints, single spaces between them, and
      decodes back to the poll's command: the car sees exactly the steering,
      accelerator, brake and paddle the client read. */
  lemma MessageDecodes(f: Frame)
    ensures Decode(Message(f)) == Some(FrameCommand(f))
    ensures multiset(Message(f))[' '] == 3
    ensures Message(f)[0] != ' ' && IsDigit(Message(f)[|Message(f)| - 1])
  {
    DecodeEncode(FrameCommand(f));
    EncodeShape(FrameCommand(f));
  }

  /** The whole stream round-trips: whatever the car's variables held, the
      commands it parses from the sent messages are the polls' commands. */
  lemma {:induction false} StreamRoundTrip(fs: seq<Frame>, garbage: seq<Command>)
    requires |garbage| == |fs|
    ensures ReceivedAll(Messages(fs), garbage) == Commands(fs)
    decreases |fs|
  {
    if fs != [] {
      var n := |fs| - 1;
      var ms := Messages(fs);
      assert ms[..n] == Messages(fs[..n]);
      StreamRoundTrip(fs[..n], garbage[..n]);
      ReceivedDecoded(ms[n], garbage[n]);
      MessagesAt(fs, n);
      MessageDecodes(fs[n]);
    }
  }

  /** The paddle buttons drive the car's mode: the left paddle selects
      REVERSE even with the right one held, the right one alone selects
      DRIVE, and with neither the mode stays. */
  lemma PaddleSelectsMode(mode: Mode, button4: bool, button5: bool)
    ensures NextMode(mode, Paddle(button4, button5))
         == if button4 then Reverse else if button5 then Drive else mode
  {
  }
}
