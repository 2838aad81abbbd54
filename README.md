# RemoteRc command path, modelled in Dafny

RemoteRc drives a radio-controlled car from a steering wheel. An operator
client polls the wheel and sends one text command per poll over TCP:
`"<steering> <accelerator> <brake> <paddle>"`. A server on the car's
Raspberry Pi parses each command. The paddle switches a sticky DRIVE/REVERSE
mode, and the handler writes one servo pulse and one motor pulse.

This project models that path as the code does it:

- `seqs.dfy` (module `Seqs`): one general fact about sequences, that
  concatenation regroups, which the other modules share.
- `wire.dfy` (module `Wire`): the command record. `std::to_string` and the
  client's concatenation are the encoder. `sscanf(buffer, "%d %d %d %d", ...)`
  is the decoder. The decoder follows C: blanks are skipped, a sign is
  optional, the longest digit run is read, and anything after the fourth
  value is ignored. When a conversion fails, the variables from that
  conversion onward keep the indeterminate values they held before. The
  model passes those values in as a `garbage` command.
- `rrc.dfy` (module `Rrc`): the drive mode. It starts in DRIVE. Paddle 1
  selects DRIVE, paddle -1 selects REVERSE, and every other value leaves the
  mode as it is. This module also holds the pin numbers, the `PwmWrite`
  record and `RunWrites`, the writes of a run of commands, which each car
  program instantiates with its own per-command writes. The logs themselves
  are the `writes` fields of `Car` and `LegacyCar`.
- `car_control.dfy` (module `CarControl`, Rasp/srcs/CarControll.cpp): `map`
  uses C's truncating division. The class `Car` holds the global mode and
  the log of `pwmWrite` calls. `HandleMessage`, `Apply` and `Serve` are the
  body and the loop of `handleCommand`.
- `legacy_car.dfy` (module `LegacyCar`, Rasp/srcs/Rasp.cpp): the older
  handler, which writes raw values on a 0..2000 range. The class also holds
  the video socket `sock`, which `stopVideoStream` closes and resets only when
  it is positive.
- `operator.dfy` (module `Operator`, Client/srcs/Client.cpp): the paddle
  encoding, where the left paddle wins. Around it are the poll-to-message
  function and the Linux client's send loop.
- `windows_client.dfy` (module `WindowsClient`, ClientWindows/srcs/Client.cpp):
  the `connected` and `running` flags. Options (button 9) ends the loop after
  the pass that saw it, and that pass still sends.
- `steering_sweep.dfy` (module `SteeringSweep`, Rasp/tests/SteeringSweep.cpp):
  the servo sweep test. `keepRunning` is modelled as the number of loads that
  return true, because the signal handler only ever clears it.

Behaviour of the code worth knowing:

- Nothing clamps the inputs or snaps them to a neutral value. `map`
  extrapolates past its input range: a steering value of 2000 gives 2501.
- With both pedals released, REVERSE writes 1024, the full motor pulse.
- The handlers never check what `sscanf` returns, so a malformed message is
  not skipped: its unparsed fields keep indeterminate values, and the
  handler acts on them.
- Nothing supervises the video stream. `stopVideoStream` in the current
  build (Rasp/srcs/Cam.cpp) is empty. The older one only closes `sock`.
- The command link is a TCP stream.

## Model

| member | source | states |
|---|---|---|
| Wire.ScanInt | Rasp/srcs/CarControll.cpp:31 | One `%d` conversion: skip white space, take an optional sign and a non-empty run of digits, and give back the value and the unread rest. Its contract says the rest is strictly shorter than the input. |
| Wire.ScanSigned | Rasp/srcs/CarControll.cpp:31 | The sign-and-digits part of `%d`. Its contract says the digit run is non-empty and all digits, and the rest is shorter than the input. |
| Wire.Decode | Rasp/srcs/CarControll.cpp:31 | No contract. The command the payload decodes to when `sscanf` stores all four conversions, otherwise nothing. `Wire.ReceivedDecoded` and `Wire.DecodeEncode` state its meaning. |
| Wire.Received | Rasp/srcs/CarControll.cpp:30-31 | No contract. The four variables after the unchecked `sscanf`, given the indeterminate values they held before. `Wire.ReceivedDecoded` states its meaning. |
| Wire.ReceivedAll | Rasp/srcs/CarControll.cpp:21-31 | The variables after each message's unchecked `sscanf`, one command per message. Its contract gives only the length; `Wire.ReceivedAllAt` gives each element. |
| Wire.IntToDecimal | Client/srcs/Client.cpp:73 | No contract. `std::to_string(int)`: a minus sign for a negative value, then `NatToDecimal` of its magnitude. `Wire.DecimalShape` and `Wire.ScanIntOfDecimal` state its meaning. |
| Wire.Encode | Client/srcs/Client.cpp:73 | No contract. The four renderings joined by single blanks, in wire order. `Wire.DecodeEncode` and `Wire.EncodeShape` state its meaning. |
| Wire.Sscanf | Rasp/srcs/CarControll.cpp:31 | `sscanf` stores at most four conversions. |
| Wire.Store | Rasp/srcs/CarControll.cpp:31 | A conversion stores into its own variable and into no other. |
| Wire.ScanFrom | Rasp/srcs/CarControll.cpp:31 | The directives from the k-th on: the count of stored conversions only grows from k and never exceeds four. |
| Wire.ScanFromAgrees | Rasp/srcs/CarControll.cpp:31 | How many conversions succeed does not depend on what the variables held, and the stored ones get the same values whatever the variables held. |
| Wire.ScanFromKeeps | Rasp/srcs/CarControll.cpp:31 | Every variable from the first failed conversion on keeps the value it held, and so does every variable before the k-th. |
| Wire.DecodeChain | Rasp/srcs/CarControll.cpp:31 | Four successful conversions in a row, each reading what the previous one left, decode to those four values. |
| Wire.NatToDecimal | Client/srcs/Client.cpp:73 | `std::to_string` of a non-negative int is a non-empty digit string without a leading zero, and its decimal value is the int. |
| Wire.DecodeEncode | Client/srcs/Client.cpp:73 | Round trip: decoding the client's message with the car's `"%d %d %d %d"` gives back the four ints in order. |
| Wire.DecodeEncodeTail | Rasp/srcs/CarControll.cpp:31 | The round trip still holds when text starting with a blank follows the message, because `sscanf` ignores everything after the fourth value. |
| Wire.EncodeShape | Client/srcs/Client.cpp:73 | The message has exactly three blanks, each a single separator. It neither starts nor ends with one, and it ends in a digit. |
| Wire.JoinedBlanks | Client/srcs/Client.cpp:73 | Four blank-free fields joined by single blanks contain exactly three blanks. |
| Wire.JoinedSeparators | Client/srcs/Client.cpp:73 | Four non-empty, blank-free fields joined by single blanks never contain two blanks in a row. |
| Wire.DecimalShape | Client/srcs/Client.cpp:73 | A rendered int has no white space. It starts with a digit or '-' and ends with a digit. |
| Wire.ScanIntOfDecimal | Rasp/srcs/CarControll.cpp:31 | One `%d` reads back exactly the value `std::to_string` wrote, with the rest of the input left unread after it. |
| Wire.ReceivedDecoded | Rasp/srcs/CarControll.cpp:30-31 | For a well-formed payload, all four conversions succeed and the variables hold the decoded command, whatever they held before. Otherwise every variable from the first failed conversion on, the paddle at least, keeps its indeterminate value. |
| Wire.TwoValuesOnly | Rasp/srcs/CarControll.cpp:31 | A payload with only two values stores two conversions. Brake and paddle keep their old values, and the payload does not decode. |
| Wire.NoDigitsNoCommand | Rasp/srcs/CarControll.cpp:31 | A payload with no digit decodes to nothing and stores nothing. |
| Wire.ReceivedAllAt | Rasp/srcs/CarControll.cpp:21-31 | The i-th command the loop parses is the i-th message's `sscanf` result. |
| Rrc.NextMode | Rasp/srcs/CarControll.cpp:46-52 | No contract. Paddle 1 gives DRIVE, paddle -1 gives REVERSE, and any other value keeps the mode; Rasp.cpp:154-160 is the same if/else-if. `Rrc.NextModeCases` states it as an iff. |
| Rrc.ModeAfter | Rasp/srcs/CarControll.cpp:21-52 | No contract. The mode after a run of paddle values, applied in order from the first. The `Rrc.ModeAfter*` lemmas state its meaning. |
| Rrc.RunWrites | Rasp/srcs/CarControll.cpp:21-66 | No contract. The writes of a run of commands: each command's writes from the mode the earlier commands left. `Rrc.RunSnoc` and `CarControl.RunWritesShape` state its meaning. |
| Rrc.NextModeCases | Rasp/srcs/CarControll.cpp:46-52 | The mode is DRIVE after a command exactly when the paddle is 1, or when the paddle is not -1 and the mode was DRIVE. Only 1 and -1 change the mode. |
| Rrc.NextModeIdempotent | Rasp/srcs/CarControll.cpp:46-52 | Applying the same paddle twice changes the mode at most once. |
| Rrc.ModeAfterNeutral | Rasp/srcs/CarControll.cpp:46-52 | Sticky mode: commands without paddle ±1 never move it. |
| Rrc.ModeAfterLastShift | Rasp/srcs/CarControll.cpp:46-52 | After a run of commands, the mode is the one selected by the last paddle ±1 in the run. |
| Rrc.PaddlesSnoc | Rasp/srcs/CarControll.cpp:46-52 | One more command adds its paddle at the end of the run's paddles. |
| Rrc.PaddlesTail | Rasp/srcs/CarControll.cpp:46-52 | The first paddle of a run is its first command's, and dropping that command drops the paddle. |
| Rrc.RunSnoc | Rasp/srcs/CarControll.cpp:21-66 | One more command extends a run's writes by that command's writes, made from the mode the run left. This holds for the writes of either car program. |
| Rrc.ModeAfterSnoc | Rasp/srcs/CarControll.cpp:21-52 | One more command moves the mode by that command's paddle. |
| CarControl.Map | Rasp/srcs/CarControll.cpp:4-6 | No contract. The body is `map`'s expression, with `TruncDiv` for C's `/`. `CarControl.MapAtInMin`, `MapAtInMax` and `MapMonotoneBounded` state its meaning. |
| CarControl.SteeringPwm | Rasp/srcs/CarControll.cpp:39 | No contract. `map(steering, 0, 1999, 500, 2500)`. `CarControl.PwmBounds` states its range. |
| CarControl.MotorPwm | Rasp/srcs/CarControll.cpp:41 | No contract. `map(accelerator, 0, 1999, 0, 1024)`. `CarControl.PwmBounds` states its range. |
| CarControl.BrakePwm | Rasp/srcs/CarControll.cpp:43 | No contract. `map(brake, 0, 1999, 0, 1024)`. `CarControl.PwmBounds` states its range. |
| CarControl.MotorOutput | Rasp/srcs/CarControll.cpp:58-66 | No contract. `brakePWM` when the brake is above zero, otherwise `motorPWM` in DRIVE and `1024 - motorPWM` in REVERSE. `CarControl.BrakePreempts`, `ThrottleByMode` and `MotorOutputBounded` state its meaning. |
| CarControl.CommandWrites | Rasp/srcs/CarControll.cpp:46-66 | No contract. The servo write, then the motor write chosen with the mode this command leaves. `CarControl.CommandWritesShape` states its meaning. |
| CarControl.TruncDiv | Rasp/srcs/CarControll.cpp:5 | C's `/` agrees with Euclidean division for a non-negative dividend and a positive divisor. |
| CarControl.TruncDivCancel | Rasp/srcs/CarControll.cpp:5 | Truncating division undoes multiplication by the divisor, for every sign of either operand. |
| CarControl.MapAtInMin | Rasp/srcs/CarControll.cpp:4-6 | `map(in_min, ...) == out_min`. |
| CarControl.MapAtInMax | Rasp/srcs/CarControll.cpp:4-6 | `map(in_max, ...) == out_max` whenever `in_max != in_min`. |
| CarControl.MapMonotoneBounded | Rasp/srcs/CarControll.cpp:4-6 | On the input range, with `out_min <= out_max`, `map` is non-decreasing and its result lies in `[out_min, out_max]`. |
| CarControl.SteeringBeyondRange | Rasp/srcs/CarControll.cpp:38-39 | Nothing clamps: steering 2000 gives 2501. |
| CarControl.PwmBounds | Rasp/srcs/CarControll.cpp:38-43 | For inputs in 0..1999, the servo pulse is in 500..2500, and the motor and brake pulses are in 0..1024. |
| CarControl.MotorOutputBounded | Rasp/srcs/CarControll.cpp:58-66 | In either mode, the motor write lies in 0..1024 for inputs in range. |
| CarControl.BrakePreempts | Rasp/srcs/CarControll.cpp:58-59 | A brake above 0 gives `brakePWM`, whatever the mode and the accelerator. |
| CarControl.ThrottleByMode | Rasp/srcs/CarControll.cpp:60-65 | With no brake, DRIVE writes `motorPWM` and REVERSE writes `1024 - motorPWM`, so the two always sum to 1024. |
| CarControl.FullThrottle | Rasp/srcs/CarControll.cpp:60-65 | Full accelerator gives 1024 in DRIVE and 0 in REVERSE. |
| CarControl.ReleasedPedals | Rasp/srcs/CarControll.cpp:60-65 | With both pedals released, DRIVE writes 0 and REVERSE writes 1024. There is no neutral. |
| CarControl.CommandWritesShape | Rasp/srcs/CarControll.cpp:46-66 | Each command writes the servo once and then the motor once. The mode update comes first, so the command's own paddle decides the motor branch. |
| CarControl.RepeatCommand | Rasp/srcs/CarControll.cpp:29-66 | The same command twice: the mode is unchanged after the first pass, and both passes make the same writes. |
| CarControl.RunWritesShape | Rasp/srcs/CarControll.cpp:21-66 | A run of n commands makes 2n writes, alternating servo and motor. |
| CarControl.EncodedMessageWrites | Rasp/srcs/CarControll.cpp:29-66 | A message the client built from a command makes the car act on exactly that command, whatever the uninitialised variables held. |
| CarControl.Examples | Rasp/srcs/CarControll.cpp:29-66 | The command 999 1999 0 1 in DRIVE writes 1499 then 1024. The command 999 0 1999 0 writes 1499 then 1024 in any mode. The command 999 0 0 -1 selects REVERSE and writes 1499 then 1024. |
| CarControl.Car.constructor | Rasp/include/rrc_rasp.hpp:21-22 | The car starts in DRIVE with nothing written. |
| CarControl.Car.HandleMessage | Rasp/srcs/CarControll.cpp:29-66 | One message: the command is the unchecked `sscanf` result. The mode becomes `NextMode(old mode, paddle)`. The log gains the servo write and then the motor write, chosen with the new mode. |
| CarControl.Car.Apply | Rasp/srcs/CarControll.cpp:45-66 | The mode switch, then the remapped servo write and the motor write, by priority: brake, then DRIVE, then inverted REVERSE. |
| CarControl.Car.HandleNext | Rasp/srcs/CarControll.cpp:29-66 | One pass of the loop: the i-th message's parse extends the commands handled so far, and the mode and the log move on to the run that includes it. |
| CarControl.Car.Serve | Rasp/srcs/CarControll.cpp:21-67 | The loop over one connection: it returns the parsed commands. The mode is the mode after their paddles, and the log gains the writes of the whole run, in order. |
| LegacyCar.MotorOutput | Rasp/srcs/Rasp.cpp:166-174 | No contract. 1000 when the brake is above zero, otherwise the raw accelerator in DRIVE and `2000 - accelerator` in REVERSE. `LegacyCar.BrakeFixed`, `ThrottleByMode` and `MotorOutputBounded` state its meaning. |
| LegacyCar.CommandWrites | Rasp/srcs/Rasp.cpp:153-174 | No contract. The raw steering to the servo, then the motor value chosen with the mode this command leaves. `LegacyCar.RepeatCommand` and `LegacyCar.MotorOutputBounded` state its meaning. |
| LegacyCar.LegacyCar.constructor | Rasp/srcs/Rasp.cpp:26-28 | It starts in DRIVE with `sock == -1`. |
| LegacyCar.LegacyCar.HandleMessage | Rasp/srcs/Rasp.cpp:150-174 | One message through the older handler. The mode update is the same. The writes are the raw steering, then the motor value. `sock` is untouched. |
| LegacyCar.LegacyCar.Apply | Rasp/srcs/Rasp.cpp:153-174 | The mode switch, then the raw servo write. The motor gets 1000 under brake, the accelerator in DRIVE and `2000 - accelerator` in REVERSE. |
| LegacyCar.LegacyCar.HandleNext | Rasp/srcs/Rasp.cpp:150-174 | One pass of the older loop: as in the newer handler, with `sock` and the closed descriptors untouched. |
| LegacyCar.LegacyCar.Serve | Rasp/srcs/Rasp.cpp:142-175 | The loop over one connection: the parsed commands, the final mode and all the writes, with `sock` untouched. |
| LegacyCar.LegacyCar.StopVideoStream | Rasp/srcs/Rasp.cpp:124-131 | A positive `sock` is closed and reset to -1. Any other value, 0 included, changes nothing. |
| LegacyCar.AfterStop | Rasp/srcs/Rasp.cpp:126-130 | After the call, `sock` is never positive. |
| LegacyCar.ClosedByStop | Rasp/srcs/Rasp.cpp:126-127 | At most one descriptor is closed, and only a positive `sock`. |
| LegacyCar.StopIdempotent | Rasp/srcs/Rasp.cpp:124-131 | A second `stopVideoStream` closes nothing and changes nothing. |
| LegacyCar.StopCases | Rasp/srcs/Rasp.cpp:126-130 | A positive descriptor is closed exactly once and replaced by -1. 0 and negative values are kept. |
| LegacyCar.BrakeFixed | Rasp/srcs/Rasp.cpp:166-167 | A brake above 0 writes exactly 1000, whatever the mode and the accelerator. |
| LegacyCar.ThrottleByMode | Rasp/srcs/Rasp.cpp:168-173 | With no brake, DRIVE writes the accelerator and REVERSE writes `2000 - accelerator`. |
| LegacyCar.MotorOutputBounded | Rasp/srcs/Rasp.cpp:163-173 | For accelerator 0..2000, the motor value is in 0..2000. The servo gets the raw steering. |
| LegacyCar.RepeatCommand | Rasp/srcs/Rasp.cpp:150-174 | The same command twice in the same mode gives the same writes, and the mode is unchanged after the first. |
| LegacyCar.Examples | Rasp/srcs/Rasp.cpp:150-174 | The unmapped values: the command 999 1999 0 1 writes 999 then 1999. Paddle -1 with released pedals writes 2000. A brake writes 1000. |
| Wire.ExampleMessages | Client/srcs/Client.cpp:73 | The client sends the commands of the examples as the texts "999 1999 0 1", "999 0 1999 0" and "999 0 0 -1". |
| Operator.FrameCommand | Client/srcs/Client.cpp:53-70 | No contract. The poll's three normalised axes and its paddle value, in wire order. |
| Operator.Message | Client/srcs/Client.cpp:64-73 | No contract. The text line 73 builds for a poll, `Encode` of its command. `Operator.MessageDecodes` states its meaning. |
| Operator.Messages | Client/srcs/Client.cpp:50-76 | The messages of a run of polls, in order. Its contract gives one message per poll; `Operator.RunClient` and `Operator.StreamRoundTrip` use it. |
| Operator.Commands | Client/srcs/Client.cpp:50-76 | The commands of a run of polls, in order. Its contract gives one command per poll; `Operator.StreamRoundTrip` states what the car parses from them. |
| Operator.Paddle | Client/srcs/Client.cpp:65-70 | The paddle is -1 exactly when button 4 is held. It is 1 exactly when button 5 is held and button 4 is not, and 0 when neither is held. |
| Operator.ReadPaddle | Client/srcs/Client.cpp:65-70 | The if-chain on the local `paddle` computes `Paddle`. |
| Operator.Poll | Client/srcs/Client.cpp:64-73 | One pass builds the message of its poll: the paddle if-chain, then the four values joined by blanks. |
| Operator.RunClient | Client/srcs/Client.cpp:43-84 | If setup or `connect` fails, nothing is sent. Otherwise each poll is sent, in order, as its message. |
| Operator.MessageDecodes | Client/srcs/Client.cpp:73 | Each message decodes to its poll's command and has exactly three separators. |
| Operator.StreamRoundTrip | Client/srcs/Client.cpp:49-76 | Whatever the car's variables held, the commands the car parses from the sent stream are the polls' commands. |
| Operator.PaddleSelectsMode | Client/srcs/Client.cpp:64-70 | The left paddle selects REVERSE even while the right one is held. The right one alone selects DRIVE. With neither, the mode stays. |
| WindowsClient.Passes | ClientWindows/srcs/Client.cpp:65-93 | The number of loop passes is at most the number of polls. |
| WindowsClient.RunWindowsClient | ClientWindows/srcs/Client.cpp:56-108 | `connected` is true exactly when setup and `connect` succeeded, and it never changes. The loop runs `Passes(frames)` passes. A message is sent in every pass exactly when `connected`. |
| WindowsClient.Pass | ClientWindows/srcs/Client.cpp:81-99 | A pass stops the loop exactly when button 9 is held. It sends its message exactly when connected, the stopping pass included. |
| WindowsClient.PassesStopAtOptions | ClientWindows/srcs/Client.cpp:90-93 | No earlier poll had button 9 held. The last pass either saw button 9 or was the last poll. |
| WindowsClient.FirstOptionsPressIsLastPass | ClientWindows/srcs/Client.cpp:90-93 | A first press of button 9 in poll k makes pass k the last one. |
| SteeringSweep.Cycle | Rasp/tests/SteeringSweep.cpp:49-57 | No contract. The 163 positions one pass of the three `for` loops writes when the flag stays set. `SteeringSweep.CycleIsThreeRamps` states its shape. |
| SteeringSweep.Cycles | Rasp/tests/SteeringSweep.cpp:48-58 | `c` complete passes of the `while` body, one after the other. Its contract gives the length, `163 * c`. |
| SteeringSweep.Sweep | Rasp/tests/SteeringSweep.cpp:48-58 | No contract. The closed form of what the `while` loop writes after `loads` true flag loads: complete cycles, then a prefix of one more. `SteeringSweep.SweepWhile` ties the loop to it. |
| SteeringSweep.CyclePos | Rasp/tests/SteeringSweep.cpp:49-57 | Every cycle position lies in [500, 2500]. |
| SteeringSweep.SweepCycle | Rasp/tests/SteeringSweep.cpp:49-57 | The three `for` loops write the whole cycle when enough loads return true. Otherwise they write its prefix up to the first false load, and every later load is false too. |
| SteeringSweep.SweepWhile | Rasp/tests/SteeringSweep.cpp:48-58 | The `while` loop writes `Sweep(trueLoads)`. |
| SteeringSweep.RunSweep | Rasp/tests/SteeringSweep.cpp:45-61 | The writes are the centre, the sweep, and the centre again. Every write is in [500, 2500]. Until the final centring write, each write differs from the previous one by 0 or 25. |
| SteeringSweep.SweepAt | Rasp/tests/SteeringSweep.cpp:48-58 | After c complete cycles and one more true `while` test, a true loads write the first a positions of the cycle. |
| SteeringSweep.Ramp | Rasp/tests/SteeringSweep.cpp:49-57 | A ramp starts at its start, and each position differs from the previous one by the step. |
| SteeringSweep.CycleIsThreeRamps | Rasp/tests/SteeringSweep.cpp:49-57 | A cycle goes 1500 to 2500 ascending, 2500 to 500 descending and 500 to 1500 ascending, in steps of 25. |
| SteeringSweep.CyclesInRange | Rasp/tests/SteeringSweep.cpp:38-57 | Complete cycles stay between SERVO_LEFT and SERVO_RIGHT. |
| SteeringSweep.SweepInRange | Rasp/tests/SteeringSweep.cpp:38-60 | Every position written lies in [500, 2500]. |
| SteeringSweep.CyclesSteady | Rasp/tests/SteeringSweep.cpp:45-57 | Over complete cycles, each write differs from the previous by 0 or 25, and the run ends back at the centre. |
| SteeringSweep.SweepSteady | Rasp/tests/SteeringSweep.cpp:41-57 | Successive writes differ by 0 or 25, from the first centring write to the last sweep position. |
| SteeringSweep.WhileTestLoad | Rasp/tests/SteeringSweep.cpp:48 | A true `while` test after complete cycles writes no position. |
| SteeringSweep.CycleLoad | Rasp/tests/SteeringSweep.cpp:49-57 | The r-th true load inside a cycle writes the cycle's r-th position and nothing else. |
| SteeringSweep.SweepStep | Rasp/tests/SteeringSweep.cpp:48-57 | Each true load adds at most one position, and none when it was the `while` test. After the first false load, nothing more is swept. |

## Left out

- Sockets, `read`/`send`, `accept` and the detached client and stream threads (Rasp/srcs/Main.cpp). These are I/O and concurrency. Each TCP read is modelled as exactly one complete message.
- TCP framing and the read buffer. The buffer is neither cleared nor NUL-terminated between reads, so a message shorter than the previous one is parsed together with the older bytes left behind it. Those bytes can even extend the paddle field. The model treats each message as the whole buffer.
- C `int` width. `sscanf` overflow is undefined behaviour, and `map`'s product could overflow for huge inputs. The model uses unbounded integers, which agree with the code on the 0..1999 input range.
- The `sscanf` EOF return value, which is never read. An empty payload stores nothing either way.
- The SDL axis normalisation `(v + 32767) / 32.767`, which is floating point. Polls carry the normalised ints as given.
- `SDL_Delay`, `delay` and the PWM mode, range and clock setup (`setupGPIO`, `configurePWM`). These are hardware and timing. The write log records only pin and value.
- `startVideoStream` in both builds: libcamera, OpenCV, UDP `sendto`, and `system("rpicam-vid ...")`. These are foreign calls. The current `stopVideoStream` (Rasp/srcs/Cam.cpp) is empty. The older one is modelled without its mutex and console output.
- `signalHandler`/`exit` and the signal handler behind `keepRunning`. These are asynchronous. `keepRunning` is an oracle whose first `trueLoads` loads return true.
- CarControl.Car.Serve and LegacyCar.LegacyCar.Serve stop when the message sequence ends (the `read` that returns 0 or less). The current build's call to `stopVideoStream` at that point is a no-op, and `close(client_socket)` is not recorded.
- Operator.RunClient models the first passes of a loop that never ends, one per poll given.
- WindowsClient.RunWindowsClient also stops when the given polls run out. The program keeps polling until button 9 is pressed, so a run with no press of button 9 is modelled only up to its last given poll.
- SteeringSweep.RunSweep models runs in which the flag is cleared after some finite number of true loads. A run in which no signal ever arrives, where the program sweeps forever, is not expressible.
- Console output (`std::cout`/`std::cerr`), which has no effect on the state.
