# Verified model of the antenna controller

The repository steers a satellite antenna: a host computer schedules passes, turns target files into
antenna frames and sends them over a serial link to a microcontroller, which loads them, waits for
the start date given by its clock and plays them to the antenna, one frame per second, while an
emergency button may interrupt at any time.  This project models that chain in Dafny and proves what
it is for.

## What is modelled

| file | part of the system |
|---|---|
| `Bytes`, `Gf2`, `Binary`, `PowersOfX` | bytes, polynomials over GF(2), long division by the generator, the order of x |
| `Crc`, `ErrorDetection` | the table-driven checksum against long division, and what it detects |
| `Messages`, `Receiver`, `SerialLink` | framing, the incremental decoder over a reader with short reads, the link as a whole |
| `Protocol` | the microcontroller as a transition system: receiver, transmitter, button, order FIFO, trajectory |
| `Trajectory`, `Board` | the same microcontroller as objects updated in place, proved to take the same steps |
| `Invariants`, `Timing` | what every run keeps; the waiting and tracking phases over time |
| `Pointing`, `AntennaFrames` | encoder positions for azimuth and elevation, and the antenna frame |
| `TimeChain` | dates and times from GPS sentence to host log |
| `Targeting`, `HostSide` | the host side of a pass: file, table of frames, script, emitter |
| `Upload`, `EndToEnd` | the script arriving at the microcontroller, and whole passes up to the antenna |
| `Interruptions` | passes with emergencies in between |
| `Reports` | the logs: what is reported when, and that it reaches the host |
| `Threads` | the receiving thread with its decoder, the transmitter and the button at work together; a target file played from its lines to the antenna |
| `Scheduler` | times of target files, which pass is next, collisions, pre-emption |

Threads have equal priority and no time slices, so one handled message and one turn of the
transmitter are one atomic step each.  The only place where the transmitter blocks inside its loop
is the ten-second sleep of the emergency behaviour; there the turn is split in two steps.

The specification functions of `Protocol` are total.  What the code relies on without checking is the
predicate `Safe`: pool objects are left when one is taken, and the rows of the trajectory table are
only touched inside the table.  The methods of `Board` require it, and `EndToEnd.HostIsSafe` proves
that a host which sends at least two points never leaves it, whatever the clock does.  `Board` has one
method per function of the code, each proved to take the step of the transition system with the same
name; the table below lists those of whole threads.

What turned out to be less than one might expect, with the exact condition where there is one:

- The table of `trajInit` is cleared by a byte count of 1200, which is the first hundred points only
  (`Trajectory/Trajectory.h:29`).
- Two inverted bits escape the checksum exactly when their distance is a multiple of 217; no frame of
  this link is that long.  Of the bursts of nine bits one pattern escapes, the generator, and it does
  so at every position; no burst of eight does.
- A pass whose start date is met and that goes on for longer than the table stays inside the table
  exactly if it has at least two points (`EndToEnd.LongPassSafeIff`).  What fails are scripts of length
  0 or 1, which the microcontroller does not refuse.  Of the host's code, `targetingFromFile` sends
  such a script if it is called for a file without targets (`CodesPC/Targeting.c:89`): the antenna gets
  the preamble and twelve zero bytes, and then row after row until the transmitter leaves the table
  (`EndToEnd.FileToAntenna`).  The scheduler never calls it like that (`CodesPC/Automate/Automate.c:240`):
  such a file begins at 0 (`:146`), and a pass is chosen only ahead of its beginning (`:134`, `:205`).
  So what the scheduler starts is safe (`EndToEnd.ChosenIsSafe`).
- The pool of orders is large enough for a pass and sixteen presses of the button, whenever they come
  (`Interruptions.InterruptedIsSafe`); with seventeen there is a run that exhausts it
  (`Interruptions.OnePressTooMany`).
- The encoder angles point where azimuth and elevation say exactly if the test for "behind the antenna"
  takes the sign of the cosine (`Pointing.PointsThere`): for corrected azimuths from -90 to 450 degrees
  it does, beyond them it fails, at 500 degrees for example (`Pointing.PointsAway`).
- Of what the microcontroller writes to its log only the echo of a date order can lose bytes on the
  link, those behind the date (`Reports.EveryLogReported`).
- The four-point collision test is right about a pass and every proper other one exactly when the pass
  itself begins no later than it ends (`Scheduler.CollisionRightIffProper`).

## Model

| member | source | states |
|---|---|---|
| `Gf2.DivisionTheorem` | Messages/messages.c:12-37 | the reference: the remainder is the one polynomial of degree below 8 that differs from the dividend by a multiple of the generator, both directions |
| `Crc.DivideBit` | Messages/messages.c:22-33 | one round of the inner loop of crcInit multiplies by x modulo the generator |
| `Crc.CrcEngine.CrcInit` | Messages/messages.c:14-37 | entry d of the table is d(x) x^8 modulo the generator, for all 256 |
| `Crc.ChecksumSnoc` | Messages/messages.c:44-48 | one look-up takes the remainder of a message to that of the message with one more byte |
| `Crc.CrcEngine.ComputeCrc` | Messages/messages.c:39-51 | the fast checksum of any message of any length is the remainder of M(x) x^8 |
| `ErrorDetection.TableIsPermutation` | Messages/messages.c:13-37 | every byte occurs in the table, and only once |
| `ErrorDetection.ChecksumLinear` | Messages/messages.c:39-51 | the checksum of the exclusive or of two messages of equal length is that of the checksums |
| `ErrorDetection.AcceptedIffDivisible` | Messages/messages.c:132-136 | payload and checksum pass the receiver's test exactly when the generator divides them as one polynomial |
| `ErrorDetection.ErrorPasses` | Messages/messages.c:132-136 | a damaged word passes exactly when the generator divides the damage |
| `ErrorDetection.BurstDetected` | Messages/messages.c:132-136 | damage confined to eight consecutive bits passes only if there is none, at any position and for any length |
| `ErrorDetection.NineBitBurst` | Messages/messages.c:132-136 | of the bursts of nine bits, at any position and for any length, exactly the one that is the generator passes |
| `ErrorDetection.GeneratorBurstPasses` | Messages/messages.c:132-136 | every codeword has such an undetected burst at every position |
| `PowersOfX.OrderOfX` | Messages/messages.h:14 | 217 is the order of x modulo the generator: x^217 is 1 and no smaller power is |
| `PowersOfX.ReturnsToOne` | Messages/messages.h:14 | x^d is 1 exactly for multiples of 217 |
| `ErrorDetection.TwoBitErrors` | Messages/messages.c:132-136 | two inverted bits pass exactly when their distance is a multiple of 217 |
| `Messages.GetPayloadLength` | Messages/messages.c:53-88 | the length for every identifier, never above 20 |
| `Messages.EncodePayload` | Messages/messages.c:90-101 | header, length, payload and checksum are written, and nothing behind them |
| `Messages.WriteMessage` | Messages/messages.c:103-109 | the port gets the frame of as many bytes as the kind of message has |
| `Receiver.Reader.Read` | Messages/messages.h:143 | a read delivers between no byte and the number requested, in stream order |
| `Receiver.Poll` | Messages/messages.c:121-129 | the waiting loops collect the next bytes of the stream, whatever the reads deliver |
| `Receiver.Unpack` | Messages/messages.c:130-138 | the payload is copied and padded with zeros, the status tells whether the checksum fits |
| `Receiver.ReadMessage` | Messages/messages.c:111-139 | one call answers as the pure parser of the stream does: one byte dropped without header, min(len, 20) + 3 bytes consumed with one |
| `Receiver.OverlongFrame` | Messages/messages.c:123-138 | after a length byte above 20 the frame has 23 bytes and the message is the twenty between |
| `SerialLink.ReceiveAll` | PC_interface/PcSerialThreads.c:57-65 | repeated calls give the non-negative results of one pass over the bytes, independent of how reads are cut up |
| `SerialLink.SkipNoise` | Messages/messages.c:118-119 | bytes that are no header change nothing in what follows |
| `SerialLink.ParseFrame` | Messages/messages.c:111-139 | an encoded frame is parsed to its payload and parsing goes on behind it |
| `SerialLink.LineDecodes` | Messages/messages.c:90-139 | frames among noise without header decode to exactly the payloads sent, in order |
| `SerialLink.TwoBitErrorReported` | Messages/messages.c:132-137 | any two inverted bits in payload and checksum of any frame are reported as checksum error, and the next frame is unharmed |
| `SerialLink.BurstReported` | Messages/messages.c:132-137 | so is any damage within eight consecutive bits |
| `SerialLink.WireRoundTrip` | Messages/messages.c:103-139 | every message written is received once, in order, cut to the length of its kind and padded with zeros |
| `Protocol.StrnEqualExact` | Antenna_interface/AntennaFunctions.c:13-15 | the string comparison with a frame is equality of all twelve bytes |
| `Trajectories.Trajectory.Init` | Trajectory/Trajectory.h:24-30 | no length, no position, the given date, and the first 1200 bytes of the table cleared |
| `Trajectories.Trajectory.SetLength` | Trajectory/Trajectory.h:32-35 | the new length, and adding starts at row 0 |
| `Trajectories.Trajectory.AddPoint` | Trajectory/Trajectory.h:37-41 | the point is in the current row, all other rows are unchanged, the position advances |
| `Trajectories.Trajectory.CheckCorrectLength` | Trajectory/Trajectory.h:43-45 | true exactly when the position is the length |
| `Trajectories.Trajectory.GetNextTarget` | Trajectory/Trajectory.h:55-60 | the current row is copied out and only the position changes |
| `Trajectories.Trajectory.PrepareTargeting` | Trajectory/Trajectory.h:62-65 | row 0 is copied out and the position is 1 |
| `Boards.Board.constructor` | main.c:64-91 | the threads start with an empty FIFO, a reset trajectory and a nominal transmitter |
| `Boards.Board.WriteEmergencyToOrder` | Messages/messages.c:169-178 | a survival order goes in front of the FIFO |
| `Boards.Board.ReceiverTurn` | PC_interface/PcSerialThreads.c:57-71 | what the receiving thread does with each decoder result is a step of the transition system: routing, rewriting, queueing at the back or, for emergencies, in front |
| `Boards.Board.ConvertDate` | Messages/messages.c:180-190 | the date denoted by seven argument bytes, the last four little-endian |
| `Boards.Board.FinishEmergency` | Antenna_interface/AntennaFunctions.c:110-117 | after the sleep the exit is logged and the state is nominal |
| `Boards.Board.TransmitterTurn` | Antenna_interface/AntennaThreads.c:36-87 | one turn of the transmitter's loop, with the behaviours of all states, is one tick of the transition system |
| `Boards.Board.Execute` | Antenna_interface/AntennaThreads.c:36-87 | any interleaving of turns takes the objects to the state the transition system reaches, so every theorem about runs holds of them |
| `Threads.Microcontroller.Decode` | PC_interface/PcSerialThreads.c:57-65 | one call of the decoder by its thread takes at most one message off what the bytes hold, and as long as bytes are left it uses up a read or a byte |
| `Threads.Microcontroller.TakeTurn` | PC_interface/PcSerialThreads.c:57-71 | a turn of any thread is one step of the transition system; a turn of the receiver steps with what its decoder handed over and gets on with the stream, a turn of another thread leaves the stream alone |
| `Threads.Microcontroller.Work` | PC_interface/PcSerialThreads.c:57-71 | turns in any order are a run of the transition system whose receptions are those of one pass over the bytes, however the reads cut them up; once the receiver has had as many turns as there are reads and bytes, it has received everything |
| `Invariants.OrderIsPlain` | PC_interface/PcSerialFunctions.c:71-111 | what is queued at the back is an antenna, goto or date order that the emergency test rejects |
| `Invariants.OrdersConserved` | PC_interface/PcSerialFunctions.c:106-111 | in every run accepted orders equal queued plus dequeued ones, other orders than emergencies leave in order of arrival, and the FIFO is a block of emergencies followed by plain orders |
| `Invariants.AnyEmergencyIsFirst` | Messages/messages.c:169-178 | an emergency anywhere in such a FIFO means one at its head |
| `Invariants.EveryOrderSettled` | Antenna_interface/AntennaThreads.c:45-85 | in every run the k-th order taken has the k-th fate, of the kind its identifier allows, and the emergency state is never seen at the head of the loop |
| `Invariants.OneOrderAtATime` | Antenna_interface/AntennaThreads.c:50-73 | at no time of a run is more than one order taken without its fate |
| `Invariants.NoTrajectoryAfterEmergency` | Antenna_interface/AntennaThreads.c:62-85 | in every run, between an emergency frame and a later trajectory frame a date order was dequeued |
| `Invariants.TickFrames` | Antenna_interface/AntennaThreads.c:36-87 | the frames of a tick are that of the order taken and that of the state it leads to |
| `Invariants.OneFramePerTick` | Antenna_interface/AntennaThreads.c:36-87 | a tick sends at most one frame |
| `Invariants.EmergencyTick` | Antenna_interface/AntennaThreads.c:62-84 | in every run, with an emergency anywhere in the FIFO, the next tick sends the survival frame and nothing else and goes to sleep |
| `Invariants.PostedEmergencyIsNext` | main.c:97-107 | in any state, a posted emergency is answered by the very next tick, whatever arrives in between |
| `Timing.StillWaiting` | Antenna_interface/AntennaFunctions.c:54-83 | while the clock is early nothing is sent and the trajectory is untouched, whatever calm messages arrive |
| `Timing.WaitingDecided` | Antenna_interface/AntennaFunctions.c:64-76 | the first reading that is not early starts tracking if it is not past the target and drops the trajectory if it is, and the log says which |
| `Timing.WaitingLog` | Antenna_interface/AntennaFunctions.c:64-81 | every tick of waiting reports what it decided: still waiting, begun, or dropped |
| `Timing.FirstInTime` | Antenna_interface/AntennaThreads.h:16 | with one to five seconds per tick the first reading that is not early is in time, and it comes within as many ticks as seconds are left |
| `Timing.WaitingPhase` | Antenna_interface/AntennaFunctions.c:54-83 | so waiting ends in tracking, never in dropping, at the first tick with at most four seconds left |
| `Timing.TrackingTick` | Antenna_interface/AntennaFunctions.c:85-101 | one tick of tracking sends the current point, and ends the phase exactly at the last one |
| `Timing.TrackingLog` | Antenna_interface/AntennaFunctions.c:93-96 | the tick that sends the last point reports the end, no other does |
| `Timing.TrackingPhase` | Antenna_interface/AntennaFunctions.c:85-101 | after k ticks exactly the k next points were sent, in order, and the phase is over exactly after the last point of a proper length |
| `Timing.TrackingEndsIff` | Trajectory/Trajectory.h:43-45 | tracking ends inside the table exactly for lengths from 2 to 1200; otherwise the table is left |
| `Pointing.EncoderXY` | TrameAntennaConstructor/TrameAntennaConstructor.c:24-54 | the encoder values are within their limits, for any functions in place of sine and cosine |
| `Pointing.EncoderXYSteps` | TrameAntennaConstructor/TrameAntennaConstructor.c:28-53 | for every elevation between 10 and 90 degrees the values are the angles of the mount at 6000/17 and 20000/51 steps a degree, without fraction, with Y turned round behind the antenna: the limits never replace them by zeros, and nothing overflows |
| `Pointing.EncoderXYForbidden` | TrameAntennaConstructor/TrameAntennaConstructor.c:29-30 | at any other elevation both are zero |
| `Pointing.PointsThere` | TrameAntennaConstructor/TrameAntennaConstructor.c:34-44 | the angles of the mount point in the direction of azimuth and elevation, all three components, exactly if the sign of Y is taken as that of the cosine of the azimuth |
| `Pointing.PointsAllRound` | TrameAntennaConstructor/TrameAntennaConstructor.c:34-44 | they do for every corrected azimuth from -90 to 450 degrees |
| `Pointing.EncoderAims` | TrameAntennaConstructor/TrameAntennaConstructor.c:24-54 | so the encoder values are the steps of two angles at which the mount points to azimuth and elevation |
| `Pointing.PointsAway` | TrameAntennaConstructor/TrameAntennaConstructor.c:43-44 | beyond 450 degrees they do not where the cosine is negative |
| `AntennaFrames.PrintHex` | TrameAntennaConstructor/TrameAntennaConstructor.c:69-76 | four hexadecimal digits and a terminator overwrite five bytes and no more |
| `AntennaFrames.ComputeAntennaMessage` | TrameAntennaConstructor/TrameAntennaConstructor.c:56-79 | the buffer holds the frame of power, mode and encoder values; the terminators are gone |
| `AntennaFrames.DecodeFrame` | TrameAntennaConstructor/TrameAntennaConstructor.c:56-79 | decoding the twelve bytes gives back power, mode, X and Y |
| `AntennaFrames.EncodeDecoded` | TrameAntennaConstructor/TrameAntennaConstructor.c:56-79 | every frame that can be decoded is the encoding of what it decodes to |
| `AntennaFrames.FrameInjective` | TrameAntennaConstructor/TrameAntennaConstructor.c:56-79 | different commands have different frames |
| `AntennaFrames.OnlySurvieIsSurvie` | TrameAntennaConstructor/TrameAntennaConstructor.h:22 | the survival frame is the encoding of power 8, survival mode, 0, 0 and of nothing else |
| `AntennaFrames.PreparingFrames` | TrameAntennaConstructor/TrameAntennaConstructor.h:23-25 | the frames of the three preparing orders encode off, on in stand-by, and calibration |
| `AntennaFrames.OrderCommands` | PC_interface/PcSerialFunctions.c:75-86 | what is queued for each of the three orders decodes to the command of that order |
| `AntennaFrames.EmergencyIsSurvival` | Antenna_interface/AntennaFunctions.c:10-20 | the emergency test accepts the survival order and the antenna orders whose frame commands survival, and nothing else |
| `AntennaFrames.HexDigitIs` | TrameAntennaConstructor/TrameAntennaConstructor.c:71 | digits from 0 to F |
| `AntennaFrames.FrameHasNoTerminator` | CodesPC/Targeting.c:80 | a frame contains no zero byte, so string functions copy it whole |
| `TimeChain.GpsMillis` | GpsTimeHandler/GpsTimeHandler.c:56-74 | the milliseconds are those of the digits and fit in 32 bits |
| `TimeChain.MillisInFactors` | GpsTimeHandler/GpsTimeHandler.c:73 | an hour has 3600000 milliseconds, a minute 60000 and a second 1000 |
| `TimeChain.SentenceSays` | GpsTimeHandler/GpsTimeHandler.c:56-93 | the fields hhmmss.sss,dd,mm,yyyy written for a date and a time are read as that date and that time |
| `TimeChain.ReadSentence` | GpsTimeHandler/GpsTimeHandler.c:76-97 | the clock is set to the date and time of the sentence |
| `TimeChain.SplitMillis` | Messages/messages.c:148-149 | the four bytes denote the number in little-endian order |
| `TimeChain.Stamp` | Messages/messages.c:144-154 | the seven date bytes of a log message denote the clock's instant |
| `TimeChain.JoinMillis` | CodesPC/ComServer/ReaderLoger.c:44-45 | four bytes are joined to the number they denote |
| `TimeChain.PrintTime` | CodesPC/ComServer/ReaderLoger.c:16-29 | the parts printed are in range and add up to the milliseconds |
| `TimeChain.PrintStamp` | CodesPC/ComServer/ReaderLoger.c:44-49 | date and time are those of the seven bytes |
| `TimeChain.MillisInjective` | CodesPC/ComServer/ReaderLoger.c:16-29 | only one time of day has these milliseconds |
| `TimeChain.TimeRoundTrip` | GpsTimeHandler/GpsTimeHandler.c:56-97 | date and time printed by the host are those of the GPS sentence |
| `Targeting.ReadDate` | CodesPC/Targeting.c:10-19 | the seven bytes are read by the microcontroller as the instant of the scanned numbers, cut to the bytes that hold them |
| `Targeting.InstantSaysTime` | CodesPC/Targeting.c:16-18 | the milliseconds of a proper date are those of its hour, minute and second, and of no other time of day |
| `Targeting.InstantOfSentence` | CodesPC/Targeting.c:10-19 | the instant of a proper date is what the clock is set to by a GPS sentence of the same date and time |
| `Targeting.DateOfStamp` | Messages/messages.c:180-190 | date orders and stamps of logs have the same layout |
| `Targeting.EntryIsLoaded` | CodesPC/Targeting.c:36-51 | every line that is no comment is one target, in the order of the lines |
| `Targeting.RowCommands` | CodesPC/Targeting.c:21-51 | each row of the table decodes to power 8, mode 6 for the first and 2 for all others, and the encoder values of azimuth and elevation of its target |
| `Targeting.RowAims` | CodesPC/Targeting.c:21-51 | each row of the table of a file points to the azimuth and the elevation of its line, for every allowed elevation |
| `Targeting.AddPointFromLine` | CodesPC/Targeting.c:21-27 | one row of the table becomes the frame of the line, the others are unchanged |
| `Targeting.LoadLine` | CodesPC/Targeting.c:36-51 | a comment changes nothing, the first target fills two rows and sets the date, a further one fills one row |
| `Targeting.LoadTargetFile` | CodesPC/Targeting.c:29-55 | k targets give k + 1 rows, the first in position mode and the rest in tracking mode, and the date of the first; without targets the date is unchanged |
| `Targeting.LengthSurvives` | CodesPC/Targeting.c:74-75 | the two length bytes give back every length the table can hold |
| `Targeting.StrnCopyExact` | CodesPC/Targeting.c:80 | the copy of a frame without terminator is exact |
| `Targeting.Pipe.WriteMessageToPipe` | CodesPC/PcParameters.h:29-33 | one message is appended to those for the emitter |
| `Targeting.ExecuteTargeting` | CodesPC/Targeting.c:57-87 | the messages sent are the three preparing orders, reset, length, all points in order, and the date |
| `Targeting.TargetingFromFile` | CodesPC/Targeting.c:89-102 | a file's table is sent as a script that starts at the instant of its first target |
| `HostSide.WriteSerialMessage` | CodesPC/ComServer/ServerEmitter.c:10-20 | the port gets the frame of the message in the buffer |
| `HostSide.Emit` | CodesPC/ComServer/ServerEmitter.c:37-51 | the port gets the frames of all messages of the pipe, in order |
| `HostSide.SendFile` | CodesPC/Targeting.c:89-102 | from the lines of a file to the serial port: an upload of the frames of its targets |
| `Uploads.ArrivesCut` | Messages/messages.c:53-139 | over the link a message keeps its identifier and the argument bytes of its kind, and the rest becomes zero |
| `Uploads.OrderSurvivesLink` | PC_interface/PcSerialFunctions.c:37-66 | for every order the microcontroller does with what arrives what it would do with what was sent, and a date order keeps its date |
| `Uploads.PointAdded` | Trajectory/Trajectory.h:37-41 | a point lands in the next row and leaves those before it alone |
| `Uploads.ResetRow` | Trajectory/Trajectory.h:24-30 | a reset clears the first hundred rows, leaves the others alone, and sets length, position, date and lock |
| `Uploads.TableIsStorable` | CodesPC/Targeting.c:36-54 | every file with at most 1199 targets gives points that fit and survive string copies, at least two unless there is no target |
| `Uploads.Loads` | PC_interface/PcSerialFunctions.c:37-112 | after j messages of the script, with any ticks and fruitless calls of the decoder in between, the first j - 5 points are in their rows and the preparing orders are sent or queued, in order; the FIFO never holds more than three of them |
| `Uploads.SilentRun` | PC_interface/PcSerialThreads.c:57-71 | calls of the decoder that hand over nothing change nothing |
| `Uploads.Drains` | Antenna_interface/AntennaThreads.c:45-73 | ticks send the queued preparing orders one by one, in order |
| `EndToEnd.Plays` | Antenna_interface/AntennaFunctions.c:54-101 | where every number of ticks leads from the start of waiting, for any first due tick, in time or late, and for any number of points the table can hold |
| `EndToEnd.PassDecided` | CodesPC/Targeting.c:57-87 | a whole pass under any interleaving, for any number of points the table can hold: past the date the antenna gets the preamble and the first row only; otherwise the preamble and every point, once and in order, with the trajectory reset, and with fewer than two points the transmitter is at the end of its table after 1200 ticks |
| `EndToEnd.LongPassSafeIff` | Trajectory/Trajectory.h:43-60 | a pass that goes on for longer than the table stays inside the table and the pools exactly if its due tick is late or it has at least two points |
| `EndToEnd.HostIsSafe` | CodesPC/Targeting.c:57-87 | a host that sends at least two points never makes the code leave what it relies on, at any moment of any run and whatever the clock does |
| `EndToEnd.ChosenIsSafe` | CodesPC/Automate/Automate.c:230-240 | the file of a pass chosen by the scheduler gives at least two points, so the host is of that kind |
| `EndToEnd.PassOfRun` | PC_interface/PcSerialThreads.c:57-71 | every run in which the script has arrived is such a pass |
| `EndToEnd.DueInTime` | Antenna_interface/AntennaFunctions.c:64-76 | the first due tick of a run with a steady clock is in time, if at some tick the date was not past and enough ticks follow |
| `EndToEnd.PassInTime` | CodesPC/Targeting.c:57-87 | with the start order taken before its date and a steady clock the pass is always complete |
| `EndToEnd.RunInTime` | CodesPC/Targeting.c:57-87 | if the script has arrived by the end of some part of a run and the clock is steady, then after ticks in time and in sufficient number the pass is complete, however the arriving and the ticks were interleaved |
| `EndToEnd.PassesInTime` | CodesPC/Targeting.c:57-87 | any number of such passes in a row gives exactly their frames, one pass after the other |
| `EndToEnd.PassesAreSafe` | CodesPC/Targeting.c:57-87 | in all these runs a pool object is left when one is taken and only rows inside the table are touched |
| `EndToEnd.FileToAntenna` | CodesPC/Targeting.c:29-102 | of a file with 1 to 1199 targets the antenna gets preamble, first position and all tracking frames if the tick due for the first target's date is not past it, and the first position only if it is; of a file without targets twelve zero bytes, and in time the transmitter leaves its table |
| `EndToEnd.PassOfFile` | CodesPC/Targeting.c:29-102 | every run in which the script of a file has arrived is a pass of that kind |
| `Threads.HostTurnsAreSafe` | PC_interface/PcSerialThreads.c:57-71 | with a host on the line that sends at least two points no order of turns leaves what the code relies on |
| `Threads.TurnsPlayUpload` | PC_interface/PcSerialThreads.c:57-71 | as many turns of the receiver as there are reads and bytes receive the whole script, and if they come first, turns in time complete the pass |
| `Threads.PlayUpload` | Antenna_interface/AntennaThreads.c:36-87 | the objects of an idle microcontroller, reading an upload in any pieces and with turns in any order, go through a safe run; with that many turns of the receiver all has arrived, once the pass is decided the antenna has the frames of its file, and with a steady clock in time it has the whole trajectory |
| `Threads.PlayFile` | CodesPC/Targeting.c:89-102 | the same from the lines of a target file, through table, script, pipe, emitter, serial line, decoder, FIFO, trajectory and clock to the frames that the antenna gets, as one run of the code's objects; the turns of the receiver that it takes are bounded by the number of reads and 23 bytes per message |
| `Interruptions.HostOnItsWay` | Antenna_interface/AntennaThreads.c:36-87 | at every moment of a run without emergencies the frames are a start of the preamble and the points; waiting and tracking begin after everything has arrived, with an empty FIFO |
| `Interruptions.RunCompared` | Antenna_interface/AntennaFunctions.c:103-117 | a pass with button presses is, in everything but emergencies, where the run without them is, until an emergency is answered while waiting or tracking: one that is answered before the start order is taken costs the pass nothing, and after one that is answered later only emergencies are |
| `Interruptions.InterruptedPass` | Antenna_interface/AntennaThreads.c:45-85 | however often a pass is interrupted, its frames other than survival frames are a start of the preamble and the points, in order |
| `Interruptions.InterruptedIsSafe` | Messages/messages.c:169-178 | with up to sixteen presses, at any time, a pass never makes the code leave what it relies on |
| `Interruptions.OnePressTooMany` | Messages/messages.c:169-178 | seventeen presses right after a script that arrived between two ticks exhaust the pool |
| `Reports.LogArrives` | Messages/messages.c:53-139 | a log arrives with identifier and stamp, and as it was written exactly if the argument bytes beyond its kind are zero |
| `Reports.EveryLogReported` | Messages/messages.c:156-167 | in every run every log that is written is of that kind, but for the echo of a date order |
| `Reports.LogReachesHost` | CodesPC/ComServer/ReaderLoger.c:65-69 | so in every run every other log reaches the host whole |
| `Reports.EchoTells` | CodesPC/ComServer/ReaderLoger.c:41 | the host gets identifier and arguments of an echoed order |
| `Reports.HandledAlike` | Messages/messages.c:60-86 | an order carries just the argument bytes its handler reads: two of a kind are handled alike exactly if these agree |
| `Reports.DatesAlike` | Messages/messages.c:80-81 | the same for date orders and their date |
| `Reports.BareLog` | Messages/messages.c:67-75 | a log that never has arguments takes eleven bytes |
| `Reports.DamageReported` | PC_interface/PcSerialThreads.c:61-64 | a message with two inverted bits changes nothing but the log, which reports it |
| `Reports.UnknownRefused` | PC_interface/PcSerialFunctions.c:10-112 | a message that is no order changes nothing but the log; the handler's status tells orders from other messages |
| `Reports.ReplyTellsComplete` | PC_interface/PcSerialFunctions.c:55-60 | asked during an upload, the microcontroller replies 1 exactly if all points have arrived |
| `Reports.EmergencyReport` | Antenna_interface/AntennaFunctions.c:103-117 | all that an emergency leaves in the trace: dequeued, echo, alert, survival frame, end |
| `Reports.MissedPulsesReported` | Antenna_interface/AntennaThreads.c:39-43 | in every run there are as many alerts as missed pulses |
| `Scheduler.CollisionMeansNear` | CodesPC/Automate/Automate.c:184-197 | for passes that begin before they end, the test of four end points holds exactly when two instants of them are less than the preparation time apart, and exactly when each begins before the other's end plus that time |
| `Scheduler.CollisionRightIffProper` | CodesPC/Automate/Automate.c:184-197 | the test agrees with nearness for a pass and every proper other pass exactly if the pass begins no later than it ends |
| `Scheduler.ExtractTimeFromFile` | CodesPC/Automate/Automate.c:144-168 | beginning and end of a pass from the lines of its file: the end is the time of the last target |
| `Scheduler.BeginningIsFirst` | CodesPC/Automate/Automate.c:146-164 | the beginning is the time of the first target whose time is not 0, and 0 if there is none |
| `Scheduler.BeginsWithFirstLine` | CodesPC/Automate/Automate.c:157-162 | a loaded pass begins with the first line of its file that is no comment, if the time of that is not 0 |
| `Scheduler.EndsWithLastLine` | CodesPC/Automate/Automate.c:163-167 | it ends with the last one |
| `Scheduler.EveryFileLoaded` | CodesPC/Automate/Automate.c:57-142 | every file of every mission is loaded, in order, at the level of its mission |
| `Scheduler.LoadedTotal` | CodesPC/Automate/Automate.c:57-142 | and nothing else is |
| `Scheduler.LoadTargetsFromFile` | CodesPC/Automate/Automate.c:120-142 | one more target is stored with the times of its file, and the choice of the next one stays right |
| `Scheduler.LoadTargetsFromDir` | CodesPC/Automate/Automate.c:99-118 | all targets of a mission are stored in directory order (`EveryFileLoaded` says where) and the choice stays right |
| `Scheduler.UpdateTargetsTime` | CodesPC/Automate/Automate.c:57-67 | all targets are stored in mission order; next is -1 exactly if none is due, otherwise the due target that begins first, the first loaded of several |
| `Scheduler.TieGoesToPriority` | CodesPC/Automate/Automate.c:63-66 | a tie goes to the mission of highest priority |
| `Scheduler.CheckForNextTargeting` | CodesPC/Automate/Automate.c:199-220 | the recursion ends and follows a chain of first challengers, each more important than and colliding with the one before; its end has no challenger, or begins too late and the result is -1 |
| `Scheduler.KeptIffOnItsOwn` | CodesPC/Automate/Automate.c:199-220 | the first choice is kept exactly if every more important proper pass that begins after the clock reading keeps the preparation time to it, and then nothing was displaced on the way |
| `Scheduler.ChainIsNear` | CodesPC/Automate/Automate.c:203-213 | every pass of the chain comes within the preparation time of the one it displaces, is more important and has not begun |
| `Scheduler.ChainUnique` | CodesPC/Automate/Automate.c:199-220 | targets and clock readings determine the chain and the result |
| `Scheduler.LevelsFall` | CodesPC/Automate/Automate.c:203-213 | the level falls along the chain, which bounds the recursion |
| `Scheduler.ChosenAtOneInstant` | CodesPC/Automate/Automate.c:199-220 | with one clock reading the target chosen is due, and no more important target that has not begun collides with it |
| `Scheduler.MostImportantDisplaces` | CodesPC/Automate/Automate.c:202-213 | the challenger found is one of the most important |
| `Scheduler.ChosenLeavesRoom` | CodesPC/Automate/Automate.c:199-220 | every more important proper pass that begins after the last clock reading begins at least the preparation time after the end of the chosen one, so none is missed while that is carried out |
| `Scheduler.ChosenHasTargets` | CodesPC/Automate/Automate.c:133-134 | the file of the pass chosen is never one without targets |
| `Scheduler.ChooseTarget` | CodesPC/Automate/Automate.c:226-232 | loading, selection and pre-emption together: the first choice, the chain from it to the decision, the room the decision leaves, and targets in its file |

## Left out

- The real-time kernel, drivers, pins, LEDs and configuration headers: the order FIFO is a sequence, serial writes and log messages are entries of a trace, the clock is a reading per event.
- The length byte of a frame is outside the checksum; nothing is claimed about damage to header or length.
- Full pools: a handler that takes an object from an exhausted pool writes through a null pointer; `Safe` excludes it.  The pool of log messages is not modelled.
- Boards.Board.WriteLogTx: a log entry carries no time stamp; what a stamp contains is `TimeChain.Stamp`.
- Receiver.ReadMessage: a reader that has no more data makes the code poll for ever; the model ends with the outcome `Polling`.
- Pointing.EncoderXY: sine, cosine and their inverses are parameters over the reals; `Trigonometry.Proper` lists what is used of them.  The rounding of doubles is not modelled.
- Calendar conversion between dates and seconds is a parameter of every statement about clock readings.
- TimeChain.ReadSentence: the bit widths of the clock's fields belong to the driver and are not part of this model.
- Targeting.ReadDate: numbers whose milliseconds overflow an int32_t are excluded; the scans are those of a little-endian machine.
- Targeting.Pipe.WriteMessageToPipe: the writer puts 23 bytes into the named pipe where the reader takes 20, so its framing depends on timing; the pipe is a list of messages.
- Boards.Board.ConvertDate: the bit widths of the clock's fields belong to the driver and are not part of this model.
- Scheduler.UpdateTargetsTime: directories, file names, line formats and the rewriting of the Cortex configuration are not modelled; `mktime` is a parameter, a file stands for its path, and a file that cannot be opened, which ends the program, is left out.
- The twelve-byte argument fields are filled by a string copy that also writes a terminator behind them; that byte is not modelled.
- Emptying the FIFO on an emergency, locking a trajectory and the handling of GOTO are marked as open in the source and nothing is claimed about them.
- The thread that reads answers of the antenna, the serial settings of the host, its tools for single orders and all printing.
