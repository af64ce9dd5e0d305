/** The microcontroller as a transition system: the receiver of host messages, the one-hertz antenna
    transmitter and the emergency button, over a shared order FIFO and a shared trajectory.

    Threads have equal priority and no round-robin quantum, so a handler runs until it blocks:
    every handled message and every transmitter tick is one step.  The one place where the
    transmitter blocks in the middle of its loop is the ten-second sleep of the emergency
    behaviour, so an emergency tick ends asleep and an `EndOfSleep` step finishes it. */
module Protocol {
  import opened Bytes
  import opened Messages

  // ------------------------------------------------------------------------- messages

  const FIFO_BUFFER_SIZE := 20

  const ID_MSG_ORDER_SURVIE: byte := 0
  const ID_MSG_ORDER_DESACTIVATE: byte := 1
  const ID_MSG_ORDER_REINI: byte := 2
  const ID_MSG_ORDER_CALAGE: byte := 3
  const ID_MSG_ORDER_GOTO: byte := 4
  const ID_MSG_ORDER_ANTENNA: byte := 5
  const ID_MSG_ORDER_DO_TRAJ_AT_DATE: byte := 6
  const FIRST_ORDER_TRAJ_ID: byte := 30
  const ID_MSG_ORDER_TRAJ_SET_LENGTH: byte := 30
  const ID_MSG_ORDER_TRAJ_SET_NEW_POINT: byte := 31
  const ID_MSG_ORDER_TRAJ_REINI: byte := 32
  const ID_MSG_ORDER_TRAJ_CHECK_CORRECT: byte := 33
  const ID_MSG_ALERT_CRC_ERROR: byte := 50
  const ID_MSG_ALERT_BAD_MESSAGE_ID: byte := 52
  const ID_MSG_ALERT_NO_1PPS: byte := 53
  const ID_MSG_ALERT_MESSAGE_DROPPED: byte := 55
  const ID_MSG_ALERT_TRAJECTORY_DROPPED: byte := 56
  const ID_MSG_ALERT_ANTENNA_EMERGENCY: byte := 57
  const ID_MSG_LOG_TRAJ_RESPONSE_CORRECT: byte := 82
  const ID_MSG_LOG_TRAJ_BEGIN_TRAJECTORY: byte := 83
  const ID_MSG_LOG_TRAJ_WAITING_TRAJECTORY: byte := 84
  const ID_MSG_LOG_TRAJ_FINISH_TRAJECTORY: byte := 85
  const ID_MSG_LOG_EXIT_EMERGENCY: byte := 86

  /** The twelve bytes of the argument union; as `message_antenne` they are an antenna frame. */
  type Args = a: seq<byte> | |a| == ANTENNA_MESSAGE_LENGTH witness ZeroBytes(ANTENNA_MESSAGE_LENGTH)

  const NO_ARGS: Args := ZeroBytes(ANTENNA_MESSAGE_LENGTH)

  const ANTENNA_SURVIE: Args := [0x16, 0x38, 0x34, 0x30, 0x30, 0x30, 0x30, 0x30, 0x30, 0x30, 0x30, 0x0D]
  const ANTENNA_DESACTIVATE: Args := [0x16, 0x30, 0x30, 0x30, 0x30, 0x30, 0x30, 0x30, 0x30, 0x30, 0x30, 0x0D]
  const ANTENNA_REINI: Args := [0x16, 0x38, 0x30, 0x30, 0x30, 0x30, 0x30, 0x30, 0x30, 0x30, 0x30, 0x0D]
  const ANTENNA_CALLAGE: Args := [0x16, 0x38, 0x31, 0x30, 0x30, 0x30, 0x30, 0x30, 0x30, 0x30, 0x30, 0x0D]

  datatype SimpleMessage = SimpleMessage(id: byte, arguments: Args)

  /** `strncmp(a, b, n) == 0`: the comparison stops at a common terminator. */
  predicate StrnEqual(a: seq<byte>, b: seq<byte>)
    requires |a| == |b|
  {
    a == [] || (a[0] == b[0] && (a[0] == 0 || StrnEqual(a[1..], b[1..])))
  }

  /** Against a string without terminator inside the range, the comparison is equality. */
  lemma {:induction false} StrnEqualExact(a: seq<byte>, b: seq<byte>)
    requires |a| == |b| && 0 !in b
    ensures StrnEqual(a, b) <==> a == b
  {
    if a != [] {
      StrnEqualExact(a[1..], b[1..]);
      assert a == [a[0]] + a[1..] && b == [b[0]] + b[1..];
    }
  }

  /** `testEmergencyStop`. */
  predicate IsEmergency(m: SimpleMessage) {
    m.id == ID_MSG_ORDER_SURVIE
    || (m.id == ID_MSG_ORDER_ANTENNA && StrnEqual(m.arguments, ANTENNA_SURVIE))
  }

  const SURVIE_ORDER := SimpleMessage(ID_MSG_ORDER_SURVIE, NO_ARGS)

  // ----------------------------------------------------------------------------- time

  datatype RTCDateTime = RTCDateTime(year: nat, month: nat, day: nat, millisecond: nat)

  /** Seconds since the epoch of the C library. */
  type Seconds = uint32

  /** `getTimeUnixSecFromRTCTime`: the calendar of the C library, which is not modelled. */
  type Calendar = RTCDateTime -> Seconds

  const ANTICIPATION_TIME_BEFORE_TRACKING := 4

  /** Four little-endian bytes as a number. */
  function LittleEndian(b: seq<byte>): nat {
    if b == [] then 0 else b[0] as nat + 256 * LittleEndian(b[1..])
  }

  /** `convertDateArgs2RTCDateTime` on the date member of the argument union. */
  function DateOf(a: Args): RTCDateTime {
    RTCDateTime(a[0] as nat, a[1] as nat, a[2] as nat, LittleEndian(a[3..7]))
  }

  // ----------------------------------------------------------------------- trajectory

  const MAX_TRAJ_LENGTH := 1200
  const TABLE_BYTES := 14400

  /** `_table`, row after row. */
  type Table = t: seq<byte> | |t| == TABLE_BYTES witness ZeroBytes(TABLE_BYTES)

  datatype Traj = Traj(locked: bool, initDate: RTCDateTime, nbPoint: int, currentPoint: int, table: Table) {

    predicate InTable() {
      0 <= currentPoint < MAX_TRAJ_LENGTH
    }

    function Point(i: nat): Args
      requires i < MAX_TRAJ_LENGTH
    {
      table[12 * i..12 * i + 12]
    }

    /** `trajInit`; the memset counts bytes, so it clears the first hundred points only. */
    function Init(now: RTCDateTime): Traj {
      Traj(false, now, -2, -1, ZeroBytes(MAX_TRAJ_LENGTH) + table[MAX_TRAJ_LENGTH..])
    }

    function SetLength(length: int): Traj {
      this.(nbPoint := length, currentPoint := 0)
    }

    function AddPoint(point: Args): Traj {
      if InTable() then
        var i := 12 * currentPoint;
        this.(table := table[..i] + point + table[i + 12..], currentPoint := currentPoint + 1)
      else this
    }

    predicate Complete() {
      currentPoint == nbPoint
    }

    /** The row read by `trajGetNextTarget`. */
    function Target(): Args {
      if InTable() then Point(currentPoint) else NO_ARGS
    }

    function Advance(): Traj {
      this.(currentPoint := currentPoint + 1)
    }
  }

  // ---------------------------------------------------------------------------- state

  datatype TxState = Nominal | Waiting | Tracking | Emergency

  /** Why a frame was sent to the antenna. */
  datatype Origin = FromOrder | FromEmergency | TrajectoryStart | TrajectoryPoint(index: int)

  /** What the microcontroller does, in order.  Frames and log entries leave it; orders enter and
      leave the FIFO. */
  datatype Act =
    | Accepted(order: SimpleMessage)        // chFifoSendObject
    | AcceptedAhead(order: SimpleMessage)   // chFifoSendObjectAhead
    | Dequeued(order: SimpleMessage)
    | Sent(origin: Origin, frame: Args)
    | LogTx(id: byte, args: Args)           // written by the transmitter
    | LogRx(id: byte, args: Args)           // written by the receiver

  datatype Sys = Sys(orders: seq<SimpleMessage>, traj: Traj, state: TxState, asleep: bool, trace: seq<Act>) {
    function Do(a: Act): Sys {
      this.(trace := trace + [a])
    }
  }

  // ------------------------------------------------------------------------- receiver

  /** `writeEmergencyToOrder`. */
  function PostEmergency(s: Sys): Sys {
    s.(orders := [SURVIE_ORDER] + s.orders).Do(AcceptedAhead(SURVIE_ORDER))
  }

  function PostOrder(s: Sys, m: SimpleMessage): Sys {
    s.(orders := s.orders + [m]).Do(Accepted(m))
  }

  function HandleTrajectory(s: Sys, m: SimpleMessage, now: RTCDateTime): Sys {
    if m.id == ID_MSG_ORDER_TRAJ_SET_LENGTH then
      s.(traj := s.traj.SetLength(m.arguments[0] as int + m.arguments[1] as int * 256))
    else if m.id == ID_MSG_ORDER_TRAJ_SET_NEW_POINT then s.(traj := s.traj.AddPoint(m.arguments))
    else if m.id == ID_MSG_ORDER_TRAJ_REINI then s.(traj := s.traj.Init(now))
    else if m.id == ID_MSG_ORDER_TRAJ_CHECK_CORRECT then
      s.Do(LogRx(ID_MSG_LOG_TRAJ_RESPONSE_CORRECT, NO_ARGS[0 := if s.traj.Complete() then 1 else 0]))
    else s.Do(LogRx(ID_MSG_ALERT_BAD_MESSAGE_ID, m.arguments))
  }

  /** The order that a common message queues, as it is put in the FIFO. */
  function OrderOf(m: SimpleMessage): SimpleMessage {
    if m.id == ID_MSG_ORDER_DESACTIVATE then SimpleMessage(ID_MSG_ORDER_ANTENNA, ANTENNA_DESACTIVATE)
    else if m.id == ID_MSG_ORDER_REINI then SimpleMessage(ID_MSG_ORDER_ANTENNA, ANTENNA_REINI)
    else if m.id == ID_MSG_ORDER_CALAGE then SimpleMessage(ID_MSG_ORDER_ANTENNA, ANTENNA_CALLAGE)
    else m
  }

  function HandleCommun(s: Sys, m: SimpleMessage): Sys {
    if IsEmergency(m) then PostEmergency(s)
    else if m.id <= ID_MSG_ORDER_DO_TRAJ_AT_DATE then PostOrder(s, OrderOf(m))
    else s.Do(LogRx(ID_MSG_ALERT_BAD_MESSAGE_ID, m.arguments))
  }

  function HandleIncoming(s: Sys, m: SimpleMessage, now: RTCDateTime): Sys {
    if m.id as int >= FIRST_ERROR_ID then s.Do(LogRx(ID_MSG_ALERT_BAD_MESSAGE_ID, m.arguments))
    else if m.id >= FIRST_ORDER_TRAJ_ID then HandleTrajectory(s, m, now)
    else HandleCommun(s, m)
  }

  /** The value returned by `handleIncomingMessage`. */
  function HandlerStatus(m: SimpleMessage): int {
    if m.id <= ID_MSG_ORDER_DO_TRAJ_AT_DATE then 0
    else if FIRST_ORDER_TRAJ_ID <= m.id <= ID_MSG_ORDER_TRAJ_CHECK_CORRECT then 0
    else -1
  }

  /** The `simple_message` member of a message buffer. */
  function MessageIn(buffer: Payload): SimpleMessage {
    SimpleMessage(buffer[0], buffer[1..13])
  }

  /** What the receiving thread does with a decoder result. */
  function Receive(s: Sys, status: int, buffer: Payload, now: RTCDateTime): Sys {
    if status == 0 then s.Do(LogRx(ID_MSG_ALERT_CRC_ERROR, MessageIn(buffer).arguments))
    else if status > 0 then HandleIncoming(s, MessageIn(buffer), now)
    else s
  }

  // ---------------------------------------------------------------------- transmitter

  function NominalBehaviour(s: Sys, m: SimpleMessage): Sys {
    if m.id == ID_MSG_ORDER_DO_TRAJ_AT_DATE then
      var traj := s.traj.(initDate := DateOf(m.arguments), currentPoint := 0);
      s.(traj := traj.Advance(), state := Waiting).Do(Sent(TrajectoryStart, traj.Target()))
    else if m.id == ID_MSG_ORDER_ANTENNA then s.Do(Sent(FromOrder, m.arguments))
    else s.Do(LogTx(ID_MSG_ALERT_BAD_MESSAGE_ID, m.arguments))
  }

  function WaitingBehaviour(cal: Calendar, s: Sys, now: RTCDateTime): Sys {
    var current, target := cal(now), cal(s.traj.initDate);
    if current > target then s.(state := Nominal).Do(LogTx(ID_MSG_ALERT_TRAJECTORY_DROPPED, NO_ARGS))
    else if target - current <= ANTICIPATION_TIME_BEFORE_TRACKING then
      s.(state := Tracking).Do(LogTx(ID_MSG_LOG_TRAJ_BEGIN_TRAJECTORY, NO_ARGS))
    else s.Do(LogTx(ID_MSG_LOG_TRAJ_WAITING_TRAJECTORY, NO_ARGS))
  }

  function TrackingBehaviour(s: Sys, now: RTCDateTime): Sys {
    var s1 := s.(traj := s.traj.Advance()).Do(Sent(TrajectoryPoint(s.traj.currentPoint), s.traj.Target()));
    if s1.traj.Complete() then
      s1.(traj := s1.traj.Init(now), state := Nominal).Do(LogTx(ID_MSG_LOG_TRAJ_FINISH_TRAJECTORY, NO_ARGS))
    else s1
  }

  /** `emergencyBehaviour` up to its sleep, and what follows the sleep. */
  function EmergencyBehaviour(s: Sys): Sys {
    s.(asleep := true).Do(Sent(FromEmergency, ANTENNA_SURVIE))
  }

  function Wake(s: Sys): Sys {
    s.(state := Nominal, asleep := false).Do(LogTx(ID_MSG_LOG_EXIT_EMERGENCY, NO_ARGS))
  }

  function ProcessOrder(s: Sys, m: SimpleMessage): Sys {
    if IsEmergency(m) then s.(state := Emergency).Do(LogTx(ID_MSG_ALERT_ANTENNA_EMERGENCY, m.arguments))
    else if s.state == Nominal then NominalBehaviour(s, m)
    else s.Do(LogTx(ID_MSG_ALERT_MESSAGE_DROPPED, m.arguments))
  }

  function EchoOrder(m: SimpleMessage): Act {
    LogTx(((m.id as int + ID_MSG_LOG_REEMIT_OFFSET) % 256) as byte, m.arguments)
  }

  function NotePulse(s: Sys, missedPulse: bool): Sys {
    if missedPulse then s.Do(LogTx(ID_MSG_ALERT_NO_1PPS, NO_ARGS)) else s
  }

  /** Takes the first order out of the FIFO and echoes it. */
  function OpenOrder(s: Sys): Sys
    requires s.orders != []
  {
    s.(orders := s.orders[1..]).Do(Dequeued(s.orders[0])).Do(EchoOrder(s.orders[0]))
  }

  /** First half of a tick: the pulse and at most one order. */
  function TakeOrder(s: Sys, missedPulse: bool): Sys {
    var s0 := NotePulse(s, missedPulse);
    if s.orders == [] then s0 else ProcessOrder(OpenOrder(s0), s.orders[0])
  }

  /** Second half of a tick: the behaviour of the state. */
  function Behave(cal: Calendar, s: Sys, now: RTCDateTime): Sys {
    match s.state
    case Nominal => s
    case Waiting => WaitingBehaviour(cal, s, now)
    case Tracking => TrackingBehaviour(s, now)
    case Emergency => EmergencyBehaviour(s)
  }

  function Tick(cal: Calendar, s: Sys, missedPulse: bool, now: RTCDateTime): Sys {
    Behave(cal, TakeOrder(s, missedPulse), now)
  }

  // ----------------------------------------------------------------------------- runs

  datatype Event =
    | Rx(status: int, buffer: Payload, now: RTCDateTime)
    | Button
    | Pulse(missed: bool, now: RTCDateTime)
    | EndOfSleep

  function Step(cal: Calendar, s: Sys, e: Event): Sys {
    match e
    case Rx(status, buffer, now) => Receive(s, status, buffer, now)
    case Button => PostEmergency(s)
    case Pulse(missed, now) => Tick(cal, s, missed, now)
    case EndOfSleep => Wake(s)
  }

  /** The receiver takes an object from the order pool for this message. */
  predicate Posts(m: SimpleMessage) {
    m.id <= ID_MSG_ORDER_DO_TRAJ_AT_DATE
  }

  /** What the code relies on without checking: pool objects are left when one is taken, rows of the
      table are only touched inside it, and the transmitter is where the event finds it. */
  predicate Safe(s: Sys, e: Event) {
    match e
    case Rx(status, buffer, _) =>
      status > 0 ==>
        && (Posts(MessageIn(buffer)) ==> |s.orders| < FIFO_BUFFER_SIZE)
        && (MessageIn(buffer).id == ID_MSG_ORDER_TRAJ_SET_NEW_POINT ==> s.traj.InTable())
    case Button => |s.orders| < FIFO_BUFFER_SIZE
    case Pulse(_, _) => !s.asleep && (TakeOrder(s, false).state == Tracking ==> s.traj.InTable())
    case EndOfSleep => s.asleep
  }

  function Run(cal: Calendar, s: Sys, es: seq<Event>): Sys {
    if es == [] then s else Step(cal, Run(cal, s, es[..|es| - 1]), es[|es| - 1])
  }

  /** Every step of the run starts where the code is defined. */
  predicate SafeRun(cal: Calendar, s: Sys, es: seq<Event>) {
    es == [] || (SafeRun(cal, s, es[..|es| - 1]) && Safe(Run(cal, s, es[..|es| - 1]), es[|es| - 1]))
  }

  /** The state in which `main` starts the threads. */
  predicate Initial(s: Sys) {
    s.orders == [] && s.state == Nominal && !s.asleep && s.trace == []
    && s.traj.nbPoint == -2 && s.traj.currentPoint == -1
  }

  lemma RunSnoc(cal: Calendar, s: Sys, es: seq<Event>, e: Event)
    ensures Run(cal, s, es + [e]) == Step(cal, Run(cal, s, es), e)
    ensures SafeRun(cal, s, es + [e]) <==> SafeRun(cal, s, es) && Safe(Run(cal, s, es), e)
  {
    assert (es + [e])[..|es|] == es;
  }

  lemma {:induction false} RunAppend(cal: Calendar, s: Sys, es: seq<Event>, fs: seq<Event>)
    ensures Run(cal, s, es + fs) == Run(cal, Run(cal, s, es), fs)
    ensures SafeRun(cal, s, es + fs) <==> SafeRun(cal, s, es) && SafeRun(cal, Run(cal, s, es), fs)
  {
    if fs == [] {
      assert es + fs == es;
    } else {
      var n := |fs| - 1;
      RunAppend(cal, s, es, fs[..n]);
      assert es + fs == (es + fs[..n]) + [fs[n]];
      RunSnoc(cal, s, es + fs[..n], fs[n]);
    }
  }

  lemma {:induction false} SafePrefix(cal: Calendar, s: Sys, es: seq<Event>, i: nat)
    requires SafeRun(cal, s, es) && i <= |es|
    ensures SafeRun(cal, s, es[..i])
  {
    if i < |es| {
      SafePrefix(cal, s, es[..|es| - 1], i);
      assert es[..|es| - 1][..i] == es[..i];
    } else {
      assert es[..i] == es;
    }
  }

  lemma {:induction false} StepOfRun(cal: Calendar, s: Sys, es: seq<Event>, i: nat)
    requires SafeRun(cal, s, es) && i < |es|
    ensures Safe(Run(cal, s, es[..i]), es[i])
    ensures Run(cal, s, es[..i + 1]) == Step(cal, Run(cal, s, es[..i]), es[i])
  {
    SafePrefix(cal, s, es, i + 1);
    RunSnoc(cal, s, es[..i], es[i]);
    assert es[..i] + [es[i]] == es[..i + 1];
  }
}
