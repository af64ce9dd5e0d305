/** What the microcontroller reports to the host: which log it writes when, and that a log loses
    nothing on its way over the link. */
module Reports {
  import opened Bytes
  import opened Crc
  import opened ErrorDetection
  import opened Invariants
  import opened Messages
  import opened Protocol
  import opened SerialLink
  import opened Targeting
  import opened Uploads

  // ------------------------------------------------------------------ across the link

  /** A stamped message as it lies in its buffer. */
  function StampedBuffer(id: byte, date: DateArgs, args: Args): (b: Payload) {
    [id] + date + args
  }

  /** The argument bytes that the length of its kind cuts off are all zero. */
  predicate Whole(id: byte, args: Args) {
    var k := ArgsSize(id as nat % ID_MSG_LOG_REEMIT_OFFSET);
    forall i | k <= i < ANTENNA_MESSAGE_LENGTH :: args[i] == 0
  }

  /** A log arrives with its identifier and its stamp, and as it was written exactly if it is whole. */
  lemma LogArrives(id: byte, date: DateArgs, args: Args)
    requires id as int >= FIRST_ERROR_ID
    ensures var b, d := StampedBuffer(id, date, args), Delivered(StampedBuffer(id, date, args));
            d.message[..8] == [id] + date && d.status > 0 && (d.message == b <==> Whole(id, args))
  {
    var k := ArgsSize(id as nat % ID_MSG_LOG_REEMIT_OFFSET);
    var b := StampedBuffer(id, date, args);
    assert b[..8 + k] == [id] + date + args[..k];
    assert Delivered(b).message == [id] + date + args[..k] + ZeroBytes(12 - k);
    assert b[8..] == args;
    forall i | k <= i < 12 ensures Delivered(b).message[8 + i] == 0 && b[8 + i] == args[i] {
    }
    assert forall i | 0 <= i < 8 + k :: Delivered(b).message[i] == b[i];
    if Whole(id, args) {
      assert forall i | 0 <= i < 20 :: Delivered(b).message[i] == b[i];
    } else {
      var i :| k <= i < 12 && args[i] != 0;
      assert Delivered(b).message[8 + i] != b[8 + i];
    }
  }

  // ---------------------------------------------------------------------- logs of a run

  /** The identifier of the echo of a date order. */
  const DATE_ECHO: byte := 156

  /** If the act is a log, nothing of it is lost, but for what lies behind the date in the echo of a
      date order. */
  predicate Reported(a: Act) {
    a.LogTx? || a.LogRx? ==> a.id as int >= FIRST_ERROR_ID && (Whole(a.id, a.args) || a.id == DATE_ECHO)
  }

  predicate AllReported(t: seq<Act>) {
    forall i | 0 <= i < |t| :: Reported(t[i])
  }

  lemma ReportedSnoc(t: seq<Act>, a: Act)
    requires AllReported(t) && Reported(a)
    ensures AllReported(t + [a])
  {
  }

  lemma ReportedReceive(s: Sys, status: int, buffer: Payload, now: RTCDateTime)
    requires AllReported(s.trace)
    ensures AllReported(Receive(s, status, buffer, now).trace)
  {
    var s' := Receive(s, status, buffer, now);
    if s'.trace != s.trace {
      ReportedSnoc(s.trace, s'.trace[|s.trace|]);
    }
  }

  /** The orders in the FIFO are echoed under an identifier that tells the order. */
  lemma EchoTells(m: SimpleMessage)
    requires m == SURVIE_ORDER || Plain(m)
    ensures var a := EchoOrder(m);
            Reported(a) && a.args == m.arguments && a.id as int >= ID_MSG_LOG_REEMIT_OFFSET
            && a.id as int % ID_MSG_LOG_REEMIT_OFFSET == m.id as int
  {
    assert m.id in {0, 4, 5, 6};
    assert EchoOrder(m).id as int == 150 + m.id as int;
  }

  lemma ReportedProcess(s: Sys, m: SimpleMessage)
    requires AllReported(s.trace) && (m == SURVIE_ORDER || Plain(m))
    ensures AllReported(ProcessOrder(s, m).trace)
  {
    ReportedSnoc(s.trace, ProcessOrder(s, m).trace[|s.trace|]);
  }

  lemma ReportedTakeOrder(s: Sys, missed: bool)
    requires AllReported(s.trace) && Shape(s.orders)
    ensures AllReported(TakeOrder(s, missed).trace)
  {
    ReportedSnoc(s.trace, LogTx(ID_MSG_ALERT_NO_1PPS, NO_ARGS));
    if s.orders != [] {
      Pop(s.orders);
      var m, t := s.orders[0], NotePulse(s, missed).trace;
      EchoTells(m);
      ReportedSnoc(t, Dequeued(m));
      ReportedSnoc(t + [Dequeued(m)], EchoOrder(m));
      ReportedProcess(OpenOrder(NotePulse(s, missed)), m);
    }
  }

  lemma ReportedBehave(cal: Calendar, s: Sys, now: RTCDateTime)
    requires AllReported(s.trace)
    ensures AllReported(Behave(cal, s, now).trace)
  {
    match s.state
    case Nominal =>
    case Waiting => ReportedSnoc(s.trace, WaitingBehaviour(cal, s, now).trace[|s.trace|]);
    case Tracking =>
      var a := Sent(TrajectoryPoint(s.traj.currentPoint), s.traj.Target());
      ReportedSnoc(s.trace, a);
      ReportedSnoc(s.trace + [a], LogTx(ID_MSG_LOG_TRAJ_FINISH_TRAJECTORY, NO_ARGS));
    case Emergency => ReportedSnoc(s.trace, Sent(FromEmergency, ANTENNA_SURVIE));
  }

  /** In every run, every log that is written arrives at the host as it was written, except that the
      echo of a date order is cut behind the date. */
  lemma {:induction false} EveryLogReported(cal: Calendar, s: Sys, es: seq<Event>)
    requires Initial(s)
    ensures AllReported(Run(cal, s, es).trace)
  {
    if es != [] {
      var n := |es| - 1;
      var u := Run(cal, s, es[..n]);
      EveryLogReported(cal, s, es[..n]);
      OrdersConserved(cal, s, es[..n]);
      match es[n]
      case Rx(status, buffer, now) => ReportedReceive(u, status, buffer, now);
      case Button => ReportedSnoc(u.trace, AcceptedAhead(SURVIE_ORDER));
      case Pulse(missed, now) =>
        ReportedTakeOrder(u, missed);
        ReportedBehave(cal, TakeOrder(u, missed), now);
      case EndOfSleep => ReportedSnoc(u.trace, LogTx(ID_MSG_LOG_EXIT_EMERGENCY, NO_ARGS));
    }
  }

  lemma {:induction false} LogReachesHost(cal: Calendar, s: Sys, es: seq<Event>, i: nat, date: DateArgs)
    requires Initial(s) && i < |Run(cal, s, es).trace|
    requires var a := Run(cal, s, es).trace[i]; (a.LogTx? || a.LogRx?) && a.id != DATE_ECHO
    ensures var a := Run(cal, s, es).trace[i];
            Delivered(StampedBuffer(a.id, date, a.args)).message == [a.id] + date + a.args
  {
    EveryLogReported(cal, s, es);
    var a := Run(cal, s, es).trace[i];
    assert Reported(a);
    LogArrives(a.id, date, a.args);
  }

  // ------------------------------------------------------------- no more than is needed

  lemma LastOrder(s: Sys, m: SimpleMessage, n: SimpleMessage)
    requires PostOrder(s, m) == PostOrder(s, n)
    ensures m == n
  {
    assert (s.orders + [m])[|s.orders|] == (s.orders + [n])[|s.orders|];
  }

  lemma PostsDiffer(s: Sys, m: SimpleMessage)
    ensures PostEmergency(s) != PostOrder(s, m)
  {
    var t := |s.trace|;
    assert PostEmergency(s).trace[t] != PostOrder(s, m).trace[t];
  }

  lemma AntennaOrdersAlike(s: Sys, a: Args, b: Args, now: RTCDateTime)
    ensures var m, n := SimpleMessage(ID_MSG_ORDER_ANTENNA, a), SimpleMessage(ID_MSG_ORDER_ANTENNA, b);
            HandleIncoming(s, m, now) == HandleIncoming(s, n, now) <==> a == b
  {
    var m, n := SimpleMessage(ID_MSG_ORDER_ANTENNA, a), SimpleMessage(ID_MSG_ORDER_ANTENNA, b);
    SurvieHasNoTerminator();
    StrnEqualExact(a, ANTENNA_SURVIE);
    StrnEqualExact(b, ANTENNA_SURVIE);
    PostsDiffer(s, m);
    PostsDiffer(s, n);
    if PostOrder(s, m) == PostOrder(s, n) {
      LastOrder(s, m, n);
    }
  }

  lemma PointsAlike(s: Sys, a: Args, b: Args)
    requires s.traj.InTable()
    ensures s.traj.AddPoint(a) == s.traj.AddPoint(b) <==> a == b
  {
    PointAdded(s.traj, a);
    PointAdded(s.traj, b);
  }

  /** The link carries just what is read of an order: two of the same kind are handled alike exactly if
      they agree on as many argument bytes as the kind has. */
  lemma {:induction false} HandledAlike(id: byte, a: Args, b: Args, s: Sys, now: RTCDateTime)
    requires Known(id) && id != ID_MSG_ORDER_DO_TRAJ_AT_DATE
    requires id == ID_MSG_ORDER_TRAJ_SET_NEW_POINT ==> s.traj.InTable()
    ensures HandleIncoming(s, SimpleMessage(id, a), now) == HandleIncoming(s, SimpleMessage(id, b), now)
      <==> a[..ArgsSize(id as nat)] == b[..ArgsSize(id as nat)]
  {
    assert a[..12] == a && b[..12] == b;
    if id == ID_MSG_ORDER_ANTENNA {
      AntennaOrdersAlike(s, a, b, now);
    } else if id == ID_MSG_ORDER_GOTO {
      if PostOrder(s, SimpleMessage(id, a)) == PostOrder(s, SimpleMessage(id, b)) {
        LastOrder(s, SimpleMessage(id, a), SimpleMessage(id, b));
      }
    } else if id == ID_MSG_ORDER_TRAJ_SET_NEW_POINT {
      PointsAlike(s, a, b);
    } else if id == ID_MSG_ORDER_TRAJ_SET_LENGTH {
      assert a[..2] == [a[0], a[1]] && b[..2] == [b[0], b[1]];
    }
  }

  lemma {:induction false} LittleEndianInjective(a: seq<byte>, b: seq<byte>)
    requires |a| == |b| && LittleEndian(a) == LittleEndian(b)
    ensures a == b
  {
    if a != [] {
      assert a[0] == b[0];
      LittleEndianInjective(a[1..], b[1..]);
      assert a == [a[0]] + a[1..] && b == [b[0]] + b[1..];
    }
  }

  /** Of a date order the date is read. */
  lemma DatesAlike(a: Args, b: Args)
    ensures var k := ArgsSize(ID_MSG_ORDER_DO_TRAJ_AT_DATE as nat);
            DateOf(a) == DateOf(b) <==> a[..k] == b[..k]
  {
    assert a[..7] == [a[0], a[1], a[2]] + a[3..7] && b[..7] == [b[0], b[1], b[2]] + b[3..7];
    assert a[..7][3..7] == a[3..7] && b[..7][3..7] == b[3..7];
    if DateOf(a) == DateOf(b) {
      LittleEndianInjective(a[3..7], b[3..7]);
    }
  }

  /** A log that never has arguments takes eleven bytes on the line. */
  lemma BareLog(id: byte, date: DateArgs)
    requires id in {ID_MSG_ALERT_NO_1PPS, ID_MSG_ALERT_TRAJECTORY_DROPPED, ID_MSG_ALERT_ANTENNA_EMERGENCY,
                    ID_MSG_LOG_TRAJ_BEGIN_TRAJECTORY, ID_MSG_LOG_TRAJ_WAITING_TRAJECTORY,
                    ID_MSG_LOG_TRAJ_FINISH_TRAJECTORY, ID_MSG_LOG_EXIT_EMERGENCY}
    ensures |Written(StampedBuffer(id, date, NO_ARGS))| == 11
  {
  }

  // ----------------------------------------------------------------- which log for what

  /** A message of which two bits were inverted changes nothing and is reported. */
  lemma {:induction false} DamageReported(s: Sys, payload: seq<byte>, i: nat, j: nat, now: RTCDateTime)
    requires |payload| <= MAX_PAYLOAD_MESSAGE_LENGTH && i < j < 8 * (|payload| + 1)
    ensures var c := Flip(Flip(payload + [Checksum(payload)], i), j);
            var r := ParseStream(Opening(|payload|) + c);
            && |r| == 1 && |r[0].message| == MAX_PAYLOAD_MESSAGE_LENGTH
            && Receive(s, r[0].status, r[0].message, now)
               == s.Do(LogRx(ID_MSG_ALERT_CRC_ERROR, MessageIn(r[0].message).arguments))
  {
    var c := Flip(Flip(payload + [Checksum(payload)], i), j);
    TwoBitErrorReported(payload, i, j, []);
    assert Opening(|payload|) + c + [] == Opening(|payload|) + c;
  }

  /** Identifiers of orders. */
  predicate Known(id: byte) {
    id <= 6 || 30 <= id <= 33
  }

  /** A message that is no order changes nothing and is reported with its arguments; the handler
      reports success for orders only. */
  lemma UnknownRefused(s: Sys, m: SimpleMessage, now: RTCDateTime)
    ensures !Known(m.id) ==> HandleIncoming(s, m, now) == s.Do(LogRx(ID_MSG_ALERT_BAD_MESSAGE_ID, m.arguments))
    ensures HandlerStatus(m) == if Known(m.id) then 0 else -1
  {
  }

  /** After j messages of a script, the reply to the host's question is 1 exactly if all points have
      arrived. */
  lemma {:induction false} ReplyTellsComplete(cal: Calendar, s: Sys, up: Upload, es: seq<Event>, j: nat,
                                              args: Args, now: RTCDateTime)
    requires Idle(s) && up.Valid() && 5 <= j <= |up.points| + 5
    requires HostAndTicks(es) && Receptions(es) == up.Arriving()[..j]
    ensures var u := Run(cal, s, es);
            HandleIncoming(u, SimpleMessage(ID_MSG_ORDER_TRAJ_CHECK_CORRECT, args), now)
            == u.Do(LogRx(ID_MSG_LOG_TRAJ_RESPONSE_CORRECT, NO_ARGS[0 := if j == |up.points| + 5 then 1 else 0]))
  {
    Loads(cal, s, up, es, j);
  }

  /** The whole report of an emergency: the echo of its order, the alert, the survival frame and, after
      the sleep, the end. */
  lemma EmergencyReport(cal: Calendar, s: Sys, now: RTCDateTime)
    requires s.orders != [] && s.orders[0] == SURVIE_ORDER
    ensures var u := Wake(Tick(cal, s, false, now));
            && u.state == Nominal && !u.asleep && u.traj == s.traj && u.orders == s.orders[1..]
            && u.trace == s.trace + [Dequeued(SURVIE_ORDER), LogTx(150, NO_ARGS),
                                     LogTx(ID_MSG_ALERT_ANTENNA_EMERGENCY, NO_ARGS),
                                     Sent(FromEmergency, ANTENNA_SURVIE), LogTx(ID_MSG_LOG_EXIT_EMERGENCY, NO_ARGS)]
  {
  }

  // -------------------------------------------------------------------- missed pulses

  function PulseAlerts(t: seq<Act>): nat {
    if t == [] then 0
    else PulseAlerts(t[..|t| - 1]) + if t[|t| - 1].LogTx? && t[|t| - 1].id == ID_MSG_ALERT_NO_1PPS then 1 else 0
  }

  function MissedPulses(es: seq<Event>): nat {
    if es == [] then 0
    else MissedPulses(es[..|es| - 1]) + if es[|es| - 1].Pulse? && es[|es| - 1].missed then 1 else 0
  }

  lemma AlertsSnoc(t: seq<Act>, a: Act)
    ensures PulseAlerts(t + [a]) == PulseAlerts(t) + if a.LogTx? && a.id == ID_MSG_ALERT_NO_1PPS then 1 else 0
  {
    assert (t + [a])[..|t|] == t;
  }

  lemma AlertsProcess(s: Sys, m: SimpleMessage)
    ensures PulseAlerts(ProcessOrder(s, m).trace) == PulseAlerts(s.trace)
  {
    AlertsSnoc(s.trace, ProcessOrder(s, m).trace[|s.trace|]);
  }

  lemma AlertsTakeOrder(s: Sys, missed: bool)
    requires Shape(s.orders)
    ensures PulseAlerts(TakeOrder(s, missed).trace) == PulseAlerts(s.trace) + if missed then 1 else 0
  {
    AlertsSnoc(s.trace, LogTx(ID_MSG_ALERT_NO_1PPS, NO_ARGS));
    if s.orders != [] {
      Pop(s.orders);
      var m, t := s.orders[0], NotePulse(s, missed).trace;
      EchoTells(m);
      AlertsSnoc(t, Dequeued(m));
      AlertsSnoc(t + [Dequeued(m)], EchoOrder(m));
      AlertsProcess(OpenOrder(NotePulse(s, missed)), m);
    }
  }

  lemma AlertsBehave(cal: Calendar, s: Sys, now: RTCDateTime)
    ensures PulseAlerts(Behave(cal, s, now).trace) == PulseAlerts(s.trace)
  {
    match s.state
    case Nominal =>
    case Waiting => AlertsSnoc(s.trace, WaitingBehaviour(cal, s, now).trace[|s.trace|]);
    case Tracking =>
      var a := Sent(TrajectoryPoint(s.traj.currentPoint), s.traj.Target());
      AlertsSnoc(s.trace, a);
      AlertsSnoc(s.trace + [a], LogTx(ID_MSG_LOG_TRAJ_FINISH_TRAJECTORY, NO_ARGS));
    case Emergency => AlertsSnoc(s.trace, Sent(FromEmergency, ANTENNA_SURVIE));
  }

  lemma AlertsReceive(s: Sys, status: int, buffer: Payload, now: RTCDateTime)
    ensures PulseAlerts(Receive(s, status, buffer, now).trace) == PulseAlerts(s.trace)
  {
    var acts := ReceiveActs(s, status, buffer, now);
    if acts != [] {
      assert acts == [acts[0]];
      AlertsSnoc(s.trace, acts[0]);
    }
  }

  /** In every run, every missed pulse is reported, and nothing else is reported as one. */
  lemma {:induction false} MissedPulsesReported(cal: Calendar, s: Sys, es: seq<Event>)
    requires Initial(s)
    ensures PulseAlerts(Run(cal, s, es).trace) == MissedPulses(es)
  {
    if es != [] {
      var n := |es| - 1;
      var u := Run(cal, s, es[..n]);
      MissedPulsesReported(cal, s, es[..n]);
      OrdersConserved(cal, s, es[..n]);
      match es[n]
      case Rx(status, buffer, now) => AlertsReceive(u, status, buffer, now);
      case Button => AlertsSnoc(u.trace, AcceptedAhead(SURVIE_ORDER));
      case Pulse(missed, now) =>
        AlertsTakeOrder(u, missed);
        AlertsBehave(cal, TakeOrder(u, missed), now);
      case EndOfSleep => AlertsSnoc(u.trace, LogTx(ID_MSG_LOG_EXIT_EMERGENCY, NO_ARGS));
    }
  }
}
