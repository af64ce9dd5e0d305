/** The microcontroller as the code runs it: one object whose fields the receiver, the button and the
    transmitter update in place.  Every method is proved to do to the state what the transition
    system says (PC_interface/PcSerialFunctions.c, Antenna_interface/AntennaFunctions.c,
    Antenna_interface/AntennaThreads.c, Messages/messages.c, main.c). */
module Boards {
  import opened Bytes
  import opened Messages
  import opened Protocol
  import opened TimeChain
  import opened Trajectories

  class Board {
    var orders: seq<SimpleMessage>
    const traj: Trajectory
    var state: TxState
    var asleep: bool
    var trace: seq<Act>

    ghost predicate Valid()
      reads this
    {
      traj.Valid()
    }

    ghost function View(): Sys
      requires Valid()
      reads this, traj, traj.table
    {
      Sys(orders, traj.View(), state, asleep, trace)
    }

    /** `main` up to the start of the threads. */
    constructor (now: RTCDateTime)
      ensures Valid() && fresh(traj) && fresh(traj.table)
      ensures Initial(View())
    {
      var t := new Trajectory();
      t.Init(now);
      traj := t;
      orders, state, asleep, trace := [], Nominal, false, [];
    }

    // -------------------------------------------------------------------------- outputs

    /** `writeLogToFifo`, called by the transmitter. */
    method WriteLogTx(id: byte, args: Args)
      requires Valid()
      modifies this`trace
      ensures View() == old(View()).Do(LogTx(id, args))
    {
      trace := trace + [LogTx(id, args)];
    }

    /** `writeLogToFifo`, called by the receiver. */
    method WriteLogRx(id: byte, args: Args)
      requires Valid()
      modifies this`trace
      ensures View() == old(View()).Do(LogRx(id, args))
    {
      trace := trace + [LogRx(id, args)];
    }

    /** `stmAntennaWriter` */
    method WriteAntenna(origin: Origin, frame: Args)
      requires Valid()
      modifies this`trace
      ensures View() == old(View()).Do(Sent(origin, frame))
    {
      trace := trace + [Sent(origin, frame)];
    }

    // ------------------------------------------------------------------- order FIFO

    method WriteEmergencyToOrder()
      requires Valid() && |orders| < FIFO_BUFFER_SIZE
      modifies this`orders, this`trace
      ensures View() == PostEmergency(old(View()))
    {
      var message := SimpleMessage(ID_MSG_ORDER_SURVIE, NO_ARGS);
      orders := [message] + orders;
      trace := trace + [AcceptedAhead(message)];
    }

    method SendOrder(m: SimpleMessage)
      requires Valid() && |orders| < FIFO_BUFFER_SIZE
      modifies this`orders, this`trace
      ensures View() == PostOrder(old(View()), m)
    {
      orders := orders + [m];
      trace := trace + [Accepted(m)];
    }

    /** `chFifoReceiveObjectTimeout` with a timeout of nothing, and the echo of the order. */
    method ReceiveOrder() returns (m: SimpleMessage)
      requires Valid() && orders != []
      modifies this`orders, this`trace
      ensures View() == OpenOrder(old(View())) && m == old(orders[0])
    {
      m := orders[0];
      orders := orders[1..];
      trace := trace + [Dequeued(m)];
      WriteLogTx(((m.id as int + ID_MSG_LOG_REEMIT_OFFSET) % 256) as byte, m.arguments);
    }

    // --------------------------------------------------------------------- receiver

    method HandleTrajectoryMessage(m: SimpleMessage, now: RTCDateTime) returns (status: int)
      requires Valid()
      requires m.id == ID_MSG_ORDER_TRAJ_SET_NEW_POINT ==> traj.View().InTable()
      modifies this`trace, traj, traj.table
      ensures View() == HandleTrajectory(old(View()), m, now)
      ensures status == if FIRST_ORDER_TRAJ_ID <= m.id <= ID_MSG_ORDER_TRAJ_CHECK_CORRECT then 0 else -1
    {
      if m.id == ID_MSG_ORDER_TRAJ_SET_LENGTH {
        traj.SetLength(m.arguments[0] as int + m.arguments[1] as int * 256);
        return 0;
      } else if m.id == ID_MSG_ORDER_TRAJ_SET_NEW_POINT {
        traj.AddPoint(m.arguments);
        return 0;
      } else if m.id == ID_MSG_ORDER_TRAJ_REINI {
        traj.Init(now);
        return 0;
      } else if m.id == ID_MSG_ORDER_TRAJ_CHECK_CORRECT {
        var correct := traj.CheckCorrectLength();
        WriteLogRx(ID_MSG_LOG_TRAJ_RESPONSE_CORRECT, NO_ARGS[0 := if correct then 1 else 0]);
        return 0;
      }
      WriteLogRx(ID_MSG_ALERT_BAD_MESSAGE_ID, m.arguments);
      return -1;
    }

    method HandleCommunMessage(m: SimpleMessage) returns (status: int)
      requires Valid()
      requires Posts(m) ==> |orders| < FIFO_BUFFER_SIZE
      modifies this`orders, this`trace
      ensures View() == HandleCommun(old(View()), m)
      ensures status == if Posts(m) then 0 else -1
    {
      var message := m;
      if m.id == ID_MSG_ORDER_SURVIE {
        WriteEmergencyToOrder();
        return 0;
      } else if m.id == ID_MSG_ORDER_DESACTIVATE {
        message := SimpleMessage(ID_MSG_ORDER_ANTENNA, ANTENNA_DESACTIVATE);
      } else if m.id == ID_MSG_ORDER_REINI {
        message := SimpleMessage(ID_MSG_ORDER_ANTENNA, ANTENNA_REINI);
      } else if m.id == ID_MSG_ORDER_CALAGE {
        message := SimpleMessage(ID_MSG_ORDER_ANTENNA, ANTENNA_CALLAGE);
      } else if m.id == ID_MSG_ORDER_ANTENNA {
        if StrnEqual(m.arguments, ANTENNA_SURVIE) {
          WriteEmergencyToOrder();
          return 0;
        }
      } else if m.id != ID_MSG_ORDER_GOTO && m.id != ID_MSG_ORDER_DO_TRAJ_AT_DATE {
        WriteLogRx(ID_MSG_ALERT_BAD_MESSAGE_ID, m.arguments);
        return -1;
      }
      SendOrder(message);
      return 0;
    }

    method HandleIncomingMessage(m: SimpleMessage, now: RTCDateTime) returns (status: int)
      requires Valid()
      requires Posts(m) ==> |orders| < FIFO_BUFFER_SIZE
      requires m.id == ID_MSG_ORDER_TRAJ_SET_NEW_POINT ==> traj.View().InTable()
      modifies this`orders, this`trace, traj, traj.table
      ensures View() == HandleIncoming(old(View()), m, now)
      ensures status == HandlerStatus(m)
    {
      if m.id as int >= FIRST_ERROR_ID {
        WriteLogRx(ID_MSG_ALERT_BAD_MESSAGE_ID, m.arguments);
        return -1;
      }
      if m.id >= FIRST_ORDER_TRAJ_ID {
        status := HandleTrajectoryMessage(m, now);
      } else {
        status := HandleCommunMessage(m);
      }
    }

    /** One turn of the receiving thread, on a decoder result. */
    method ReceiverTurn(status: int, buffer: Payload, now: RTCDateTime)
      requires Valid() && Safe(View(), Rx(status, buffer, now))
      modifies this`orders, this`trace, traj, traj.table
      ensures View() == Receive(old(View()), status, buffer, now)
    {
      if status == 0 {
        WriteLogRx(ID_MSG_ALERT_CRC_ERROR, MessageIn(buffer).arguments);
      } else if status > 0 {
        var handled := HandleIncomingMessage(MessageIn(buffer), now);
      }
    }

    // ------------------------------------------------------------------ transmitter

    /** Not positive for an emergency, which also changes the state. */
    method TestEmergencyStop(m: SimpleMessage) returns (verdict: int)
      requires Valid()
      modifies this`state
      ensures verdict <= 0 <==> IsEmergency(m)
      ensures View() == if IsEmergency(m) then old(View()).(state := Emergency) else old(View())
    {
      if m.id == ID_MSG_ORDER_SURVIE
         || (m.id == ID_MSG_ORDER_ANTENNA && StrnEqual(m.arguments, ANTENNA_SURVIE)) {
        state := Emergency;
        return -1;
      }
      return 1;
    }

    method ConvertDate(a: Args) returns (date: RTCDateTime)
      ensures date == DateOf(a)
    {
      var millis := JoinMillis(a[3..7]);
      date := RTCDateTime(a[0] as nat, a[1] as nat, a[2] as nat, millis);
    }

    method DoNominal(m: SimpleMessage)
      requires Valid()
      modifies this`state, this`trace, traj
      ensures View() == NominalBehaviour(old(View()), m)
    {
      if m.id == ID_MSG_ORDER_DO_TRAJ_AT_DATE {
        var time := ConvertDate(m.arguments);
        traj.SetDate(time);
        var firstTarget := new byte[ANTENNA_MESSAGE_LENGTH];
        traj.PrepareTargeting(firstTarget);
        WriteAntenna(TrajectoryStart, firstTarget[..]);
        state := Waiting;
      } else if m.id == ID_MSG_ORDER_ANTENNA {
        WriteAntenna(FromOrder, m.arguments);
      } else {
        WriteLogTx(ID_MSG_ALERT_BAD_MESSAGE_ID, m.arguments);
      }
    }

    method DoWaiting(cal: Calendar, now: RTCDateTime)
      requires Valid()
      modifies this`state, this`trace
      ensures View() == WaitingBehaviour(cal, old(View()), now)
    {
      var current := cal(now);
      var date := traj.GetDate();
      var target := cal(date);
      if current > target {
        WriteLogTx(ID_MSG_ALERT_TRAJECTORY_DROPPED, NO_ARGS);
        state := Nominal;
      } else if target - current <= ANTICIPATION_TIME_BEFORE_TRACKING {
        WriteLogTx(ID_MSG_LOG_TRAJ_BEGIN_TRAJECTORY, NO_ARGS);
        state := Tracking;
      } else {
        WriteLogTx(ID_MSG_LOG_TRAJ_WAITING_TRAJECTORY, NO_ARGS);
      }
    }

    method DoTracking(now: RTCDateTime)
      requires Valid() && traj.View().InTable()
      modifies this`state, this`trace, traj, traj.table
      ensures View() == TrackingBehaviour(old(View()), now)
    {
      var target := new byte[ANTENNA_MESSAGE_LENGTH];
      var origin := TrajectoryPoint(traj.currentPoint);
      traj.GetNextTarget(target);
      WriteAntenna(origin, target[..]);
      var complete := traj.CheckCorrectLength();
      if complete {
        WriteLogTx(ID_MSG_LOG_TRAJ_FINISH_TRAJECTORY, NO_ARGS);
        traj.Init(now);
        state := Nominal;
      }
    }

    /** `emergencyBehaviour` up to its sleep. */
    method DoEmergency()
      requires Valid()
      modifies this`asleep, this`trace
      ensures View() == EmergencyBehaviour(old(View()))
    {
      WriteAntenna(FromEmergency, ANTENNA_SURVIE);
      asleep := true;
    }

    /** `emergencyBehaviour` after its sleep. */
    method FinishEmergency()
      requires Valid() && asleep
      modifies this`state, this`asleep, this`trace
      ensures View() == Wake(old(View()))
    {
      asleep := false;
      WriteLogTx(ID_MSG_LOG_EXIT_EMERGENCY, NO_ARGS);
      state := Nominal;
    }

    /** First half of the transmitter's loop. */
    method TransmitterOrder(missedPulse: bool)
      requires Valid()
      modifies this`orders, this`state, this`trace, traj
      ensures View() == TakeOrder(old(View()), missedPulse)
    {
      if missedPulse {
        WriteLogTx(ID_MSG_ALERT_NO_1PPS, NO_ARGS);
      }
      if orders != [] {
        var m := ReceiveOrder();
        ProcessReceived(m);
      }
    }

    method ProcessReceived(m: SimpleMessage)
      requires Valid()
      modifies this`state, this`trace, traj
      ensures View() == ProcessOrder(old(View()), m)
    {
      var verdict := TestEmergencyStop(m);
      if verdict <= 0 {
        WriteLogTx(ID_MSG_ALERT_ANTENNA_EMERGENCY, m.arguments);
      } else if state == Nominal {
        DoNominal(m);
      } else {
        WriteLogTx(ID_MSG_ALERT_MESSAGE_DROPPED, m.arguments);
      }
    }

    /** The loop body of the transmitter thread. */
    method TransmitterTurn(cal: Calendar, missedPulse: bool, now: RTCDateTime)
      requires Valid() && Safe(View(), Pulse(missedPulse, now))
      modifies this, traj, traj.table
      ensures View() == Tick(cal, old(View()), missedPulse, now)
    {
      TransmitterOrder(missedPulse);
      match state
      case Nominal =>
      case Waiting => DoWaiting(cal, now);
      case Tracking => DoTracking(now);
      case Emergency => DoEmergency();
    }

    // -------------------------------------------------------------------------- runs

    method HandleEvent(cal: Calendar, e: Event)
      requires Valid() && Safe(View(), e)
      modifies this, traj, traj.table
      ensures View() == Step(cal, old(View()), e)
    {
      match e
      case Rx(status, buffer, now) => ReceiverTurn(status, buffer, now);
      case Button => WriteEmergencyToOrder();
      case Pulse(missed, now) => TransmitterTurn(cal, missed, now);
      case EndOfSleep => FinishEmergency();
    }

    /** A whole run, in whatever order the threads take their turns. */
    method Execute(cal: Calendar, es: seq<Event>)
      requires Valid() && SafeRun(cal, View(), es)
      modifies this, traj, traj.table
      ensures View() == Run(cal, old(View()), es)
    {
      ghost var s := View();
      for i := 0 to |es|
        invariant View() == Run(cal, s, es[..i])
      {
        StepOfRun(cal, s, es, i);
        HandleEvent(cal, es[i]);
      }
      assert es[..|es|] == es;
    }
  }
}
