/** Passes that emergencies interrupt: whatever the button does, the frames of the pass are those of a
    run without it, up to the tick that answers an emergency while the pass is under way. */
module Interruptions {
  import opened Bytes
  import opened EndToEnd
  import opened Invariants
  import opened Messages
  import opened Protocol
  import opened SerialLink
  import opened Timing
  import opened Uploads

  // ------------------------------------------------------------ what a pass has sent

  /** A run of a pass after `base` was sent: a start of the preamble and the points. */
  predicate SentStart(up: Upload, base: seq<Args>, frames: seq<Args>) {
    base <= frames <= base + (PREAMBLE + up.points)
  }

  /** The transmitter on its way through a pass of which everything has arrived, or not. */
  predicate OnItsWay(up: Upload, sent: seq<Args>, arrived: bool, v: Sys) {
    && !v.asleep && v.state != Emergency && SentStart(up, sent, Frames(v.trace))
    && |v.orders| <= (if arrived then 4 else 3)
    && (v.state != Nominal ==> v.orders == [] && arrived)
  }

  lemma DrainingSent(up: Upload, sent: seq<Args>, total: seq<Args>, q: seq<SimpleMessage>, tail: seq<SimpleMessage>,
                     s: Sys, k: nat)
    requires k <= 3 && |q| <= k && total == PREAMBLE[..k] && Draining(sent + total, q, tail, s)
    ensures SentStart(up, sent, Frames(s.trace))
  {
    var f := Frames(s.trace);
    assert |f| + |q| == |sent| + k;
    assert f == (sent + total)[..|f|];
  }

  lemma LoadingOnItsWay(up: Upload, sent: seq<Args>, j: nat, v: Sys)
    requires Loading(up.points, sent, j, v)
    ensures OnItsWay(up, sent, false, v)
  {
    assert PREAMBLE[..3] == PREAMBLE;
    DrainingSent(up, sent, Preamble(j), v.orders, [], v, |Preamble(j)|);
  }

  lemma {:induction false} DrainingOnItsWay(cal: Calendar, u: Sys, up: Upload, sent: seq<Args>, q: seq<SimpleMessage>,
                                            ticks: seq<Event>)
    requires Ready(up, sent, q, u) && AllPulses(ticks) && |ticks| <= |q|
    ensures OnItsWay(up, sent, true, Run(cal, u, ticks))
  {
    Drains(cal, sent + PREAMBLE, q, [StartOrder(up.date)], u, ticks);
    assert PREAMBLE[..3] == PREAMBLE;
    DrainingSent(up, sent, PREAMBLE, q[|ticks|..], [StartOrder(up.date)], Run(cal, u, ticks), 3);
  }

  lemma PlayedSent(points: seq<Args>, base: seq<Args>, traj: Traj, m: nat)
    requires 1 <= m <= |points| <= MAX_TRAJ_LENGTH && forall k | 0 <= k < |points| :: traj.Point(k) == points[k]
    ensures base + PREAMBLE + [points[0]] + Points(traj, 1, m) <= base + (PREAMBLE + points)
  {
    LoadedPoints(traj, points, 1, m);
    assert [points[0]] + points[1..m] == points[..m];
    Associative(base + PREAMBLE, [points[0]], points[1..m]);
    Associative(base, PREAMBLE, points[..m]);
  }

  lemma PlayedOnItsWay(up: Upload, sent: seq<Args>, w: Sys, i: nat, inTime: bool, k: nat, v: Sys)
    requires 2 <= |up.points| <= MAX_TRAJ_LENGTH && Played(w, |up.points|, i, inTime, k, v)
    requires forall k | 0 <= k < |up.points| :: w.traj.Point(k) == up.points[k]
    requires Frames(w.trace) == sent + PREAMBLE + [up.points[0]]
    ensures OnItsWay(up, sent, true, v)
  {
    var m := if k <= i || !inTime then 1 else if |up.points| <= k - i then |up.points| else k - i;
    assert Points(w.traj, 1, 1) == [] && Frames(w.trace) + [] == Frames(w.trace);
    assert Frames(v.trace) == Frames(w.trace) + Points(w.traj, 1, m);
    PlayedSent(up.points, sent, w.traj, m);
  }

  lemma {:induction false} StartedOnItsWay(cal: Calendar, u: Sys, up: Upload, sent: seq<Args>, ticks: seq<Event>)
    requires up.Valid() && 2 <= |up.points| && Ready(up, sent, [], u) && AllPulses(ticks) && ticks != []
    ensures OnItsWay(up, sent, true, Run(cal, u, ticks))
  {
    var w, fs := TakeOrder(u, ticks[0].missed), OnPulse(ticks);
    Starts(up, sent, u, ticks[0].missed);
    StartTick(cal, u, ticks);
    var i := FirstDueTick(cal, cal(w.traj.initDate), fs);
    var inTime := i < |fs| && cal(fs[i].now) <= cal(w.traj.initDate);
    Plays(cal, w, |up.points|, fs, i, inTime);
    PlayedOnItsWay(up, sent, w, i, inTime, |fs|, Run(cal, w, fs));
  }

  lemma {:induction false} SplitOnItsWay(cal: Calendar, u: Sys, up: Upload, sent: seq<Args>, q: seq<SimpleMessage>,
                                         before: seq<Event>, after: seq<Event>)
    requires up.Valid() && 2 <= |up.points| && Ready(up, sent, q, u)
    requires AllPulses(before) && |before| == |q| && AllPulses(after) && after != []
    ensures OnItsWay(up, sent, true, Run(cal, u, before + after))
  {
    ReadyDrained(cal, u, up, sent, q, before);
    StartedOnItsWay(cal, Run(cal, u, before), up, sent, after);
    RunAppend(cal, u, before, after);
  }

  lemma {:induction false} ReadyOnItsWay(cal: Calendar, u: Sys, up: Upload, sent: seq<Args>, q: seq<SimpleMessage>,
                                         ticks: seq<Event>)
    requires up.Valid() && 2 <= |up.points| && Ready(up, sent, q, u) && AllPulses(ticks)
    ensures OnItsWay(up, sent, true, Run(cal, u, ticks))
  {
    if |ticks| <= |q| {
      DrainingOnItsWay(cal, u, up, sent, q, ticks);
    } else {
      var before, after, _ := CutTicks(cal, up.Target(cal), ticks, |q|);
      SplitOnItsWay(cal, u, up, sent, q, before, after);
    }
  }

  /** Every run without emergencies is on its way through the pass. */
  lemma {:induction false} HostOnItsWay(cal: Calendar, s: Sys, up: Upload, es: seq<Event>)
    requires Idle(s) && up.Valid() && 2 <= |up.points|
    requires HostAndTicks(es) && Receptions(es) <= up.Arriving()
    ensures OnItsWay(up, Frames(s.trace), Receptions(es) == up.Arriving(), Run(cal, s, es))
  {
    var j, d := |Receptions(es)|, up.Arriving();
    assert Receptions(es) == d[..j];
    if j < |d| {
      Loads(cal, s, up, es, j);
      LoadingOnItsWay(up, Frames(s.trace), j, Run(cal, s, es));
    } else {
      assert d[..j] == d;
      var arrivals, rest := SplitRun(es);
      var q := Loaded(cal, s, up, arrivals);
      SilentRun(cal, Run(cal, s, arrivals), rest);
      PulsesArePulses(rest);
      ReadyOnItsWay(cal, Run(cal, s, arrivals), up, Frames(s.trace), q, Pulses(rest));
      RunAppend(cal, s, arrivals, rest);
    }
  }

  // --------------------------------------------------------------- alike but for emergencies

  /** The frames that are no answer to an emergency. */
  function PassFrames(t: seq<Act>): seq<Args> {
    if t == [] then []
    else PassFrames(t[..|t| - 1])
         + match t[|t| - 1] case Sent(origin, frame) => if origin.FromEmergency? then [] else [frame] case _ => []
  }

  lemma PassFramesSnoc(t: seq<Act>, a: Act)
    ensures PassFrames(t + [a]) == if a.Sent? && !IsEmergencyFrame(a) then PassFrames(t) + [a.frame] else PassFrames(t)
  {
    assert (t + [a])[..|t|] == t;
  }

  /** Two states that only differ in their past, in which `base` and the frames of v are those of u. */
  predicate Alike(base: seq<Args>, u: Sys, v: Sys) {
    && u.orders == v.orders && u.traj == v.traj && u.state == v.state && u.asleep == v.asleep
    && PassFrames(u.trace) == base + Frames(v.trace)
  }

  lemma AlikeDo(base: seq<Args>, u: Sys, v: Sys, a: Act)
    requires Alike(base, u, v) && !IsEmergencyFrame(a)
    ensures Alike(base, u.Do(a), v.Do(a))
  {
    PassFramesSnoc(u.trace, a);
    FramesSnoc(v.trace, a);
    if a.Sent? {
      Associative(base, Frames(v.trace), [a.frame]);
    }
  }

  lemma AlikeProcess(base: seq<Args>, u: Sys, v: Sys, m: SimpleMessage)
    requires Alike(base, u, v)
    ensures Alike(base, ProcessOrder(u, m), ProcessOrder(v, m))
  {
    AlikeDo(base, u, v, ProcessOrder(v, m).trace[|v.trace|]);
  }

  lemma AlikeTakeOrder(base: seq<Args>, u: Sys, v: Sys, missed: bool)
    requires Alike(base, u, v)
    ensures Alike(base, TakeOrder(u, missed), TakeOrder(v, missed))
  {
    AlikeDo(base, u, v, LogTx(ID_MSG_ALERT_NO_1PPS, NO_ARGS));
    var u0, v0 := NotePulse(u, missed), NotePulse(v, missed);
    if u.orders != [] {
      var m := u.orders[0];
      var u1, v1 := u0.(orders := u.orders[1..]), v0.(orders := v.orders[1..]);
      AlikeDo(base, u1, v1, Dequeued(m));
      AlikeDo(base, u1.Do(Dequeued(m)), v1.Do(Dequeued(m)), EchoOrder(m));
      AlikeProcess(base, OpenOrder(u0), OpenOrder(v0), m);
    }
  }

  lemma AlikeTracking(base: seq<Args>, u: Sys, v: Sys, now: RTCDateTime)
    requires Alike(base, u, v)
    ensures Alike(base, TrackingBehaviour(u, now), TrackingBehaviour(v, now))
  {
    var a := Sent(TrajectoryPoint(u.traj.currentPoint), u.traj.Target());
    AlikeDo(base, u, v, a);
    AlikeDo(base, u.Do(a), v.Do(a), LogTx(ID_MSG_LOG_TRAJ_FINISH_TRAJECTORY, NO_ARGS));
  }

  lemma AlikeBehave(cal: Calendar, base: seq<Args>, u: Sys, v: Sys, now: RTCDateTime)
    requires Alike(base, u, v) && u.state != Emergency
    ensures Alike(base, Behave(cal, u, now), Behave(cal, v, now))
  {
    match u.state
    case Nominal =>
    case Waiting => AlikeDo(base, u, v, WaitingBehaviour(cal, v, now).trace[|v.trace|]);
    case Tracking => AlikeTracking(base, u, v, now);
  }

  // -------------------------------------------------- an interrupted run and one without

  /** Everything but emergencies is as in the state v of a run without them. */
  predicate Live(base: seq<Args>, u: Sys, v: Sys) {
    && Shape(u.orders) && AtLoopHead(u) && PassFrames(u.trace) == base + Frames(v.trace)
    && v.orders == Normals(u.orders) && v.traj == u.traj && !v.asleep && v.state != Emergency
    && u.state == (if u.asleep then Emergency else v.state)
    && (u.asleep ==> v.state == Nominal)
  }

  /** The pass has been cut short with v, and only emergencies are left to answer. */
  predicate Over(base: seq<Args>, u: Sys, v: Sys) {
    && Shape(u.orders) && Normals(u.orders) == [] && PassFrames(u.trace) == base + Frames(v.trace)
    && u.state == (if u.asleep then Emergency else Nominal)
  }

  /** The next order of the FIFO is an emergency. */
  predicate Alarmed(u: Sys) {
    u.orders != [] && u.orders[0] == SURVIE_ORDER
  }

  lemma Unalarmed(u: Sys)
    requires !Alarmed(u)
    ensures Normals(u.orders) == u.orders && Urgent(u.orders) == 0
  {
  }

  lemma LivePost(base: seq<Args>, u: Sys, v: Sys, m: SimpleMessage)
    requires Live(base, u, v) && Plain(m)
    ensures Live(base, PostOrder(u, m), PostOrder(v, m))
    ensures Urgent(PostOrder(u, m).orders) == Urgent(u.orders)
  {
    PushBack(u.orders, m);
    PassFramesSnoc(u.trace, Accepted(m));
    FramesSnoc(v.trace, Accepted(m));
  }

  lemma LiveLog(base: seq<Args>, u: Sys, v: Sys, id: byte, args: Args)
    requires Live(base, u, v)
    ensures Live(base, u.Do(LogRx(id, args)), v.Do(LogRx(id, args)))
  {
    PassFramesSnoc(u.trace, LogRx(id, args));
    FramesSnoc(v.trace, LogRx(id, args));
  }

  lemma LiveTrajectory(base: seq<Args>, u: Sys, v: Sys, m: SimpleMessage, now: RTCDateTime)
    requires Live(base, u, v)
    ensures Live(base, HandleTrajectory(u, m, now), HandleTrajectory(v, m, now))
    ensures HandleTrajectory(u, m, now).orders == u.orders
  {
    if m.id == ID_MSG_ORDER_TRAJ_CHECK_CORRECT {
      LiveLog(base, u, v, ID_MSG_LOG_TRAJ_RESPONSE_CORRECT, NO_ARGS[0 := if u.traj.Complete() then 1 else 0]);
    } else {
      LiveLog(base, u, v, ID_MSG_ALERT_BAD_MESSAGE_ID, m.arguments);
    }
  }

  lemma LiveReceive(base: seq<Args>, u: Sys, v: Sys, status: int, buffer: Payload, now: RTCDateTime)
    requires Live(base, u, v) && (status > 0 ==> !IsEmergency(MessageIn(buffer)))
    ensures var u' := Receive(u, status, buffer, now);
            Live(base, u', Receive(v, status, buffer, now)) && Urgent(u'.orders) == Urgent(u.orders)
  {
    var m := MessageIn(buffer);
    if status == 0 {
      LiveLog(base, u, v, ID_MSG_ALERT_CRC_ERROR, m.arguments);
    } else if status > 0 {
      if Posts(m) {
        OrderIsPlain(m);
        LivePost(base, u, v, OrderOf(m));
      } else if FIRST_ORDER_TRAJ_ID <= m.id && (m.id as int) < FIRST_ERROR_ID {
        LiveTrajectory(base, u, v, m, now);
      } else {
        LiveLog(base, u, v, ID_MSG_ALERT_BAD_MESSAGE_ID, m.arguments);
      }
    }
  }

  lemma UnalarmedTake(u: Sys, missed: bool)
    requires Shape(u.orders) && !Alarmed(u) && !u.asleep && u.state != Emergency
    ensures var w := TakeOrder(u, missed);
            Shape(w.orders) && !Alarmed(w) && !w.asleep && w.state != Emergency
  {
    if u.orders != [] {
      Pop(u.orders);
      Unalarmed(u);
      assert |u.orders| > 1 ==> Plain(Normals(u.orders)[1]);
    }
  }

  lemma AlikeIsLive(base: seq<Args>, u: Sys, v: Sys)
    requires Alike(base, u, v) && Shape(u.orders) && !Alarmed(u) && !u.asleep && u.state != Emergency
    ensures Live(base, u, v) && Urgent(u.orders) == 0
  {
    Unalarmed(u);
  }

  lemma BehaveStaysAwake(cal: Calendar, u: Sys, now: RTCDateTime)
    requires !u.asleep && u.state != Emergency
    ensures var u' := Behave(cal, u, now); u'.orders == u.orders && !u'.asleep && u'.state != Emergency
  {
  }

  /** A tick that answers no emergency. */
  lemma LiveTick(cal: Calendar, base: seq<Args>, u: Sys, v: Sys, missed: bool, now: RTCDateTime)
    requires Live(base, u, v) && !u.asleep && !Alarmed(u)
    ensures var u' := Tick(cal, u, missed, now);
            Live(base, u', Tick(cal, v, missed, now)) && Urgent(u'.orders) == 0
  {
    Unalarmed(u);
    UnalarmedTake(u, missed);
    AlikeTakeOrder(base, u, v, missed);
    BehaveStaysAwake(cal, TakeOrder(u, missed), now);
    AlikeBehave(cal, base, TakeOrder(u, missed), TakeOrder(v, missed), now);
    AlikeIsLive(base, Tick(cal, u, missed, now), Tick(cal, v, missed, now));
  }

  lemma OpenedPassFrames(u: Sys)
    requires u.orders != []
    ensures PassFrames(OpenOrder(u).trace) == PassFrames(u.trace)
  {
    PassFramesSnoc(u.trace, Dequeued(u.orders[0]));
    PassFramesSnoc(u.trace + [Dequeued(u.orders[0])], EchoOrder(u.orders[0]));
  }

  lemma AlarmTaken(u: Sys, missed: bool)
    requires Alarmed(u)
    ensures PassFrames(TakeOrder(u, missed).trace) == PassFrames(u.trace)
  {
    PassFramesSnoc(u.trace, LogTx(ID_MSG_ALERT_NO_1PPS, NO_ARGS));
    OpenedPassFrames(NotePulse(u, missed));
    PassFramesSnoc(OpenOrder(NotePulse(u, missed)).trace, LogTx(ID_MSG_ALERT_ANTENNA_EMERGENCY, u.orders[0].arguments));
  }

  /** A tick that answers an emergency. */
  lemma AlarmTick(cal: Calendar, u: Sys, missed: bool, now: RTCDateTime)
    requires Alarmed(u) && Shape(u.orders)
    ensures var u' := Tick(cal, u, missed, now);
            && u'.state == Emergency && u'.asleep && u'.traj == u.traj && Shape(u'.orders)
            && Normals(u'.orders) == Normals(u.orders) && Urgent(u'.orders) + 1 == Urgent(u.orders)
            && PassFrames(u'.trace) == PassFrames(u.trace)
  {
    Pop(u.orders);
    AlarmTaken(u, missed);
    TakeEmergency(u, missed);
    PassFramesSnoc(TakeOrder(u, missed).trace, Sent(FromEmergency, ANTENNA_SURVIE));
  }

  /** Ticks come from an awake transmitter only, and only a sleeping one ends its sleep. */
  predicate InTurn(u: Sys, e: Event) {
    (e.Pulse? ==> !u.asleep) && (e.EndOfSleep? ==> u.asleep)
  }

  lemma PressOrWake(base: seq<Args>, u: Sys, v: Sys)
    ensures Live(base, u, v) ==> Live(base, PostEmergency(u), v) && (u.asleep ==> Live(base, Wake(u), v))
    ensures Over(base, u, v) ==> Over(base, PostEmergency(u), v) && (u.asleep ==> Over(base, Wake(u), v))
    ensures Urgent(PostEmergency(u).orders) == 1 + Urgent(u.orders)
  {
    PushFront(u.orders);
    PassFramesSnoc(u.trace, AcceptedAhead(SURVIE_ORDER));
    PassFramesSnoc(u.trace, LogTx(ID_MSG_LOG_EXIT_EMERGENCY, NO_ARGS));
  }

  /** The tick that answers an emergency while the pass is under way. */
  predicate Cuts(u: Sys, e: Event) {
    e.Pulse? && Alarmed(u) && (u.state == Waiting || u.state == Tracking)
  }

  /** An event that a run without emergencies has too. */
  predicate Kept(u: Sys, e: Event) {
    e.Rx? || (e.Pulse? && !Alarmed(u))
  }

  /** Number of emergencies that the event adds to the FIFO, if the host sends none. */
  function Added(e: Event): nat {
    if e.Button? then 1 else 0
  }

  lemma LivePulse(cal: Calendar, base: seq<Args>, u: Sys, v: Sys, missed: bool, now: RTCDateTime)
    requires Live(base, u, v) && !u.asleep && (v.state != Nominal ==> v.orders == [])
    ensures var u' := Tick(cal, u, missed, now);
            && (if !Alarmed(u) then Live(base, u', Tick(cal, v, missed, now))
                else if u.state == Nominal then Live(base, u', v) else Over(base, u', v))
            && Urgent(u'.orders) <= Urgent(u.orders)
  {
    if Alarmed(u) {
      AlarmTick(cal, u, missed, now);
    } else {
      LiveTick(cal, base, u, v, missed, now);
    }
  }

  /** What the event makes of a live pass. */
  predicate Stepped(base: seq<Args>, u: Sys, v: Sys, e: Event, u': Sys, v': Sys) {
    && (if Cuts(u, e) then Over(base, u', v) && v' == v else Live(base, u', v'))
    && Urgent(u'.orders) <= Urgent(u.orders) + Added(e)
  }

  lemma LiveStep(cal: Calendar, base: seq<Args>, u: Sys, v: Sys, e: Event)
    requires Live(base, u, v) && InTurn(u, e) && (v.state != Nominal ==> v.orders == [])
    requires e.Rx? && e.status > 0 ==> !IsEmergency(MessageIn(e.buffer))
    ensures Stepped(base, u, v, e, Step(cal, u, e), if Kept(u, e) then Step(cal, v, e) else v)
  {
    match e
    case Rx(status, buffer, now) => LiveReceive(base, u, v, status, buffer, now);
    case Pulse(missed, now) => LivePulse(cal, base, u, v, missed, now);
    case Button => PressOrWake(base, u, v);
    case EndOfSleep => PressOrWake(base, u, v);
  }

  lemma IdlePassTick(cal: Calendar, u: Sys, missed: bool, now: RTCDateTime)
    requires u.state == Nominal && u.orders == []
    ensures var u' := Tick(cal, u, missed, now);
            && u'.state == Nominal && u'.orders == [] && u'.asleep == u.asleep
            && PassFrames(u'.trace) == PassFrames(u.trace)
  {
    PassFramesSnoc(u.trace, LogTx(ID_MSG_ALERT_NO_1PPS, NO_ARGS));
  }

  lemma OverStep(cal: Calendar, base: seq<Args>, u: Sys, v: Sys, e: Event)
    requires Over(base, u, v) && InTurn(u, e) && !IsReception(e)
    ensures Over(base, Step(cal, u, e), v) && Urgent(Step(cal, u, e).orders) <= Urgent(u.orders) + Added(e)
  {
    match e
    case Rx(_, _, _) =>
    case Pulse(missed, now) =>
      if Alarmed(u) {
        AlarmTick(cal, u, missed, now);
      } else {
        Unalarmed(u);
        IdlePassTick(cal, u, missed, now);
      }
    case Button => PressOrWake(base, u, v);
    case EndOfSleep => PressOrWake(base, u, v);
  }

  // ------------------------------------------------------------------- interrupted runs

  /** Every event of the run finds the transmitter where it can happen. */
  predicate Scheduled(cal: Calendar, s: Sys, es: seq<Event>) {
    es == [] || (Scheduled(cal, s, es[..|es| - 1]) && InTurn(Run(cal, s, es[..|es| - 1]), es[|es| - 1]))
  }

  /** An emergency was answered while the pass was under way. */
  predicate CutShort(cal: Calendar, s: Sys, es: seq<Event>) {
    es != []
    && (CutShort(cal, s, es[..|es| - 1]) || Cuts(Run(cal, s, es[..|es| - 1]), es[|es| - 1]))
  }

  /** The run without the button, the sleeps, the ticks that answer emergencies, and what comes after
      the one that cuts the pass short. */
  function Calmed(cal: Calendar, s: Sys, es: seq<Event>): seq<Event> {
    if es == [] then []
    else
      var k := |es| - 1;
      var earlier := Calmed(cal, s, es[..k]);
      if !CutShort(cal, s, es[..k]) && Kept(Run(cal, s, es[..k]), es[k]) then earlier + [es[k]] else earlier
  }

  function Presses(es: seq<Event>): nat {
    if es == [] then 0 else Presses(es[..|es| - 1]) + Added(es[|es| - 1])
  }

  /** The state before the pass, without its past. */
  function Afresh(s: Sys): Sys {
    s.(trace := [])
  }

  /** The interrupted run compared with the one without. */
  predicate Compared(cal: Calendar, s: Sys, up: Upload, es: seq<Event>)
    requires up.Valid()
  {
    var u, v, base := Run(cal, s, es), Run(cal, Afresh(s), Calmed(cal, s, es)), PassFrames(s.trace);
    && HostAndTicks(Calmed(cal, s, es)) && Receptions(Calmed(cal, s, es)) == Receptions(es)
    && (if CutShort(cal, s, es) then Over(base, u, v) && Receptions(es) == up.Arriving() else Live(base, u, v))
    && Urgent(u.orders) <= Presses(es)
  }

  lemma ScriptIds(up: Upload, j: nat)
    requires up.Valid() && j < |up.points| + 6
    ensures up.Messages()[j].id in {1, 2, 3, 6, 30, 31, 32}
  {
    if 5 <= j < |up.points| + 5 {
      ScriptPoint(up.points, up.date, up.unset, j);
    }
  }

  /** The host sends no emergency in a pass. */
  lemma NoEmergencyArrives(up: Upload, es: seq<Event>, e: Event)
    requires up.Valid() && e.Rx? && e.status > 0 && Receptions(es + [e]) <= up.Arriving()
    ensures !IsEmergency(MessageIn(e.buffer))
  {
    var j := |Receptions(es)|;
    assert (es + [e])[..|es|] == es;
    assert Receptions(es + [e])[j] == Received(e.status, e.buffer);
    ScriptIds(up, j);
    ArrivesCut(up.Messages()[j], up.rests[j]);
  }

  lemma AllArrived(up: Upload, es: seq<Event>, e: Event)
    requires up.Valid() && Receptions(es) == up.Arriving() && Receptions(es + [e]) <= up.Arriving()
    ensures !IsReception(e)
  {
    assert (es + [e])[..|es|] == es;
  }

  lemma SnocFacts(cal: Calendar, s: Sys, es: seq<Event>, e: Event)
    ensures Scheduled(cal, s, es + [e]) <==> Scheduled(cal, s, es) && InTurn(Run(cal, s, es), e)
    ensures CutShort(cal, s, es + [e]) <==> CutShort(cal, s, es) || Cuts(Run(cal, s, es), e)
    ensures Calmed(cal, s, es + [e])
            == Calmed(cal, s, es) + if !CutShort(cal, s, es) && Kept(Run(cal, s, es), e) then [e] else []
    ensures Presses(es + [e]) == Presses(es) + Added(e)
    ensures Receptions(es + [e])
            == if IsReception(e) then Receptions(es) + [Received(e.status, e.buffer)] else Receptions(es)
  {
    assert (es + [e])[..|es|] == es;
  }

  lemma {:induction false} CutSnoc(cal: Calendar, s: Sys, up: Upload, es: seq<Event>, e: Event)
    requires up.Valid() && CutShort(cal, s, es) && Compared(cal, s, up, es)
    requires InTurn(Run(cal, s, es), e) && Receptions(es + [e]) <= up.Arriving()
    ensures Compared(cal, s, up, es + [e])
  {
    SnocFacts(cal, s, es, e);
    RunSnoc(cal, s, es, e);
    AllArrived(up, es, e);
    OverStep(cal, PassFrames(s.trace), Run(cal, s, es), Run(cal, Afresh(s), Calmed(cal, s, es)), e);
  }

  lemma {:induction false} CalmedOnItsWay(cal: Calendar, s: Sys, up: Upload, es: seq<Event>)
    requires Idle(s) && up.Valid() && 2 <= |up.points| && Receptions(es) <= up.Arriving()
    requires HostAndTicks(Calmed(cal, s, es)) && Receptions(Calmed(cal, s, es)) == Receptions(es)
    ensures OnItsWay(up, [], Receptions(es) == up.Arriving(), Run(cal, Afresh(s), Calmed(cal, s, es)))
  {
    HostOnItsWay(cal, Afresh(s), up, Calmed(cal, s, es));
  }

  lemma {:induction false} CalmedSnoc(cal: Calendar, s: Sys, es: seq<Event>, e: Event)
    requires !CutShort(cal, s, es)
    requires HostAndTicks(Calmed(cal, s, es)) && Receptions(Calmed(cal, s, es)) == Receptions(es)
    ensures var fs := Calmed(cal, s, es + [e]);
            && HostAndTicks(fs) && Receptions(fs) == Receptions(es + [e])
            && Run(cal, Afresh(s), fs)
               == var v := Run(cal, Afresh(s), Calmed(cal, s, es));
                  if Kept(Run(cal, s, es), e) then Step(cal, v, e) else v
  {
    var fs := Calmed(cal, s, es);
    SnocFacts(cal, s, es, e);
    RunSnoc(cal, Afresh(s), fs, e);
    SnocFacts(cal, Afresh(s), fs, e);
  }

  lemma ReceptionsStart(es: seq<Event>, e: Event, all: seq<Received>)
    requires Receptions(es + [e]) <= all
    ensures Receptions(es) <= all && (IsReception(e) ==> Receptions(es) != all)
  {
    assert (es + [e])[..|es|] == es;
  }

  lemma {:induction false} UncutStep(cal: Calendar, base: seq<Args>, up: Upload, u: Sys, v: Sys, es: seq<Event>,
                                     e: Event)
    requires up.Valid() && Receptions(es + [e]) <= up.Arriving()
    requires Live(base, u, v) && OnItsWay(up, [], Receptions(es) == up.Arriving(), v) && InTurn(u, e)
    ensures Stepped(base, u, v, e, Step(cal, u, e), if Kept(u, e) then Step(cal, v, e) else v)
    ensures Cuts(u, e) ==> Receptions(es) == up.Arriving()
  {
    if e.Rx? && e.status > 0 {
      NoEmergencyArrives(up, es, e);
    }
    LiveStep(cal, base, u, v, e);
  }

  lemma {:induction false} ComparedSnoc(cal: Calendar, s: Sys, up: Upload, es: seq<Event>, e: Event)
    requires Idle(s) && up.Valid() && 2 <= |up.points| && Receptions(es + [e]) <= up.Arriving()
    ensures Compared(cal, s, up, es) && InTurn(Run(cal, s, es), e) ==> Compared(cal, s, up, es + [e])
  {
    if Compared(cal, s, up, es) && InTurn(Run(cal, s, es), e) {
      if CutShort(cal, s, es) {
        CutSnoc(cal, s, up, es, e);
      } else {
        SnocFacts(cal, s, es, e);
        RunSnoc(cal, s, es, e);
        ReceptionsStart(es, e, up.Arriving());
        CalmedOnItsWay(cal, s, up, es);
        CalmedSnoc(cal, s, es, e);
        UncutStep(cal, PassFrames(s.trace), up, Run(cal, s, es), Run(cal, Afresh(s), Calmed(cal, s, es)), es, e);
      }
    }
  }

  /** Until it is cut short, an interrupted run is in everything but emergencies where the run without
      them is: an emergency before the start order is taken costs the pass nothing.  From then on the
      transmitter only answers emergencies. */
  lemma {:induction false} RunCompared(cal: Calendar, s: Sys, up: Upload, es: seq<Event>)
    requires Idle(s) && up.Valid() && 2 <= |up.points|
    requires Receptions(es) <= up.Arriving() && Scheduled(cal, s, es)
    ensures Compared(cal, s, up, es)
  {
    if es != [] {
      var k := |es| - 1;
      RunCompared(cal, s, up, es[..k]);
      assert es == es[..k] + [es[k]];
      ComparedSnoc(cal, s, up, es[..k], es[k]);
    }
  }

  /** Every safe run is scheduled. */
  lemma {:induction false} SafeIsScheduled(cal: Calendar, s: Sys, es: seq<Event>)
    requires SafeRun(cal, s, es)
    ensures Scheduled(cal, s, es)
  {
    if es != [] {
      SafeIsScheduled(cal, s, es[..|es| - 1]);
    }
  }

  lemma AfterBase(up: Upload, base: seq<Args>, frames: seq<Args>)
    requires SentStart(up, [], frames)
    ensures SentStart(up, base, base + frames)
  {
  }

  /** However often it is interrupted, the frames of a pass are a start of the preamble and the points,
      in order. */
  lemma {:induction false} InterruptedPass(cal: Calendar, s: Sys, up: Upload, es: seq<Event>)
    requires Idle(s) && up.Valid() && 2 <= |up.points|
    requires Receptions(es) <= up.Arriving() && Scheduled(cal, s, es)
    ensures SentStart(up, PassFrames(s.trace), PassFrames(Run(cal, s, es).trace))
  {
    RunCompared(cal, s, up, es);
    CalmedOnItsWay(cal, s, up, es);
    AfterBase(up, PassFrames(s.trace), Frames(Run(cal, Afresh(s), Calmed(cal, s, es)).trace));
  }

  lemma LiveSafe(base: seq<Args>, u: Sys, v: Sys, e: Event)
    requires Live(base, u, v) && InTurn(u, e) && (Kept(u, e) ==> Safe(v, e))
    requires e.Button? || (e.Rx? && e.status > 0 && Posts(MessageIn(e.buffer))) ==> |u.orders| < FIFO_BUFFER_SIZE
    ensures Safe(u, e)
  {
    if e.Pulse? && !Alarmed(u) {
      Unalarmed(u);
      AlikeTakeOrder(base, u, v, false);
    }
  }

  lemma OverSafe(base: seq<Args>, u: Sys, v: Sys, e: Event)
    requires Over(base, u, v) && InTurn(u, e) && !IsReception(e)
    requires e.Button? ==> |u.orders| < FIFO_BUFFER_SIZE
    ensures Safe(u, e)
  {
    if e.Pulse? && !Alarmed(u) {
      Unalarmed(u);
    }
  }

  lemma {:induction false} NextOfHostIsSafe(cal: Calendar, s: Sys, up: Upload, fs: seq<Event>, e: Event)
    requires Idle(s) && up.Valid() && 2 <= |up.points|
    requires HostAndTicks(fs + [e]) && Receptions(fs + [e]) <= up.Arriving()
    ensures Safe(Run(cal, s, fs), e)
  {
    HostIsSafe(cal, s, up, fs + [e]);
    RunSnoc(cal, s, fs, e);
  }

  /** What is kept of an uncut run can go on. */
  lemma {:induction false} CalmedNextIsSafe(cal: Calendar, s: Sys, up: Upload, es: seq<Event>, e: Event)
    requires Idle(s) && up.Valid() && 2 <= |up.points| && Receptions(es + [e]) <= up.Arriving()
    ensures Compared(cal, s, up, es) && !CutShort(cal, s, es) && Kept(Run(cal, s, es), e) ==>
      Safe(Run(cal, Afresh(s), Calmed(cal, s, es)), e)
  {
    if Compared(cal, s, up, es) && !CutShort(cal, s, es) && Kept(Run(cal, s, es), e) {
      SnocFacts(cal, s, es, e);
      CalmedSnoc(cal, s, es, e);
      NextOfHostIsSafe(cal, Afresh(s), up, Calmed(cal, s, es), e);
    }
  }

  lemma {:induction false} ComparedSafe(cal: Calendar, s: Sys, up: Upload, es: seq<Event>, e: Event)
    requires Idle(s) && up.Valid() && 2 <= |up.points| && Receptions(es + [e]) <= up.Arriving()
    requires Presses(es + [e]) <= FIFO_BUFFER_SIZE - 4
    ensures Compared(cal, s, up, es) && InTurn(Run(cal, s, es), e) ==> Safe(Run(cal, s, es), e)
  {
    var fs, base := Calmed(cal, s, es), PassFrames(s.trace);
    var u, v := Run(cal, s, es), Run(cal, Afresh(s), fs);
    SnocFacts(cal, s, es, e);
    if Compared(cal, s, up, es) && InTurn(u, e) {
      if CutShort(cal, s, es) {
        AllArrived(up, es, e);
        OverSafe(base, u, v, e);
      } else {
        ReceptionsStart(es, e, up.Arriving());
        CalmedOnItsWay(cal, s, up, es);
        CalmedNextIsSafe(cal, s, up, es, e);
        LiveSafe(base, u, v, e);
      }
    }
  }

  lemma {:induction false} SafeSnoc(cal: Calendar, s: Sys, up: Upload, es: seq<Event>, e: Event)
    requires Idle(s) && up.Valid() && 2 <= |up.points| && Compared(cal, s, up, es)
    requires InTurn(Run(cal, s, es), e) && Receptions(es + [e]) <= up.Arriving()
    requires Presses(es + [e]) <= FIFO_BUFFER_SIZE - 4 && SafeRun(cal, s, es)
    ensures SafeRun(cal, s, es + [e])
  {
    ComparedSafe(cal, s, up, es, e);
    RunSnoc(cal, s, es, e);
  }

  /** With no more presses of the button than the pool has objects beyond the four orders of a pass,
      interruptions never make the code leave what it relies on. */
  lemma {:induction false} InterruptedIsSafe(cal: Calendar, s: Sys, up: Upload, es: seq<Event>)
    requires Idle(s) && up.Valid() && 2 <= |up.points|
    requires Receptions(es) <= up.Arriving() && Scheduled(cal, s, es)
    requires Presses(es) <= FIFO_BUFFER_SIZE - 4
    ensures SafeRun(cal, s, es)
  {
    if es != [] {
      var k := |es| - 1;
      assert es == es[..k] + [es[k]];
      SnocFacts(cal, s, es[..k], es[k]);
      ReceptionsStart(es[..k], es[k], up.Arriving());
      InterruptedIsSafe(cal, s, up, es[..k]);
      RunCompared(cal, s, up, es[..k]);
      SafeSnoc(cal, s, up, es[..k], es[k]);
    }
  }

  // ---------------------------------------------------------------- one press too many

  function Buttons(k: nat): (es: seq<Event>)
    ensures |es| == k
  {
    if k == 0 then [] else Buttons(k - 1) + [Button]
  }

  lemma {:induction false} PressesQueue(cal: Calendar, u: Sys, k: nat)
    ensures |Run(cal, u, Buttons(k)).orders| == |u.orders| + k
  {
    if k > 0 {
      PressesQueue(cal, u, k - 1);
      RunSnoc(cal, u, Buttons(k - 1), Button);
    }
  }

  /** Calls of the decoder only. */
  predicate NoTicks(es: seq<Event>) {
    forall i | 0 <= i < |es| :: es[i].Rx?
  }

  lemma ReceiveFrames(u: Sys, e: Event)
    requires e.Rx?
    ensures Frames(Receive(u, e.status, e.buffer, e.now).trace) == Frames(u.trace)
  {
    var acts := ReceiveActs(u, e.status, e.buffer, e.now);
    if acts != [] {
      assert acts == [acts[0]];
      UnsentFrames(u.trace, acts[0]);
    }
  }

  lemma {:induction false} NoTicksNoFrames(cal: Calendar, s: Sys, es: seq<Event>)
    requires NoTicks(es)
    ensures Frames(Run(cal, s, es).trace) == Frames(s.trace)
  {
    if es != [] {
      var k := |es| - 1;
      NoTicksNoFrames(cal, s, es[..k]);
      ReceiveFrames(Run(cal, s, es[..k]), es[k]);
    }
  }

  lemma {:induction false} NoTicksNoPulses(es: seq<Event>)
    requires NoTicks(es)
    ensures Pulses(es) == []
  {
    if es != [] {
      NoTicksNoPulses(es[..|es| - 1]);
    }
  }

  lemma {:induction false} NothingDrained(cal: Calendar, s: Sys, up: Upload, q: seq<SimpleMessage>,
                                          arrivals: seq<Event>)
    requires NoTicks(arrivals) && Ready(up, Frames(s.trace), q, Run(cal, s, arrivals))
    ensures |Run(cal, s, arrivals).orders| == 4
  {
    NoTicksNoFrames(cal, s, arrivals);
    assert |Frames(s.trace) + Arguments(q)| == |Frames(s.trace) + PREAMBLE|;
  }

  lemma {:induction false} SilenceAfter(cal: Calendar, s: Sys, arrivals: seq<Event>, rest: seq<Event>)
    requires NoTicks(rest) && Silent(rest)
    ensures Run(cal, s, arrivals + rest) == Run(cal, s, arrivals)
  {
    NoTicksNoPulses(rest);
    SilentRun(cal, Run(cal, s, arrivals), rest);
    RunAppend(cal, s, arrivals, rest);
  }

  lemma SplitNoTicks(a: seq<Event>, b: seq<Event>)
    requires NoTicks(a + b)
    ensures NoTicks(a) && NoTicks(b)
  {
    assert forall i | 0 <= i < |a| :: a[i] == (a + b)[i];
    assert forall i | 0 <= i < |b| :: b[i] == (a + b)[|a| + i];
  }

  /** A script that arrives between two ticks leaves four orders in the FIFO. */
  lemma {:induction false} FourOrders(cal: Calendar, s: Sys, up: Upload, es: seq<Event>)
    requires Idle(s) && up.Valid() && NoTicks(es) && Receptions(es) == up.Arriving()
    ensures |Run(cal, s, es).orders| == 4
  {
    var arrivals, rest := SplitRun(es);
    SplitNoTicks(arrivals, rest);
    var q := Loaded(cal, s, up, arrivals);
    NothingDrained(cal, s, up, q, arrivals);
    SilenceAfter(cal, s, arrivals, rest);
  }

  /** More presses than that can be too many: after such a script they exhaust the pool. */
  lemma {:induction false} OnePressTooMany(cal: Calendar, s: Sys, up: Upload, es: seq<Event>)
    requires Idle(s) && up.Valid() && NoTicks(es) && Receptions(es) == up.Arriving()
    ensures !SafeRun(cal, s, es + Buttons(FIFO_BUFFER_SIZE - 4 + 1))
  {
    var k, u := FIFO_BUFFER_SIZE - 4, Run(cal, s, es);
    FourOrders(cal, s, up, es);
    PressesQueue(cal, u, k);
    RunSnoc(cal, u, Buttons(k), Button);
    RunAppend(cal, s, es, Buttons(k + 1));
  }
}
