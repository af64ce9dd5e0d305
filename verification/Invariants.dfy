/** What every run keeps: the shape of the order FIFO, the conservation of orders, the fate of every
    order, and the silence of the trajectory after an emergency. */
module Invariants {
  import opened Messages
  import opened Protocol

  // ------------------------------------------------------------- reading off a trace

  /** Orders put at the back of the FIFO, in order of arrival. */
  function NormalIn(t: seq<Act>): seq<SimpleMessage> {
    if t == [] then []
    else NormalIn(t[..|t| - 1]) + match t[|t| - 1] case Accepted(m) => [m] case _ => []
  }

  /** Orders taken by the transmitter that are no emergencies. */
  function NormalOut(t: seq<Act>): seq<SimpleMessage> {
    if t == [] then []
    else NormalOut(t[..|t| - 1])
         + match t[|t| - 1] case Dequeued(m) => if IsEmergency(m) then [] else [m] case _ => []
  }

  /** Number of emergencies put at the front of the FIFO. */
  function UrgentIn(t: seq<Act>): nat {
    if t == [] then 0
    else UrgentIn(t[..|t| - 1]) + match t[|t| - 1] case AcceptedAhead(_) => 1 case _ => 0
  }

  /** Number of emergencies taken by the transmitter. */
  function UrgentOut(t: seq<Act>): nat {
    if t == [] then 0
    else UrgentOut(t[..|t| - 1])
         + match t[|t| - 1] case Dequeued(m) => if IsEmergency(m) then 1 else 0 case _ => 0
  }

  function Dequeues(t: seq<Act>): seq<SimpleMessage> {
    if t == [] then []
    else Dequeues(t[..|t| - 1]) + match t[|t| - 1] case Dequeued(m) => [m] case _ => []
  }

  /** An act that settles an order. */
  predicate IsFate(a: Act) {
    match a
    case Sent(origin, _) => !origin.TrajectoryPoint?
    case LogTx(id, _) => id == ID_MSG_ALERT_MESSAGE_DROPPED || id == ID_MSG_ALERT_BAD_MESSAGE_ID
    case _ => false
  }

  function Fates(t: seq<Act>): seq<Act> {
    if t == [] then []
    else Fates(t[..|t| - 1]) + if IsFate(t[|t| - 1]) then [t[|t| - 1]] else []
  }

  /** Every frame sent to the antenna. */
  function Frames(t: seq<Act>): seq<Args> {
    if t == [] then []
    else Frames(t[..|t| - 1]) + match t[|t| - 1] case Sent(_, frame) => [frame] case _ => []
  }

  predicate StartsTrajectory(a: Act) {
    a.Dequeued? && a.order.id == ID_MSG_ORDER_DO_TRAJ_AT_DATE
  }

  predicate IsEmergencyFrame(a: Act) {
    a.Sent? && a.origin == FromEmergency
  }

  predicate IsTrajectoryFrame(a: Act) {
    a.Sent? && (a.origin.TrajectoryStart? || a.origin.TrajectoryPoint?)
  }

  /** A trajectory order was taken, and no emergency frame was sent since. */
  predicate Armed(t: seq<Act>) {
    t != [] && (StartsTrajectory(t[|t| - 1]) || (!IsEmergencyFrame(t[|t| - 1]) && Armed(t[..|t| - 1])))
  }

  /** Every trajectory frame was sent while armed. */
  predicate Guarded(t: seq<Act>) {
    t == [] || (Guarded(t[..|t| - 1]) && (IsTrajectoryFrame(t[|t| - 1]) ==> Armed(t[..|t| - 1])))
  }

  /** At any time at most one order taken is not settled yet. */
  predicate Alternates(t: seq<Act>) {
    t == []
    || (Alternates(t[..|t| - 1]) && |Fates(t)| <= |Dequeues(t)| <= |Fates(t)| + 1)
  }

  lemma TraceSnoc(t: seq<Act>, a: Act)
    ensures NormalIn(t + [a]) == if a.Accepted? then NormalIn(t) + [a.order] else NormalIn(t)
    ensures NormalOut(t + [a])
            == if a.Dequeued? && !IsEmergency(a.order) then NormalOut(t) + [a.order] else NormalOut(t)
    ensures UrgentIn(t + [a]) == if a.AcceptedAhead? then UrgentIn(t) + 1 else UrgentIn(t)
    ensures UrgentOut(t + [a]) == if a.Dequeued? && IsEmergency(a.order) then UrgentOut(t) + 1 else UrgentOut(t)
  {
    assert (t + [a])[..|t|] == t;
  }

  lemma FateSnoc(t: seq<Act>, a: Act)
    ensures Dequeues(t + [a]) == if a.Dequeued? then Dequeues(t) + [a.order] else Dequeues(t)
    ensures Fates(t + [a]) == if IsFate(a) then Fates(t) + [a] else Fates(t)
    ensures Alternates(t + [a])
            <==> Alternates(t) && |Fates(t + [a])| <= |Dequeues(t + [a])| <= |Fates(t + [a])| + 1
  {
    assert (t + [a])[..|t|] == t;
  }

  lemma GuardSnoc(t: seq<Act>, a: Act)
    ensures Armed(t + [a]) <==> StartsTrajectory(a) || (!IsEmergencyFrame(a) && Armed(t))
    ensures Guarded(t + [a]) <==> Guarded(t) && (IsTrajectoryFrame(a) ==> Armed(t))
  {
    assert (t + [a])[..|t|] == t;
  }

  lemma FramesSnoc(t: seq<Act>, a: Act)
    ensures Frames(t + [a]) == if a.Sent? then Frames(t) + [a.frame] else Frames(t)
  {
    assert (t + [a])[..|t|] == t;
  }

  lemma Associative<T>(a: seq<T>, b: seq<T>, c: seq<T>)
    ensures a + b + c == a + (b + c)
  {
  }

  // ----------------------------------------------------------- the shape of the FIFO

  /** Length of the block of emergencies at the front. */
  function Urgent(orders: seq<SimpleMessage>): (k: nat)
    ensures k <= |orders|
    ensures forall i | 0 <= i < k :: orders[i] == SURVIE_ORDER
  {
    if orders == [] || orders[0] != SURVIE_ORDER then 0
    else
      var rest := Urgent(orders[1..]);
      assert forall i | 0 < i <= rest :: orders[i] == orders[1..][i - 1];
      1 + rest
  }

  function Normals(orders: seq<SimpleMessage>): seq<SimpleMessage> {
    orders[Urgent(orders)..]
  }

  /** An order that the receiver queues at the back. */
  predicate Plain(m: SimpleMessage) {
    !IsEmergency(m)
    && (m.id == ID_MSG_ORDER_GOTO || m.id == ID_MSG_ORDER_ANTENNA || m.id == ID_MSG_ORDER_DO_TRAJ_AT_DATE)
  }

  /** A block of emergencies followed only by orders that the emergency test rejects. */
  predicate Shape(orders: seq<SimpleMessage>) {
    forall i | 0 <= i < |Normals(orders)| :: Plain(Normals(orders)[i])
  }

  lemma PushFront(orders: seq<SimpleMessage>)
    ensures Urgent([SURVIE_ORDER] + orders) == 1 + Urgent(orders)
    ensures Normals([SURVIE_ORDER] + orders) == Normals(orders)
  {
    assert ([SURVIE_ORDER] + orders)[1..] == orders;
  }

  lemma {:induction false} PushBack(orders: seq<SimpleMessage>, m: SimpleMessage)
    requires m != SURVIE_ORDER
    ensures Urgent(orders + [m]) == Urgent(orders)
    ensures Normals(orders + [m]) == Normals(orders) + [m]
  {
    if orders != [] && orders[0] == SURVIE_ORDER {
      assert (orders + [m])[1..] == orders[1..] + [m];
      PushBack(orders[1..], m);
    }
  }

  lemma Pop(orders: seq<SimpleMessage>)
    requires orders != [] && Shape(orders)
    ensures IsEmergency(orders[0]) <==> orders[0] == SURVIE_ORDER
    ensures orders[0] == SURVIE_ORDER ==>
      Urgent(orders) == 1 + Urgent(orders[1..]) && Normals(orders) == Normals(orders[1..])
    ensures orders[0] != SURVIE_ORDER ==>
      Urgent(orders) == Urgent(orders[1..]) == 0 && Normals(orders) == [orders[0]] + Normals(orders[1..])
      && Plain(orders[0])
    ensures Shape(orders[1..])
  {
    if orders[0] != SURVIE_ORDER {
      assert Normals(orders) == orders;
      assert orders[0] == Normals(orders)[0];
      if |orders| > 1 {
        assert Plain(Normals(orders)[1]);
        assert orders[1..][0] != SURVIE_ORDER;
      }
      assert Normals(orders[1..]) == orders[1..];
      forall i | 0 <= i < |orders[1..]| ensures Plain(orders[1..][i]) {
        assert Plain(Normals(orders)[i + 1]);
      }
    } else {
      assert Normals(orders[1..]) == Normals(orders);
    }
  }

  lemma AnyEmergencyIsFirst(orders: seq<SimpleMessage>, i: nat)
    requires Shape(orders) && i < |orders| && IsEmergency(orders[i])
    ensures orders[0] == SURVIE_ORDER
  {
    assert i >= Urgent(orders) ==> Plain(Normals(orders)[i - Urgent(orders)]);
  }

  // --------------------------------------------------------- conservation of orders

  /** Everything accepted is either still queued or was dequeued; normal orders keep their order. */
  predicate Conserved(s: Sys) {
    && Shape(s.orders)
    && NormalIn(s.trace) == NormalOut(s.trace) + Normals(s.orders)
    && UrgentIn(s.trace) == UrgentOut(s.trace) + Urgent(s.orders)
  }

  /** Neither puts an order in nor takes one out. */
  predicate Neutral(a: Act) {
    !a.Accepted? && !a.AcceptedAhead? && !a.Dequeued?
  }

  lemma ConservedBy(s: Sys, s': Sys, a: Act)
    requires Conserved(s) && Neutral(a) && s'.orders == s.orders && s'.trace == s.trace + [a]
    ensures Conserved(s')
  {
    TraceSnoc(s.trace, a);
  }

  lemma ConservedPostEmergency(s: Sys)
    requires Conserved(s)
    ensures Conserved(PostEmergency(s))
  {
    TraceSnoc(s.trace, AcceptedAhead(SURVIE_ORDER));
    PushFront(s.orders);
  }

  lemma ConservedPostOrder(s: Sys, m: SimpleMessage)
    requires Conserved(s) && Plain(m)
    ensures Conserved(PostOrder(s, m))
  {
    TraceSnoc(s.trace, Accepted(m));
    PushBack(s.orders, m);
    Associative(NormalOut(s.trace), Normals(s.orders), [m]);
  }

  lemma SurvieHasNoTerminator()
    ensures 0 !in ANTENNA_SURVIE
  {
  }

  lemma NotSurvie(frame: Args, i: nat)
    requires i < ANTENNA_MESSAGE_LENGTH && frame[i] != ANTENNA_SURVIE[i]
    ensures !StrnEqual(frame, ANTENNA_SURVIE)
  {
    SurvieHasNoTerminator();
    StrnEqualExact(frame, ANTENNA_SURVIE);
  }

  lemma OrderIsPlain(m: SimpleMessage)
    requires !IsEmergency(m) && Posts(m)
    ensures Plain(OrderOf(m))
  {
    NotSurvie(ANTENNA_DESACTIVATE, 1);
    NotSurvie(ANTENNA_REINI, 2);
    NotSurvie(ANTENNA_CALLAGE, 2);
  }

  lemma {:induction false} ConservedReceive(s: Sys, status: int, buffer: Payload, now: RTCDateTime)
    requires Conserved(s)
    ensures Conserved(Receive(s, status, buffer, now))
  {
    var m := MessageIn(buffer);
    var s' := Receive(s, status, buffer, now);
    if status > 0 && Posts(m) {
      if IsEmergency(m) {
        ConservedPostEmergency(s);
      } else {
        OrderIsPlain(m);
        ConservedPostOrder(s, OrderOf(m));
      }
    } else if s'.trace != s.trace {
      ConservedBy(s, s', s'.trace[|s.trace|]);
    }
  }

  lemma {:induction false} ConservedProcess(s: Sys, m: SimpleMessage)
    requires Conserved(s)
    ensures Conserved(ProcessOrder(s, m))
    ensures ProcessOrder(s, m).orders == s.orders
  {
    var s' := ProcessOrder(s, m);
    ConservedBy(s, s', s'.trace[|s.trace|]);
  }

  lemma ConservedDequeue(s: Sys)
    requires Conserved(s) && s.orders != []
    ensures Conserved(s.(orders := s.orders[1..]).Do(Dequeued(s.orders[0])))
  {
    TraceSnoc(s.trace, Dequeued(s.orders[0]));
    Pop(s.orders);
    Associative(NormalOut(s.trace), [s.orders[0]], Normals(s.orders[1..]));
  }

  lemma ConservedTakeOrder(s: Sys, missedPulse: bool)
    requires Conserved(s)
    ensures Conserved(TakeOrder(s, missedPulse))
  {
    var s0 := NotePulse(s, missedPulse);
    if missedPulse {
      ConservedBy(s, s0, LogTx(ID_MSG_ALERT_NO_1PPS, NO_ARGS));
    }
    if s.orders != [] {
      var m := s.orders[0];
      ConservedDequeue(s0);
      var s1 := s0.(orders := s.orders[1..]).Do(Dequeued(m));
      ConservedBy(s1, s1.Do(EchoOrder(m)), EchoOrder(m));
      ConservedProcess(s1.Do(EchoOrder(m)), m);
    }
  }

  lemma {:induction false} ConservedBehave(cal: Calendar, s: Sys, now: RTCDateTime)
    requires Conserved(s)
    ensures Conserved(Behave(cal, s, now))
  {
    match s.state
    case Nominal =>
    case Waiting =>
      var s' := WaitingBehaviour(cal, s, now);
      ConservedBy(s, s', s'.trace[|s.trace|]);
    case Tracking =>
      var a := Sent(TrajectoryPoint(s.traj.currentPoint), s.traj.Target());
      var s1 := s.(traj := s.traj.Advance()).Do(a);
      ConservedBy(s, s1, a);
      if s1.traj.Complete() {
        ConservedBy(s1, TrackingBehaviour(s, now), LogTx(ID_MSG_LOG_TRAJ_FINISH_TRAJECTORY, NO_ARGS));
      }
    case Emergency =>
      ConservedBy(s, EmergencyBehaviour(s), Sent(FromEmergency, ANTENNA_SURVIE));
  }

  /** In every run from the initial state the accepted orders are those still queued plus those
      dequeued, the FIFO is a block of emergencies followed by plain orders only, and orders that
      are no emergencies leave in the order in which they arrived. */
  lemma {:induction false} OrdersConserved(cal: Calendar, s: Sys, es: seq<Event>)
    requires Initial(s)
    ensures Conserved(Run(cal, s, es))
  {
    if es == [] {
    } else {
      var n := |es| - 1;
      OrdersConserved(cal, s, es[..n]);
      var u := Run(cal, s, es[..n]);
      match es[n]
      case Rx(status, buffer, now) => ConservedReceive(u, status, buffer, now);
      case Button => ConservedPostEmergency(u);
      case Pulse(missed, now) =>
        ConservedTakeOrder(u, missed);
        ConservedBehave(cal, TakeOrder(u, missed), now);
      case EndOfSleep => ConservedBy(u, Wake(u), LogTx(ID_MSG_LOG_EXIT_EMERGENCY, NO_ARGS));
    }
  }

  // -------------------------------------------------------------- fate of every order

  /** The act settles that order, in the way its kind allows. */
  predicate Fits(m: SimpleMessage, a: Act) {
    if IsEmergency(m) then a == Sent(FromEmergency, ANTENNA_SURVIE)
    else
      || a == LogTx(ID_MSG_ALERT_MESSAGE_DROPPED, m.arguments)
      || (m.id == ID_MSG_ORDER_ANTENNA && a == Sent(FromOrder, m.arguments))
      || (m.id == ID_MSG_ORDER_DO_TRAJ_AT_DATE && a.Sent? && a.origin == TrajectoryStart)
      || (m.id == ID_MSG_ORDER_GOTO && a == LogTx(ID_MSG_ALERT_BAD_MESSAGE_ID, m.arguments))
  }

  /** The transmitter has seen an emergency in this tick and not answered it yet. */
  predicate Unanswered(s: Sys) {
    s.state == Emergency && !s.asleep
  }

  /** The k-th order taken has the k-th fate, and none but an unanswered emergency is open. */
  predicate Settled(s: Sys) {
    var d, f := Dequeues(s.trace), Fates(s.trace);
    && Alternates(s.trace)
    && |d| == |f| + (if Unanswered(s) then 1 else 0)
    && (Unanswered(s) ==> IsEmergency(d[|d| - 1]))
    && forall k | 0 <= k < |f| :: Fits(d[k], f[k])
  }

  /** Emergencies are answered by the tick that sees them. */
  predicate AtLoopHead(s: Sys) {
    s.asleep <==> s.state == Emergency
  }

  lemma SettledBy(s: Sys, s': Sys, a: Act)
    requires Settled(s) && s'.trace == s.trace + [a] && !a.Dequeued? && !IsFate(a)
    requires Unanswered(s') == Unanswered(s)
    ensures Settled(s')
  {
    FateSnoc(s.trace, a);
  }

  /** The receiver adds at most one act, which neither takes nor settles an order. */
  lemma ReceiveActs(s: Sys, status: int, buffer: Payload, now: RTCDateTime) returns (acts: seq<Act>)
    ensures |acts| <= 1 && Receive(s, status, buffer, now).trace == s.trace + acts
    ensures forall a | a in acts :: !a.Dequeued? && !a.Sent? && !a.LogTx?
    ensures Receive(s, status, buffer, now).state == s.state
    ensures Receive(s, status, buffer, now).asleep == s.asleep
  {
    acts := Receive(s, status, buffer, now).trace[|s.trace|..];
  }

  lemma {:induction false} SettledReceive(s: Sys, status: int, buffer: Payload, now: RTCDateTime)
    requires Settled(s) && AtLoopHead(s)
    ensures var s' := Receive(s, status, buffer, now); Settled(s') && AtLoopHead(s')
  {
    var acts := ReceiveActs(s, status, buffer, now);
    if acts != [] {
      assert acts == [acts[0]];
      SettledBy(s, Receive(s, status, buffer, now), acts[0]);
    }
  }

  /** Processing an order adds one act: the announcement of an emergency, or the order's fate. */
  lemma ProcessActs(s: Sys, m: SimpleMessage) returns (a: Act)
    requires IsEmergency(m) || Plain(m)
    ensures ProcessOrder(s, m).trace == s.trace + [a] && !a.Dequeued? && !IsEmergencyFrame(a)
    ensures IsEmergency(m) ==> !IsFate(a) && ProcessOrder(s, m).state == Emergency
    ensures !IsEmergency(m) ==> IsFate(a) && Fits(m, a)
    ensures !IsEmergency(m) && s.state != Emergency ==> ProcessOrder(s, m).state != Emergency
    ensures ProcessOrder(s, m).asleep == s.asleep
  {
    a := ProcessOrder(s, m).trace[|s.trace|];
  }

  lemma OpenedActs(t: seq<Act>, m: SimpleMessage)
    requires Alternates(t) && |Dequeues(t)| == |Fates(t)|
    requires m.id as int + ID_MSG_LOG_REEMIT_OFFSET < 256
    ensures var t' := t + [Dequeued(m)] + [EchoOrder(m)];
            Alternates(t') && Dequeues(t') == Dequeues(t) + [m] && Fates(t') == Fates(t)
  {
    FateSnoc(t, Dequeued(m));
    assert !IsFate(EchoOrder(m));
    FateSnoc(t + [Dequeued(m)], EchoOrder(m));
  }

  lemma OpenOrderActs(t: seq<Act>, m: SimpleMessage, a: Act)
    requires Alternates(t) && |Dequeues(t)| == |Fates(t)|
    requires m.id as int + ID_MSG_LOG_REEMIT_OFFSET < 256 && !a.Dequeued?
    ensures var t' := t + [Dequeued(m)] + [EchoOrder(m)] + [a];
            && Alternates(t')
            && Dequeues(t') == Dequeues(t) + [m]
            && Fates(t') == if IsFate(a) then Fates(t) + [a] else Fates(t)
  {
    OpenedActs(t, m);
    FateSnoc(t + [Dequeued(m)] + [EchoOrder(m)], a);
  }

  /** From the dequeuing of an order to its fate, or to the emergency state. */
  lemma SettledOrder(s: Sys, m: SimpleMessage)
    requires Settled(s) && s.state != Emergency && !s.asleep && (IsEmergency(m) || Plain(m))
    ensures var s1 := s.Do(Dequeued(m)).Do(EchoOrder(m)); Settled(ProcessOrder(s1, m))
  {
    var a := ProcessActs(s.Do(Dequeued(m)).Do(EchoOrder(m)), m);
    OpenOrderActs(s.trace, m, a);
  }

  lemma SettledTakeOrder(s: Sys, missedPulse: bool)
    requires Settled(s) && AtLoopHead(s) && !s.asleep && Shape(s.orders)
    ensures Settled(TakeOrder(s, missedPulse)) && !TakeOrder(s, missedPulse).asleep
  {
    var s0 := NotePulse(s, missedPulse);
    if missedPulse {
      SettledBy(s, s0, LogTx(ID_MSG_ALERT_NO_1PPS, NO_ARGS));
    }
    if s.orders != [] {
      Pop(s.orders);
      SettledOrder(s0.(orders := s.orders[1..]), s.orders[0]);
    }
  }

  lemma SettledTracking(s: Sys, now: RTCDateTime)
    requires Settled(s) && !s.asleep && s.state == Tracking
    ensures Settled(TrackingBehaviour(s, now))
  {
    var a := Sent(TrajectoryPoint(s.traj.currentPoint), s.traj.Target());
    var s1 := s.(traj := s.traj.Advance()).Do(a);
    SettledBy(s, s1, a);
    if s1.traj.Complete() {
      SettledBy(s1, TrackingBehaviour(s, now), LogTx(ID_MSG_LOG_TRAJ_FINISH_TRAJECTORY, NO_ARGS));
    }
  }

  lemma SettledEmergency(s: Sys)
    requires Settled(s) && Unanswered(s)
    ensures Settled(EmergencyBehaviour(s))
  {
    FateSnoc(s.trace, Sent(FromEmergency, ANTENNA_SURVIE));
  }

  lemma SettledBehave(cal: Calendar, s: Sys, now: RTCDateTime)
    requires Settled(s) && !s.asleep
    ensures Settled(Behave(cal, s, now)) && AtLoopHead(Behave(cal, s, now))
  {
    match s.state
    case Nominal =>
    case Waiting =>
      var s' := WaitingBehaviour(cal, s, now);
      SettledBy(s, s', s'.trace[|s.trace|]);
    case Tracking => SettledTracking(s, now);
    case Emergency => SettledEmergency(s);
  }

  /** In every run each order taken has exactly one fate, in the order of taking, and the emergency
      state is never seen at the head of the transmitter loop: it only lasts for the sleep. */
  lemma {:induction false} EveryOrderSettled(cal: Calendar, s: Sys, es: seq<Event>)
    requires Initial(s) && SafeRun(cal, s, es)
    ensures Settled(Run(cal, s, es)) && AtLoopHead(Run(cal, s, es))
  {
    if es != [] {
      var n := |es| - 1;
      var u := Run(cal, s, es[..n]);
      EveryOrderSettled(cal, s, es[..n]);
      OrdersConserved(cal, s, es[..n]);
      match es[n]
      case Rx(status, buffer, now) => SettledReceive(u, status, buffer, now);
      case Button => SettledBy(u, PostEmergency(u), AcceptedAhead(SURVIE_ORDER));
      case Pulse(missed, now) =>
        SettledTakeOrder(u, missed);
        SettledBehave(cal, TakeOrder(u, missed), now);
      case EndOfSleep => SettledBy(u, Wake(u), LogTx(ID_MSG_LOG_EXIT_EMERGENCY, NO_ARGS));
    }
  }

  /** What `Settled` says about the past: at no time was more than one order open. */
  lemma {:induction false} OneOrderAtATime(t: seq<Act>, i: nat)
    requires Alternates(t) && i <= |t|
    ensures |Fates(t[..i])| <= |Dequeues(t[..i])| <= |Fates(t[..i])| + 1
  {
    if i == |t| {
      assert t[..i] == t;
    } else {
      OneOrderAtATime(t[..|t| - 1], i);
      assert t[..|t| - 1][..i] == t[..i];
    }
  }

  // --------------------------------------------------- no trajectory after an emergency

  /** Waiting and tracking happen only while armed, and so do trajectory frames. */
  predicate Quiet(s: Sys) {
    && Guarded(s.trace)
    && (s.state == Waiting || s.state == Tracking ==> Armed(s.trace))
  }

  lemma QuietBy(s: Sys, s': Sys, a: Act)
    requires Quiet(s) && s'.trace == s.trace + [a] && !IsEmergencyFrame(a)
    requires s'.state == s.state || s'.state == Nominal || s'.state == Emergency
             || (s.state == Waiting && s'.state == Tracking)
    requires IsTrajectoryFrame(a) ==> Armed(s.trace)
    ensures Quiet(s')
  {
    GuardSnoc(s.trace, a);
  }

  lemma QuietOrder(s: Sys, m: SimpleMessage)
    requires Quiet(s)
    ensures var s1 := s.Do(Dequeued(m)).Do(EchoOrder(m)); Quiet(ProcessOrder(s1, m))
  {
    GuardSnoc(s.trace, Dequeued(m));
    GuardSnoc(s.trace + [Dequeued(m)], EchoOrder(m));
    QuietProcess(s.Do(Dequeued(m)).Do(EchoOrder(m)), m);
  }

  lemma NominalActs(s: Sys, m: SimpleMessage) returns (a: Act)
    ensures NominalBehaviour(s, m).trace == s.trace + [a] && !IsEmergencyFrame(a)
    ensures m.id != ID_MSG_ORDER_DO_TRAJ_AT_DATE ==>
      !IsTrajectoryFrame(a) && NominalBehaviour(s, m).state == s.state
  {
    a := NominalBehaviour(s, m).trace[|s.trace|];
  }

  lemma QuietNominal(s: Sys, m: SimpleMessage)
    requires Quiet(s) && (m.id == ID_MSG_ORDER_DO_TRAJ_AT_DATE ==> Armed(s.trace))
    ensures Quiet(NominalBehaviour(s, m))
  {
    var a := NominalActs(s, m);
    GuardSnoc(s.trace, a);
  }

  lemma QuietProcess(s: Sys, m: SimpleMessage)
    requires Quiet(s) && (m.id == ID_MSG_ORDER_DO_TRAJ_AT_DATE ==> Armed(s.trace))
    ensures Quiet(ProcessOrder(s, m))
  {
    QuietNominal(s, m);
    GuardSnoc(s.trace, LogTx(ID_MSG_ALERT_ANTENNA_EMERGENCY, m.arguments));
    GuardSnoc(s.trace, LogTx(ID_MSG_ALERT_MESSAGE_DROPPED, m.arguments));
  }

  lemma QuietTick(cal: Calendar, s: Sys, missed: bool, now: RTCDateTime)
    requires Quiet(s)
    ensures Quiet(Tick(cal, s, missed, now))
  {
    var s0 := NotePulse(s, missed);
    if missed {
      QuietBy(s, s0, LogTx(ID_MSG_ALERT_NO_1PPS, NO_ARGS));
    }
    if s.orders != [] {
      QuietOrder(s0.(orders := s.orders[1..]), s.orders[0]);
    }
    QuietBehave(cal, TakeOrder(s, missed), now);
  }

  lemma QuietBehave(cal: Calendar, s: Sys, now: RTCDateTime)
    requires Quiet(s)
    ensures Quiet(Behave(cal, s, now))
  {
    match s.state
    case Nominal =>
    case Waiting =>
      var s' := WaitingBehaviour(cal, s, now);
      QuietBy(s, s', s'.trace[|s.trace|]);
    case Tracking =>
      var a := Sent(TrajectoryPoint(s.traj.currentPoint), s.traj.Target());
      var s1 := s.(traj := s.traj.Advance()).Do(a);
      QuietBy(s, s1, a);
      if s1.traj.Complete() {
        QuietBy(s1, TrackingBehaviour(s, now), LogTx(ID_MSG_LOG_TRAJ_FINISH_TRAJECTORY, NO_ARGS));
      }
    case Emergency =>
      GuardSnoc(s.trace, Sent(FromEmergency, ANTENNA_SURVIE));
  }

  lemma QuietReceive(s: Sys, status: int, buffer: Payload, now: RTCDateTime)
    requires Quiet(s)
    ensures Quiet(Receive(s, status, buffer, now))
  {
    var acts := ReceiveActs(s, status, buffer, now);
    if acts != [] {
      assert acts == [acts[0]];
      QuietBy(s, Receive(s, status, buffer, now), acts[0]);
    }
  }

  lemma {:induction false} RunIsQuiet(cal: Calendar, s: Sys, es: seq<Event>)
    requires Initial(s)
    ensures Quiet(Run(cal, s, es))
  {
    if es != [] {
      var n := |es| - 1;
      RunIsQuiet(cal, s, es[..n]);
      var u := Run(cal, s, es[..n]);
      match es[n]
      case Rx(status, buffer, now) => QuietReceive(u, status, buffer, now);
      case Button => QuietBy(u, PostEmergency(u), AcceptedAhead(SURVIE_ORDER));
      case Pulse(missed, now) => QuietTick(cal, u, missed, now);
      case EndOfSleep => QuietBy(u, Wake(u), LogTx(ID_MSG_LOG_EXIT_EMERGENCY, NO_ARGS));
    }
  }

  lemma {:induction false} ArmedWitness(t: seq<Act>, i: nat) returns (k: nat)
    requires Armed(t) && i < |t| && IsEmergencyFrame(t[i])
    ensures i < k < |t| && StartsTrajectory(t[k])
  {
    k := |t| - 1;
    if !StartsTrajectory(t[k]) {
      k := ArmedWitness(t[..k], i);
    }
  }

  lemma {:induction false} GuardedAt(t: seq<Act>, j: nat)
    requires Guarded(t) && j < |t| && IsTrajectoryFrame(t[j])
    ensures Armed(t[..j])
  {
    if j < |t| - 1 {
      GuardedAt(t[..|t| - 1], j);
      assert t[..|t| - 1][..j] == t[..j];
    }
  }

  /** In every run, between an emergency frame and any later trajectory frame a trajectory order was
      dequeued, whatever the emergency interrupted. */
  lemma NoTrajectoryAfterEmergency(cal: Calendar, s: Sys, es: seq<Event>, i: nat, j: nat)
    requires Initial(s)
    requires var t := Run(cal, s, es).trace;
             i < j < |t| && IsEmergencyFrame(t[i]) && IsTrajectoryFrame(t[j])
    ensures var t := Run(cal, s, es).trace;
            exists k :: i < k < j && StartsTrajectory(t[k])
  {
    var t := Run(cal, s, es).trace;
    RunIsQuiet(cal, s, es);
    GuardedAt(t, j);
    var k := ArmedWitness(t[..j], i);
    assert StartsTrajectory(t[k]);
  }

  // -------------------------------------------------------------- frames of one tick

  /** The frame an order makes the transmitter send, if any. */
  function OrderFrames(s: Sys, m: SimpleMessage): seq<Args> {
    if IsEmergency(m) || s.state != Nominal then []
    else if m.id == ID_MSG_ORDER_DO_TRAJ_AT_DATE then [s.traj.Point(0)]
    else if m.id == ID_MSG_ORDER_ANTENNA then [m.arguments]
    else []
  }

  /** The frame the behaviour of a state sends, if any. */
  function BehaviourFrames(s: Sys): seq<Args> {
    match s.state
    case Tracking => [s.traj.Target()]
    case Emergency => [ANTENNA_SURVIE]
    case _ => []
  }

  lemma ProcessFrames(s: Sys, m: SimpleMessage)
    ensures Frames(ProcessOrder(s, m).trace) == Frames(s.trace) + OrderFrames(s, m)
  {
    FramesSnoc(s.trace, ProcessOrder(s, m).trace[|s.trace|]);
  }

  lemma UnsentFrames(t: seq<Act>, a: Act)
    requires !a.Sent?
    ensures Frames(t + [a]) == Frames(t)
  {
    FramesSnoc(t, a);
  }

  lemma OpenOrderFrames(s: Sys)
    requires s.orders != []
    ensures Frames(OpenOrder(s).trace) == Frames(s.trace)
  {
    UnsentFrames(s.trace, Dequeued(s.orders[0]));
    UnsentFrames(s.trace + [Dequeued(s.orders[0])], EchoOrder(s.orders[0]));
  }

  lemma NotePulseFrames(s: Sys, missed: bool)
    ensures Frames(NotePulse(s, missed).trace) == Frames(s.trace)
  {
    UnsentFrames(s.trace, LogTx(ID_MSG_ALERT_NO_1PPS, NO_ARGS));
  }

  lemma OpenedFrames(s: Sys, m: SimpleMessage)
    requires s.orders != [] && m == s.orders[0]
    ensures Frames(ProcessOrder(OpenOrder(s), m).trace) == Frames(s.trace) + OrderFrames(s, m)
  {
    OpenOrderFrames(s);
    ProcessFrames(OpenOrder(s), m);
  }

  lemma TakeOrderFrames(s: Sys, missed: bool)
    ensures Frames(TakeOrder(s, missed).trace)
            == Frames(s.trace) + if s.orders == [] then [] else OrderFrames(s, s.orders[0])
  {
    NotePulseFrames(s, missed);
    if s.orders != [] {
      OpenedFrames(NotePulse(s, missed), s.orders[0]);
    } else {
      assert Frames(s.trace) + [] == Frames(s.trace);
    }
  }

  lemma BehaveFrames(cal: Calendar, s: Sys, now: RTCDateTime)
    ensures Frames(Behave(cal, s, now).trace) == Frames(s.trace) + BehaviourFrames(s)
  {
    match s.state
    case Nominal =>
    case Waiting =>
      var s' := WaitingBehaviour(cal, s, now);
      UnsentFrames(s.trace, s'.trace[|s.trace|]);
    case Tracking =>
      var a := Sent(TrajectoryPoint(s.traj.currentPoint), s.traj.Target());
      FramesSnoc(s.trace, a);
      UnsentFrames(s.trace + [a], LogTx(ID_MSG_LOG_TRAJ_FINISH_TRAJECTORY, NO_ARGS));
    case Emergency => FramesSnoc(s.trace, Sent(FromEmergency, ANTENNA_SURVIE));
  }

  /** The frames of a tick: that of the order, then that of the state the order leads to. */
  lemma {:induction false} TickFrames(cal: Calendar, s: Sys, missed: bool, now: RTCDateTime)
    ensures Frames(Tick(cal, s, missed, now).trace)
            == Frames(s.trace) + (if s.orders == [] then [] else OrderFrames(s, s.orders[0]))
               + BehaviourFrames(TakeOrder(s, missed))
  {
    TakeOrderFrames(s, missed);
    BehaveFrames(cal, TakeOrder(s, missed), now);
  }

  /** A tick sends at most one frame; an order that leads to a trajectory or an emergency never
      makes it send a second one. */
  lemma OneFramePerTick(cal: Calendar, s: Sys, missed: bool, now: RTCDateTime)
    ensures exists f: seq<Args> ::
      |f| <= 1 && Frames(Tick(cal, s, missed, now).trace) == Frames(s.trace) + f
  {
    TickFrames(cal, s, missed, now);
    var f := if s.orders == [] then [] else OrderFrames(s, s.orders[0]);
    var g := BehaviourFrames(TakeOrder(s, missed));
    assert f == [] || g == [];
    Associative(Frames(s.trace), f, g);
  }

  // -------------------------------------------------------------- emergencies come first

  lemma TakeEmergency(s: Sys, missed: bool)
    requires s.orders != [] && s.orders[0] == SURVIE_ORDER
    ensures var s' := TakeOrder(s, missed);
            s'.state == Emergency && s'.orders == s.orders[1..] && s'.traj == s.traj
  {
  }

  lemma EmergencyAnswered(cal: Calendar, s: Sys, missed: bool, now: RTCDateTime)
    requires s.orders != [] && s.orders[0] == SURVIE_ORDER
    ensures var s' := Tick(cal, s, missed, now);
            && s'.orders == s.orders[1..] && s'.traj == s.traj
            && s'.state == Emergency && s'.asleep
            && Frames(s'.trace) == Frames(s.trace) + [ANTENNA_SURVIE]
  {
    TakeEmergency(s, missed);
    TickFrames(cal, s, missed, now);
  }

  /** Whatever the state and however many orders wait, the next tick after an emergency was posted
      takes it and sends the survival frame, and does nothing else to the antenna. */
  lemma EmergencyTick(cal: Calendar, s: Sys, es: seq<Event>, missed: bool, now: RTCDateTime, i: nat)
    requires Initial(s)
    requires i < |Run(cal, s, es).orders| && IsEmergency(Run(cal, s, es).orders[i])
    ensures var u := Run(cal, s, es);
            var u' := Tick(cal, u, missed, now);
            && u'.orders == u.orders[1..] && u'.traj == u.traj
            && u'.state == Emergency && u'.asleep
            && Frames(u'.trace) == Frames(u.trace) + [ANTENNA_SURVIE]
  {
    OrdersConserved(cal, s, es);
    AnyEmergencyIsFirst(Run(cal, s, es).orders, i);
    EmergencyAnswered(cal, Run(cal, s, es), missed, now);
  }

  lemma EmergencyStays(cal: Calendar, s: Sys, e: Event)
    requires !e.Pulse? && s.orders != [] && s.orders[0] == SURVIE_ORDER
    ensures var s' := Step(cal, s, e); s'.orders != [] && s'.orders[0] == SURVIE_ORDER
  {
  }

  /** An emergency that is queued stays at the front while the transmitter does not tick. */
  lemma {:induction false} EmergencyWaits(cal: Calendar, s: Sys, es: seq<Event>)
    requires forall i | 0 <= i < |es| :: !es[i].Pulse?
    requires s.orders != [] && s.orders[0] == SURVIE_ORDER
    ensures var s' := Run(cal, s, es); s'.orders != [] && s'.orders[0] == SURVIE_ORDER
  {
    if es != [] {
      EmergencyWaits(cal, s, es[..|es| - 1]);
      EmergencyStays(cal, Run(cal, s, es[..|es| - 1]), es[|es| - 1]);
    }
  }

  /** In any state: once the button or the host posts an emergency, the very next tick answers it,
      no matter what arrives in between. */
  lemma {:induction false} PostedEmergencyIsNext(cal: Calendar, s: Sys, between: seq<Event>, missed: bool,
        now: RTCDateTime)
    requires forall i | 0 <= i < |between| :: !between[i].Pulse?
    ensures var posted := Run(cal, PostEmergency(s), between);
            var s' := Tick(cal, posted, missed, now);
            s'.state == Emergency && s'.asleep && Frames(s'.trace) == Frames(posted.trace) + [ANTENNA_SURVIE]
  {
    var posted := Run(cal, PostEmergency(s), between);
    EmergencyWaits(cal, PostEmergency(s), between);
    EmergencyAnswered(cal, posted, missed, now);
  }
}
