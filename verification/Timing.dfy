/** The waiting and tracking phases over time: when waiting ends, which point is sent at which tick,
    and for which lengths the transmitter stays inside the trajectory table. */
module Timing {
  import opened Bytes
  import opened Messages
  import opened Protocol
  import opened Invariants

  // ------------------------------------------------------------------ undisturbed runs

  /** Nothing but ticks and host messages that neither touch the trajectory nor are emergencies. */
  predicate Calm(e: Event) {
    match e
    case Pulse(_, _) => true
    case Rx(status, buffer, _) =>
      status > 0 ==>
        var m := MessageIn(buffer);
        !IsEmergency(m) && !(ID_MSG_ORDER_TRAJ_SET_LENGTH <= m.id <= ID_MSG_ORDER_TRAJ_REINI)
    case _ => false
  }

  predicate AllCalm(es: seq<Event>) {
    forall i | 0 <= i < |es| :: Calm(es[i])
  }

  predicate PlainQueue(orders: seq<SimpleMessage>) {
    forall i | 0 <= i < |orders| :: Plain(orders[i])
  }

  /** The clock readings of the ticks of a run. */
  function Times(cal: Calendar, es: seq<Event>): seq<Seconds> {
    if es == [] then []
    else Times(cal, es[..|es| - 1]) + if es[|es| - 1].Pulse? then [cal(es[|es| - 1].now)] else []
  }

  /** The transmitter is awake in a trajectory phase and no emergency is queued. */
  predicate Underway(s: Sys) {
    !s.asleep && PlainQueue(s.orders) && (s.state == Waiting || s.state == Tracking)
  }

  /** Same phase, same trajectory, nothing sent in between. */
  predicate Unmoved(s: Sys, s': Sys) {
    && s'.state == s.state && s'.asleep == s.asleep && s'.traj == s.traj
    && Frames(s'.trace) == Frames(s.trace)
    && PlainQueue(s'.orders)
  }

  lemma CalmReceive(s: Sys, status: int, buffer: Payload, now: RTCDateTime)
    requires PlainQueue(s.orders) && Calm(Rx(status, buffer, now))
    ensures Unmoved(s, Receive(s, status, buffer, now))
  {
    var m := MessageIn(buffer);
    var acts := ReceiveActs(s, status, buffer, now);
    if acts != [] {
      UnsentFrames(s.trace, acts[0]);
      assert acts == [acts[0]];
    }
    if status > 0 && Posts(m) {
      OrderIsPlain(m);
    }
  }

  /** While a trajectory is under way, an order that is taken is dropped. */
  lemma TakePlain(s: Sys, missed: bool)
    requires Underway(s)
    ensures Unmoved(s, TakeOrder(s, missed))
    ensures s.orders == [] ==> TakeOrder(s, missed).orders == []
  {
    TakeOrderFrames(s, missed);
    assert s.orders != [] ==> Plain(s.orders[0]);
  }

  // --------------------------------------------------------------------------- waiting

  /** Too early to start tracking. */
  predicate Early(reading: Seconds, target: Seconds) {
    reading + ANTICIPATION_TIME_BEFORE_TRACKING < target
  }

  predicate AllEarly(readings: seq<Seconds>, target: Seconds) {
    forall i | 0 <= i < |readings| :: Early(readings[i], target)
  }

  /** One tick of the waiting phase. */
  lemma WaitingTick(cal: Calendar, s: Sys, missed: bool, now: RTCDateTime)
    requires Underway(s) && s.state == Waiting
    ensures var s' := Tick(cal, s, missed, now);
            var reading, target := cal(now), cal(s.traj.initDate);
            && Unmoved(s.(state := s'.state), s')
            && (s.orders == [] ==> s'.orders == [])
            && s'.state == if Early(reading, target) then Waiting
                           else if reading <= target then Tracking else Nominal
  {
    TakePlain(s, missed);
    BehaveFrames(cal, TakeOrder(s, missed), now);
  }

  /** The last entry of the trace is this log without arguments. */
  predicate LastLog(s: Sys, id: byte) {
    s.trace != [] && s.trace[|s.trace| - 1] == LogTx(id, NO_ARGS)
  }

  /** What such a tick reports. */
  lemma WaitingLog(cal: Calendar, s: Sys, missed: bool, now: RTCDateTime)
    requires Underway(s) && s.state == Waiting
    ensures LastLog(Tick(cal, s, missed, now),
                    if Early(cal(now), cal(s.traj.initDate)) then ID_MSG_LOG_TRAJ_WAITING_TRAJECTORY
                    else if cal(now) <= cal(s.traj.initDate) then ID_MSG_LOG_TRAJ_BEGIN_TRAJECTORY
                    else ID_MSG_ALERT_TRAJECTORY_DROPPED)
  {
    TakePlain(s, missed);
  }

  /** As long as the clock is early the transmitter waits and sends nothing. */
  lemma {:induction false} StillWaiting(cal: Calendar, s: Sys, es: seq<Event>)
    requires Underway(s) && s.state == Waiting && AllCalm(es)
    requires AllEarly(Times(cal, es), cal(s.traj.initDate))
    ensures Unmoved(s, Run(cal, s, es))
  {
    if es != [] {
      var n := |es| - 1;
      assert forall i | 0 <= i < |Times(cal, es[..n])| :: Times(cal, es[..n])[i] == Times(cal, es)[i];
      StillWaiting(cal, s, es[..n]);
      var u := Run(cal, s, es[..n]);
      match es[n]
      case Rx(status, buffer, now) => CalmReceive(u, status, buffer, now);
      case Pulse(missed, now) =>
        assert Times(cal, es)[|Times(cal, es)| - 1] == cal(now);
        WaitingTick(cal, u, missed, now);
    }
  }

  /** The first reading that is not early decides: tracking, or the trajectory is dropped. */
  lemma WaitingDecided(cal: Calendar, s: Sys, es: seq<Event>, missed: bool, now: RTCDateTime)
    requires Underway(s) && s.state == Waiting && AllCalm(es)
    requires AllEarly(Times(cal, es), cal(s.traj.initDate)) && !Early(cal(now), cal(s.traj.initDate))
    ensures var s' := Run(cal, s, es + [Pulse(missed, now)]);
            && Unmoved(s.(state := s'.state), s')
            && (if cal(now) <= cal(s.traj.initDate)
                then s'.state == Tracking && LastLog(s', ID_MSG_LOG_TRAJ_BEGIN_TRAJECTORY)
                else s'.state == Nominal && LastLog(s', ID_MSG_ALERT_TRAJECTORY_DROPPED))
  {
    StillWaiting(cal, s, es);
    RunSnoc(cal, s, es, Pulse(missed, now));
    WaitingTick(cal, Run(cal, s, es), missed, now);
    WaitingLog(cal, Run(cal, s, es), missed, now);
  }

  /** The clock advances by one to five seconds from one reading to the next. */
  predicate Steady(readings: seq<Seconds>) {
    forall k | 0 < k < |readings| ::
      readings[k - 1] < readings[k] <= readings[k - 1] + ANTICIPATION_TIME_BEFORE_TRACKING + 1
  }

  lemma {:induction false} SteadyGrows(readings: seq<Seconds>, a: nat, b: nat)
    requires Steady(readings) && a <= b < |readings|
    ensures readings[a] + (b - a) <= readings[b]
  {
    if a < b {
      SteadyGrows(readings, a, b - 1);
    }
  }

  /** Reading i is the first that is not early, or there is none up to it. */
  predicate IsFirstDue(readings: seq<Seconds>, target: Seconds, i: nat) {
    forall k | 0 <= k < |readings| && k <= i :: Early(readings[k], target) <==> k < i
  }

  lemma FindDue(readings: seq<Seconds>, target: Seconds) returns (i: nat)
    ensures i <= |readings| && IsFirstDue(readings, target, i)
  {
    i := 0;
    while i < |readings| && Early(readings[i], target)
      invariant i <= |readings| && AllEarly(readings[..i], target)
    {
      assert readings[..i + 1] == readings[..i] + [readings[i]];
      i := i + 1;
    }
    assert forall k | 0 <= k < i :: readings[..i][k] == readings[k];
  }

  /** With a steady clock that has not passed the target at reading d, the first due reading is in
      time, and if it does not come before d it comes within as many readings from there as there are
      seconds to spare. */
  lemma FirstInTime(readings: seq<Seconds>, target: Seconds, due: nat, d: nat)
    requires Steady(readings) && d < |readings| && readings[d] <= target
    requires due <= |readings| && IsFirstDue(readings, target, due)
    requires target - ANTICIPATION_TIME_BEFORE_TRACKING - readings[d] < |readings| - d
    ensures due < |readings| && !Early(readings[due], target) && readings[due] <= target
    ensures due <= d || due - d <= target - ANTICIPATION_TIME_BEFORE_TRACKING - readings[d]
  {
    if due <= d {
      SteadyGrows(readings, due, d);
    } else {
      SteadyGrows(readings, d, due - 1);
      assert Early(readings[due - 1], target);
    }
  }

  lemma {:induction false} EventOfReading(cal: Calendar, es: seq<Event>, i: nat) returns (p: nat)
    requires i < |Times(cal, es)|
    ensures p < |es| && es[p].Pulse? && Times(cal, es[..p]) == Times(cal, es)[..i]
    ensures cal(es[p].now) == Times(cal, es)[i]
  {
    var n := |es| - 1;
    if i < |Times(cal, es[..n])| {
      p := EventOfReading(cal, es[..n], i);
      assert es[..n][..p] == es[..p];
      assert Times(cal, es[..n])[..i] == Times(cal, es)[..i];
    } else {
      p := n;
      assert Times(cal, es)[..i] == Times(cal, es[..n]);
    }
  }

  lemma TracksAfter(cal: Calendar, s: Sys, early: seq<Event>, e: Event)
    requires Underway(s) && s.state == Waiting && AllCalm(early) && e.Pulse?
    requires AllEarly(Times(cal, early), cal(s.traj.initDate))
    requires !Early(cal(e.now), cal(s.traj.initDate)) && cal(e.now) <= cal(s.traj.initDate)
    ensures var s' := Run(cal, s, early + [e]); s'.state == Tracking && Unmoved(s.(state := Tracking), s')
  {
    WaitingDecided(cal, s, early, e.missed, e.now);
  }

  lemma TracksAt(cal: Calendar, s: Sys, es: seq<Event>, p: nat)
    requires Underway(s) && s.state == Waiting && AllCalm(es) && p < |es| && es[p].Pulse?
    requires AllEarly(Times(cal, es[..p]), cal(s.traj.initDate))
    requires !Early(cal(es[p].now), cal(s.traj.initDate)) && cal(es[p].now) <= cal(s.traj.initDate)
    ensures var s' := Run(cal, s, es[..p + 1]); s'.state == Tracking && Unmoved(s.(state := Tracking), s')
  {
    TracksAfter(cal, s, es[..p], es[p]);
    assert es[..p] + [es[p]] == es[..p + 1];
  }

  /** If the clock is early when waiting starts and advances one to five seconds per tick, the
      trajectory is never dropped: tracking starts at the first tick with at most four seconds
      left, within as many ticks as there are seconds to spare. */
  lemma WaitingPhase(cal: Calendar, s: Sys, start: Seconds, es: seq<Event>) returns (p: nat)
    requires Underway(s) && s.state == Waiting && AllCalm(es)
    requires Early(start, cal(s.traj.initDate)) && Steady([start] + Times(cal, es))
    requires cal(s.traj.initDate) - ANTICIPATION_TIME_BEFORE_TRACKING - start <= |Times(cal, es)|
    ensures p < |es| && es[p].Pulse?
    ensures AllEarly(Times(cal, es[..p]), cal(s.traj.initDate)) && !Early(cal(es[p].now), cal(s.traj.initDate))
    ensures |Times(cal, es[..p])| < cal(s.traj.initDate) - ANTICIPATION_TIME_BEFORE_TRACKING - start
    ensures var s' := Run(cal, s, es[..p + 1]); s'.state == Tracking && Unmoved(s.(state := Tracking), s')
  {
    var i := DueAfter(start, Times(cal, es), cal(s.traj.initDate));
    p := EventOfReading(cal, es, i);
    TracksAt(cal, s, es, p);
  }

  lemma DueAfter(start: Seconds, readings: seq<Seconds>, target: Seconds) returns (i: nat)
    requires Early(start, target) && Steady([start] + readings)
    requires target - ANTICIPATION_TIME_BEFORE_TRACKING - start <= |readings|
    ensures i < |readings| && i < target - ANTICIPATION_TIME_BEFORE_TRACKING - start
    ensures AllEarly(readings[..i], target) && !Early(readings[i], target) && readings[i] <= target
  {
    var all := [start] + readings;
    var due := FindDue(all, target);
    FirstInTime(all, target, due, 0);
    i := due - 1;
    forall k | 0 <= k < i ensures Early(readings[..i][k], target) {
      assert all[k + 1] == readings[k];
    }
  }

  // -------------------------------------------------------------------------- tracking

  /** Points a, ..., b - 1 of a trajectory. */
  function Points(traj: Traj, a: nat, b: nat): (p: seq<Args>)
    requires a <= b <= MAX_TRAJ_LENGTH
    ensures |p| == b - a
  {
    if a == b then [] else Points(traj, a, b - 1) + [traj.Point(b - 1)]
  }

  /** One tick of the tracking phase. */
  lemma TrackingTick(cal: Calendar, s: Sys, missed: bool, now: RTCDateTime)
    requires Underway(s) && s.state == Tracking && s.traj.InTable()
    ensures var s' := Tick(cal, s, missed, now);
            && Frames(s'.trace) == Frames(s.trace) + [s.traj.Point(s.traj.currentPoint)]
            && PlainQueue(s'.orders) && !s'.asleep
            && (s.orders == [] ==> s'.orders == [])
            && if s.traj.currentPoint + 1 == s.traj.nbPoint
               then s'.state == Nominal && s'.traj == s.traj.Advance().Init(now)
               else s'.state == Tracking && s'.traj == s.traj.Advance()
  {
    TakePlain(s, missed);
    BehaveFrames(cal, TakeOrder(s, missed), now);
  }

  /** A tick that sends the last point reports the end, one that does not reports the frame only. */
  lemma TrackingLog(cal: Calendar, s: Sys, missed: bool, now: RTCDateTime)
    requires Underway(s) && s.state == Tracking && s.traj.InTable()
    ensures var s' := Tick(cal, s, missed, now);
            if s.traj.currentPoint + 1 == s.traj.nbPoint then LastLog(s', ID_MSG_LOG_TRAJ_FINISH_TRAJECTORY)
            else s'.trace[|s'.trace| - 1]
                 == Sent(TrajectoryPoint(s.traj.currentPoint), s.traj.Point(s.traj.currentPoint))
  {
    TakePlain(s, missed);
  }

  /** How many ticks an undisturbed tracking phase stays inside the table: up to the last point if
      the length is one the table can hold and the next point is below it, otherwise up to the end
      of the table. */
  function Horizon(traj: Traj): int {
    if traj.currentPoint < traj.nbPoint <= MAX_TRAJ_LENGTH then traj.nbPoint - traj.currentPoint
    else MAX_TRAJ_LENGTH - traj.currentPoint
  }

  predicate EndsInTable(traj: Traj) {
    traj.currentPoint < traj.nbPoint <= MAX_TRAJ_LENGTH
  }

  /** What k ticks of tracking make of s: the k next points were sent, and the phase is over exactly
      when these were the last points of a proper length. */
  predicate Tracked(s: Sys, k: nat, u: Sys)
    requires s.traj.InTable() && k <= Horizon(s.traj)
  {
    var c := s.traj.currentPoint;
    && Frames(u.trace) == Frames(s.trace) + Points(s.traj, c, c + k)
    && PlainQueue(u.orders) && !u.asleep
    && if EndsInTable(s.traj) && k == Horizon(s.traj)
       then u.state == Nominal && u.traj.nbPoint == -2 && u.traj.currentPoint == -1
       else u.state == Tracking && u.traj == s.traj.(currentPoint := c + k)
  }

  lemma SentNext(t: seq<Act>, traj: Traj, a: nat, b: nat, sent: seq<Args>)
    requires a <= b < MAX_TRAJ_LENGTH && Frames(t) == sent + Points(traj, a, b)
    ensures Frames(t) + [traj.Point(b)] == sent + Points(traj, a, b + 1)
  {
    Associative(sent, Points(traj, a, b), [traj.Point(b)]);
  }

  lemma TrackedNext(s: Sys, k: nat, u: Sys, u': Sys, now: RTCDateTime)
    requires s.traj.InTable() && k < Horizon(s.traj) && Tracked(s, k, u)
    requires u.traj == s.traj.(currentPoint := s.traj.currentPoint + k)
    requires Frames(u'.trace) == Frames(u.trace) + [u.traj.Point(u.traj.currentPoint)]
    requires PlainQueue(u'.orders) && !u'.asleep
    requires if u.traj.currentPoint + 1 == u.traj.nbPoint
             then u'.state == Nominal && u'.traj == u.traj.Advance().Init(now)
             else u'.state == Tracking && u'.traj == u.traj.Advance()
    ensures Tracked(s, k + 1, u')
  {
    var c := s.traj.currentPoint;
    assert u.traj.Point(c + k) == s.traj.Point(c + k);
    SentNext(u.trace, s.traj, c, c + k, Frames(s.trace));
  }

  lemma {:induction false} TrackingStep(cal: Calendar, s: Sys, k: nat, u: Sys, missed: bool, now: RTCDateTime)
    requires s.traj.InTable() && k < Horizon(s.traj) && Tracked(s, k, u)
    ensures Tracked(s, k + 1, Tick(cal, u, missed, now))
  {
    TrackingTick(cal, u, missed, now);
    TrackedNext(s, k, u, Tick(cal, u, missed, now), now);
  }

  lemma {:induction false} TrackingReceive(s: Sys, k: nat, u: Sys, status: int, buffer: Payload, now: RTCDateTime)
    requires s.traj.InTable() && k <= Horizon(s.traj) && Tracked(s, k, u)
    requires Calm(Rx(status, buffer, now))
    ensures Tracked(s, k, Receive(u, status, buffer, now))
  {
    CalmReceive(u, status, buffer, now);
  }

  lemma TrackingEvent(cal: Calendar, s: Sys, k: nat, u: Sys, e: Event)
    requires s.traj.InTable() && Calm(e) && (if e.Pulse? then k < Horizon(s.traj) else k <= Horizon(s.traj))
    requires Tracked(s, k, u)
    ensures Tracked(s, if e.Pulse? then k + 1 else k, Step(cal, u, e))
  {
    match e
    case Rx(status, buffer, now) => TrackingReceive(s, k, u, status, buffer, now);
    case Pulse(missed, now) => TrackingStep(cal, s, k, u, missed, now);
  }

  lemma TimesSnoc(cal: Calendar, es: seq<Event>, e: Event)
    ensures Times(cal, es + [e]) == if e.Pulse? then Times(cal, es) + [cal(e.now)] else Times(cal, es)
  {
    assert (es + [e])[..|es|] == es;
  }

  lemma {:induction false} TrackingSnoc(cal: Calendar, s: Sys, es: seq<Event>, e: Event)
    requires s.traj.InTable() && Calm(e) && |Times(cal, es + [e])| <= Horizon(s.traj)
    requires |Times(cal, es)| <= Horizon(s.traj) && Tracked(s, |Times(cal, es)|, Run(cal, s, es))
    ensures Tracked(s, |Times(cal, es + [e])|, Run(cal, s, es + [e]))
  {
    TimesSnoc(cal, es, e);
    RunSnoc(cal, s, es, e);
    TrackingEvent(cal, s, |Times(cal, es)|, Run(cal, s, es), e);
  }

  /** Point c + k is sent by the k-th tick: after k ticks the points sent are exactly the k next. */
  lemma {:induction false} TrackingPhase(cal: Calendar, s: Sys, es: seq<Event>)
    requires Underway(s) && s.state == Tracking && s.traj.InTable() && AllCalm(es)
    requires |Times(cal, es)| <= Horizon(s.traj)
    ensures Tracked(s, |Times(cal, es)|, Run(cal, s, es))
  {
    if es == [] {
      assert Frames(s.trace) + [] == Frames(s.trace);
    } else {
      var n := |es| - 1;
      TrackingPhase(cal, s, es[..n]);
      assert es == es[..n] + [es[n]];
      TrackingSnoc(cal, s, es[..n], es[n]);
    }
  }

  /** A length below two or above the table never ends the phase: having sent the whole table the
      transmitter would read beyond it.  Any other length ends it, inside the table. */
  lemma {:induction false} TrackingEndsIff(cal: Calendar, s: Sys, es: seq<Event>)
    requires Underway(s) && s.state == Tracking && s.traj.currentPoint == 1 && AllCalm(es)
    requires |Times(cal, es)| == Horizon(s.traj)
    ensures 2 <= s.traj.nbPoint <= MAX_TRAJ_LENGTH <==> Run(cal, s, es).state == Nominal
    ensures !(2 <= s.traj.nbPoint <= MAX_TRAJ_LENGTH) ==>
      forall missed: bool, now: RTCDateTime :: !Safe(Run(cal, s, es), Pulse(missed, now))
  {
    TrackingPhase(cal, s, es);
    var u := Run(cal, s, es);
    if u.state == Tracking {
      TakePlain(u, false);
      assert TakeOrder(u, false).state == Tracking;
    }
  }
}
