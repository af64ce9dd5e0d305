/** Passes from end to end: the script of the host arrives at the microcontroller in any interleaving
    with ticks of the transmitter, and the antenna receives the preamble and then every point of the
    trajectory, once and in order, or else it is decided exactly what goes wrong. */
module EndToEnd {
  import opened AntennaFrames
  import opened Invariants
  import opened Pointing
  import opened Protocol
  import Scheduler
  import opened SerialLink
  import opened Targeting
  import opened Timing
  import opened Uploads

  // -------------------------------------------------------------- from the start order

  /** Where k ticks lead from a waiting state w whose trajectory of n points has sent its first one,
      if tick i is the first that is not early, and in time or not.  A trajectory of fewer than two
      points goes on until the table ends. */
  predicate Played(w: Sys, n: nat, i: nat, inTime: bool, k: nat, u: Sys)
    requires n <= MAX_TRAJ_LENGTH
  {
    && u.orders == [] && !u.asleep
    && if k <= i then u.state == Waiting && u.traj == w.traj && Frames(u.trace) == Frames(w.trace)
       else if !inTime then u.state == Nominal && u.traj == w.traj && Frames(u.trace) == Frames(w.trace)
       else if 2 <= n <= k - i then
         && u.state == Nominal && u.traj.nbPoint == -2 && u.traj.currentPoint == -1
         && Frames(u.trace) == Frames(w.trace) + Points(w.traj, 1, n)
       else
         && k - i <= MAX_TRAJ_LENGTH
         && u.state == Tracking && u.traj == w.traj.(currentPoint := k - i)
         && Frames(u.trace) == Frames(w.trace) + Points(w.traj, 1, k - i)
  }

  lemma TrackingPlayed(cal: Calendar, w: Sys, n: nat, i: nat, k: nat, u: Sys, missed: bool, now: RTCDateTime)
    requires n <= MAX_TRAJ_LENGTH && w.traj.nbPoint == n
    requires i < k && k - i < MAX_TRAJ_LENGTH && !(2 <= n <= k - i)
    requires Played(w, n, i, true, k, u)
    ensures Played(w, n, i, true, k + 1, Tick(cal, u, missed, now))
  {
    TrackingTick(cal, u, missed, now);
    assert u.traj.Point(k - i) == w.traj.Point(k - i);
    Associative(Frames(w.trace), Points(w.traj, 1, k - i), [w.traj.Point(k - i)]);
  }

  lemma WaitingPlayed(cal: Calendar, w: Sys, n: nat, i: nat, inTime: bool, k: nat, u: Sys, missed: bool,
                      now: RTCDateTime)
    requires n <= MAX_TRAJ_LENGTH && w.traj.nbPoint == n && w.traj.currentPoint == 1 && k <= i
    requires Played(w, n, i, inTime, k, u)
    requires Early(cal(now), cal(w.traj.initDate)) <==> k < i
    requires k == i ==> (inTime <==> cal(now) <= cal(w.traj.initDate))
    ensures Played(w, n, i, inTime, k + 1, Tick(cal, u, missed, now))
  {
    WaitingTick(cal, u, missed, now);
    assert Points(w.traj, 1, 1) == [];
    assert Frames(w.trace) + [] == Frames(w.trace);
  }

  /** Tick i is the first whose clock reading is not early. */
  predicate FirstDue(cal: Calendar, target: Seconds, es: seq<Event>, i: nat) {
    IsFirstDue(Times(cal, es), target, i)
  }

  lemma {:induction false} PulseTimes(cal: Calendar, es: seq<Event>)
    requires AllPulses(es)
    ensures |Times(cal, es)| == |es|
    ensures forall k | 0 <= k < |es| :: Times(cal, es)[k] == cal(es[k].now)
  {
    if es != [] {
      PulseTimes(cal, es[..|es| - 1]);
    }
  }

  lemma {:induction false} PlayTick(cal: Calendar, w: Sys, n: nat, i: nat, inTime: bool, k: nat, u: Sys,
                                    missed: bool, now: RTCDateTime)
    requires n <= MAX_TRAJ_LENGTH && w.traj.nbPoint == n && w.traj.currentPoint == 1
    requires Played(w, n, i, inTime, k, u)
    requires k <= i ==> (Early(cal(now), cal(w.traj.initDate)) <==> k < i)
    requires k == i ==> (inTime <==> cal(now) <= cal(w.traj.initDate))
    requires inTime && n < 2 ==> k < i + MAX_TRAJ_LENGTH
    ensures Played(w, n, i, inTime, k + 1, Tick(cal, u, missed, now))
    ensures Safe(u, Pulse(missed, now))
  {
    if k <= i {
      WaitingPlayed(cal, w, n, i, inTime, k, u, missed, now);
    } else if inTime && !(2 <= n <= k - i) {
      TrackingPlayed(cal, w, n, i, k, u, missed, now);
    } else {
      IdleTick(cal, u, missed, now);
    }
  }

  /** What is known of the tick e after k others. */
  predicate IsNextTick(cal: Calendar, target: Seconds, n: nat, k: nat, e: Event, i: nat, inTime: bool) {
    && e.Pulse?
    && (k <= i ==> (Early(cal(e.now), target) <==> k < i))
    && (k == i ==> (inTime <==> cal(e.now) <= target))
    && (inTime && n < 2 ==> k < i + MAX_TRAJ_LENGTH)
  }

  lemma {:induction false} PlaysSnoc(cal: Calendar, w: Sys, n: nat, es: seq<Event>, e: Event, i: nat, inTime: bool)
    requires n <= MAX_TRAJ_LENGTH && w.traj.nbPoint == n && w.traj.currentPoint == 1
    requires Played(w, n, i, inTime, |es|, Run(cal, w, es)) && SafeRun(cal, w, es)
    requires IsNextTick(cal, cal(w.traj.initDate), n, |es|, e, i, inTime)
    ensures Played(w, n, i, inTime, |es| + 1, Run(cal, w, es + [e])) && SafeRun(cal, w, es + [e])
  {
    RunSnoc(cal, w, es, e);
    PlayTick(cal, w, n, i, inTime, |es|, Run(cal, w, es), e.missed, e.now);
  }

  /** Tick i is the first due one, in time or not, and a trajectory without an end stays in its table. */
  predicate PlayedBy(cal: Calendar, target: Seconds, n: nat, es: seq<Event>, i: nat, inTime: bool) {
    && AllPulses(es) && FirstDue(cal, target, es, i)
    && (i < |es| ==> (inTime <==> cal(es[i].now) <= target))
    && (inTime && n < 2 ==> |es| <= i + MAX_TRAJ_LENGTH)
  }

  lemma TickOf(cal: Calendar, target: Seconds, n: nat, es: seq<Event>, i: nat, inTime: bool, k: nat)
    requires PlayedBy(cal, target, n, es, i, inTime) && k < |es|
    ensures IsNextTick(cal, target, n, k, es[k], i, inTime)
  {
    PulseTimes(cal, es);
  }

  lemma {:induction false} PlaysFrom(cal: Calendar, w: Sys, n: nat, es: seq<Event>, i: nat, inTime: bool, k: nat)
    requires n <= MAX_TRAJ_LENGTH && w.traj.nbPoint == n && w.traj.currentPoint == 1 && k < |es|
    requires Played(w, n, i, inTime, k, Run(cal, w, es[..k])) && SafeRun(cal, w, es[..k])
    requires IsNextTick(cal, cal(w.traj.initDate), n, k, es[k], i, inTime)
    ensures Played(w, n, i, inTime, k + 1, Run(cal, w, es[..k + 1])) && SafeRun(cal, w, es[..k + 1])
  {
    PlaysSnoc(cal, w, n, es[..k], es[k], i, inTime);
    assert es[..k + 1] == es[..k] + [es[k]];
  }

  lemma {:induction false} Plays(cal: Calendar, w: Sys, n: nat, es: seq<Event>, i: nat, inTime: bool)
    requires n <= MAX_TRAJ_LENGTH && w.traj.nbPoint == n && w.traj.currentPoint == 1
    requires w.state == Waiting && w.orders == [] && !w.asleep
    requires PlayedBy(cal, cal(w.traj.initDate), n, es, i, inTime)
    ensures Played(w, n, i, inTime, |es|, Run(cal, w, es)) && SafeRun(cal, w, es)
  {
    for k := 0 to |es|
      invariant Played(w, n, i, inTime, k, Run(cal, w, es[..k])) && SafeRun(cal, w, es[..k])
    {
      TickOf(cal, cal(w.traj.initDate), n, es, i, inTime, k);
      PlaysFrom(cal, w, n, es, i, inTime, k);
    }
    assert es[..|es|] == es;
  }

  // -------------------------------------------------------------- the tick that starts

  /** What the tick that takes the start order does before its waiting behaviour. */
  lemma Starts(up: Upload, sent: seq<Args>, s: Sys, missed: bool)
    requires Ready(up, sent, [], s)
    ensures var w := TakeOrder(s, missed);
            && w.state == Waiting && w.orders == [] && !w.asleep
            && w.traj == s.traj.(initDate := DateOf(WithDate(up.date)), currentPoint := 1)
            && (forall k | 0 <= k < |up.points| :: w.traj.Point(k) == up.points[k])
            && Frames(w.trace) == sent + PREAMBLE + [FirstFrame(up.points)]
  {
    assert s.orders[0] == StartOrder(up.date);
    TakeOrderFrames(s, missed);
    assert Frames(s.trace) + [] == sent + PREAMBLE;
  }

  /** Runs that begin with equivalent steps are equivalent. */
  lemma SameFirstStep(cal: Calendar, s: Sys, e: Event, w: Sys, f: Event, rest: seq<Event>)
    requires Step(cal, s, e) == Step(cal, w, f) && (Safe(w, f) <==> Safe(s, e))
    ensures Run(cal, s, [e] + rest) == Run(cal, w, [f] + rest)
    ensures SafeRun(cal, w, [f] + rest) <==> SafeRun(cal, s, [e] + rest)
  {
    RunSnoc(cal, s, [], e);
    RunSnoc(cal, w, [], f);
    assert [] + [e] == [e] && [] + [f] == [f];
    RunAppend(cal, s, [e], rest);
    RunAppend(cal, w, [f], rest);
  }

  /** That tick as a whole is a tick from the state in which its first half ends. */
  lemma SameTick(cal: Calendar, s: Sys, missed: bool, now: RTCDateTime)
    requires !s.asleep && TakeOrder(s, missed).state == Waiting && TakeOrder(s, missed).orders == []
    ensures var w := TakeOrder(s, missed);
            && Step(cal, s, Pulse(missed, now)) == Step(cal, w, Pulse(false, now))
            && Safe(s, Pulse(missed, now)) && (!w.asleep ==> Safe(w, Pulse(false, now)))
  {
  }

  /** The same ticks, of which the first has its pulse. */
  function OnPulse(es: seq<Event>): (fs: seq<Event>)
    requires AllPulses(es) && es != []
    ensures |fs| == |es| && AllPulses(fs) && forall k | 0 <= k < |es| :: fs[k].now == es[k].now
  {
    [Pulse(false, es[0].now)] + es[1..]
  }

  lemma {:induction false} StartTick(cal: Calendar, s: Sys, es: seq<Event>)
    requires AllPulses(es) && es != [] && !s.asleep
    requires var w := TakeOrder(s, es[0].missed); w.state == Waiting && w.orders == [] && !w.asleep
    ensures var w := TakeOrder(s, es[0].missed);
            && Run(cal, s, es) == Run(cal, w, OnPulse(es))
            && (SafeRun(cal, w, OnPulse(es)) <==> SafeRun(cal, s, es))
  {
    var missed, now := es[0].missed, es[0].now;
    SameTick(cal, s, missed, now);
    SameFirstStep(cal, s, Pulse(missed, now), TakeOrder(s, missed), Pulse(false, now), es[1..]);
    assert es == [Pulse(missed, now)] + es[1..];
  }

  lemma {:induction false} LoadedPoints(traj: Traj, points: seq<Args>, a: nat, b: nat)
    requires a <= b <= |points| <= MAX_TRAJ_LENGTH
    requires forall i | 0 <= i < |points| :: traj.Point(i) == points[i]
    ensures Points(traj, a, b) == points[a..b]
  {
    if a < b {
      LoadedPoints(traj, points, a, b - 1);
      assert traj.Point(b - 1) == points[b - 1];
      assert points[a..b] == points[a..b - 1] + [points[b - 1]];
    }
  }

  // ------------------------------------------------------------------------- outcomes

  /** The whole trajectory was sent after the preamble, once and in order, and the transmitter is
      ready for the next pass. */
  predicate Completed(points: seq<Args>, sent: seq<Args>, s: Sys) {
    && Idle(s)
    && s.traj.nbPoint == -2 && s.traj.currentPoint == -1
    && Frames(s.trace) == sent + PREAMBLE + points
  }

  /** The start date was missed: only the first row was sent. */
  predicate Dropped(points: seq<Args>, sent: seq<Args>, s: Sys) {
    Idle(s) && Frames(s.trace) == sent + PREAMBLE + [FirstFrame(points)]
  }

  /** The transmitter is about to send a row beyond the table. */
  ghost predicate Astray(s: Sys) {
    forall missed: bool, now: RTCDateTime :: !Safe(s, Pulse(missed, now))
  }

  /** What a pass ends with after k ticks from the start order on, of which tick i is the first due
      one: dropped, complete, or beyond the table. */
  ghost predicate PassResult(points: seq<Args>, sent: seq<Args>, i: nat, inTime: bool, k: nat, s: Sys) {
    && (!inTime ==> Dropped(points, sent, s))
    && (inTime && 2 <= |points| <= k - i ==> Completed(points, sent, s))
    && (inTime && |points| < 2 && k == i + MAX_TRAJ_LENGTH ==> Astray(s))
  }

  lemma FirstFrameSent(points: seq<Args>, sent: seq<Args>)
    requires points != []
    ensures sent + PREAMBLE + [points[0]] + points[1..] == sent + PREAMBLE + points
  {
    assert [points[0]] + points[1..] == points;
    Associative(sent + PREAMBLE, [points[0]], points[1..]);
  }

  lemma EndOfTable(s: Sys)
    requires s.state == Tracking && s.orders == [] && s.traj.currentPoint == MAX_TRAJ_LENGTH
    ensures Astray(s)
  {
    assert TakeOrder(s, false) == s;
  }

  lemma PlayedResult(points: seq<Args>, sent: seq<Args>, w: Sys, i: nat, inTime: bool, k: nat, s: Sys)
    requires |points| <= MAX_TRAJ_LENGTH && i < k
    requires Played(w, |points|, i, inTime, k, s)
    requires Frames(w.trace) == sent + PREAMBLE + [FirstFrame(points)]
    requires 1 <= |points| ==> Points(w.traj, 1, |points|) == points[1..]
    ensures PassResult(points, sent, i, inTime, k, s)
  {
    if 2 <= |points| {
      FirstFrameSent(points, sent);
    } else if inTime && k == i + MAX_TRAJ_LENGTH {
      EndOfTable(s);
    }
  }

  /** From the state in which the first half of the starting tick ends. */
  lemma {:induction false} PlaysStarted(cal: Calendar, w: Sys, points: seq<Args>, sent: seq<Args>, es: seq<Event>,
                                        i: nat, inTime: bool)
    requires |points| <= MAX_TRAJ_LENGTH
    requires w.state == Waiting && w.orders == [] && !w.asleep
    requires w.traj.nbPoint == |points| && w.traj.currentPoint == 1
    requires forall k | 0 <= k < |points| :: w.traj.Point(k) == points[k]
    requires Frames(w.trace) == sent + PREAMBLE + [FirstFrame(points)]
    requires AllPulses(es) && i < |es| && FirstDue(cal, cal(w.traj.initDate), es, i)
    requires inTime <==> cal(es[i].now) <= cal(w.traj.initDate)
    requires inTime && |points| < 2 ==> |es| <= i + MAX_TRAJ_LENGTH
    ensures SafeRun(cal, w, es) && PassResult(points, sent, i, inTime, |es|, Run(cal, w, es))
  {
    Plays(cal, w, |points|, es, i, inTime);
    if 1 <= |points| {
      LoadedPoints(w.traj, points, 1, |points|);
    }
    PlayedResult(points, sent, w, i, inTime, |es|, Run(cal, w, es));
  }

  lemma SameDue(cal: Calendar, target: Seconds, es: seq<Event>, i: nat)
    requires AllPulses(es) && i < |es| && FirstDue(cal, target, es, i)
    ensures FirstDue(cal, target, OnPulse(es), i)
  {
    PulseTimes(cal, es);
    PulseTimes(cal, OnPulse(es));
  }

  /** Ticks es of which the first takes the start order. */
  lemma {:induction false} PassFromStart(cal: Calendar, s: Sys, up: Upload, sent: seq<Args>, es: seq<Event>,
                                         i: nat, inTime: bool)
    requires up.Valid() && Ready(up, sent, [], s)
    requires AllPulses(es) && i < |es| && FirstDue(cal, up.Target(cal), es, i)
    requires inTime <==> cal(es[i].now) <= up.Target(cal)
    requires inTime && |up.points| < 2 ==> |es| <= i + MAX_TRAJ_LENGTH
    ensures SafeRun(cal, s, es) && PassResult(up.points, sent, i, inTime, |es|, Run(cal, s, es))
  {
    Starts(up, sent, s, es[0].missed);
    StartTick(cal, s, es);
    SameDue(cal, up.Target(cal), es, i);
    PlaysStarted(cal, TakeOrder(s, es[0].missed), up.points, sent, OnPulse(es), i, inTime);
  }

  lemma {:induction false} ReadyDrained(cal: Calendar, s: Sys, up: Upload, sent: seq<Args>, q: seq<SimpleMessage>,
                                        es: seq<Event>)
    requires Ready(up, sent, q, s) && AllPulses(es) && |es| == |q|
    ensures Ready(up, sent, [], Run(cal, s, es)) && SafeRun(cal, s, es)
  {
    Drains(cal, sent + PREAMBLE, q, [StartOrder(up.date)], s, es);
    assert q[|q|..] == [];
  }

  /** Ticks `before` send the orders q; of the ticks `after` the first takes the start order. */
  lemma {:induction false} PassFromReady(cal: Calendar, s: Sys, up: Upload, sent: seq<Args>, q: seq<SimpleMessage>,
                                         before: seq<Event>, after: seq<Event>, i: nat, inTime: bool)
    requires up.Valid() && Ready(up, sent, q, s) && AllPulses(before) && |before| == |q|
    requires AllPulses(after) && i < |after| && FirstDue(cal, up.Target(cal), after, i)
    requires inTime <==> cal(after[i].now) <= up.Target(cal)
    requires inTime && |up.points| < 2 ==> |after| <= i + MAX_TRAJ_LENGTH
    ensures SafeRun(cal, s, before + after)
    ensures PassResult(up.points, sent, i, inTime, |after|, Run(cal, s, before + after))
  {
    ReadyDrained(cal, s, up, sent, q, before);
    PassFromStart(cal, Run(cal, s, before), up, sent, after, i, inTime);
    RunAppend(cal, s, before, after);
  }

  lemma UnsafeBeyond(cal: Calendar, s: Sys, es: seq<Event>, e: Event, rest: seq<Event>)
    requires Astray(Run(cal, s, es)) && e.Pulse?
    ensures !SafeRun(cal, s, es + [e] + rest)
  {
    RunSnoc(cal, s, es, e);
    RunAppend(cal, s, es + [e], rest);
    assert Safe(Run(cal, s, es), e) == Safe(Run(cal, s, es), Pulse(e.missed, e.now));
  }

  /** With fewer than two points in time, the tick that leaves the table is not safe. */
  lemma {:induction false} AstrayFromReady(cal: Calendar, s: Sys, up: Upload, sent: seq<Args>, q: seq<SimpleMessage>,
                                           before: seq<Event>, table: seq<Event>, e: Event, rest: seq<Event>, i: nat)
    requires up.Valid() && Ready(up, sent, q, s) && AllPulses(before) && |before| == |q| && e.Pulse?
    requires AllPulses(table) && |table| == i + MAX_TRAJ_LENGTH && FirstDue(cal, up.Target(cal), table, i)
    requires cal(table[i].now) <= up.Target(cal) && |up.points| < 2
    ensures !SafeRun(cal, s, (before + table) + [e] + rest)
  {
    PassFromReady(cal, s, up, sent, q, before, table, i, true);
    UnsafeBeyond(cal, s, before + table, e, rest);
  }

  // ---------------------------------------------------------------------------- passes

  /** One pass as the microcontroller sees it: the events up to the arrival of the last message of
      the script, and the others.  The ticks among these are those before the start order is taken
      and those from there on; `due` is the first of the latter whose clock is within four seconds
      of the start date or past it. */
  datatype Pass = Pass(up: Upload, arrivals: seq<Event>, rest: seq<Event>, before: seq<Event>, after: seq<Event>,
                       due: nat)

  /** The script arrives over the link, in any interleaving with ticks and with calls of the decoder
      that find nothing, and after it nothing arrives. */
  ghost predicate Arrives(p: Pass) {
    && p.up.Valid()
    && HostAndTicks(p.arrivals) && p.arrivals != [] && IsReception(p.arrivals[|p.arrivals| - 1])
    && Receptions(p.arrivals) == ParseStream(p.up.OnWire())
    && Silent(p.rest) && Pulses(p.rest) == p.before + p.after
    && AllPulses(p.before) && AllPulses(p.after)
  }

  /** The run is long enough for its ticks to be split like this. */
  ghost predicate Decided(cal: Calendar, s: Sys, p: Pass) {
    && Arrives(p) && |p.before| + 1 == |Run(cal, s, p.arrivals).orders|
    && p.due < |p.after| && FirstDue(cal, p.up.Target(cal), p.after, p.due)
  }

  /** The due tick is not past the start date. */
  predicate Punctual(cal: Calendar, p: Pass)
    requires AllPulses(p.after) && p.due < |p.after|
  {
    cal(p.after[p.due].now) <= p.up.Target(cal)
  }

  lemma {:induction false} PassSplit(cal: Calendar, s: Sys, p: Pass) returns (q: seq<SimpleMessage>)
    requires Idle(s) && Arrives(p)
    ensures Ready(p.up, Frames(s.trace), q, Run(cal, s, p.arrivals))
    ensures var u, ticks := Run(cal, s, p.arrivals), p.before + p.after;
            && Run(cal, s, p.arrivals + p.rest) == Run(cal, u, ticks)
            && (SafeRun(cal, s, p.arrivals + p.rest) <==> SafeRun(cal, u, ticks))
  {
    WireRoundTrip(Buffers(p.up.Messages(), p.up.rests));
    q := Loaded(cal, s, p.up, p.arrivals);
    SilentRun(cal, Run(cal, s, p.arrivals), p.rest);
    RunAppend(cal, s, p.arrivals, p.rest);
  }

  /** A whole pass, from a nominal transmitter with an empty FIFO.  If its due tick is past the start
      date the antenna gets the preamble and the first row only.  If it is not, and there are at least
      two points, the antenna gets the preamble and then the whole trajectory.  With fewer points the
      transmitter is at the end of its table 1200 ticks after the due one.  Until then nothing that the
      code relies on fails. */
  lemma {:induction false} PassDecided(cal: Calendar, s: Sys, p: Pass)
    requires Idle(s) && Decided(cal, s, p)
    requires Punctual(cal, p) && |p.up.points| < 2 ==> |p.after| <= p.due + MAX_TRAJ_LENGTH
    ensures SafeRun(cal, s, p.arrivals + p.rest)
    ensures PassResult(p.up.points, Frames(s.trace), p.due, Punctual(cal, p), |p.after|,
                       Run(cal, s, p.arrivals + p.rest))
  {
    var q := PassSplit(cal, s, p);
    PassFromReady(cal, Run(cal, s, p.arrivals), p.up, Frames(s.trace), q, p.before, p.after, p.due, Punctual(cal, p));
  }

  lemma LeaveTable(cal: Calendar, target: Seconds, before: seq<Event>, after: seq<Event>, i: nat)
    returns (table: seq<Event>, e: Event, rest: seq<Event>)
    requires AllPulses(after) && FirstDue(cal, target, after, i) && i + MAX_TRAJ_LENGTH < |after|
    ensures AllPulses(table) && |table| == i + MAX_TRAJ_LENGTH && FirstDue(cal, target, table, i)
    ensures table[i] == after[i] && e.Pulse? && before + after == (before + table) + [e] + rest
  {
    var j := i + MAX_TRAJ_LENGTH;
    table, e, rest := after[..j], after[j], after[j + 1..];
    PulseTimes(cal, after);
    PulseTimes(cal, table);
  }

  lemma {:induction false} PassGoesAstray(cal: Calendar, s: Sys, p: Pass)
    requires Idle(s) && Decided(cal, s, p) && p.due + MAX_TRAJ_LENGTH < |p.after|
    requires Punctual(cal, p) && |p.up.points| < 2
    ensures !SafeRun(cal, s, p.arrivals + p.rest)
  {
    var q := PassSplit(cal, s, p);
    var table, e, rest := LeaveTable(cal, p.up.Target(cal), p.before, p.after, p.due);
    AstrayFromReady(cal, Run(cal, s, p.arrivals), p.up, Frames(s.trace), q, p.before, table, e, rest, p.due);
  }

  /** A pass that lasts longer than the table is safe exactly if it is late or has two points. */
  lemma {:induction false} LongPassSafeIff(cal: Calendar, s: Sys, p: Pass)
    requires Idle(s) && Decided(cal, s, p) && p.due + MAX_TRAJ_LENGTH < |p.after|
    ensures SafeRun(cal, s, p.arrivals + p.rest) <==> !Punctual(cal, p) || 2 <= |p.up.points|
  {
    if !Punctual(cal, p) || 2 <= |p.up.points| {
      PassDecided(cal, s, p);
    } else {
      PassGoesAstray(cal, s, p);
    }
  }

  // ------------------------------------------------------------------- safety of a host

  lemma FirstDueTick(cal: Calendar, target: Seconds, es: seq<Event>) returns (i: nat)
    requires AllPulses(es)
    ensures i <= |es| && FirstDue(cal, target, es, i)
  {
    PulseTimes(cal, es);
    i := FindDue(Times(cal, es), target);
  }

  /** With a steady clock that has not passed the target at tick d, the first due tick is in time. */
  lemma DueInTime(cal: Calendar, target: Seconds, es: seq<Event>, due: nat, d: nat)
    requires AllPulses(es) && Steady(Times(cal, es)) && d < |es| && cal(es[d].now) <= target
    requires due <= |es| && FirstDue(cal, target, es, due)
    requires target - ANTICIPATION_TIME_BEFORE_TRACKING - cal(es[d].now) < |es| - d
    ensures due < |es| && cal(es[due].now) <= target
    ensures due <= d || due - d <= target - ANTICIPATION_TIME_BEFORE_TRACKING - cal(es[d].now)
  {
    PulseTimes(cal, es);
    FirstInTime(Times(cal, es), target, due, d);
  }

  lemma CutTicks(cal: Calendar, target: Seconds, ticks: seq<Event>, k: nat)
    returns (before: seq<Event>, after: seq<Event>, due: nat)
    requires AllPulses(ticks)
    ensures AllPulses(before) && AllPulses(after) && before + after == ticks
    ensures |before| == if k <= |ticks| then k else |ticks|
    ensures due <= |after| && FirstDue(cal, target, after, due)
  {
    var m := if k <= |ticks| then k else |ticks|;
    before, after := ticks[..m], ticks[m..];
    due := FirstDueTick(cal, target, after);
  }

  lemma {:induction false} SafeFromStart(cal: Calendar, s: Sys, up: Upload, sent: seq<Args>, es: seq<Event>)
    requires up.Valid() && 2 <= |up.points| && Ready(up, sent, [], s) && AllPulses(es)
    ensures SafeRun(cal, s, es)
  {
    if es != [] {
      var w := TakeOrder(s, es[0].missed);
      Starts(up, sent, s, es[0].missed);
      StartTick(cal, s, es);
      var fs := OnPulse(es);
      var i := FirstDueTick(cal, cal(w.traj.initDate), fs);
      Plays(cal, w, |up.points|, fs, i, i < |fs| && cal(fs[i].now) <= cal(w.traj.initDate));
    }
  }

  lemma {:induction false} SafeFromSplit(cal: Calendar, s: Sys, up: Upload, sent: seq<Args>, q: seq<SimpleMessage>,
                                         before: seq<Event>, after: seq<Event>)
    requires up.Valid() && 2 <= |up.points| && Ready(up, sent, q, s)
    requires AllPulses(before) && |before| == |q| && AllPulses(after)
    ensures SafeRun(cal, s, before + after)
  {
    ReadyDrained(cal, s, up, sent, q, before);
    SafeFromStart(cal, Run(cal, s, before), up, sent, after);
    RunAppend(cal, s, before, after);
  }

  lemma {:induction false} SafeFromReady(cal: Calendar, s: Sys, up: Upload, sent: seq<Args>, q: seq<SimpleMessage>,
                                         es: seq<Event>)
    requires up.Valid() && 2 <= |up.points| && Ready(up, sent, q, s) && AllPulses(es)
    ensures SafeRun(cal, s, es)
  {
    if |es| <= |q| {
      Drains(cal, sent + PREAMBLE, q, [StartOrder(up.date)], s, es);
    } else {
      var before, after, _ := CutTicks(cal, up.Target(cal), es, |q|);
      SafeFromSplit(cal, s, up, sent, q, before, after);
    }
  }

  /** Whatever the clock does and however far the script has arrived: a host that sends at least two
      points never makes the code leave what it relies on. */
  lemma {:induction false} HostIsSafe(cal: Calendar, s: Sys, up: Upload, es: seq<Event>)
    requires Idle(s) && up.Valid() && 2 <= |up.points|
    requires HostAndTicks(es) && Receptions(es) <= up.Arriving()
    ensures SafeRun(cal, s, es)
  {
    var j, d := |Receptions(es)|, up.Arriving();
    assert Receptions(es) == d[..j];
    if j < |d| {
      Loads(cal, s, up, es, j);
    } else {
      assert d[..j] == d;
      var arrivals, rest := SplitRun(es);
      var q := Loaded(cal, s, up, arrivals);
      SilentRun(cal, Run(cal, s, arrivals), rest);
      PulsesArePulses(rest);
      SafeFromReady(cal, Run(cal, s, arrivals), up, Frames(s.trace), q, Pulses(rest));
      RunAppend(cal, s, arrivals, rest);
    }
  }

  /** The host is like that: the file of a pass that its scheduler chooses has at least one target, so
      its table has at least two points. */
  lemma {:induction false} ChosenIsSafe(cal: Calendar, s: Sys, encoder: Encoder, mktime: Scheduler.MkTime,
                                        targets: seq<Scheduler.FileTarget>, clock: nat -> int, k: nat, c: seq<nat>,
                                        next: nat, before: nat, up: Upload, es: seq<Event>)
    requires Scheduler.Chain(targets, clock, k, c, next) && Scheduler.AfterEpoch(clock)
    requires Scheduler.Due(targets[c[0]], before) && Scheduler.IsLoaded(mktime, targets[next])
    requires Idle(s) && up.Valid() && up.points == TableFor(encoder, Targets(targets[next].file.lines))
    requires HostAndTicks(es) && Receptions(es) <= up.Arriving()
    ensures 2 <= |up.points| && SafeRun(cal, s, es)
  {
    Scheduler.ChosenHasTargets(mktime, targets, clock, k, c, next, before);
    HostIsSafe(cal, s, up, es);
  }

  /** The ticks are split after the one that sends the last of the orders ahead of the start order,
      or not at all if they are too few, and `due` is the first due one or none. */
  ghost predicate TicksSplit(cal: Calendar, s: Sys, p: Pass)
    requires AllPulses(p.after)
  {
    var waiting, ticks := |Run(cal, s, p.arrivals).orders| - 1, |Pulses(p.rest)|;
    && 0 <= waiting && |p.before| == (if waiting <= ticks then waiting else ticks)
    && p.due <= |p.after| && FirstDue(cal, p.up.Target(cal), p.after, p.due)
  }

  /** Every run in which the script has arrived is a pass: after enough ticks the start order is taken
      and one of them is due. */
  lemma {:induction false} PassOfRun(cal: Calendar, s: Sys, up: Upload, es: seq<Event>) returns (p: Pass)
    requires Idle(s) && up.Valid() && HostAndTicks(es) && Receptions(es) == ParseStream(up.OnWire())
    ensures p.up == up && Arrives(p) && es == p.arrivals + p.rest && TicksSplit(cal, s, p)
  {
    WireRoundTrip(Buffers(up.Messages(), up.rests));
    var arrivals, rest := SplitRun(es);
    var q := Loaded(cal, s, up, arrivals);
    PulsesArePulses(rest);
    var before, after, due := CutTicks(cal, up.Target(cal), Pulses(rest), |q|);
    p := Pass(up, arrivals, rest, before, after, due);
  }

  // -------------------------------------------------------------------- passes in time

  /** The trajectory can be played, the start order is taken before the start date, the clock is
      steady from there on, and the run is long enough to wait for the date and send every point. */
  ghost predicate InTime(cal: Calendar, s: Sys, p: Pass) {
    && Arrives(p) && 2 <= |p.up.points| && |p.before| + 1 == |Run(cal, s, p.arrivals).orders|
    && p.after != [] && Steady(Times(cal, p.after)) && cal(p.after[0].now) <= p.up.Target(cal)
    && |p.up.points| <= |p.after|
    && |p.up.points| + p.up.Target(cal) - ANTICIPATION_TIME_BEFORE_TRACKING - cal(p.after[0].now) <= |p.after|
  }

  /** Of a pass in time the antenna gets the preamble and the whole trajectory, each frame once and
      in order, and the transmitter ends nominal with an empty FIFO and the trajectory reset. */
  lemma {:induction false} PassInTime(cal: Calendar, s: Sys, p: Pass)
    requires Idle(s) && InTime(cal, s, p)
    ensures SafeRun(cal, s, p.arrivals + p.rest)
    ensures Completed(p.up.points, Frames(s.trace), Run(cal, s, p.arrivals + p.rest))
  {
    var i := FirstDueTick(cal, p.up.Target(cal), p.after);
    DueInTime(cal, p.up.Target(cal), p.after, i, 0);
    PassDecided(cal, s, p.(due := i));
  }

  // ----------------------------------------------------- first arriving, then in time

  lemma TimesAppendSnoc(cal: Calendar, es: seq<Event>, fs: seq<Event>, e: Event)
    requires Times(cal, es + fs) == Times(cal, es) + Times(cal, fs)
    ensures Times(cal, es + (fs + [e])) == Times(cal, es) + Times(cal, fs + [e])
  {
    TimesSnoc(cal, fs, e);
    TimesSnoc(cal, es + fs, e);
    Associative(es, fs, [e]);
    if e.Pulse? {
      Associative(Times(cal, es), Times(cal, fs), [cal(e.now)]);
    }
  }

  lemma {:induction false} TimesAppend(cal: Calendar, es: seq<Event>, fs: seq<Event>)
    ensures Times(cal, es + fs) == Times(cal, es) + Times(cal, fs)
  {
    if fs == [] {
      assert es + fs == es;
    } else {
      var k := |fs| - 1;
      TimesAppend(cal, es, fs[..k]);
      TimesAppendSnoc(cal, es, fs[..k], fs[k]);
      assert fs == fs[..k] + [fs[k]];
    }
  }

  lemma {:induction false} TimesOfPulses(cal: Calendar, es: seq<Event>)
    ensures Times(cal, Pulses(es)) == Times(cal, es)
  {
    if es != [] {
      var k := |es| - 1;
      TimesOfPulses(cal, es[..k]);
      TimesSnoc(cal, Pulses(es[..k]), es[k]);
    }
  }

  lemma {:induction false} ReceptionsAppend(es: seq<Event>, fs: seq<Event>)
    ensures Receptions(es + fs) == Receptions(es) + Receptions(fs)
  {
    if fs == [] {
      assert es + fs == es;
    } else {
      var k := |fs| - 1;
      ReceptionsAppend(es, fs[..k]);
      assert (es + fs)[..|es| + k] == es + fs[..k];
    }
  }

  lemma {:induction false} NoReceptions(es: seq<Event>)
    requires HostAndTicks(es) && Receptions(es) == []
    ensures Silent(es)
  {
    if es != [] {
      NoReceptions(es[..|es| - 1]);
    }
  }

  /** The first three of these readings are past the orders that prepare the antenna, the next one is
      not past the target, and there are enough to wait for it and to send n points. */
  predicate PlayingTime(readings: seq<Seconds>, target: Seconds, n: nat) {
    && 3 < |readings| && readings[3] <= target && 3 + n <= |readings|
    && 3 + n + target - ANTICIPATION_TIME_BEFORE_TRACKING - readings[3] <= |readings|
  }

  lemma SteadySuffix(a: seq<Seconds>, b: seq<Seconds>)
    requires Steady(a + b)
    ensures Steady(b)
  {
    var all := a + b;
    assert forall k | 0 <= k < |b| :: b[k] == all[|a| + k];
  }

  lemma EnoughReadings(before: seq<Seconds>, after: seq<Seconds>, early: seq<Seconds>, readings: seq<Seconds>,
                       target: Seconds, due: nat, n: nat)
    requires before + after == early + readings && |before| <= 3 && 2 <= n
    requires Steady(early + readings) && PlayingTime(readings, target, n)
    requires due <= |after| && IsFirstDue(after, target, due)
    ensures due < |after| && after[due] <= target && due + n <= |after|
  {
    SteadySuffix(before, after);
    var d := |after| - (|readings| - 3);
    assert after[d] == (before + after)[|before| + d] == (early + readings)[|early| + 3] == readings[3];
    FirstInTime(after, target, due, d);
  }

  /** If the whole script has arrived, and nothing else, by the end of es, and the clock is steady over
      the whole run, and the ticks of fs are in time and enough, the pass is complete after fs. */
  lemma {:induction false} RunInTime(cal: Calendar, s: Sys, up: Upload, es: seq<Event>, fs: seq<Event>)
    requires Idle(s) && up.Valid() && 2 <= |up.points| && HostAndTicks(es) && HostAndTicks(fs)
    requires Receptions(es) == up.Arriving() && Receptions(es + fs) == up.Arriving()
    requires Steady(Times(cal, es + fs)) && PlayingTime(Times(cal, fs), up.Target(cal), |up.points|)
    ensures Completed(up.points, Frames(s.trace), Run(cal, s, es + fs))
  {
    ReceptionsAppend(es, fs);
    NoReceptions(fs);
    var arrivals, late := SplitRun(es);
    CompletesInTime(cal, s, up, arrivals, late, fs);
    assert arrivals + (late + fs) == es + fs;
  }

  lemma {:induction false} TimesOfRest(cal: Calendar, arrivals: seq<Event>, late: seq<Event>, fs: seq<Event>)
    requires Steady(Times(cal, (arrivals + late) + fs))
    ensures Times(cal, Pulses(late + fs)) == Times(cal, late) + Times(cal, fs)
    ensures Steady(Times(cal, late) + Times(cal, fs))
  {
    TimesOfPulses(cal, late + fs);
    TimesAppend(cal, late, fs);
    TimesAppend(cal, arrivals, late + fs);
    Associative(arrivals, late, fs);
    SteadySuffix(Times(cal, arrivals), Times(cal, late) + Times(cal, fs));
  }

  lemma {:induction false} EnoughTicks(cal: Calendar, target: Seconds, before: seq<Event>, after: seq<Event>, due: nat,
                                       early: seq<Seconds>, readings: seq<Seconds>, n: nat)
    requires AllPulses(before) && AllPulses(after) && |before| <= 3 && 2 <= n
    requires Times(cal, before + after) == early + readings && Steady(early + readings)
    requires PlayingTime(readings, target, n)
    requires due <= |after| && FirstDue(cal, target, after, due)
    ensures due < |after| && cal(after[due].now) <= target && due + n <= |after|
  {
    TimesAppend(cal, before, after);
    PulseTimes(cal, before);
    PulseTimes(cal, after);
    EnoughReadings(Times(cal, before), Times(cal, after), early, readings, target, due, n);
  }

  lemma {:induction false} SplitInTime(cal: Calendar, target: Seconds, ticks: seq<Event>, q: nat, early: seq<Seconds>,
                                       readings: seq<Seconds>, n: nat)
    returns (before: seq<Event>, after: seq<Event>, due: nat)
    requires AllPulses(ticks) && q <= 3 && 2 <= n
    requires Times(cal, ticks) == early + readings && Steady(early + readings) && PlayingTime(readings, target, n)
    ensures AllPulses(before) && AllPulses(after) && before + after == ticks && |before| == q
    ensures due < |after| && FirstDue(cal, target, after, due)
    ensures cal(after[due].now) <= target && due + n <= |after|
  {
    PulseTimes(cal, ticks);
    before, after, due := CutTicks(cal, target, ticks, q);
    EnoughTicks(cal, target, before, after, due, early, readings, n);
  }

  lemma {:induction false} CompletesDecided(cal: Calendar, s: Sys, p: Pass, q: seq<SimpleMessage>)
    requires Idle(s) && Arrives(p) && 2 <= |p.up.points|
    requires Ready(p.up, Frames(s.trace), q, Run(cal, s, p.arrivals)) && |p.before| == |q|
    requires p.due < |p.after| && FirstDue(cal, p.up.Target(cal), p.after, p.due)
    requires cal(p.after[p.due].now) <= p.up.Target(cal) && p.due + |p.up.points| <= |p.after|
    ensures Completed(p.up.points, Frames(s.trace), Run(cal, s, p.arrivals + p.rest))
  {
    PassDecided(cal, s, p);
  }

  lemma {:induction false} SplitOfRest(cal: Calendar, target: Seconds, arrivals: seq<Event>, late: seq<Event>,
                                       fs: seq<Event>, q: nat, n: nat)
    returns (before: seq<Event>, after: seq<Event>, due: nat)
    requires q <= 3 && 2 <= n
    requires Steady(Times(cal, (arrivals + late) + fs)) && PlayingTime(Times(cal, fs), target, n)
    ensures Pulses(late + fs) == before + after && AllPulses(before) && AllPulses(after) && |before| == q
    ensures due < |after| && FirstDue(cal, target, after, due)
    ensures cal(after[due].now) <= target && due + n <= |after|
  {
    PulsesArePulses(late + fs);
    TimesOfRest(cal, arrivals, late, fs);
    before, after, due := SplitInTime(cal, target, Pulses(late + fs), q, Times(cal, late), Times(cal, fs), n);
  }

  lemma SilentAppend(a: seq<Event>, b: seq<Event>)
    requires Silent(a) && Silent(b)
    ensures Silent(a + b)
  {
  }

  lemma {:induction false} CompletesInTime(cal: Calendar, s: Sys, up: Upload, arrivals: seq<Event>, late: seq<Event>,
                                           fs: seq<Event>)
    requires Idle(s) && up.Valid() && 2 <= |up.points|
    requires HostAndTicks(arrivals) && arrivals != [] && IsReception(arrivals[|arrivals| - 1])
    requires Receptions(arrivals) == up.Arriving() && Silent(late) && Silent(fs)
    requires Steady(Times(cal, (arrivals + late) + fs)) && PlayingTime(Times(cal, fs), up.Target(cal), |up.points|)
    ensures Completed(up.points, Frames(s.trace), Run(cal, s, arrivals + (late + fs)))
  {
    WireRoundTrip(Buffers(up.Messages(), up.rests));
    var q := Loaded(cal, s, up, arrivals);
    SilentAppend(late, fs);
    var before, after, due := SplitOfRest(cal, up.Target(cal), arrivals, late, fs, |q|, |up.points|);
    CompletesDecided(cal, s, Pass(up, arrivals, late + fs, before, after, due), q);
  }

  // ------------------------------------------------------------ from a file to the antenna

  /** What the antenna has been sent, after `sent`, of a file with at least one target: the preamble
      and the first position, and then the tracking frame of every target in order, unless the tick
      due for the instant of the first target is past it. */
  predicate FileSent(cal: Calendar, encoder: Encoder, t: seq<Target>, p: Pass, sent: seq<Args>, u: Sys)
    requires t != [] && AllPulses(p.after) && p.due < |p.after|
  {
    var first := FrameFor(CommandFor(encoder, t[0], MODE_ANTENNA_POSITION));
    if cal(p.after[p.due].now) > cal(InstantOf(t[0].date)) then Frames(u.trace) == sent + PREAMBLE + [first]
    else p.due + |t| < |p.after| ==> Frames(u.trace) == sent + PREAMBLE + ([first] + TrackingFrames(encoder, t))
  }

  /** From a target file to the antenna.  Of a file without targets the antenna gets twelve zero bytes
      after the preamble, and in time the transmitter leaves its table. */
  lemma {:induction false} FileToAntenna(cal: Calendar, s: Sys, encoder: Encoder, t: seq<Target>, p: Pass)
    requires Idle(s) && Decided(cal, s, p) && |t| < MAX_TRAJ_LENGTH && p.up.points == TableFor(encoder, t)
    requires t != [] ==> DateOf(WithDate(p.up.date)) == InstantOf(t[0].date)
    requires Punctual(cal, p) && t == [] ==> |p.after| <= p.due + MAX_TRAJ_LENGTH
    ensures var u := Run(cal, s, p.arrivals + p.rest);
            if t != [] then FileSent(cal, encoder, t, p, Frames(s.trace), u)
            else if Punctual(cal, p) then |p.after| == p.due + MAX_TRAJ_LENGTH ==> Astray(u)
            else Frames(u.trace) == Frames(s.trace) + PREAMBLE + [NO_ARGS]
  {
    TableIsStorable(encoder, t);
    PassDecided(cal, s, p);
  }

  /** Every run in which the whole script of such a file has arrived is a pass like that. */
  lemma {:induction false} PassOfFile(cal: Calendar, s: Sys, encoder: Encoder, t: seq<Target>, up: Upload,
                                      es: seq<Event>) returns (p: Pass)
    requires Idle(s) && up.Valid() && 1 <= |t| < MAX_TRAJ_LENGTH && up.points == TableFor(encoder, t)
    requires DateOf(WithDate(up.date)) == InstantOf(t[0].date)
    requires HostAndTicks(es) && Receptions(es) == ParseStream(up.OnWire())
    ensures p.up == up && Arrives(p) && es == p.arrivals + p.rest && TicksSplit(cal, s, p)
    ensures Decided(cal, s, p) ==> FileSent(cal, encoder, t, p, Frames(s.trace), Run(cal, s, es))
  {
    p := PassOfRun(cal, s, up, es);
    if Decided(cal, s, p) {
      FileToAntenna(cal, s, encoder, t, p);
    }
  }

  ghost predicate AllInTime(cal: Calendar, s: Sys, passes: seq<Pass>)
    decreases |passes|
  {
    passes == []
    || (InTime(cal, s, passes[0]) && AllInTime(cal, Run(cal, s, passes[0].arrivals + passes[0].rest), passes[1..]))
  }

  function EventsOf(passes: seq<Pass>): seq<Event> {
    if passes == [] then [] else (passes[0].arrivals + passes[0].rest) + EventsOf(passes[1..])
  }

  function FramesOf(passes: seq<Pass>): seq<Args> {
    if passes == [] then [] else (PREAMBLE + passes[0].up.points) + FramesOf(passes[1..])
  }

  /** Any number of passes in time, one after the other: the antenna gets exactly their frames. */
  lemma {:induction false} PassesInTime(cal: Calendar, s: Sys, passes: seq<Pass>)
    requires Idle(s) && AllInTime(cal, s, passes)
    ensures var u := Run(cal, s, EventsOf(passes));
            Idle(u) && Frames(u.trace) == Frames(s.trace) + FramesOf(passes)
    decreases |passes|
  {
    if passes != [] {
      var p := passes[0];
      var first := p.arrivals + p.rest;
      PassInTime(cal, s, p);
      PassesInTime(cal, Run(cal, s, first), passes[1..]);
      RunAppend(cal, s, first, EventsOf(passes[1..]));
      Associative(Frames(s.trace), PREAMBLE, p.up.points);
      Associative(Frames(s.trace), PREAMBLE + p.up.points, FramesOf(passes[1..]));
    }
  }

  /** And none of their steps leaves what the code relies on. */
  lemma {:induction false} PassesAreSafe(cal: Calendar, s: Sys, passes: seq<Pass>)
    requires Idle(s) && AllInTime(cal, s, passes)
    ensures SafeRun(cal, s, EventsOf(passes))
    decreases |passes|
  {
    if passes != [] {
      var first := passes[0].arrivals + passes[0].rest;
      PassInTime(cal, s, passes[0]);
      PassesAreSafe(cal, Run(cal, s, first), passes[1..]);
      RunAppend(cal, s, first, EventsOf(passes[1..]));
    }
  }
}
