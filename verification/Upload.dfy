/** Loading a trajectory: the orders of the host go over the serial link into the microcontroller while
    its transmitter ticks, and no order loses anything on the way. */
module Uploads {
  import opened AntennaFrames
  import opened Bytes
  import opened Invariants
  import opened Messages
  import opened Pointing
  import opened Protocol
  import opened Receiver
  import opened SerialLink
  import opened Targeting

  // ------------------------------------------------------------------ across the link

  type Padding = p: seq<byte> | |p| == 7 witness ZeroBytes(7)

  /** A message in a transmit buffer; the bytes behind it are arbitrary. */
  function BufferOf(m: SimpleMessage, rest: Padding): Payload {
    [m.id] + m.arguments + rest
  }

  /** The message that arrives when m is written. */
  function Arriving(m: SimpleMessage, rest: Padding): SimpleMessage {
    MessageIn(Delivered(BufferOf(m, rest)).message)
  }

  /** The link cuts a message to the length of its kind; the identifier and as many argument bytes
      as the kind has survive. */
  lemma ArrivesCut(m: SimpleMessage, rest: Padding)
    requires m.id as int < FIRST_ERROR_ID
    ensures var k := ArgsSize(m.id as nat);
            Arriving(m, rest) == SimpleMessage(m.id, m.arguments[..k] + ZeroBytes(ANTENNA_MESSAGE_LENGTH - k))
  {
    var k := ArgsSize(m.id as nat);
    var b := BufferOf(m, rest);
    assert PayloadLength(b[0] as nat) == k + 1;
    assert b[..k + 1] == [m.id] + m.arguments[..k];
    assert MessageOf(b[..k + 1])[1..13] == m.arguments[..k] + ZeroBytes(ANTENNA_MESSAGE_LENGTH - k);
  }

  /** No order loses anything its handler reads: what arrives is handled like what was sent.  Only
      the date order is changed at all, behind its seven date bytes. */
  lemma OrderSurvivesLink(m: SimpleMessage, rest: Padding, s: Sys, now: RTCDateTime)
    requires m.id as int < FIRST_ERROR_ID
    ensures var sent := if m.id == ID_MSG_ORDER_DO_TRAJ_AT_DATE
                        then SimpleMessage(m.id, WithDate(m.arguments[..7])) else m;
            && HandleIncoming(s, Arriving(m, rest), now) == HandleIncoming(s, sent, now)
            && DateOf(sent.arguments) == DateOf(m.arguments)
  {
    ArrivesCut(m, rest);
    var k := ArgsSize(m.id as nat);
    var a := m.arguments;
    var cut := a[..k] + ZeroBytes(ANTENNA_MESSAGE_LENGTH - k);
    if m.id == ID_MSG_ORDER_DO_TRAJ_AT_DATE {
      assert cut == WithDate(a[..7]);
      assert WithDate(a[..7])[3..7] == a[3..7];
    } else if k == ANTENNA_MESSAGE_LENGTH {
      assert cut == a;
    }
  }

  // --------------------------------------------------------------------------- uploads

  /** Points that fit into the table and have no terminator. */
  predicate Storable(points: seq<Args>) {
    |points| <= MAX_TRAJ_LENGTH && forall i | 0 <= i < |points| :: 0 !in points[i]
  }

  /** Every file with no more targets than fit gives such points: none, or at least two. */
  lemma TableIsStorable(encoder: Encoder, t: seq<Target>)
    requires |t| < MAX_TRAJ_LENGTH
    ensures Storable(TableFor(encoder, t)) && (t == [] || 2 <= |TableFor(encoder, t)|)
  {
    var p := TableFor(encoder, t);
    forall i | 0 <= i < |p| ensures 0 !in p[i] {
      if i == 0 {
        FrameHasNoTerminator(CommandFor(encoder, t[0], MODE_ANTENNA_POSITION));
      } else {
        TrackingFrameAt(encoder, t, i - 1);
        FrameHasNoTerminator(CommandFor(encoder, t[i - 1], MODE_ANTENNA_EPHEM));
      }
    }
  }

  lemma ScriptPoint(points: seq<Args>, date: DateArgs, unset: Args, j: nat)
    requires Storable(points) && 5 <= j < |points| + 5
    ensures Script(points, date, unset)[j] == SimpleMessage(ID_MSG_ORDER_TRAJ_SET_NEW_POINT, points[j - 5])
  {
    assert Script(points, date, unset)[j] == PointMessages(points)[j - 5];
    StrnCopyExact(points[j - 5]);
  }

  /** The transmit buffers of a list of messages. */
  function Buffers(messages: seq<SimpleMessage>, rests: seq<Padding>): (b: seq<Payload>)
    requires |rests| == |messages|
    ensures |b| == |messages|
    ensures forall i | 0 <= i < |b| :: b[i] == BufferOf(messages[i], rests[i])
  {
    if messages == [] then [] else [BufferOf(messages[0], rests[0])] + Buffers(messages[1..], rests[1..])
  }

  /** What the host sends for one pass, with the bytes that it leaves arbitrary. */
  datatype Upload = Upload(points: seq<Args>, date: DateArgs, unset: Args, rests: seq<Padding>) {
    predicate Valid() {
      Storable(points) && |rests| == |points| + 6
    }

    function Messages(): (m: seq<SimpleMessage>)
      ensures |m| == |points| + 6
    {
      Script(points, date, unset)
    }

    /** The start date on the clock. */
    function Target(cal: Calendar): Seconds {
      cal(DateOf(WithDate(date)))
    }

    ghost function OnWire(): seq<byte>
      requires Valid()
    {
      Wire(Buffers(Messages(), rests))
    }

    /** The messages as the decoder of the microcontroller hands them over. */
    function Arriving(): (d: seq<Received>)
      requires Valid()
      ensures |d| == |points| + 6
      ensures forall i | 0 <= i < |d| :: d[i] == Delivered(BufferOf(Messages()[i], rests[i]))
    {
      DeliveredAll(Buffers(Messages(), rests))
    }
  }

  // ----------------------------------------------------------------------------- runs

  /** A nominal transmitter without orders. */
  predicate Idle(s: Sys) {
    s.state == Nominal && !s.asleep && s.orders == []
  }

  predicate AllPulses(es: seq<Event>) {
    forall i | 0 <= i < |es| :: es[i].Pulse?
  }

  lemma IdleTick(cal: Calendar, s: Sys, missed: bool, now: RTCDateTime)
    requires s.orders == [] && s.state == Nominal
    ensures var s' := Tick(cal, s, missed, now);
            && s'.orders == [] && s'.state == Nominal && s'.asleep == s.asleep && s'.traj == s.traj
            && Frames(s'.trace) == Frames(s.trace)
  {
    NotePulseFrames(s, missed);
  }

  /** A call of the decoder that handed over a message, damaged or not. */
  predicate IsReception(e: Event) {
    e.Rx? && e.status >= 0
  }

  /** What the decoder of the microcontroller hands over in a run. */
  function Receptions(es: seq<Event>): seq<Received> {
    if es == [] then []
    else
      var e := es[|es| - 1];
      var earlier := Receptions(es[..|es| - 1]);
      if IsReception(e) then earlier + [Received(e.status, e.buffer)] else earlier
  }

  /** Nothing but calls of the decoder and ticks of the transmitter, in any interleaving. */
  predicate HostAndTicks(es: seq<Event>) {
    forall i | 0 <= i < |es| :: es[i].Rx? || es[i].Pulse?
  }

  /** Ticks, and calls of the decoder that found no message. */
  predicate Silent(es: seq<Event>) {
    forall i | 0 <= i < |es| :: es[i].Pulse? || (es[i].Rx? && !IsReception(es[i]))
  }

  function Pulses(es: seq<Event>): seq<Event> {
    if es == [] then []
    else
      var e, earlier := es[|es| - 1], Pulses(es[..|es| - 1]);
      if e.Pulse? then earlier + [e] else earlier
  }

  lemma {:induction false} PulsesArePulses(es: seq<Event>)
    ensures AllPulses(Pulses(es))
  {
    if es != [] {
      PulsesArePulses(es[..|es| - 1]);
    }
  }

  lemma IdleCall(cal: Calendar, s: Sys, e: Event)
    requires e.Rx? && !IsReception(e)
    ensures Step(cal, s, e) == s && Safe(s, e)
  {
  }

  lemma IdleSnoc(cal: Calendar, s: Sys, es: seq<Event>, e: Event)
    requires e.Rx? && !IsReception(e)
    ensures Run(cal, s, es + [e]) == Run(cal, s, es) && (SafeRun(cal, s, es + [e]) <==> SafeRun(cal, s, es))
  {
    RunSnoc(cal, s, es, e);
    IdleCall(cal, Run(cal, s, es), e);
  }

  /** The two runs end alike and are safe alike. */
  predicate SameRun(cal: Calendar, s: Sys, es: seq<Event>, fs: seq<Event>) {
    Run(cal, s, es) == Run(cal, s, fs) && (SafeRun(cal, s, es) <==> SafeRun(cal, s, fs))
  }

  lemma SameSnoc(cal: Calendar, s: Sys, es: seq<Event>, fs: seq<Event>, e: Event)
    ensures SameRun(cal, s, es, fs) ==> SameRun(cal, s, es + [e], fs + [e])
  {
    RunSnoc(cal, s, es, e);
    RunSnoc(cal, s, fs, e);
  }

  /** Calls that found no message change nothing. */
  lemma {:induction false} SilentRun(cal: Calendar, s: Sys, es: seq<Event>)
    requires Silent(es)
    ensures SameRun(cal, s, es, Pulses(es))
  {
    if es != [] {
      var k := |es| - 1;
      SilentRun(cal, s, es[..k]);
      assert es == es[..k] + [es[k]];
      if es[k].Pulse? {
        SameSnoc(cal, s, es[..k], Pulses(es[..k]), es[k]);
      } else {
        IdleSnoc(cal, s, es[..k], es[k]);
      }
    }
  }

  /** A run with receptions up to the last of them, and from there on. */
  lemma {:induction false} SplitRun(es: seq<Event>) returns (arrivals: seq<Event>, rest: seq<Event>)
    requires HostAndTicks(es) && Receptions(es) != []
    ensures es == arrivals + rest && HostAndTicks(arrivals) && Silent(rest)
    ensures arrivals != [] && IsReception(arrivals[|arrivals| - 1]) && Receptions(arrivals) == Receptions(es)
  {
    var k := |es| - 1;
    if IsReception(es[k]) {
      arrivals, rest := es, [];
    } else {
      arrivals, rest := SplitRun(es[..k]);
      rest := rest + [es[k]];
    }
  }

  // -------------------------------------------------------------------------- loading

  /** The three orders that prepare the antenna, as frames. */
  const PREAMBLE: seq<Args> := [ANTENNA_DESACTIVATE, ANTENNA_REINI, ANTENNA_CALLAGE]

  function Preamble(j: nat): (p: seq<Args>)
    ensures |p| <= 3 && |p| <= j
  {
    if j < 3 then PREAMBLE[..j] else PREAMBLE
  }

  function Arguments(orders: seq<SimpleMessage>): (a: seq<Args>)
    ensures |a| == |orders|
    ensures forall i | 0 <= i < |orders| :: a[i] == orders[i].arguments
  {
    if orders == [] then [] else [orders[0].arguments] + Arguments(orders[1..])
  }

  predicate IsAntennaOrder(m: SimpleMessage) {
    m.id == ID_MSG_ORDER_ANTENNA && !IsEmergency(m)
  }

  /** The transmitter idles behind antenna orders q and a tail; what it has sent together with what
      waits in q is `total`. */
  predicate Draining(total: seq<Args>, q: seq<SimpleMessage>, tail: seq<SimpleMessage>, s: Sys) {
    && !s.asleep && s.state == Nominal && s.orders == q + tail
    && (forall i | 0 <= i < |q| :: IsAntennaOrder(q[i]))
    && Frames(s.trace) + Arguments(q) == total
  }

  lemma AntennaTick(cal: Calendar, s: Sys, missed: bool, now: RTCDateTime)
    requires s.orders != [] && IsAntennaOrder(s.orders[0]) && s.state == Nominal && !s.asleep
    ensures var s' := Tick(cal, s, missed, now);
            && s'.orders == s.orders[1..] && s'.state == Nominal && !s'.asleep && s'.traj == s.traj
            && Frames(s'.trace) == Frames(s.trace) + [s.orders[0].arguments]
    ensures Safe(s, Pulse(missed, now))
  {
    TakeOrderFrames(s, missed);
  }

  lemma DrainStep(total: seq<Args>, q: seq<SimpleMessage>, tail: seq<SimpleMessage>, s: Sys, s': Sys)
    requires Draining(total, q, tail, s) && q != []
    requires s'.orders == s.orders[1..] && s'.state == Nominal && !s'.asleep
    requires Frames(s'.trace) == Frames(s.trace) + [q[0].arguments]
    ensures Draining(total, q[1..], tail, s')
  {
    assert s.orders[1..] == q[1..] + tail;
    Associative(Frames(s.trace), [q[0].arguments], Arguments(q[1..]));
  }

  /** A tick sends the first antenna order, if there is one. */
  lemma DrainTick(cal: Calendar, total: seq<Args>, q: seq<SimpleMessage>, tail: seq<SimpleMessage>, s: Sys,
                  missed: bool, now: RTCDateTime)
    requires Draining(total, q, tail, s) && q != []
    ensures var s' := Tick(cal, s, missed, now); Draining(total, q[1..], tail, s') && s'.traj == s.traj
    ensures Safe(s, Pulse(missed, now))
  {
    assert IsAntennaOrder(q[0]) && s.orders[0] == q[0];
    AntennaTick(cal, s, missed, now);
    DrainStep(total, q, tail, s, Tick(cal, s, missed, now));
  }

  lemma {:induction false} Drains(cal: Calendar, total: seq<Args>, q: seq<SimpleMessage>, tail: seq<SimpleMessage>,
                                  s: Sys, es: seq<Event>)
    requires Draining(total, q, tail, s) && AllPulses(es) && |es| <= |q|
    ensures var s' := Run(cal, s, es); Draining(total, q[|es|..], tail, s') && s'.traj == s.traj
    ensures SafeRun(cal, s, es)
  {
    if es != [] {
      var k := |es| - 1;
      Drains(cal, total, q, tail, s, es[..k]);
      DrainTick(cal, total, q[k..], tail, Run(cal, s, es[..k]), es[k].missed, es[k].now);
      assert q[k..][1..] == q[|es|..];
    }
  }

  /** What the antenna is sent first: row 0, which a reset has cleared. */
  function FirstFrame(points: seq<Args>): Args {
    if points == [] then NO_ARGS else points[0]
  }

  /** After j messages of the script: the preamble messages among them were sent or are queued, and
      the points among them are in the table. */
  predicate Loading(points: seq<Args>, sent: seq<Args>, j: nat, s: Sys) {
    && Draining(sent + Preamble(j), s.orders, [], s) && |s.orders| <= |Preamble(j)|
    && (j >= 4 && points == [] ==> s.traj.Point(0) == NO_ARGS)
    && (j >= 5 ==>
         && s.traj.nbPoint == |points| && s.traj.currentPoint == j - 5 <= |points| <= MAX_TRAJ_LENGTH
         && forall i | 0 <= i < j - 5 :: s.traj.Point(i) == points[i])
  }

  lemma LoadingTick(cal: Calendar, points: seq<Args>, sent: seq<Args>, j: nat, s: Sys, missed: bool, now: RTCDateTime)
    requires Loading(points, sent, j, s)
    ensures Loading(points, sent, j, Tick(cal, s, missed, now)) && Safe(s, Pulse(missed, now))
  {
    var total := sent + Preamble(j);
    if s.orders == [] {
      IdleTick(cal, s, missed, now);
    } else {
      DrainTick(cal, total, s.orders, [], s, missed, now);
    }
  }

  lemma ArgumentsSnoc(orders: seq<SimpleMessage>, m: SimpleMessage)
    ensures Arguments(orders + [m]) == Arguments(orders) + [m.arguments]
  {
  }

  /** The three preparing messages are queued as antenna orders. */
  lemma PreambleOrder(s: Sys, j: nat, m: SimpleMessage, now: RTCDateTime)
    requires j < 3 && m.id as nat == j + 1
    ensures var order := SimpleMessage(ID_MSG_ORDER_ANTENNA, PREAMBLE[j]);
            HandleIncoming(s, m, now) == PostOrder(s, order) && IsAntennaOrder(order)
  {
    assert OrderOf(m) == SimpleMessage(ID_MSG_ORDER_ANTENNA, PREAMBLE[j]);
    OrderIsPlain(m);
  }

  lemma PreambleSnoc(j: nat)
    requires j < 3
    ensures Preamble(j + 1) == Preamble(j) + [PREAMBLE[j]]
  {
  }

  lemma LoadingOrder(points: seq<Args>, sent: seq<Args>, j: nat, s: Sys, m: SimpleMessage, now: RTCDateTime)
    requires Loading(points, sent, j, s) && j < 3 && m.id as nat == j + 1
    ensures Loading(points, sent, j + 1, HandleIncoming(s, m, now))
  {
    PreambleOrder(s, j, m, now);
    PreambleSnoc(j);
    PostOrderDrains(sent, Preamble(j), SimpleMessage(ID_MSG_ORDER_ANTENNA, PREAMBLE[j]), s);
  }

  lemma PostOrderDrains(sent: seq<Args>, preamble: seq<Args>, order: SimpleMessage, s: Sys)
    requires Draining(sent + preamble, s.orders, [], s) && IsAntennaOrder(order)
    ensures Draining(sent + (preamble + [order.arguments]), s.orders + [order], [], PostOrder(s, order))
  {
    FramesSnoc(s.trace, Accepted(order));
    ArgumentsSnoc(s.orders, order);
    Associative(Frames(s.trace), Arguments(s.orders), [order.arguments]);
    Associative(sent, preamble, [order.arguments]);
  }

  /** A point lands in the next row and leaves the rows before it alone. */
  lemma PointAdded(t: Traj, p: Args)
    requires t.InTable()
    ensures t.AddPoint(p).Point(t.currentPoint) == p
    ensures forall i | 0 <= i < t.currentPoint :: t.AddPoint(p).Point(i) == t.Point(i)
  {
    var k := 12 * t.currentPoint;
    var table := t.AddPoint(p).table;
    assert table == t.table[..k] + p + t.table[k + 12..];
    forall i | 0 <= i < t.currentPoint ensures t.AddPoint(p).Point(i) == t.Point(i) {
      assert 12 * i + 12 <= k;
      assert table[12 * i..12 * i + 12] == t.table[12 * i..12 * i + 12];
    }
  }

  lemma LoadingPoint(points: seq<Args>, sent: seq<Args>, j: nat, s: Sys, now: RTCDateTime)
    requires Loading(points, sent, j, s) && 5 <= j < |points| + 5
    ensures s.traj.InTable()
    ensures var m := SimpleMessage(ID_MSG_ORDER_TRAJ_SET_NEW_POINT, points[j - 5]);
            Loading(points, sent, j + 1, HandleIncoming(s, m, now))
  {
    PointAdded(s.traj, points[j - 5]);
  }

  lemma LoadingLength(points: seq<Args>, sent: seq<Args>, s: Sys, unset: Args, now: RTCDateTime)
    requires Loading(points, sent, 4, s) && |points| <= MAX_TRAJ_LENGTH
    ensures var m := SimpleMessage(ID_MSG_ORDER_TRAJ_SET_LENGTH, LengthArgs(|points|, unset));
            Loading(points, sent, 5, HandleIncoming(s, m, now))
  {
    LengthSurvives(|points|, unset);
  }

  // ------------------------------------------------------------- the script on the wire

  /** Receiving what was written for m does what handling m does. */
  lemma ReceiveWritten(m: SimpleMessage, rest: Padding, s: Sys, now: RTCDateTime)
    requires m.id as int < FIRST_ERROR_ID
    requires m.id == ID_MSG_ORDER_DO_TRAJ_AT_DATE ==> m == SimpleMessage(m.id, WithDate(m.arguments[..7]))
    ensures var d := Delivered(BufferOf(m, rest));
            && Receive(s, d.status, d.message, now) == HandleIncoming(s, m, now)
            && MessageIn(d.message).id == m.id && d.status > 0
  {
    OrderSurvivesLink(m, rest, s, now);
    ArrivesCut(m, rest);
  }

  /** A reset clears the first hundred rows and leaves the others alone. */
  lemma ResetRow(t: Traj, now: RTCDateTime, i: nat)
    requires i < MAX_TRAJ_LENGTH
    ensures t.Init(now).Point(i) == if i < 100 then NO_ARGS else t.Point(i)
    ensures t.Init(now).nbPoint == -2 && t.Init(now).currentPoint == -1
    ensures t.Init(now).initDate == now && !t.Init(now).locked
  {
    var table := t.Init(now).table;
    if i < 100 {
      assert table[12 * i..12 * i + 12] == NO_ARGS;
    } else {
      assert table[12 * i..12 * i + 12] == t.table[12 * i..12 * i + 12];
    }
  }

  /** The messages before the points. */
  lemma LoadingOpening(points: seq<Args>, date: DateArgs, unset: Args, sent: seq<Args>, j: nat, s: Sys,
                       now: RTCDateTime)
    requires |points| <= MAX_TRAJ_LENGTH && Loading(points, sent, j, s) && j < 5
    ensures var m := Script(points, date, unset)[j];
            && m.id in {1, 2, 3, 30, 32}
            && Loading(points, sent, j + 1, HandleIncoming(s, m, now))
  {
    if j < 3 {
      LoadingOrder(points, sent, j, s, Script(points, date, unset)[j], now);
    } else if j == 3 {
      ResetRow(s.traj, now, 0);
    } else {
      LoadingLength(points, sent, s, unset, now);
    }
  }

  lemma LoadingMessage(points: seq<Args>, date: DateArgs, unset: Args, sent: seq<Args>, j: nat, s: Sys,
                       now: RTCDateTime)
    requires Storable(points) && Loading(points, sent, j, s) && j < |points| + 5
    ensures var m := Script(points, date, unset)[j];
            && m.id in {1, 2, 3, 30, 31, 32}
            && Loading(points, sent, j + 1, HandleIncoming(s, m, now))
            && (m.id == ID_MSG_ORDER_TRAJ_SET_NEW_POINT ==> s.traj.InTable())
  {
    if j < 5 {
      LoadingOpening(points, date, unset, sent, j, s, now);
    } else {
      ScriptPoint(points, date, unset, j);
      LoadingPoint(points, sent, j, s, now);
    }
  }

  lemma LoadingSilent(cal: Calendar, points: seq<Args>, sent: seq<Args>, j: nat, s: Sys, e: Event)
    requires Loading(points, sent, j, s) && (e.Pulse? || (e.Rx? && !IsReception(e)))
    ensures Loading(points, sent, j, Step(cal, s, e)) && Safe(s, e)
  {
    if e.Pulse? {
      LoadingTick(cal, points, sent, j, s, e.missed, e.now);
    }
  }

  lemma LoadingReception(up: Upload, sent: seq<Args>, j: nat, s: Sys, now: RTCDateTime)
    requires up.Valid() && Loading(up.points, sent, j, s) && j < |up.points| + 5
    ensures var d := up.Arriving()[j];
            && Loading(up.points, sent, j + 1, Receive(s, d.status, d.message, now))
            && Safe(s, Rx(d.status, d.message, now))
  {
    LoadingMessage(up.points, up.date, up.unset, sent, j, s, now);
    ReceiveWritten(up.Messages()[j], up.rests[j], s, now);
  }

  lemma LastReception(es: seq<Event>, d: seq<Received>, j: nat)
    requires es != [] && IsReception(es[|es| - 1]) && j <= |d| && Receptions(es) == d[..j]
    ensures j > 0 && Receptions(es[..|es| - 1]) == d[..j - 1]
    ensures Received(es[|es| - 1].status, es[|es| - 1].buffer) == d[j - 1]
  {
    var all, earlier := Receptions(es), Receptions(es[..|es| - 1]);
    assert j == |earlier| + 1;
    assert d[..j - 1] == all[..j - 1] == earlier;
    assert all[j - 1] == d[j - 1];
  }

  /** One more event after a run that has loaded j messages. */
  lemma LoadsEvent(cal: Calendar, s: Sys, up: Upload, es: seq<Event>, e: Event, j: nat)
    requires up.Valid() && Loading(up.points, Frames(s.trace), j, Run(cal, s, es)) && SafeRun(cal, s, es)
    requires e.Rx? || e.Pulse?
    requires IsReception(e) ==> j < |up.points| + 5 && Received(e.status, e.buffer) == up.Arriving()[j]
    ensures SafeRun(cal, s, es + [e])
    ensures Loading(up.points, Frames(s.trace), if IsReception(e) then j + 1 else j, Run(cal, s, es + [e]))
  {
    RunSnoc(cal, s, es, e);
    if IsReception(e) {
      LoadingReception(up, Frames(s.trace), j, Run(cal, s, es), e.now);
    } else {
      LoadingSilent(cal, up.points, Frames(s.trace), j, Run(cal, s, es), e);
    }
  }

  lemma NothingLoaded(s: Sys, points: seq<Args>)
    requires Idle(s)
    ensures Loading(points, Frames(s.trace), 0, s)
  {
    assert Frames(s.trace) + Preamble(0) == Frames(s.trace) + Arguments([]);
  }

  /** After j messages of the script and any ticks in between, the microcontroller has loaded j. */
  lemma {:induction false} Loads(cal: Calendar, s: Sys, up: Upload, es: seq<Event>, j: nat)
    requires Idle(s) && up.Valid() && j <= |up.points| + 5
    requires HostAndTicks(es) && Receptions(es) == up.Arriving()[..j]
    ensures Loading(up.points, Frames(s.trace), j, Run(cal, s, es)) && SafeRun(cal, s, es)
  {
    if es == [] {
      NothingLoaded(s, up.points);
    } else {
      var k := |es| - 1;
      var before := if IsReception(es[k]) then j - 1 else j;
      if IsReception(es[k]) {
        LastReception(es, up.Arriving(), j);
      }
      Loads(cal, s, up, es[..k], before);
      LoadsEvent(cal, s, up, es[..k], es[k], before);
      assert es == es[..k] + [es[k]];
    }
  }

  /** The order that starts the trajectory. */
  function StartOrder(date: DateArgs): SimpleMessage {
    SimpleMessage(ID_MSG_ORDER_DO_TRAJ_AT_DATE, WithDate(date))
  }

  /** The trajectory is loaded and its start order waits behind the antenna orders q. */
  predicate Ready(up: Upload, sent: seq<Args>, q: seq<SimpleMessage>, s: Sys) {
    && Draining(sent + PREAMBLE, q, [StartOrder(up.date)], s) && |q| <= 3
    && s.traj.nbPoint == |up.points| <= MAX_TRAJ_LENGTH && s.traj.Point(0) == FirstFrame(up.points)
    && forall i | 0 <= i < |up.points| :: s.traj.Point(i) == up.points[i]
  }

  lemma PostStart(up: Upload, sent: seq<Args>, s: Sys, now: RTCDateTime)
    requires Loading(up.points, sent, |up.points| + 5, s) && |up.points| <= MAX_TRAJ_LENGTH
    ensures Ready(up, sent, s.orders, HandleIncoming(s, StartOrder(up.date), now))
  {
    FramesSnoc(s.trace, Accepted(StartOrder(up.date)));
  }

  lemma StartReception(up: Upload, sent: seq<Args>, s: Sys, e: Event)
    requires up.Valid() && Loading(up.points, sent, |up.points| + 5, s)
    requires e.Rx? && Received(e.status, e.buffer) == up.Arriving()[|up.points| + 5]
    ensures Ready(up, sent, s.orders, Receive(s, e.status, e.buffer, e.now)) && Safe(s, e)
  {
    var n := |up.points| + 5;
    assert up.Messages()[n] == StartOrder(up.date);
    assert WithDate(up.date)[..7] == up.date;
    ReceiveWritten(up.Messages()[n], up.rests[n], s, e.now);
    PostStart(up, sent, s, e.now);
  }

  /** Once the whole script has arrived the trajectory is loaded. */
  lemma {:induction false} Loaded(cal: Calendar, s: Sys, up: Upload, es: seq<Event>) returns (q: seq<SimpleMessage>)
    requires Idle(s) && up.Valid()
    requires HostAndTicks(es) && es != [] && IsReception(es[|es| - 1]) && Receptions(es) == up.Arriving()
    ensures Ready(up, Frames(s.trace), q, Run(cal, s, es)) && SafeRun(cal, s, es)
  {
    var k, n, d := |es| - 1, |up.points| + 5, up.Arriving();
    assert d[..n + 1] == d;
    LastReception(es, d, n + 1);
    Loads(cal, s, up, es[..k], n);
    q := Run(cal, s, es[..k]).orders;
    StartReception(up, Frames(s.trace), Run(cal, s, es[..k]), es[k]);
  }
}
