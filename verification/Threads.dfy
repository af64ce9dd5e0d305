/** The threads of the microcontroller at work together: the receiving thread reads its serial port
    and handles what it decodes, while the transmitter and the button take their turns in any order
    (PC_interface/PcSerialThreads.c, Antenna_interface/AntennaThreads.c, main.c). */
module Threads {
  import opened Boards
  import opened Bytes
  import opened Crc
  import opened EndToEnd
  import opened HostSide
  import opened Invariants
  import opened Messages
  import opened Pointing
  import opened Protocol
  import opened Receiver
  import opened SerialLink
  import opened Targeting
  import opened Timing
  import opened Uploads

  /** Which thread runs, with what it reads off the clock. */
  datatype Turn =
    | Receiving(now: RTCDateTime)
    | Transmitting(missed: bool, now: RTCDateTime)
    | Pressing
    | Waking

  /** The event is one that such a turn can be. */
  predicate IsTurn(e: Event, turn: Turn) {
    match turn
    case Receiving(now) => e.Rx? && e.now == now
    case Transmitting(missed, now) => e == Pulse(missed, now)
    case Pressing => e == Button
    case Waking => e == EndOfSleep
  }

  predicate Follows(es: seq<Event>, turns: seq<Turn>) {
    |es| <= |turns| && forall i | 0 <= i < |es| :: IsTurn(es[i], turns[i])
  }

  /** The first turns are safe, whatever part of the messages in the stream they receive. */
  ghost predicate SafeTurns(cal: Calendar, s: Sys, turns: seq<Turn>, received: seq<Received>) {
    forall es | Follows(es, turns) && Receptions(es) <= received :: SafeRun(cal, s, es)
  }

  /** The message that the event hands over, if any. */
  function Reception(e: Event): (r: seq<Received>) {
    if IsReception(e) then [Received(e.status, e.buffer)] else []
  }

  lemma ReceptionsSnoc(es: seq<Event>, e: Event)
    ensures Receptions(es + [e]) == Receptions(es) + Reception(e)
  {
    assert (es + [e])[..|es|] == es;
  }

  lemma ReceivedNext(es: seq<Event>, e: Event, left: seq<Received>)
    ensures Receptions(es + [e]) + left == Receptions(es) + (Reception(e) + left)
  {
    ReceptionsSnoc(es, e);
    Associative(Receptions(es), Reception(e), left);
  }

  lemma NextIsSafe(cal: Calendar, s: Sys, turns: seq<Turn>, all: seq<Received>, es: seq<Event>, left: seq<Received>)
    requires SafeTurns(cal, s, turns, all) && Follows(es, turns) && |es| < |turns|
    requires Receptions(es) + left == all
    ensures forall f | IsTurn(f, turns[|es|]) && Reception(f) <= left :: Safe(Run(cal, s, es), f)
  {
    forall f | IsTurn(f, turns[|es|]) && Reception(f) <= left ensures Safe(Run(cal, s, es), f) {
      ReceptionsSnoc(es, f);
      assert Follows(es + [f], turns);
      RunSnoc(cal, s, es, f);
    }
  }

  /** After the first m turns everything has been received, if the receiving thread ran that often. */
  predicate AllReceived(turns: seq<Turn>, es: seq<Event>, calls: nat, all: seq<Received>)
    requires |es| == |turns|
  {
    forall m | 0 <= m <= |turns| && Calls(turns[..m]) >= calls :: Receptions(es[..m]) == all
  }

  lemma TurnReceived(turns: seq<Turn>, i: nat, es: seq<Event>, e: Event, calls: nat, all: seq<Received>,
                     left: seq<Received>)
    requires i < |turns| && |es| == i && AllReceived(turns[..i], es, calls, all)
    requires Receptions(es + [e]) + left == all && (Calls(turns[..i + 1]) >= calls ==> left == [])
    ensures AllReceived(turns[..i + 1], es + [e], calls, all)
  {
    var more, fs := turns[..i + 1], es + [e];
    forall m | 0 <= m <= i + 1 && Calls(more[..m]) >= calls ensures Receptions(fs[..m]) == all {
      if m <= i {
        assert more[..m] == turns[..i][..m] && fs[..m] == es[..m];
      } else {
        assert more[..m] == more && fs[..m] == fs;
      }
    }
  }

  lemma TurnTaken(cal: Calendar, s: Sys, turns: seq<Turn>, es: seq<Event>, e: Event)
    requires Follows(es, turns) && |es| < |turns| && IsTurn(e, turns[|es|])
    requires SafeRun(cal, s, es) && Safe(Run(cal, s, es), e)
    ensures Follows(es + [e], turns)
    ensures Run(cal, s, es + [e]) == Step(cal, Run(cal, s, es), e) && SafeRun(cal, s, es + [e])
  {
    RunSnoc(cal, s, es, e);
  }

  /** How often the receiving thread runs. */
  function Calls(turns: seq<Turn>): nat {
    if turns == [] then 0 else Calls(turns[..|turns| - 1]) + if turns[|turns| - 1].Receiving? then 1 else 0
  }

  lemma CallsNext(turns: seq<Turn>, i: nat)
    requires i < |turns|
    ensures Calls(turns[..i + 1]) == Calls(turns[..i]) + if turns[i].Receiving? then 1 else 0
  {
    assert turns[..i + 1][..i] == turns[..i];
  }

  lemma {:induction false} CallsAppend(turns: seq<Turn>, more: seq<Turn>)
    ensures Calls(turns + more) == Calls(turns) + Calls(more)
  {
    if more == [] {
      assert turns + more == turns;
    } else {
      var k := |more| - 1;
      CallsAppend(turns, more[..k]);
      assert (turns + more)[..|turns| + k] == turns + more[..k];
    }
  }

  /** What turns have done so far, of which the events es were, with u the state, stream the bytes that
      are left and remaining the reads and bytes. */
  ghost predicate Worked(cal: Calendar, s: Sys, turns: seq<Turn>, es: seq<Event>, all: seq<Received>, calls: nat,
                         u: Sys, stream: seq<byte>, remaining: nat)
  {
    && Follows(es, turns) && Receptions(es) + ParseStream(stream) == all
    && (stream == [] || remaining + Calls(turns[..|es|]) <= calls)
    && AllReceived(turns[..|es|], es, calls, all)
    && u == Run(cal, s, es) && SafeRun(cal, s, es)
  }

  /** A turn of the receiver uses up a read or a byte if any are left, another one nothing. */
  predicate Progress(turn: Turn, stream: seq<byte>, remaining: nat, stream': seq<byte>, remaining': nat) {
    if turn.Receiving? then stream' == [] || (stream != [] && remaining' < remaining)
    else stream' == stream && remaining' == remaining
  }

  lemma {:induction false} WorkedNext(cal: Calendar, s: Sys, turns: seq<Turn>, es: seq<Event>, all: seq<Received>,
                                      calls: nat, u: Sys, stream: seq<byte>, remaining: nat, e: Event,
                                      stream': seq<byte>, remaining': nat)
    requires Worked(cal, s, turns, es, all, calls, u, stream, remaining) && |es| < |turns|
    requires IsTurn(e, turns[|es|]) && Safe(u, e)
    requires Reception(e) + ParseStream(stream') == ParseStream(stream)
    requires Progress(turns[|es|], stream, remaining, stream', remaining') && |stream'| <= remaining'
    ensures Worked(cal, s, turns, es + [e], all, calls, Step(cal, u, e), stream', remaining')
  {
    ReceivedNext(es, e, ParseStream(stream'));
    TurnTaken(cal, s, turns, es, e);
    CallsNext(turns, |es|);
    TurnReceived(turns, |es|, es, e, calls, all, ParseStream(stream'));
  }

  /** The threads on one board.  A receiving thread that waits for the rest of a frame for ever has no
      more effect. */
  class Microcontroller {
    const board: Board
    const crc: CrcEngine
    const reader: Reader
    const message: array<byte>
    var polling: bool

    ghost predicate Valid()
      reads this, board, crc.crcTable, reader
    {
      && board.Valid() && crc.Initialised() && message.Length == MAX_PAYLOAD_MESSAGE_LENGTH
      && message != crc.crcTable && message != board.traj.table && crc.crcTable != board.traj.table
      && (polling ==> reader.Stream() == [])
    }

    /** The reads and bytes that are left on the serial port: a bound on the calls of the decoder that
        it takes to receive them all. */
    function Left(): nat
      reads this, reader
    {
      |reader.chunks| + |reader.Stream()|
    }

    constructor (board: Board, crc: CrcEngine, reader: Reader)
      requires board.Valid() && crc.Initialised() && crc.crcTable != board.traj.table
      ensures Valid() && this.board == board && this.crc == crc && this.reader == reader && !polling
      ensures fresh(message)
    {
      this.board := board;
      this.crc := crc;
      this.reader := reader;
      message := new byte[MAX_PAYLOAD_MESSAGE_LENGTH];
      polling := false;
    }

    /** One call of the decoder by the receiving thread: the event that it is for the board.  Every
        call takes a read or a byte off what is left. */
    method Decode(now: RTCDateTime) returns (e: Event)
      requires Valid()
      modifies this`polling, reader, message
      ensures Valid() && e.Rx? && e.now == now
      ensures Reception(e) + ParseStream(reader.Stream()) == ParseStream(old(reader.Stream()))
      ensures reader.Stream() == [] || (old(reader.Stream()) != [] && Left() < old(Left()))
    {
      if polling {
        return Rx(-1, message[..], now);
      }
      var outcome := ReadMessage(crc, reader, message);
      if outcome == Polling {
        polling := true;
        return Rx(-1, message[..], now);
      }
      e := Rx(outcome.status, message[..], now);
    }

    /** One turn: the event that it is, handled by the board. */
    method TakeTurn(cal: Calendar, turn: Turn) returns (e: Event)
      requires Valid()
      requires forall f | IsTurn(f, turn) && Reception(f) <= ParseStream(reader.Stream()) :: Safe(board.View(), f)
      modifies this`polling, reader, message, board, board.traj, board.traj.table
      ensures Valid() && IsTurn(e, turn)
      ensures Reception(e) + ParseStream(reader.Stream()) == ParseStream(old(reader.Stream()))
      ensures Progress(turn, old(reader.Stream()), old(Left()), reader.Stream(), Left())
      ensures board.View() == Step(cal, old(board.View()), e)
    {
      match turn {
        case Receiving(now) => e := Decode(now);
        case Transmitting(missed, now) => e := Pulse(missed, now);
        case Pressing => e := Button;
        case Waking => e := EndOfSleep;
      }
      board.HandleEvent(cal, e);
    }

    /** Turns in any order.  What they do is a run of the transition system, in which the receptions
        are what a parser makes of the bytes that were read, however the reads cut them up; and once
        the receiving thread has run as often as there are reads and bytes, it has received all. */
    method Work(cal: Calendar, turns: seq<Turn>) returns (ghost es: seq<Event>)
      requires Valid() && SafeTurns(cal, board.View(), turns, ParseStream(reader.Stream()))
      modifies this`polling, reader, message, board, board.traj, board.traj.table
      ensures Valid() && |es| == |turns| && Follows(es, turns)
      ensures Receptions(es) + ParseStream(reader.Stream()) == ParseStream(old(reader.Stream()))
      ensures AllReceived(turns, es, old(Left()), ParseStream(old(reader.Stream())))
      ensures board.View() == Run(cal, old(board.View()), es) && SafeRun(cal, old(board.View()), es)
    {
      es := [];
      ghost var s, all, left := board.View(), ParseStream(reader.Stream()), Left();
      for i := 0 to |turns|
        invariant Valid() && |es| == i
        invariant Worked(cal, s, turns, es, all, left, board.View(), reader.Stream(), Left())
      {
        ghost var u, stream, remaining := board.View(), reader.Stream(), Left();
        NextIsSafe(cal, s, turns, all, es, ParseStream(stream));
        var e := TakeTurn(cal, turns[i]);
        WorkedNext(cal, s, turns, es, all, left, u, stream, remaining, e, reader.Stream(), Left());
        es := es + [e];
      }
      assert turns[..|turns|] == turns;
    }
  }

  // ------------------------------------------------------------------- a file is played

  /** Only the receiver and the transmitter take turns. */
  predicate HostTurns(turns: seq<Turn>) {
    forall i | 0 <= i < |turns| :: turns[i].Receiving? || turns[i].Transmitting?
  }

  lemma HostTurnsAppend(a: seq<Turn>, b: seq<Turn>)
    requires HostTurns(a) && HostTurns(b)
    ensures HostTurns(a + b)
  {
  }

  lemma HostTurnsAreSafe(cal: Calendar, s: Sys, up: Upload, turns: seq<Turn>)
    requires Idle(s) && up.Valid() && 2 <= |up.points| && HostTurns(turns)
    ensures SafeTurns(cal, s, turns, ParseStream(up.OnWire()))
  {
    WireRoundTrip(Buffers(up.Messages(), up.rests));
    forall es | Follows(es, turns) && Receptions(es) <= up.Arriving() ensures SafeRun(cal, s, es) {
      TurnsAreHost(es, turns);
      HostIsSafe(cal, s, up, es);
    }
  }

  lemma TurnsAreHost(es: seq<Event>, turns: seq<Turn>)
    requires HostTurns(turns) && Follows(es, turns)
    ensures HostAndTicks(es)
  {
    forall i | 0 <= i < |es| ensures es[i].Rx? || es[i].Pulse? {
      assert IsTurn(es[i], turns[i]);
    }
  }

  /** A cut of a byte stream into reads, among them empty ones. */
  ghost predicate IsCut(cut: seq<byte> -> seq<seq<byte>>) {
    forall b :: Flatten(cut(b)) == b
  }

  /** What the run es has made of a file with the targets t.  Its messages arrive in order; once all
      have, the run is a pass, and once that is decided the antenna has its frames. */
  ghost predicate FilePlayed(cal: Calendar, s: Sys, encoder: Encoder, t: seq<Target>, p: Pass, es: seq<Event>)
    requires t != []
  {
    && SafeRun(cal, s, es)
    && p.up.Valid() && p.up.points == TableFor(encoder, t) && Receptions(es) <= p.up.Arriving()
    && (Receptions(es) == p.up.Arriving() ==>
          && Arrives(p) && es == p.arrivals + p.rest && TicksSplit(cal, s, p)
          && (Decided(cal, s, p) ==> FileSent(cal, encoder, t, p, Frames(s.trace), Run(cal, s, es))))
  }

  lemma {:induction false} RunPlaysFile(cal: Calendar, s: Sys, encoder: Encoder, t: seq<Target>, up: Upload,
                                        es: seq<Event>) returns (p: Pass)
    requires Idle(s) && up.Valid() && 1 <= |t| < MAX_TRAJ_LENGTH && up.points == TableFor(encoder, t)
    requires DateOf(WithDate(up.date)) == InstantOf(t[0].date)
    requires HostAndTicks(es) && SafeRun(cal, s, es) && Receptions(es) <= ParseStream(up.OnWire())
    ensures FilePlayed(cal, s, encoder, t, p, es) && p.up == up
  {
    WireRoundTrip(Buffers(up.Messages(), up.rests));
    if Receptions(es) == up.Arriving() {
      p := PassOfFile(cal, s, encoder, t, up, es);
    } else {
      p := Pass(up, [], [], [], [], 0);
    }
  }

  /** The clock readings of the transmitter's turns. */
  function Ticks(cal: Calendar, turns: seq<Turn>): seq<Seconds> {
    if turns == [] then []
    else
      var turn, earlier := turns[|turns| - 1], Ticks(cal, turns[..|turns| - 1]);
      if turn.Transmitting? then earlier + [cal(turn.now)] else earlier
  }

  lemma {:induction false} TicksAreTimes(cal: Calendar, es: seq<Event>, turns: seq<Turn>)
    requires Follows(es, turns) && |es| == |turns|
    ensures Times(cal, es) == Ticks(cal, turns)
  {
    if es != [] {
      var k := |es| - 1;
      TicksAreTimes(cal, es[..k], turns[..k]);
      assert IsTurn(es[k], turns[k]);
    }
  }

  /** The clock is steady, and the transmitter's turns while playing are in time and enough. */
  predicate TurnsInTime(cal: Calendar, reading: seq<Turn>, playing: seq<Turn>, target: Seconds, n: nat) {
    Steady(Ticks(cal, reading + playing)) && PlayingTime(Ticks(cal, playing), target, n)
  }

  lemma {:induction false} TurnsComplete(cal: Calendar, s: Sys, up: Upload, reading: seq<Turn>, playing: seq<Turn>,
                                         es: seq<Event>, fs: seq<Event>)
    requires Idle(s) && up.Valid() && 2 <= |up.points| && HostTurns(reading) && HostTurns(playing)
    requires Follows(es, reading) && |es| == |reading| && Follows(fs, playing) && |fs| == |playing|
    requires Receptions(es) == up.Arriving() && Receptions(es + fs) == up.Arriving()
    requires TurnsInTime(cal, reading, playing, up.Target(cal), |up.points|)
    ensures Completed(up.points, Frames(s.trace), Run(cal, s, es + fs))
  {
    TurnsAreHost(es, reading);
    TurnsAreHost(fs, playing);
    assert Follows(es + fs, reading + playing);
    TicksAreTimes(cal, fs, playing);
    TicksAreTimes(cal, es + fs, reading + playing);
    RunInTime(cal, s, up, es, fs);
  }

  /** What turns `reading` and then `playing` have made of an upload of which at first `calls` reads
      and bytes were left: with that many turns of the receiver all has arrived, and if they come
      before the playing turns and the clock is in time, the antenna has the whole trajectory. */
  ghost predicate UploadPlayed(cal: Calendar, s: Sys, up: Upload, calls: nat, reading: seq<Turn>, playing: seq<Turn>,
                               es: seq<Event>)
    requires up.Valid()
  {
    && (Calls(reading + playing) >= calls ==> Receptions(es) == up.Arriving())
    && (Calls(reading) >= calls && TurnsInTime(cal, reading, playing, up.Target(cal), |up.points|) ==>
          Completed(up.points, Frames(s.trace), Run(cal, s, es)))
  }

  lemma {:induction false} TurnsPlayUpload(cal: Calendar, s: Sys, up: Upload, calls: nat, reading: seq<Turn>,
                                           playing: seq<Turn>, es: seq<Event>)
    requires Idle(s) && up.Valid() && 2 <= |up.points| && HostTurns(reading) && HostTurns(playing)
    requires |es| == |reading + playing| && Follows(es, reading + playing)
    requires AllReceived(reading + playing, es, calls, up.Arriving())
    ensures UploadPlayed(cal, s, up, calls, reading, playing, es)
  {
    var turns, m := reading + playing, |reading|;
    assert turns[..|turns|] == turns && es[..|es|] == es && turns[..m] == reading;
    if Calls(reading) >= calls && TurnsInTime(cal, reading, playing, up.Target(cal), |up.points|) {
      CallsAppend(reading, playing);
      SplitFollows(es, reading, playing);
      assert es == es[..m] + es[m..];
      TurnsComplete(cal, s, up, reading, playing, es[..m], es[m..]);
    }
  }

  lemma SplitFollows(es: seq<Event>, reading: seq<Turn>, playing: seq<Turn>)
    requires |es| == |reading + playing| && Follows(es, reading + playing)
    ensures Follows(es[..|reading|], reading) && Follows(es[|reading|..], playing)
  {
    var turns, m := reading + playing, |reading|;
    forall i | 0 <= i < m ensures IsTurn(es[..m][i], reading[i]) {
      assert IsTurn(es[i], turns[i]);
    }
    forall i | 0 <= i < |playing| ensures IsTurn(es[m..][i], playing[i]) {
      assert IsTurn(es[m + i], turns[m + i]);
    }
  }

  /** The microcontroller's part: the upload of a file is all that its serial port has to read. */
  method PlayUpload(cal: Calendar, micro: Microcontroller, reading: seq<Turn>, playing: seq<Turn>,
                    ghost encoder: Encoder, ghost t: seq<Target>, ghost up: Upload)
    returns (ghost p: Pass, ghost es: seq<Event>)
    requires micro.Valid() && Idle(micro.board.View()) && HostTurns(reading) && HostTurns(playing)
    requires up.Valid() && 1 <= |t| < MAX_TRAJ_LENGTH && up.points == TableFor(encoder, t)
    requires DateOf(WithDate(up.date)) == InstantOf(t[0].date) && micro.reader.Stream() == up.OnWire()
    modifies micro`polling, micro.reader, micro.message
    modifies micro.board, micro.board.traj, micro.board.traj.table
    ensures |es| == |reading + playing| && Follows(es, reading + playing) && p.up == up
    ensures micro.board.View() == Run(cal, old(micro.board.View()), es)
    ensures FilePlayed(cal, old(micro.board.View()), encoder, t, p, es)
    ensures UploadPlayed(cal, old(micro.board.View()), up, old(micro.Left()), reading, playing, es)
  {
    var turns := reading + playing;
    ghost var s, calls := micro.board.View(), micro.Left();
    HostTurnsAppend(reading, playing);
    HostTurnsAreSafe(cal, s, up, turns);
    es := micro.Work(cal, turns);
    TurnsAreHost(es, turns);
    WireRoundTrip(Buffers(up.Messages(), up.rests));
    TurnsPlayUpload(cal, s, up, calls, reading, playing, es);
    p := RunPlaysFile(cal, s, encoder, t, up, es);
  }

  /** From the lines of a target file to the antenna, through every part of the system: the file is
      turned into frames, the script goes through pipe, emitter and serial line to the decoder of an
      idle microcontroller, which reads it in any pieces, and its threads take turns in any order.
      The receiver needs no more turns than there are reads and bytes. */
  method PlayFile(cal: Calendar, encoder: Encoder, lines: seq<Line>, unsetDate: DateArgs, unset: Args,
                  rests: seq<Padding>, cut: seq<byte> -> seq<seq<byte>>, crc: CrcEngine, board: Board,
                  reading: seq<Turn>, playing: seq<Turn>)
    returns (ghost p: Pass, ghost es: seq<Event>)
    requires 1 <= |Targets(lines)| < MAX_TRAJ_LENGTH && |rests| == |Targets(lines)| + 7
    requires IsCut(cut) && HostTurns(reading) && HostTurns(playing)
    requires crc.Initialised() && board.Valid() && crc.crcTable != board.traj.table && Idle(board.View())
    modifies board, board.traj, board.traj.table
    ensures |es| == |reading + playing| && Follows(es, reading + playing)
    ensures board.View() == Run(cal, old(board.View()), es)
    ensures FilePlayed(cal, old(board.View()), encoder, Targets(lines), p, es)
    ensures p.up.Target(cal) == cal(InstantOf(Targets(lines)[0].date))
    ensures var wire := p.up.OnWire();
            && |wire| <= MAX_SERIAL_MESSAGE_LENGTH * (|Targets(lines)| + 7)
            && UploadPlayed(cal, old(board.View()), p.up, |cut(wire)| + |wire|, reading, playing, es)
  {
    var port := new SerialOutput();
    ghost var up := SendFile(crc, port, encoder, lines, unsetDate, unset, rests);
    assert port.sent == up.OnWire();
    WireBound(Buffers(up.Messages(), up.rests));
    var reader := new Reader(cut(port.sent));
    var micro := new Microcontroller(board, crc, reader);
    p, es := PlayUpload(cal, micro, reading, playing, encoder, Targets(lines), up);
  }
}
