/** The host side of one pass (CodesPC/Targeting.c): reading a target file into a table of frames and
    sending the orders that load and start it. */
module Targeting {
  import opened AntennaFrames
  import opened Bytes
  import opened Messages
  import opened Pointing
  import opened Protocol
  import opened TimeChain

  // ---------------------------------------------------------------------------- dates

  /** The seven bytes of `DateArgs`: year since 1980, month, day, milliseconds. */
  type DateArgs = d: seq<byte> | |d| == 7 witness ZeroBytes(7)

  /** The numbers scanned from the date of a line. */
  datatype DateFields = DateFields(year: int, month: int, day: int, hour: int, minute: int, second: int) {
    function Millis(): int {
      ((hour * 60 + minute) * 60 + second) * 1000
    }
  }

  /** Those whose milliseconds do not overflow an int32_t. */
  type FileDate = d: DateFields | -0x8000_0000 <= d.Millis() < 0x8000_0000
    witness DateFields(YEAR_OFFSET, 1, 1, 0, 0, 0)

  /** (uint32_t) n, for an int32_t */
  function ToUint32(n: int): uint32
    requires -0x8000_0000 <= n < 0x8000_0000
  {
    if n < 0 then n + 0x1_0000_0000 else n
  }

  /** The instant of the clock that they denote: year, month and day are cut to a byte each, and
      negative milliseconds are read without their sign. */
  function InstantOf(d: FileDate): RTCDateTime {
    RTCDateTime((d.year - YEAR_OFFSET) % 256, d.month % 256, d.day % 256, ToUint32(d.Millis()))
  }

  /** A proper date and time of day, in the years that a byte can count. */
  predicate ProperDate(d: FileDate) {
    && YEAR_OFFSET <= d.year < YEAR_OFFSET + 256 && 0 <= d.month < 256 && 0 <= d.day < 256
    && 0 <= d.hour && 0 <= d.minute < 60 && 0 <= d.second < 60
  }

  /** Such a date is denoted exactly. */
  lemma InstantOfProperDate(d: FileDate)
    requires ProperDate(d)
    ensures InstantOf(d) == RTCDateTime(d.year - YEAR_OFFSET, d.month, d.day, d.Millis())
  {
  }

  lemma MillisOfProperDate(d: FileDate)
    requires ProperDate(d)
    ensures d.Millis() == TimeOfDay(d.hour, d.minute, d.second, 0).Millis()
  {
  }

  /** The milliseconds of the instant are those of hour, minute and second, and of no other time. */
  lemma InstantSaysTime(d: FileDate, t: TimeOfDay)
    requires ProperDate(d) && t.Valid()
    ensures t.Millis() == InstantOf(d).millisecond <==> t == TimeOfDay(d.hour, d.minute, d.second, 0)
  {
    InstantOfProperDate(d);
    MillisOfProperDate(d);
    if t.Millis() == InstantOf(d).millisecond {
      MillisInjective(t, TimeOfDay(d.hour, d.minute, d.second, 0));
    }
  }

  /** The instant is what the clock is set to by a sentence of the GPS with the same date and time. */
  lemma InstantOfSentence(d: FileDate, buf: seq<byte>)
    requires ProperDate(d) && Sentence(buf)
    requires DateIn(buf) == Date(d.year, d.month, d.day) && TimeIn(buf) == TimeOfDay(d.hour, d.minute, d.second, 0)
    ensures InstantOf(d)
            == RTCDateTime(DateIn(buf).year - YEAR_OFFSET, DateIn(buf).month, DateIn(buf).day, TimeIn(buf).Millis())
  {
    InstantOfProperDate(d);
    MillisOfProperDate(d);
  }

  /** A date order is read with the layout of the stamp of a log message. */
  lemma DateOfStamp(date: DateArgs)
    ensures DateOf(WithDate(date))
            == RTCDateTime(date[0] as nat, date[1] as nat, date[2] as nat, LittleEndian(date[3..]))
  {
    assert WithDate(date)[3..7] == date[3..];
  }

  /** `readDateFromFile` on the fields that were scanned.  Each scan stores four bytes from the field
      on, of which the next one overwrites all but the first. */
  method ReadDate(d: FileDate) returns (date: DateArgs)
    ensures DateOf(WithDate(date)) == InstantOf(d)
  {
    var year := ((d.year - YEAR_OFFSET) % 256) as byte;
    var month, day := (d.month % 256) as byte, (d.day % 256) as byte;
    var millis := ((d.hour * 60 + d.minute) * 60 + d.second) * 1000;
    var bytes := SplitMillis(ToUint32(millis));
    date := [year, month, day] + bytes;
    assert WithDate(date)[3..7] == bytes;
  }

  /** `(ARGS) {.date = date}` */
  function WithDate(date: DateArgs): Args {
    date + ZeroBytes(5)
  }

  // --------------------------------------------------------------------- target files

  /** Where to point, and from when on. */
  datatype Target = Target(date: FileDate, az: real, el: real)

  datatype Line = Comment | Entry(target: Target)

  /** The targets after one more line. */
  function WithLine(t: seq<Target>, line: Line): seq<Target> {
    if line.Comment? then t else t + [line.target]
  }

  /** The targets of the lines that are no comments. */
  function Targets(lines: seq<Line>): (t: seq<Target>)
    ensures |t| <= |lines|
  {
    if lines == [] then [] else WithLine(Targets(lines[..|lines| - 1]), lines[|lines| - 1])
  }

  function CommandFor(encoder: Encoder, t: Target, mode: nat): (c: Command)
    requires mode < 10
    ensures c.Valid()
  {
    var xy := encoder(t.az, t.el);
    Command(PUISSANCE_ACTIVATE, mode, xy.0, xy.1)
  }

  /** One tracking frame per target. */
  function TrackingFrames(encoder: Encoder, t: seq<Target>): (p: seq<Args>)
    ensures |p| == |t|
  {
    if t == [] then []
    else TrackingFrames(encoder, t[..|t| - 1]) + [FrameFor(CommandFor(encoder, t[|t| - 1], MODE_ANTENNA_EPHEM))]
  }

  /** The table for k targets: the first position twice, once to go there and once to track,
      then one tracking frame per further target. */
  function TableFor(encoder: Encoder, t: seq<Target>): (p: seq<Args>)
    ensures |p| == if t == [] then 0 else |t| + 1
  {
    if t == [] then []
    else [FrameFor(CommandFor(encoder, t[0], MODE_ANTENNA_POSITION))] + TrackingFrames(encoder, t)
  }

  lemma {:induction false} TrackingFrameAt(encoder: Encoder, t: seq<Target>, i: nat)
    requires i < |t|
    ensures TrackingFrames(encoder, t)[i] == FrameFor(CommandFor(encoder, t[i], MODE_ANTENNA_EPHEM))
  {
    if i < |t| - 1 {
      TrackingFrameAt(encoder, t[..|t| - 1], i);
    }
  }

  lemma RowFrame(encoder: Encoder, t: seq<Target>, i: nat)
    requires t != [] && i <= |t|
    ensures TableFor(encoder, t)[i]
            == if i == 0 then FrameFor(CommandFor(encoder, t[0], MODE_ANTENNA_POSITION))
               else FrameFor(CommandFor(encoder, t[i - 1], MODE_ANTENNA_EPHEM))
  {
    if i > 0 {
      TrackingFrameAt(encoder, t, i - 1);
    }
  }

  lemma {:induction false} PointingCommand(encoder: Encoder, target: Target, mode: nat)
    requires mode < 10
    ensures var xy := encoder(target.az, target.el);
            Decode(FrameFor(CommandFor(encoder, target, mode))) == Some(Command(PUISSANCE_ACTIVATE, mode, xy.0, xy.1))
  {
    DecodeFrame(CommandFor(encoder, target, mode));
  }

  /** What the rows of the table ask of the antenna: the first position twice, once to go there and
      once to track, and then to track the further ones. */
  lemma {:induction false} RowCommands(encoder: Encoder, t: seq<Target>, i: nat)
    requires t != [] && i <= |t|
    ensures var target := t[if i == 0 then 0 else i - 1];
            var xy := encoder(target.az, target.el);
            Decode(TableFor(encoder, t)[i]) == Some(Command(8, if i == 0 then 6 else 2, xy.0, xy.1))
  {
    RowFrame(encoder, t, i);
    if i == 0 {
      PointingCommand(encoder, t[0], MODE_ANTENNA_POSITION);
    } else {
      PointingCommand(encoder, t[i - 1], MODE_ANTENNA_EPHEM);
    }
  }

  /** Each row of the table points where its line says. */
  lemma {:induction false} RowAims(trig: Trigonometry, t: seq<Target>, i: nat)
    requires trig.Proper() && t != [] && i <= |t|
    requires var target := t[if i == 0 then 0 else i - 1];
             10.0 < target.el < 90.0 && -89.17 <= target.az <= 450.83
    ensures var target := t[if i == 0 then 0 else i - 1];
            var row := Decode(TableFor(EncoderOf(trig), t)[i]);
            row.Some? && Aims(trig, target.az, target.el, row.value.x, row.value.y)
  {
    var target := t[if i == 0 then 0 else i - 1];
    RowCommands(EncoderOf(trig), t, i);
    EncoderAims(trig, target.az, target.el);
  }

  lemma TableSnoc(encoder: Encoder, t: seq<Target>, target: Target)
    ensures TableFor(encoder, t + [target])
            == (if t == [] then [FrameFor(CommandFor(encoder, target, MODE_ANTENNA_POSITION))]
                else TableFor(encoder, t))
               + [FrameFor(CommandFor(encoder, target, MODE_ANTENNA_EPHEM))]
  {
    assert (t + [target])[..|t|] == t;
  }

  lemma {:induction false} TargetsStep(lines: seq<Line>, i: nat)
    requires i < |lines|
    ensures Targets(lines[..i + 1]) == WithLine(Targets(lines[..i]), lines[i])
    ensures |Targets(lines[..i + 1])| <= |Targets(lines)|
    ensures lines[i].Entry? ==> |Targets(lines[..i])| < |Targets(lines)|
    decreases |lines| - i
  {
    assert lines[..i + 1][..i] == lines[..i];
    if i + 1 < |lines| {
      TargetsStep(lines, i + 1);
    } else {
      assert lines[..i + 1] == lines;
    }
  }

  lemma {:induction false} TargetsGrow(lines: seq<Line>, i: nat)
    requires i <= |lines|
    ensures Targets(lines[..i]) <= Targets(lines)
  {
    if i == |lines| {
      assert lines[..i] == lines;
    } else {
      TargetsGrow(lines[..|lines| - 1], i);
      assert lines[..|lines| - 1][..i] == lines[..i];
    }
  }

  /** Every line that is no comment is a target, behind those of the lines before. */
  lemma {:induction false} EntryIsLoaded(lines: seq<Line>, i: nat)
    requires i < |lines| && lines[i].Entry?
    ensures var p := |Targets(lines[..i])|;
            && p < |Targets(lines)| && Targets(lines)[p] == lines[i].target
            && |Targets(lines[..i + 1])| == p + 1
  {
    TargetsStep(lines, i);
    TargetsGrow(lines, i + 1);
  }

  /** Comments are none. */
  lemma {:induction false} CommentsAddNothing(lines: seq<Line>, i: nat)
    requires i <= |lines| && forall j | i <= j < |lines| :: lines[j].Comment?
    ensures Targets(lines) == Targets(lines[..i])
  {
    if i == |lines| {
      assert lines[..i] == lines;
    } else {
      CommentsAddNothing(lines[..|lines| - 1], i);
      assert lines[..|lines| - 1][..i] == lines[..i];
    }
  }

  /** `trajAddPointFromLine` on row `at` of the table. */
  method AddPointFromLine(encoder: Encoder, target: Target, traj: array<Args>, at: nat, mode: nat)
    requires mode < 10 && at < traj.Length
    modifies traj
    ensures traj[..] == old(traj[..])[at := FrameFor(CommandFor(encoder, target, mode))]
  {
    var message := new byte[ANTENNA_MESSAGE_LENGTH];
    ComputeAntennaMessage(message, PUISSANCE_ACTIVATE, mode, encoder, target.az, target.el);
    traj[at] := message[..];
  }

  /** The first rows are the table for the targets t, and the date is that of the first of them;
      without any it is the date from before. */
  ghost predicate Holds(encoder: Encoder, t: seq<Target>, traj: array<Args>, length: nat, date: DateArgs,
                        before: DateArgs)
    reads traj
  {
    && length <= traj.Length && traj[..length] == TableFor(encoder, t)
    && if t == [] then date == before else DateOf(WithDate(date)) == InstantOf(t[0].date)
  }

  lemma FirstRows(rows: seq<Args>, a: Args, b: Args)
    requires 2 <= |rows|
    ensures rows[0 := a][1 := b][..2] == [a] + [b]
  {
  }

  /** The two rows of the first target. */
  method LoadFirst(encoder: Encoder, target: Target, traj: array<Args>) returns (begin: DateArgs)
    requires 2 <= traj.Length
    modifies traj
    ensures traj[..2] == TableFor(encoder, [] + [target]) && DateOf(WithDate(begin)) == InstantOf(target.date)
  {
    begin := ReadDate(target.date);
    FirstRows(traj[..], FrameFor(CommandFor(encoder, target, MODE_ANTENNA_POSITION)),
              FrameFor(CommandFor(encoder, target, MODE_ANTENNA_EPHEM)));
    TableSnoc(encoder, [], target);
    AddPointFromLine(encoder, target, traj, 0, MODE_ANTENNA_POSITION);
    AddPointFromLine(encoder, target, traj, 1, MODE_ANTENNA_EPHEM);
  }

  /** The row of a further target. */
  method LoadFurther(encoder: Encoder, target: Target, traj: array<Args>, length: nat, ghost t: seq<Target>)
    requires t != [] && length < traj.Length && traj[..length] == TableFor(encoder, t)
    modifies traj
    ensures traj[..length + 1] == TableFor(encoder, t + [target])
  {
    ghost var rows := traj[..length];
    AddPointFromLine(encoder, target, traj, length, MODE_ANTENNA_EPHEM);
    assert traj[..length + 1] == rows + [FrameFor(CommandFor(encoder, target, MODE_ANTENNA_EPHEM))];
    TableSnoc(encoder, t, target);
  }

  /** The loop body of `loadTargetFile`, for the line after the targets t. */
  method LoadLine(encoder: Encoder, line: Line, traj: array<Args>, length: nat, date: DateArgs,
                  ghost t: seq<Target>, ghost next: seq<Target>, ghost before: DateArgs)
    returns (length': nat, begin: DateArgs)
    requires next == WithLine(t, line)
    requires Holds(encoder, t, traj, length, date, before) && (line.Entry? ==> |t| + 2 <= traj.Length)
    modifies traj
    ensures Holds(encoder, next, traj, length', begin, before)
  {
    length', begin := length, date;
    if line.Entry? {
      if length == 0 {
        begin := LoadFirst(encoder, line.target, traj);
        length' := length + 2;
      } else {
        LoadFurther(encoder, line.target, traj, length, t);
        length' := length + 1;
      }
    }
  }

  /** The targets of every start of the lines, in a table of that many rows. */
  ghost predicate Starts(lines: seq<Line>, ts: seq<seq<Target>>, rows: nat) {
    && |ts| == |lines| + 1 && ts[0] == []
    && forall i | 0 <= i < |lines| ::
         ts[i + 1] == WithLine(ts[i], lines[i]) && (lines[i].Entry? ==> |ts[i]| + 2 <= rows)
  }

  lemma StartsOf(lines: seq<Line>, rows: nat) returns (ts: seq<seq<Target>>)
    requires Targets(lines) != [] ==> |Targets(lines)| + 1 <= rows
    ensures Starts(lines, ts, rows) && ts[|lines|] == Targets(lines)
  {
    ts := seq(|lines| + 1, i requires 0 <= i <= |lines| => Targets(lines[..i]));
    forall i | 0 <= i < |lines|
      ensures ts[i + 1] == WithLine(ts[i], lines[i]) && (lines[i].Entry? ==> |ts[i]| + 2 <= rows)
    {
      TargetsStep(lines, i);
    }
    assert lines[..|lines|] == lines;
  }

  /** The loop of `loadTargetFile`. */
  method LoadLines(encoder: Encoder, lines: seq<Line>, traj: array<Args>, date: DateArgs, ghost ts: seq<seq<Target>>)
    returns (length: nat, begin: DateArgs)
    requires Starts(lines, ts, traj.Length)
    modifies traj
    ensures Holds(encoder, ts[|lines|], traj, length, begin, date)
  {
    length := 0;
    begin := date;
    for i := 0 to |lines|
      invariant Holds(encoder, ts[i], traj, length, begin, date)
    {
      length, begin := LoadLine(encoder, lines[i], traj, length, begin, ts[i], ts[i + 1], date);
    }
  }

  /** `loadTargetFile` on the lines of the file. */
  method LoadTargetFile(encoder: Encoder, lines: seq<Line>, traj: array<Args>, date: DateArgs)
    returns (length: nat, begin: DateArgs)
    requires Targets(lines) != [] ==> |Targets(lines)| + 1 <= traj.Length
    modifies traj
    ensures Holds(encoder, Targets(lines), traj, length, begin, date)
  {
    ghost var ts := StartsOf(lines, traj.Length);
    length, begin := LoadLines(encoder, lines, traj, date, ts);
  }

  // --------------------------------------------------------------------------- orders

  /** `strncpy(dst, src, 12)`: after a terminator the rest is padded with zeros. */
  function StrnCopy(src: seq<byte>): (dst: seq<byte>)
    ensures |dst| == |src|
  {
    if src == [] then [] else if src[0] == 0 then ZeroBytes(|src|) else [src[0]] + StrnCopy(src[1..])
  }

  /** Without terminator the copy is exact. */
  lemma {:induction false} StrnCopyExact(src: seq<byte>)
    requires 0 !in src
    ensures StrnCopy(src) == src
  {
    if src != [] {
      StrnCopyExact(src[1..]);
    }
  }

  function LengthArgs(n: nat, rest: Args): Args {
    rest[0 := (n % 256) as byte][1 := (n / 256 % 256) as byte]
  }

  function PointMessages(points: seq<Args>): (m: seq<SimpleMessage>)
    ensures |m| == |points|
    ensures forall i | 0 <= i < |points| ::
      m[i] == SimpleMessage(ID_MSG_ORDER_TRAJ_SET_NEW_POINT, StrnCopy(points[i]))
  {
    if points == [] then []
    else PointMessages(points[..|points| - 1])
         + [SimpleMessage(ID_MSG_ORDER_TRAJ_SET_NEW_POINT, StrnCopy(points[|points| - 1]))]
  }

  /** What `executeTargeting` sends, in order.  The argument bytes that it leaves unset are
      arbitrary. */
  function Script(points: seq<Args>, date: DateArgs, unset: Args): (m: seq<SimpleMessage>)
    ensures |m| == |points| + 6
  {
    [SimpleMessage(ID_MSG_ORDER_DESACTIVATE, NO_ARGS),
     SimpleMessage(ID_MSG_ORDER_REINI, NO_ARGS),
     SimpleMessage(ID_MSG_ORDER_CALAGE, NO_ARGS),
     SimpleMessage(ID_MSG_ORDER_TRAJ_REINI, NO_ARGS),
     SimpleMessage(ID_MSG_ORDER_TRAJ_SET_LENGTH, LengthArgs(|points|, unset))]
    + PointMessages(points)
    + [SimpleMessage(ID_MSG_ORDER_DO_TRAJ_AT_DATE, WithDate(date))]
  }

  /** The pipe to the emitter, as the list of messages written to it. */
  class Pipe {
    var messages: seq<SimpleMessage>

    constructor ()
      ensures messages == []
    {
      messages := [];
    }

    method WriteMessageToPipe(id: byte, args: Args)
      modifies this
      ensures messages == old(messages) + [SimpleMessage(id, args)]
    {
      messages := messages + [SimpleMessage(id, args)];
    }
  }

  /** The messages before the points. */
  method SendOpening(length: nat, pipe: Pipe, unset: Args)
    modifies pipe
    ensures pipe.messages
            == old(pipe.messages)
               + [SimpleMessage(ID_MSG_ORDER_DESACTIVATE, NO_ARGS),
                  SimpleMessage(ID_MSG_ORDER_REINI, NO_ARGS),
                  SimpleMessage(ID_MSG_ORDER_CALAGE, NO_ARGS),
                  SimpleMessage(ID_MSG_ORDER_TRAJ_REINI, NO_ARGS),
                  SimpleMessage(ID_MSG_ORDER_TRAJ_SET_LENGTH, LengthArgs(length, unset))]
  {
    pipe.WriteMessageToPipe(ID_MSG_ORDER_DESACTIVATE, NO_ARGS);
    pipe.WriteMessageToPipe(ID_MSG_ORDER_REINI, NO_ARGS);
    pipe.WriteMessageToPipe(ID_MSG_ORDER_CALAGE, NO_ARGS);
    pipe.WriteMessageToPipe(ID_MSG_ORDER_TRAJ_REINI, NO_ARGS);
    var arguments := unset;
    arguments := arguments[0 := (length % 256) as byte];
    arguments := arguments[1 := (length / 256 % 256) as byte];
    pipe.WriteMessageToPipe(ID_MSG_ORDER_TRAJ_SET_LENGTH, arguments);
  }

  method SendPoints(traj: array<Args>, length: nat, pipe: Pipe)
    requires length <= traj.Length
    modifies pipe
    ensures pipe.messages == old(pipe.messages) + PointMessages(traj[..length])
  {
    ghost var before := pipe.messages;
    for i := 0 to length
      invariant pipe.messages == before + PointMessages(traj[..i])
    {
      assert traj[..i + 1][..i] == traj[..i];
      pipe.WriteMessageToPipe(ID_MSG_ORDER_TRAJ_SET_NEW_POINT, StrnCopy(traj[i]));
    }
  }

  method ExecuteTargeting(traj: array<Args>, length: nat, pipe: Pipe, date: DateArgs, unset: Args)
    requires length <= traj.Length
    modifies pipe
    ensures pipe.messages == old(pipe.messages) + Script(traj[..length], date, unset)
  {
    SendOpening(length, pipe, unset);
    SendPoints(traj, length, pipe);
    pipe.WriteMessageToPipe(ID_MSG_ORDER_DO_TRAJ_AT_DATE, WithDate(date));
  }

  /** `targetingFromFile`, with the pipe open: the date and the argument bytes that nothing sets are
      arbitrary. */
  method TargetingFromFile(encoder: Encoder, lines: seq<Line>, pipe: Pipe, unsetDate: DateArgs, unset: Args)
    returns (ghost begin: DateArgs)
    requires |TableFor(encoder, Targets(lines))| <= MAX_TRAJ_LENGTH
    modifies pipe
    ensures pipe.messages == old(pipe.messages) + Script(TableFor(encoder, Targets(lines)), begin, unset)
    ensures Targets(lines) != [] ==> DateOf(WithDate(begin)) == InstantOf(Targets(lines)[0].date)
  {
    var traj := new Args[MAX_TRAJ_LENGTH](_ => NO_ARGS);
    var length, date := LoadTargetFile(encoder, lines, traj, unsetDate);
    ExecuteTargeting(traj, length, pipe, date, unset);
    begin := date;
  }

  /** Two bytes are enough for every length the table can hold. */
  lemma LengthSurvives(n: nat, rest: Args)
    requires n <= MAX_TRAJ_LENGTH
    ensures var a := LengthArgs(n, rest); a[0] as int + a[1] as int * 256 == n
  {
  }
}
