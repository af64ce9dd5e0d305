/** The host from a target file to the serial port: the pass is written to the pipe, and the emitter
    takes the messages from the pipe and writes their frames (CodesPC/Targeting.c,
    CodesPC/ComServer/ServerEmitter.c). */
module HostSide {
  import opened Bytes
  import opened Crc
  import opened Messages
  import opened Pointing
  import opened Protocol
  import opened SerialLink
  import opened Targeting
  import opened Uploads

  lemma {:induction false} WireSnoc(buffers: seq<Payload>, b: Payload)
    ensures Wire(buffers + [b]) == Wire(buffers) + Written(b)
  {
    if buffers == [] {
      assert [] + [b] == [b];
      assert Wire([b]) == Written(b) + Wire([]);
    } else {
      assert (buffers + [b])[1..] == buffers[1..] + [b];
      WireSnoc(buffers[1..], b);
    }
  }

  lemma SentNext(buffers: seq<Payload>, i: nat, sent: seq<byte>)
    requires i < |buffers|
    ensures sent + Wire(buffers[..i]) + Written(buffers[i]) == sent + Wire(buffers[..i + 1])
  {
    assert buffers[..i + 1] == buffers[..i] + [buffers[i]];
    WireSnoc(buffers[..i], buffers[i]);
    assert sent + Wire(buffers[..i]) + Written(buffers[i]) == sent + (Wire(buffers[..i]) + Written(buffers[i]));
  }

  /** `writeSerialMessage` */
  method WriteSerialMessage(crc: CrcEngine, port: SerialOutput, payload: Payload)
    requires crc.Initialised()
    modifies port
    ensures port.sent == old(port.sent) + Written(payload)
  {
    var buffer := new byte[MAX_PAYLOAD_MESSAGE_LENGTH](i requires 0 <= i < MAX_PAYLOAD_MESSAGE_LENGTH => payload[i]);
    assert buffer[..] == payload;
    var n := WriteMessage(crc, port, buffer);
  }

  /** The emitter thread on the messages of the pipe, with the bytes that follow each in its buffer. */
  method Emit(crc: CrcEngine, port: SerialOutput, messages: seq<SimpleMessage>, rests: seq<Padding>)
    requires crc.Initialised() && |rests| == |messages|
    modifies port
    ensures port.sent == old(port.sent) + Wire(Buffers(messages, rests))
  {
    ghost var buffers := Buffers(messages, rests);
    ghost var sent := port.sent;
    for i := 0 to |messages|
      invariant port.sent == sent + Wire(buffers[..i]) && crc.Initialised()
    {
      SentNext(buffers, i, sent);
      WriteSerialMessage(crc, port, BufferOf(messages[i], rests[i]));
    }
    assert buffers[..|buffers|] == buffers;
  }

  /** From the lines of a target file to the serial port: what is sent is an upload of the file's
      frames, to be started at the instant of its first target. */
  method SendFile(crc: CrcEngine, port: SerialOutput, encoder: Encoder, lines: seq<Line>, unsetDate: DateArgs,
                  unset: Args, rests: seq<Padding>)
    returns (ghost up: Upload)
    requires crc.Initialised() && |Targets(lines)| < MAX_TRAJ_LENGTH
    requires |rests| == |TableFor(encoder, Targets(lines))| + 6
    modifies port
    ensures up.Valid() && up.points == TableFor(encoder, Targets(lines))
    ensures Targets(lines) != [] ==> DateOf(WithDate(up.date)) == InstantOf(Targets(lines)[0].date)
    ensures port.sent == old(port.sent) + up.OnWire()
  {
    var pipe := new Pipe();
    ghost var begin := TargetingFromFile(encoder, lines, pipe, unsetDate, unset);
    TableIsStorable(encoder, Targets(lines));
    up := Upload(TableFor(encoder, Targets(lines)), begin, unset, rests);
    assert pipe.messages == up.Messages();
    Emit(crc, port, pipe.messages, rests);
  }
}
