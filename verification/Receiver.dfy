/** The incremental decoder `readMessage` (Messages/messages.c:111-139) over a reader that answers
    with anything between no byte and the number requested. */
module Receiver {
  import opened Bytes
  import opened Crc
  import opened Messages

  function Flatten(chunks: seq<seq<byte>>): seq<byte> {
    if chunks == [] then [] else chunks[0] + Flatten(chunks[1..])
  }

  /** The receive side of a serial port.  Each read delivers at most one chunk, so the chunks decide
      how the byte stream is cut up; an empty chunk is a read that times out. */
  class Reader {
    var chunks: seq<seq<byte>>

    constructor (chunks: seq<seq<byte>>)
      ensures this.chunks == chunks
    {
      this.chunks := chunks;
    }

    /** The bytes still to be delivered. */
    function Stream(): seq<byte>
      reads this
    {
      Flatten(chunks)
    }

    /** The next read delivers nothing. */
    predicate Idle()
      reads this
    {
      chunks == [] || chunks[0] == []
    }

    method Read(buffer: array<byte>, offset: nat, n: nat) returns (k: nat)
      requires 0 < n && offset + n <= buffer.Length
      modifies this, buffer
      ensures k <= n && k <= |old(Stream())|
      ensures k == 0 <==> old(Idle())
      ensures buffer[..] == old(buffer[..offset]) + old(Stream())[..k] + old(buffer[offset + k..])
      ensures Stream() == old(Stream())[k..]
      ensures old(chunks) != [] ==> |chunks| + |Stream()| < |old(chunks)| + |old(Stream())|
    {
      if chunks == [] {
        assert buffer[..] == buffer[..offset] + buffer[offset..];
        return 0;
      }
      var chunk := chunks[0];
      ghost var before := buffer[..];
      k := if |chunk| <= n then |chunk| else n;
      for i := 0 to k
        invariant chunks == old(chunks)
        invariant forall j | 0 <= j < i :: buffer[offset + j] == chunk[j]
        invariant forall j | 0 <= j < offset || offset + i <= j < buffer.Length :: buffer[j] == before[j]
      {
        buffer[offset + i] := chunk[i];
      }
      assert buffer[..] == before[..offset] + chunk[..k] + before[offset + k..];
      assert Stream()[..k] == chunk[..k];
      if k == |chunk| {
        chunks := chunks[1..];
      } else {
        chunks := [chunk[k..]] + chunks[1..];
      }
      DropFromFirst(old(chunks), k);
    }
  }

  lemma DropFromFirst(chunks: seq<seq<byte>>, k: nat)
    requires chunks != [] && k <= |chunks[0]|
    ensures Flatten(chunks)[k..] == chunks[0][k..] + Flatten(chunks[1..])
    ensures Flatten(chunks)[k..] == Flatten([chunks[0][k..]] + chunks[1..])
  {
  }

  // ------------------------------------------------------- the decoder on a byte stream

  /** What one call of the decoder makes of the head of a stream. */
  datatype Parsed =
    | Skip                                                     // one byte that is no header
    | Partial                                                  // a frame that is not complete yet
    | Frame(status: int, message: seq<byte>, length: nat)      // a frame of that many bytes

  /** A payload padded with zeros to the size of a message buffer. */
  function MessageOf(payload: seq<byte>): (m: seq<byte>)
    requires |payload| <= MAX_PAYLOAD_MESSAGE_LENGTH
    ensures |m| == MAX_PAYLOAD_MESSAGE_LENGTH
  {
    payload + ZeroBytes(MAX_PAYLOAD_MESSAGE_LENGTH - |payload|)
  }

  function CappedLength(b: byte): (length: nat)
    ensures length <= MAX_PAYLOAD_MESSAGE_LENGTH
  {
    if b as int > MAX_PAYLOAD_MESSAGE_LENGTH then MAX_PAYLOAD_MESSAGE_LENGTH else b as int
  }

  ghost function Parse(s: seq<byte>): (r: Parsed)
    requires s != []
    ensures r.Frame? ==> 3 <= r.length <= |s| && |r.message| == MAX_PAYLOAD_MESSAGE_LENGTH && 0 <= r.status
  {
    if s[0] != HEADER_BYTE then Skip
    else if |s| < 2 then Partial
    else
      var tot := CappedLength(s[1]);
      if |s| < tot + 3 then Partial
      else
        var payload := s[2..tot + 2];
        Frame(if Checksum(payload) == s[tot + 2] then tot + 3 else 0, MessageOf(payload), tot + 3)
  }

  /** What `readMessage` does: it returns a status, or it keeps polling a reader that has no more
      data to give. */
  datatype Outcome = Returned(status: int) | Polling

  /** The outcome, the message and the rest of the stream are what the stream s calls for. */
  ghost predicate Answers(s: seq<byte>, outcome: Outcome, message: seq<byte>, rest: seq<byte>)
    requires s != []
  {
    match Parse(s)
    case Skip => outcome == Returned(-1) && rest == s[1..]
    case Partial => outcome == Polling && rest == []
    case Frame(status, m, length) => outcome == Returned(status) && message == m && rest == s[length..]
  }

  lemma ParsePartial(s: seq<byte>)
    requires s != [] && s[0] == HEADER_BYTE
    requires |s| < 2 || |s| < CappedLength(s[1]) + 3
    ensures Parse(s) == Partial
  {
  }

  lemma ParseComplete(s: seq<byte>, tot: nat)
    requires 2 <= |s| && s[0] == HEADER_BYTE && tot == CappedLength(s[1]) && tot + 3 <= |s|
    ensures Parse(s) == Frame(if Checksum(s[2..tot + 2]) == s[tot + 2] then tot + 3 else 0,
                              MessageOf(s[2..tot + 2]), tot + 3)
  {
  }

  /** A length byte beyond the buffer counts as twenty: the frame has 23 bytes. */
  lemma OverlongFrame(s: seq<byte>)
    requires 2 <= |s| && s[0] == HEADER_BYTE && s[1] > 20
    ensures |s| < 23 ==> Parse(s) == Partial
    ensures |s| >= 23 ==> Parse(s) == Frame(if Checksum(s[2..22]) == s[22] then 23 else 0, s[2..22], 23)
  {
    if |s| >= 23 {
      ParseComplete(s, 20);
      assert MessageOf(s[2..22]) == s[2..22];
    }
  }

  /** The two waiting loops of `readMessage`: polls until the buffer holds `target` bytes, or until
      the reader has nothing left. */
  method Poll(reader: Reader, buf: array<byte>, start: nat, target: nat, ghost s: seq<byte>) returns (n: nat)
    requires start <= target <= buf.Length && start <= |s|
    requires buf[..start] == s[..start] && reader.Stream() == s[start..]
    modifies reader, buf
    ensures start <= n <= target && n <= |s|
    ensures buf[..n] == s[..n] && reader.Stream() == s[n..]
    ensures n < target ==> n == |s|
    ensures |reader.chunks| + |reader.Stream()| <= old(|reader.chunks| + |reader.Stream()|)
  {
    n := start;
    while n < target && reader.chunks != []
      invariant start <= n <= target && n <= |s|
      invariant buf[..n] == s[..n] && reader.Stream() == s[n..]
      invariant |reader.chunks| + |reader.Stream()| <= old(|reader.chunks| + |reader.Stream()|)
      decreases |reader.chunks| + |reader.Stream()|
    {
      var k := reader.Read(buf, n, target - n);
      assert s[n..][..k] == s[n..n + k];
      assert s[n..][k..] == s[n + k..];
      n := n + k;
      assert buf[..n] == s[..n];
    }
  }

  /** Copies the payload out of a complete frame and checks it. */
  method Unpack(crc: CrcEngine, buf: array<byte>, tot: nat, message: array<byte>, ghost s: seq<byte>)
    returns (status: int)
    requires crc.Initialised() && buf != message && message != crc.crcTable
    requires message.Length == MAX_PAYLOAD_MESSAGE_LENGTH && tot <= MAX_PAYLOAD_MESSAGE_LENGTH
    requires forall j | 0 <= j < message.Length :: message[j] == 0
    requires tot + 3 <= buf.Length && tot + 3 <= |s| && buf[..tot + 3] == s[..tot + 3]
    modifies message
    ensures message[..] == MessageOf(s[2..tot + 2])
    ensures status == if Checksum(s[2..tot + 2]) == s[tot + 2] then tot + 3 else 0
  {
    for i := 0 to tot
      invariant message[..i] == buf[2..i + 2]
      invariant forall j | i <= j < MAX_PAYLOAD_MESSAGE_LENGTH :: message[j] == 0
    {
      message[i] := buf[i + 2];
      assert message[..i + 1] == message[..i] + [buf[i + 2]];
    }
    assert buf[2..tot + 2] == buf[..tot + 3][2..tot + 2] == s[2..tot + 2];
    var checksum := crc.ComputeCrc(message, tot);
    assert message[..] == MessageOf(s[2..tot + 2]);
    if checksum != buf[tot + 3 - 1] {
      return 0;
    }
    return tot + 3;
  }

  method ReadMessage(crc: CrcEngine, reader: Reader, message: array<byte>) returns (outcome: Outcome)
    requires crc.Initialised()
    requires message.Length == MAX_PAYLOAD_MESSAGE_LENGTH && message != crc.crcTable
    modifies reader, message
    ensures old(reader.Idle()) ==>
      outcome == Returned(-1) && reader.Stream() == old(reader.Stream())
    ensures !old(reader.Idle()) ==>
      old(reader.Stream()) != [] && Answers(old(reader.Stream()), outcome, message[..], reader.Stream())
    ensures old(reader.chunks) != [] ==>
      |reader.chunks| + |reader.Stream()| < |old(reader.chunks)| + |old(reader.Stream())|
  {
    var buf := new byte[MAX_SERIAL_MESSAGE_LENGTH];
    forall i | 0 <= i < MAX_PAYLOAD_MESSAGE_LENGTH {
      message[i] := 0;
    }
    ghost var s := reader.Stream();
    var n := reader.Read(buf, 0, 1);
    assert buf[..n] == s[..n];
    if n != 1 || buf[0] != HEADER_BYTE {
      return Returned(-1);
    }
    n := Poll(reader, buf, n, 2, s);
    if n == 1 {
      ParsePartial(s);
      return Polling;
    }
    var tot := CappedLength(buf[1]);
    n := Poll(reader, buf, n, tot + 3, s);
    if n < tot + 3 {
      ParsePartial(s);
      return Polling;
    }
    ParseComplete(s, tot);
    var status := Unpack(crc, buf, tot, message, s);
    return Returned(status);
  }
}
