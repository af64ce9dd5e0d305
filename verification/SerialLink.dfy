/** The serial link as a whole: repeated calls of the decoder, frames among line noise, damaged
    frames, and the round trip from `writeMessage` to `readMessage` (Messages/messages.c:53-139,
    PC_interface/PcSerialThreads.c:57-65). */
module SerialLink {
  import opened Bytes
  import opened Crc
  import opened ErrorDetection
  import opened Messages
  import opened Receiver

  /** A call of the decoder that returned a non-negative status. */
  datatype Received = Received(status: int, message: seq<byte>)

  /** One pure pass over a byte stream. */
  ghost function ParseStream(s: seq<byte>): seq<Received> {
    if s == [] then []
    else match Parse(s)
      case Skip => ParseStream(s[1..])
      case Partial => []
      case Frame(status, message, length) => [Received(status, message)] + ParseStream(s[length..])
  }

  /** Calls the decoder until the reader is exhausted and keeps what the receiving thread acts on.
      The result depends on the bytes alone, not on how the reads cut them up. */
  method ReceiveAll(crc: CrcEngine, reader: Reader) returns (results: seq<Received>)
    requires crc.Initialised()
    modifies reader
    ensures results == ParseStream(old(reader.Stream()))
  {
    var message := new byte[MAX_PAYLOAD_MESSAGE_LENGTH];
    results := [];
    ghost var s := reader.Stream();
    while reader.chunks != []
      invariant results + ParseStream(reader.Stream()) == ParseStream(s)
      invariant crc.Initialised()
      decreases |reader.chunks| + |reader.Stream()|
    {
      ghost var done, rest := results, reader.Stream();
      var outcome := ReadMessage(crc, reader, message);
      if outcome == Polling {
        return;
      }
      if outcome.status >= 0 {
        results := results + [Received(outcome.status, message[..])];
        assert results + ParseStream(reader.Stream())
            == done + ([Received(outcome.status, message[..])] + ParseStream(reader.Stream()));
      }
    }
  }

  // --------------------------------------------------------------- frames among noise

  predicate Noise(s: seq<byte>) {
    HEADER_BYTE !in s
  }

  lemma {:induction false} SkipNoise(noise: seq<byte>, s: seq<byte>)
    requires Noise(noise)
    ensures ParseStream(noise + s) == ParseStream(s)
  {
    if noise == [] {
      assert noise + s == s;
    } else {
      assert (noise + s)[1..] == noise[1..] + s;
      SkipNoise(noise[1..], s);
    }
  }

  /** The start of a frame whose payload has the given length. */
  function Opening(length: nat): (s: seq<byte>)
    requires length <= MAX_PAYLOAD_MESSAGE_LENGTH
    ensures |s| == 2 && s[0] == HEADER_BYTE && CappedLength(s[1]) == length
  {
    assert (length as byte) as int == length;
    [HEADER_BYTE, length as byte]
  }

  /** A frame whose codeword may be damaged, followed by anything. */
  lemma {:induction false} ParseCodeword(c: seq<byte>, rest: seq<byte>)
    requires 1 <= |c| <= MAX_PAYLOAD_MESSAGE_LENGTH + 1
    ensures ParseStream(Opening(|c| - 1) + c + rest)
            == [Received(if Accepted(c) then |c| + 2 else 0, MessageOf(c[..|c| - 1]))] + ParseStream(rest)
  {
    var tot := |c| - 1;
    var s := Opening(tot) + c + rest;
    assert s[2..tot + 2] == c[..tot];
    assert s[tot + 2] == c[tot];
    assert s[tot + 3..] == rest;
    ParseComplete(s, tot);
    assert Parse(s) == Frame(if Accepted(c) then tot + 3 else 0, MessageOf(c[..tot]), tot + 3);
  }

  lemma FrameAccepted(payload: seq<byte>)
    ensures Accepted(payload + [Checksum(payload)])
  {
    assert (payload + [Checksum(payload)])[..|payload|] == payload;
  }

  lemma ParseFrame(payload: seq<byte>, rest: seq<byte>)
    requires |payload| <= MAX_PAYLOAD_MESSAGE_LENGTH
    ensures ParseStream(FrameOf(payload) + rest)
            == [Received(|payload| + 3, MessageOf(payload))] + ParseStream(rest)
  {
    var c := payload + [Checksum(payload)];
    FrameAccepted(payload);
    ParseCodeword(c, rest);
    assert FrameOf(payload) + rest == Opening(|payload|) + c + rest;
    assert c[..|c| - 1] == payload;
  }

  /** A frame with the noise that precedes it on the line. */
  datatype Item = Item(noise: seq<byte>, payload: seq<byte>)

  predicate Sendable(items: seq<Item>) {
    forall i | 0 <= i < |items| ::
      Noise(items[i].noise) && |items[i].payload| <= MAX_PAYLOAD_MESSAGE_LENGTH
  }

  ghost function Line(items: seq<Item>): seq<byte>
    requires Sendable(items)
  {
    if items == [] then []
    else items[0].noise + FrameOf(items[0].payload) + Line(items[1..])
  }

  /** The payloads of a line as the decoder hands them over. */
  function Decoded(items: seq<Item>): (r: seq<Received>)
    requires Sendable(items)
    ensures |r| == |items|
    ensures forall i | 0 <= i < |items| ::
      r[i] == Received(|items[i].payload| + 3, MessageOf(items[i].payload))
  {
    if items == [] then []
    else [Received(|items[0].payload| + 3, MessageOf(items[0].payload))] + Decoded(items[1..])
  }

  lemma ItemDecodes(item: Item, rest: seq<byte>)
    requires Noise(item.noise) && |item.payload| <= MAX_PAYLOAD_MESSAGE_LENGTH
    ensures ParseStream(item.noise + FrameOf(item.payload) + rest)
            == [Received(|item.payload| + 3, MessageOf(item.payload))] + ParseStream(rest)
  {
    var frame := FrameOf(item.payload) + rest;
    assert item.noise + FrameOf(item.payload) + rest == item.noise + frame;
    SkipNoise(item.noise, frame);
    ParseFrame(item.payload, rest);
  }

  /** Frames separated by noise decode to exactly the payloads sent, in order. */
  lemma {:induction false} LineDecodes(items: seq<Item>, tail: seq<byte>)
    requires Sendable(items) && Noise(tail)
    ensures ParseStream(Line(items) + tail) == Decoded(items)
  {
    if items == [] {
      assert Line(items) + tail == tail + [];
      SkipNoise(tail, []);
    } else {
      var first := items[0].noise + FrameOf(items[0].payload);
      var later := Line(items[1..]);
      LineDecodes(items[1..], tail);
      ItemDecodes(items[0], later + tail);
      assert (first + later) + tail == first + (later + tail);
    }
  }

  // ------------------------------------------------------------------ damaged frames

  /** Any two inverted bits in payload and checksum make the decoder report a checksum error, for
      every payload that fits a frame, and decoding resumes right after the damaged frame. */
  lemma {:induction false} TwoBitErrorReported(payload: seq<byte>, i: nat, j: nat, rest: seq<byte>)
    requires |payload| <= MAX_PAYLOAD_MESSAGE_LENGTH && i < j < 8 * (|payload| + 1)
    ensures var c := Flip(Flip(payload + [Checksum(payload)], i), j);
            ParseStream(Opening(|payload|) + c + rest)
            == [Received(0, MessageOf(c[..|payload|]))] + ParseStream(rest)
  {
    var c := payload + [Checksum(payload)];
    FrameAccepted(payload);
    TwoBitErrors(c, i, j);
    assert 0 < j - i < PowersOfX.ORDER_OF_X;
    ParseCodeword(Flip(Flip(c, i), j), rest);
  }

  /** So does any damage confined to eight consecutive bits. */
  lemma BurstReported(payload: seq<byte>, d: seq<byte>, a: nat, rest: seq<byte>)
    requires |payload| <= MAX_PAYLOAD_MESSAGE_LENGTH && |d| == |payload| + 1
    requires d != payload + [Checksum(payload)]
    requires DifferWithin(Bits(payload + [Checksum(payload)]), Bits(d), a, a + 8)
    ensures ParseStream(Opening(|payload|) + d + rest)
            == [Received(0, MessageOf(d[..|payload|]))] + ParseStream(rest)
  {
    FrameAccepted(payload);
    BurstDetected(payload + [Checksum(payload)], d, a);
    ParseCodeword(d, rest);
  }

  // ---------------------------------------------------------------------- round trip

  /** Everything `writeMessage` emits for a list of message buffers. */
  ghost function Wire(buffers: seq<Payload>): seq<byte> {
    if buffers == [] then [] else Written(buffers[0]) + Wire(buffers[1..])
  }

  lemma {:induction false} WireBound(buffers: seq<Payload>)
    ensures |Wire(buffers)| <= MAX_SERIAL_MESSAGE_LENGTH * |buffers|
  {
    if buffers != [] {
      assert |Written(buffers[0])| <= MAX_SERIAL_MESSAGE_LENGTH;
      WireBound(buffers[1..]);
    }
  }

  /** The message as the receiver sees it: cut to the length of its kind, padded with zeros. */
  function Delivered(b: Payload): (r: Received)
    ensures |r.message| == MAX_PAYLOAD_MESSAGE_LENGTH
  {
    var length := PayloadLength(b[0] as nat);
    Received(length + 3, MessageOf(b[..length]))
  }

  function DeliveredAll(buffers: seq<Payload>): (r: seq<Received>)
    ensures |r| == |buffers|
    ensures forall i | 0 <= i < |buffers| :: r[i] == Delivered(buffers[i])
  {
    if buffers == [] then [] else [Delivered(buffers[0])] + DeliveredAll(buffers[1..])
  }

  /** Every message written is received once, in order, cut to the length of its kind. */
  lemma {:induction false} WireRoundTrip(buffers: seq<Payload>)
    ensures ParseStream(Wire(buffers)) == DeliveredAll(buffers)
  {
    if buffers != [] {
      var b := buffers[0];
      ParseFrame(b[..PayloadLength(b[0] as nat)], Wire(buffers[1..]));
      WireRoundTrip(buffers[1..]);
    }
  }
}
