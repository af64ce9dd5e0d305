/** Frames of the serial link (Messages/messages.c): how a payload is framed and written, and the
    incremental decoder that reads frames back from a reader that may deliver short or empty reads. */
module Messages {
  import opened Bytes
  import opened Crc

  const HEADER_BYTE: byte := 0x28  // '('
  const MAX_PAYLOAD_MESSAGE_LENGTH := 20
  const MAX_SERIAL_MESSAGE_LENGTH := 23
  const ANTENNA_MESSAGE_LENGTH := 12

  const BASE_MESSAGE_LENGTH := 1
  const BASE_LOG_LENGTH := 8
  const FIRST_ERROR_ID := 50
  const ID_MSG_LOG_REEMIT_OFFSET := 150

  // ------------------------------------------------------------------- payload lengths

  /** Bytes of arguments carried by a message, by its identifier below the re-emission offset. */
  function ArgsSize(id: nat): (k: nat)
    ensures k <= ANTENNA_MESSAGE_LENGTH
  {
    if id in {0, 1, 2, 3, 32, 33, 53, 54, 56, 57, 83, 84, 85, 86} then 0
    else if id == 30 then 2
    else if id == 82 then 1
    else if id == 6 then 7
    else ANTENNA_MESSAGE_LENGTH
  }

  function PayloadLength(id: nat): nat {
    (if id >= FIRST_ERROR_ID then BASE_LOG_LENGTH else BASE_MESSAGE_LENGTH)
    + ArgsSize(id % ID_MSG_LOG_REEMIT_OFFSET)
  }

  method GetPayloadLength(id: nat) returns (length: nat)
    ensures length == PayloadLength(id) <= MAX_PAYLOAD_MESSAGE_LENGTH
    ensures BASE_MESSAGE_LENGTH <= length
  {
    var base := BASE_MESSAGE_LENGTH;
    if id >= FIRST_ERROR_ID {
      base := BASE_LOG_LENGTH;
    }
    var kind := id % ID_MSG_LOG_REEMIT_OFFSET;
    if kind == 0 || kind == 1 || kind == 2 || kind == 3 || kind == 32 || kind == 33 || kind == 53 || kind == 54
       || kind == 57 || kind == 83 || kind == 84 || kind == 85 || kind == 86 || kind == 56 {
      return 0 + base;
    } else if kind == 30 {
      return 2 + base;
    } else if kind == 82 {
      return 1 + base;
    } else if kind == 6 {
      return 7 + base;
    } else {
      return ANTENNA_MESSAGE_LENGTH + base;
    }
  }

  /** The bytes of `SerialPayload`. */
  type Payload = b: seq<byte> | |b| == MAX_PAYLOAD_MESSAGE_LENGTH
    witness ZeroBytes(MAX_PAYLOAD_MESSAGE_LENGTH)

  // ------------------------------------------------------------------------- encoding

  /** A payload on the wire: header, length, payload, checksum. */
  ghost function FrameOf(payload: seq<byte>): (frame: seq<byte>)
    requires |payload| < 256
    ensures |frame| == |payload| + 3
  {
    [HEADER_BYTE, |payload| as byte] + payload + [Checksum(payload)]
  }

  method EncodePayload(crc: CrcEngine, payload: array<byte>, msg: array<byte>, payloadLength: nat)
    returns (nb: nat)
    requires crc.Initialised() && msg != payload && msg != crc.crcTable
    requires payloadLength <= payload.Length && payloadLength < 256 && payloadLength + 3 <= msg.Length
    modifies msg
    ensures nb == payloadLength + 3
    ensures msg[..] == FrameOf(payload[..payloadLength]) + old(msg[nb..])
  {
    nb := 0;
    msg[nb] := HEADER_BYTE;
    nb := nb + 1;
    msg[nb] := payloadLength as byte;
    nb := nb + 1;
    ghost var opening := [HEADER_BYTE, payloadLength as byte];
    for i := 0 to payloadLength
      invariant nb == i + 2
      invariant msg[..2] == opening
      invariant msg[2..nb] == payload[..i]
      invariant forall j | nb <= j < msg.Length :: msg[j] == old(msg[j])
    {
      msg[nb] := payload[i];
      nb := nb + 1;
    }
    var checksum := crc.ComputeCrc(payload, payloadLength);
    msg[nb] := checksum;
    nb := nb + 1;
    assert msg[..] == msg[..2] + msg[2..nb - 1] + [checksum] + msg[nb..];
  }

  /** The transmit side of a serial port: everything written to it, in order. */
  class SerialOutput {
    var sent: seq<byte>

    constructor ()
      ensures sent == []
    {
      sent := [];
    }

    method Write(buffer: array<byte>, n: nat) returns (written: nat)
      requires n <= buffer.Length
      modifies this
      ensures written == n && sent == old(sent) + buffer[..n]
    {
      sent := sent + buffer[..n];
      written := n;
    }
  }

  /** What `writeMessage` puts on the wire for a message buffer: the frame of its first bytes, as
      many as its identifier calls for. */
  ghost function Written(buffer: Payload): (frame: seq<byte>) {
    FrameOf(buffer[..PayloadLength(buffer[0] as nat)])
  }

  method WriteMessage(crc: CrcEngine, port: SerialOutput, payload: array<byte>) returns (n: nat)
    requires crc.Initialised() && payload.Length == MAX_PAYLOAD_MESSAGE_LENGTH
    modifies port
    ensures port.sent == old(port.sent) + Written(payload[..])
    ensures n == |Written(payload[..])|
  {
    var emitBuffer := new byte[MAX_SERIAL_MESSAGE_LENGTH];
    var length := GetPayloadLength(payload[0] as nat);
    var tot := EncodePayload(crc, payload, emitBuffer, length);
    assert payload[..][..length] == payload[..length];
    assert emitBuffer[..tot] == Written(payload[..]);
    n := port.Write(emitBuffer, tot);
  }
}
