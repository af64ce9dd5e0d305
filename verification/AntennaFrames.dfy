/** Frames for the antenna (TrameAntennaConstructor/TrameAntennaConstructor.c): a synchronisation
    byte, power and mode, the two encoder positions as four hexadecimal digits each, a tail. */
module AntennaFrames {
  import opened Bytes
  import opened Messages
  import opened Pointing
  import opened Protocol

  const HEADER_ANTENNA: byte := 0x16
  const TAIL_ANTENNA: byte := 0x0D
  const CHAR_ZERO := 0x30
  const CHAR_A_OFFSET := 7  // 'A' - '0' - 10

  const PUISSANCE_ACTIVATE := 8
  const PUISSANCE_DESACTIVATE := 0
  const MODE_ANTENNA_STANDBY := 0
  const MODE_ANTENNA_CALAGE := 1
  const MODE_ANTENNA_EPHEM := 2
  const MODE_ANTENNA_SURVIE := 4
  const MODE_ANTENNA_POSITION := 6

  type uint16 = x: nat | x < 0x1_0000

  // --------------------------------------------------------------------- hexadecimal

  /** One digit of the "%X" conversion. */
  function HexDigit(n: nat): byte
    requires n < 16
  {
    if n < 10 then (CHAR_ZERO + n) as byte else (CHAR_ZERO + n + CHAR_A_OFFSET) as byte
  }

  /** The digits are those of the conversion. */
  lemma HexDigitIs(n: nat)
    requires n < 16
    ensures HexDigit(n) as int == "0123456789ABCDEF"[n] as int
  {
  }

  /** "%04X" */
  function Hex4(u: uint16): (digits: seq<byte>)
    ensures |digits| == 4
  {
    [HexDigit(u / 16 / 16 / 16), HexDigit(u / 16 / 16 % 16), HexDigit(u / 16 % 16), HexDigit(u % 16)]
  }

  /** (uint16_t) x */
  function ToUint16(x: int16): uint16 {
    if x < 0 then x + 0x1_0000 else x
  }

  // --------------------------------------------------------------------------- frames

  /** The fields of a frame. */
  datatype Command = Command(power: nat, mode: nat, x: int16, y: int16) {
    predicate Valid() {
      power < 16 && mode < 10
    }
  }

  function FrameFor(c: Command): Args
    requires c.Valid()
  {
    [HEADER_ANTENNA, HexDigit(c.power), (CHAR_ZERO + c.mode) as byte]
    + Hex4(ToUint16(c.x)) + Hex4(ToUint16(c.y)) + [TAIL_ANTENNA]
  }

  /** `snprintf(message, 5, "%04X", u)`: four digits and a terminator. */
  method PrintHex(message: array<byte>, at: nat, u: uint16)
    requires at + 5 <= message.Length
    modifies message
    ensures message[..] == old(message[..at]) + Hex4(u) + [0] + old(message[at + 5..])
  {
    message[at] := HexDigit(u / 16 / 16 / 16);
    message[at + 1] := HexDigit(u / 16 / 16 % 16);
    message[at + 2] := HexDigit(u / 16 % 16);
    message[at + 3] := HexDigit(u % 16);
    message[at + 4] := 0;
  }

  method ComputeAntennaMessage(message: array<byte>, puissance: nat, mode: nat, encoder: Encoder, az: real, el: real)
    requires message.Length == ANTENNA_MESSAGE_LENGTH && puissance < 16 && mode < 10
    modifies message
    ensures var xy := encoder(az, el);
            message[..] == FrameFor(Command(puissance, mode, xy.0, xy.1))
  {
    forall i | 0 <= i < ANTENNA_MESSAGE_LENGTH {
      message[i] := 0;
    }
    var p := 0;
    message[p] := HEADER_ANTENNA;
    p := p + 1;
    message[p] := (CHAR_ZERO + puissance + (puissance / 10) * CHAR_A_OFFSET) as byte;
    p := p + 1;
    message[p] := (CHAR_ZERO + mode) as byte;
    p := p + 1;
    ghost var opening := message[..3];
    var (x, y) := encoder(az, el);
    ghost var hx, hy := Hex4(ToUint16(x)), Hex4(ToUint16(y));
    PrintHex(message, p, ToUint16(x));
    assert message[..7] == opening + hx;
    p := p + 4;
    PrintHex(message, p, ToUint16(y));
    assert message[..11] == opening + hx + hy;
    p := p + 4;
    message[p] := TAIL_ANTENNA;
    assert message[..] == opening + hx + hy + [TAIL_ANTENNA];
    OpeningOfFrame(puissance, mode, opening);
  }

  lemma OpeningOfFrame(puissance: nat, mode: nat, opening: seq<byte>)
    requires puissance < 16 && mode < 10 && |opening| == 3
    requires opening[0] == HEADER_ANTENNA
    requires opening[1] as int == CHAR_ZERO + puissance + (puissance / 10) * CHAR_A_OFFSET
    requires opening[2] as int == CHAR_ZERO + mode
    ensures opening == [HEADER_ANTENNA, HexDigit(puissance), (CHAR_ZERO + mode) as byte]
  {
  }

  // ------------------------------------------------------------------------- decoding

  datatype Option<+T> = None | Some(value: T)

  function DigitValue(b: byte): Option<nat> {
    if 0x30 <= b <= 0x39 then Some(b as nat - 0x30)
    else if 0x41 <= b <= 0x46 then Some(b as nat - 0x37)
    else None
  }

  function Value4(d: seq<byte>): Option<uint16>
    requires |d| == 4
  {
    var a, b, c, e := DigitValue(d[0]), DigitValue(d[1]), DigitValue(d[2]), DigitValue(d[3]);
    if a.Some? && b.Some? && c.Some? && e.Some?
    then Some(16 * (16 * (16 * a.value + b.value) + c.value) + e.value)
    else None
  }

  function FromUint16(u: uint16): int16 {
    if u < 0x8000 then u else u - 0x1_0000
  }

  /** What an antenna reads out of twelve bytes. */
  function Decode(f: Args): Option<Command> {
    var power, mode, x, y := DigitValue(f[1]), DigitValue(f[2]), Value4(f[3..7]), Value4(f[7..11]);
    if f[0] == HEADER_ANTENNA && f[11] == TAIL_ANTENNA
       && power.Some? && mode.Some? && mode.value < 10 && x.Some? && y.Some?
    then Some(Command(power.value, mode.value, FromUint16(x.value), FromUint16(y.value)))
    else None
  }

  lemma DigitRoundTrip(n: nat, b: byte)
    ensures n < 16 ==> DigitValue(HexDigit(n)) == Some(n)
    ensures DigitValue(b).Some? ==> DigitValue(b).value < 16 && HexDigit(DigitValue(b).value) == b
  {
  }

  lemma HexRoundTrip(u: uint16)
    ensures Value4(Hex4(u)) == Some(u)
  {
    DigitRoundTrip(u / 16 / 16 / 16, 0);
    DigitRoundTrip(u / 16 / 16 % 16, 0);
    DigitRoundTrip(u / 16 % 16, 0);
    DigitRoundTrip(u % 16, 0);
  }

  lemma ValueRoundTrip(d: seq<byte>)
    requires |d| == 4 && Value4(d).Some?
    ensures Hex4(Value4(d).value) == d
  {
    DigitRoundTrip(0, d[0]);
    DigitRoundTrip(0, d[1]);
    DigitRoundTrip(0, d[2]);
    DigitRoundTrip(0, d[3]);
    var a, b, c, e := DigitValue(d[0]).value, DigitValue(d[1]).value, DigitValue(d[2]).value, DigitValue(d[3]).value;
    var u := Value4(d).value;
    assert u / 16 == 16 * (16 * a + b) + c && u % 16 == e;
    assert u / 16 / 16 == 16 * a + b && u / 16 % 16 == c;
    assert u / 16 / 16 / 16 == a && u / 16 / 16 % 16 == b;
  }

  /** Decoding undoes encoding. */
  lemma {:induction false} DecodeFrame(c: Command)
    requires c.Valid()
    ensures Decode(FrameFor(c)) == Some(c)
  {
    var f := FrameFor(c);
    assert f[3..7] == Hex4(ToUint16(c.x));
    assert f[7..11] == Hex4(ToUint16(c.y));
    HexRoundTrip(ToUint16(c.x));
    HexRoundTrip(ToUint16(c.y));
  }

  /** Encoding undoes decoding: exactly the encoded frames can be decoded. */
  lemma {:induction false} EncodeDecoded(f: Args)
    requires Decode(f).Some?
    ensures Decode(f).value.Valid() && FrameFor(Decode(f).value) == f
  {
    var c := Decode(f).value;
    ValueRoundTrip(f[3..7]);
    ValueRoundTrip(f[7..11]);
    assert Hex4(ToUint16(c.x)) == f[3..7];
    assert Hex4(ToUint16(c.y)) == f[7..11];
    assert f == [f[0], f[1], f[2]] + f[3..7] + f[7..11] + [f[11]];
  }

  /** Different commands have different frames. */
  lemma FrameInjective(c: Command, d: Command)
    requires c.Valid() && d.Valid() && FrameFor(c) == FrameFor(d)
    ensures c == d
  {
    DecodeFrame(c);
    DecodeFrame(d);
  }

  /** Only one command is the survival frame, so no pointing order is taken for an emergency. */
  lemma OnlySurvieIsSurvie(c: Command)
    requires c.Valid()
    ensures FrameFor(c) == ANTENNA_SURVIE <==> c == Command(PUISSANCE_ACTIVATE, MODE_ANTENNA_SURVIE, 0, 0)
  {
    var survie := Command(PUISSANCE_ACTIVATE, MODE_ANTENNA_SURVIE, 0, 0);
    assert FrameFor(survie) == ANTENNA_SURVIE;
    if FrameFor(c) == ANTENNA_SURVIE {
      FrameInjective(c, survie);
    }
  }

  /** The frames of the three orders that prepare the antenna, as commands: switch off, switch on and
      stand by, calibrate. */
  lemma PreparingFrames()
    ensures ANTENNA_DESACTIVATE == FrameFor(Command(PUISSANCE_DESACTIVATE, MODE_ANTENNA_STANDBY, 0, 0))
    ensures ANTENNA_REINI == FrameFor(Command(PUISSANCE_ACTIVATE, MODE_ANTENNA_STANDBY, 0, 0))
    ensures ANTENNA_CALLAGE == FrameFor(Command(PUISSANCE_ACTIVATE, MODE_ANTENNA_CALAGE, 0, 0))
  {
  }

  /** What the order that is queued for a message of the host asks of the antenna. */
  lemma {:induction false} OrderCommands(m: SimpleMessage)
    requires m.id in {ID_MSG_ORDER_DESACTIVATE, ID_MSG_ORDER_REINI, ID_MSG_ORDER_CALAGE}
    ensures OrderOf(m).id == ID_MSG_ORDER_ANTENNA
    ensures Decode(OrderOf(m).arguments)
            == Some(if m.id == ID_MSG_ORDER_DESACTIVATE then Command(0, 0, 0, 0)
                    else if m.id == ID_MSG_ORDER_REINI then Command(8, 0, 0, 0) else Command(8, 1, 0, 0))
  {
    PreparingFrames();
    DecodeFrame(Command(0, 0, 0, 0));
    DecodeFrame(Command(8, 0, 0, 0));
    DecodeFrame(Command(8, 1, 0, 0));
  }

  /** An emergency is an order to survive, or an antenna order whose frame commands survival. */
  lemma {:induction false} EmergencyIsSurvival(m: SimpleMessage)
    ensures IsEmergency(m) <==>
      m.id == ID_MSG_ORDER_SURVIE
      || (m.id == ID_MSG_ORDER_ANTENNA && Decode(m.arguments) == Some(Command(8, 4, 0, 0)))
  {
    var survie := Command(8, 4, 0, 0);
    DecodeFrame(survie);
    OnlySurvieIsSurvie(survie);
    FrameHasNoTerminator(survie);
    StrnEqualExact(m.arguments, ANTENNA_SURVIE);
    if Decode(m.arguments) == Some(survie) {
      EncodeDecoded(m.arguments);
    }
  }

  /** Frames hold no terminator, so string copies and comparisons see all twelve bytes. */
  lemma FrameHasNoTerminator(c: Command)
    requires c.Valid()
    ensures 0 !in FrameFor(c)
  {
  }
}
