/** The way of a time of day through the system: digits of a GPS sentence, milliseconds of the clock,
    four bytes of a log message, milliseconds again, and the hours, minutes and seconds printed by
    the host (GpsTimeHandler/GpsTimeHandler.c, Messages/messages.c, CodesPC/ComServer/ReaderLoger.c). */
module TimeChain {
  import opened Bytes
  import opened Protocol

  const YEAR_OFFSET := 1980

  // ---------------------------------------------------------- numbers as four bytes

  function Power256(i: nat): (p: nat)
    ensures 0 < p
  {
    if i == 0 then 1 else 256 * Power256(i - 1)
  }

  /** n >> (8 * i) */
  function ShiftRight(n: nat, i: nat): nat {
    if i == 0 then n else ShiftRight(n, i - 1) / 256
  }

  lemma {:induction false} LittleEndianSnoc(b: seq<byte>, d: byte)
    ensures LittleEndian(b + [d]) == LittleEndian(b) + d as nat * Power256(|b|)
  {
    if b == [] {
      assert b + [d] == [d];
      assert LittleEndian([d]) == d as nat + 256 * LittleEndian([]);
    } else {
      LittleEndianSnoc(b[1..], d);
      assert (b + [d])[1..] == b[1..] + [d];
      assert 256 * (d as nat * Power256(|b| - 1)) == d as nat * (256 * Power256(|b| - 1));
    }
  }

  /** The loop `millis[i] = (n >> (8 * i)) & 0xFF`. */
  method SplitMillis(n: uint32) returns (b: seq<byte>)
    ensures |b| == 4 && LittleEndian(b) == n
  {
    b := [];
    for i := 0 to 4
      invariant |b| == i
      invariant LittleEndian(b) + ShiftRight(n, i) * Power256(i) == n
    {
      var digit := ShiftRight(n, i) % 256;
      LittleEndianSnoc(b, digit as byte);
      SplitOnce(ShiftRight(n, i), Power256(i));
      b := b + [digit as byte];
    }
    ShiftedAway(n);
  }

  lemma SplitOnce(n: nat, p: nat)
    ensures n * p == n % 256 * p + n / 256 * (256 * p)
  {
    assert n == n % 256 + n / 256 * 256;
    assert n * p == (n % 256 + n / 256 * 256) * p;
  }

  lemma ShiftedAway(n: uint32)
    ensures ShiftRight(n, 4) == 0
  {
    assert ShiftRight(n, 1) == n / 256;
    assert ShiftRight(n, 2) == ShiftRight(n, 1) / 256;
    assert ShiftRight(n, 3) == ShiftRight(n, 2) / 256;
    assert ShiftRight(n, 4) == ShiftRight(n, 3) / 256;
  }

  /** The loop `millis += b[i] << (8 * i)`. */
  method JoinMillis(b: seq<byte>) returns (millis: nat)
    requires |b| == 4
    ensures millis == LittleEndian(b)
  {
    millis := 0;
    for i := 0 to 4
      invariant millis == LittleEndian(b[..i])
    {
      LittleEndianSnoc(b[..i], b[i]);
      assert b[..i + 1] == b[..i] + [b[i]];
      millis := millis + b[i] as nat * Power256(i);
    }
    assert b[..4] == b;
  }

  // -------------------------------------------------------------------- time of day

  datatype TimeOfDay = TimeOfDay(h: nat, m: nat, s: nat, ms: nat) {
    predicate Valid() {
      m < 60 && s < 60 && ms < 1000
    }

    function Millis(): nat {
      ((h * 60 + m) * 60 + s) * 1000 + ms
    }
  }

  predicate IsDigit(b: byte) {
    0x30 <= b <= 0x39
  }

  function DigitOf(b: byte): nat
    requires IsDigit(b)
  {
    b as nat - 0x30
  }

  /** The digits of "hhmmss.sss" at the head of the fields of a ZDA sentence. */
  predicate TimeDigits(buf: seq<byte>) {
    10 <= |buf| && forall i | 0 <= i < 10 && i != 6 :: IsDigit(buf[i])
  }

  function TimeIn(buf: seq<byte>): TimeOfDay
    requires TimeDigits(buf)
  {
    TimeOfDay(10 * DigitOf(buf[0]) + DigitOf(buf[1]),
              10 * DigitOf(buf[2]) + DigitOf(buf[3]),
              10 * DigitOf(buf[4]) + DigitOf(buf[5]),
              100 * DigitOf(buf[7]) + 10 * DigitOf(buf[8]) + DigitOf(buf[9]))
  }

  /** `getMillisFromGpsBuffer`, with the characters as the integers they are. */
  function MillisFromGpsBuffer(buf: seq<byte>): int
    requires 10 <= |buf|
  {
    var h := (buf[0] as int - 0x30) * 10 + buf[1] as int - 0x30;
    var m := (buf[2] as int - 0x30) * 10 + buf[3] as int - 0x30;
    var s := (buf[4] as int - 0x30) * 10 + buf[5] as int - 0x30;
    var ms := (buf[7] as int - 0x30) * 100 + (buf[8] as int - 0x30) * 10 + buf[9] as int - 0x30;
    ((h * 60 + m) * 60 + s) * 1000 + ms
  }

  lemma GpsMillis(buf: seq<byte>)
    requires TimeDigits(buf)
    ensures MillisFromGpsBuffer(buf) == TimeIn(buf).Millis() < 0x1_0000_0000
  {
  }

  /** An hour has 3600000 milliseconds, a minute 60000 and a second 1000. */
  lemma MillisInFactors(t: TimeOfDay)
    ensures t.Millis() == 3_600_000 * t.h + 60_000 * t.m + 1000 * t.s + t.ms
  {
  }

  /** `print_time`: divides the milliseconds away, unit by unit. */
  method PrintTime(millis: nat) returns (t: TimeOfDay)
    ensures t.Valid() && t.Millis() == millis
  {
    var rest := millis;
    var ms := rest % 1000;
    rest := rest / 1000;
    var s := rest % 60;
    rest := rest / 60;
    var m := rest % 60;
    rest := rest / 60;
    t := TimeOfDay(rest, m, s, ms);
  }

  /** A time of day is determined by its milliseconds. */
  lemma MillisInjective(t: TimeOfDay, u: TimeOfDay)
    requires t.Valid() && u.Valid() && t.Millis() == u.Millis()
    ensures t == u
  {
    var a, b := (t.h * 60 + t.m) * 60 + t.s, (u.h * 60 + u.m) * 60 + u.s;
    assert a * 1000 + t.ms == b * 1000 + u.ms;
    assert a == b;
    assert t.h * 60 + t.m == u.h * 60 + u.m;
  }

  // ------------------------------------------------------------------ date and time

  datatype Date = Date(year: nat, month: nat, day: nat)

  /** The digits of ",dd,mm,yyyy" behind the time. */
  predicate DateDigits(buf: seq<byte>) {
    21 <= |buf| && forall i | 11 <= i < 21 && i != 13 && i != 16 :: IsDigit(buf[i])
  }

  function DateIn(buf: seq<byte>): Date
    requires DateDigits(buf)
  {
    Date(1000 * DigitOf(buf[17]) + 100 * DigitOf(buf[18]) + 10 * DigitOf(buf[19]) + DigitOf(buf[20]),
         10 * DigitOf(buf[14]) + DigitOf(buf[15]),
         10 * DigitOf(buf[11]) + DigitOf(buf[12]))
  }

  /** A sentence of the GPS whose year the clock can hold. */
  predicate Sentence(buf: seq<byte>) {
    TimeDigits(buf) && TimeIn(buf).Valid() && DateDigits(buf) && YEAR_OFFSET <= DateIn(buf).year < YEAR_OFFSET + 256
  }

  /** The last digit of n, as a character. */
  function Digit(n: nat): (b: byte)
    ensures IsDigit(b) && DigitOf(b) == n % 10
  {
    (0x30 + n % 10) as byte
  }

  /** n < 100 in two digits. */
  function Two(n: nat): (d: seq<byte>)
    ensures |d| == 2 && IsDigit(d[0]) && IsDigit(d[1])
    ensures n < 100 ==> 10 * DigitOf(d[0]) + DigitOf(d[1]) == n
  {
    [Digit(n / 10), Digit(n)]
  }

  function Three(n: nat): (d: seq<byte>)
    ensures |d| == 3 && IsDigit(d[0]) && IsDigit(d[1]) && IsDigit(d[2])
    ensures n < 1000 ==> 100 * DigitOf(d[0]) + 10 * DigitOf(d[1]) + DigitOf(d[2]) == n
  {
    Two(n / 10) + [Digit(n)]
  }

  function Four(n: nat): (d: seq<byte>)
    ensures |d| == 4 && IsDigit(d[0]) && IsDigit(d[1]) && IsDigit(d[2]) && IsDigit(d[3])
    ensures n < 10_000 ==> 1000 * DigitOf(d[0]) + 100 * DigitOf(d[1]) + 10 * DigitOf(d[2]) + DigitOf(d[3]) == n
  {
    Three(n / 10) + [Digit(n)]
  }

  /** "hhmmss.sss" */
  function TimeField(t: TimeOfDay): (buf: seq<byte>)
    ensures |buf| == 10
    ensures buf[..2] == Two(t.h) && buf[2..4] == Two(t.m) && buf[4..6] == Two(t.s) && buf[7..10] == Three(t.ms)
  {
    Two(t.h) + Two(t.m) + Two(t.s) + ['.' as byte] + Three(t.ms)
  }

  /** ",dd,mm,yyyy" */
  function DateField(d: Date): (buf: seq<byte>)
    ensures |buf| == 11
    ensures buf[1..3] == Two(d.day) && buf[4..6] == Two(d.month) && buf[7..11] == Four(d.year)
  {
    [',' as byte] + Two(d.day) + [',' as byte] + Two(d.month) + [',' as byte] + Four(d.year)
  }

  lemma TimeSays(t: TimeOfDay, rest: seq<byte>)
    requires t.Valid() && t.h < 100
    ensures var buf := TimeField(t) + rest; TimeDigits(buf) && TimeIn(buf) == t
  {
    var buf := TimeField(t) + rest;
    assert buf[..2] == Two(t.h) && buf[2..4] == Two(t.m) && buf[4..6] == Two(t.s) && buf[7..10] == Three(t.ms);
  }

  lemma DateSays(time: seq<byte>, d: Date)
    requires |time| == 10 && d.day < 100 && d.month < 100 && d.year < 10_000
    ensures var buf := time + DateField(d); DateDigits(buf) && DateIn(buf) == d
  {
    var buf := time + DateField(d);
    assert buf[11..13] == Two(d.day) && buf[14..16] == Two(d.month) && buf[17..21] == Four(d.year);
  }

  /** The fields of a ZDA sentence are read as the date and the time that they were written for. */
  lemma SentenceSays(d: Date, t: TimeOfDay)
    requires t.Valid() && t.h < 100 && d.day < 100 && d.month < 100 && d.year < 10_000
    ensures var buf := TimeField(t) + DateField(d);
            TimeDigits(buf) && DateDigits(buf) && TimeIn(buf) == t && DateIn(buf) == d
  {
    TimeSays(t, DateField(d));
    DateSays(TimeField(t), d);
  }

  /** `setRTCfromGpsBuffer` */
  method ReadSentence(buf: seq<byte>) returns (now: RTCDateTime)
    requires Sentence(buf)
    ensures var d := DateIn(buf);
            now == RTCDateTime(d.year - YEAR_OFFSET, d.month, d.day, TimeIn(buf).Millis())
  {
    GpsMillis(buf);
    var millis := MillisFromGpsBuffer(buf);
    var day := (buf[11] as int - 0x30) * 10 + buf[12] as int - 0x30;
    var month := (buf[14] as int - 0x30) * 10 + buf[15] as int - 0x30;
    var year := (buf[17] as int - 0x30) * 1000 + (buf[18] as int - 0x30) * 100
                + (buf[19] as int - 0x30) * 10 + buf[20] as int - 0x30;
    year := year - YEAR_OFFSET;
    now := RTCDateTime(year, month, day, millis);
  }

  /** `setStampedMessageTime`: the date bytes of a log message. */
  method Stamp(now: RTCDateTime) returns (date: seq<byte>)
    requires now.year < 256 && now.month < 256 && now.day < 256 && now.millisecond < 0x1_0000_0000
    ensures |date| == 7
    ensures RTCDateTime(date[0] as nat, date[1] as nat, date[2] as nat, LittleEndian(date[3..])) == now
  {
    var millis := SplitMillis(now.millisecond);
    date := [now.year as byte, now.month as byte, now.day as byte] + millis;
    assert date[3..] == millis;
  }

  /** The date and time that `print_log_message` prints. */
  method PrintStamp(date: seq<byte>) returns (d: Date, t: TimeOfDay)
    requires |date| == 7
    ensures d == Date(date[0] as nat + YEAR_OFFSET, date[1] as nat, date[2] as nat)
    ensures t.Valid() && t.Millis() == LittleEndian(date[3..])
  {
    var millis := JoinMillis(date[3..]);
    d := Date(date[0] as nat + YEAR_OFFSET, date[1] as nat, date[2] as nat);
    t := PrintTime(millis);
  }

  /** The whole chain: what the host prints is what the sentence said. */
  method TimeRoundTrip(buf: seq<byte>) returns (d: Date, t: TimeOfDay)
    requires Sentence(buf)
    ensures d == DateIn(buf) && t == TimeIn(buf)
  {
    GpsMillis(buf);
    var now := ReadSentence(buf);
    var stamped := Stamp(now);
    d, t := PrintStamp(stamped);
    MillisInjective(t, TimeIn(buf));
  }
}
