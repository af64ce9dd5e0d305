/** The cyclic redundancy check of the serial link (Messages/messages.c): the table that `crcInit`
    fills one bit at a time, and the checksum that `computeCRC` looks up one byte at a time. */
module Crc {
  import opened Binary
  import opened Bytes
  import opened Gf2

  const CRC_TABLE_LENGTH := 256

  // ------------------------------------------------------------------ reference

  /** A message as one polynomial, first byte highest. */
  function Bits(m: seq<byte>): (p: seq<bool>)
    ensures |p| == 8 * |m|
  {
    if m == [] then [] else Bits(m[..|m| - 1]) + Poly(m[|m| - 1])
  }

  /** The checksum of a message: the remainder of M(x) * x^8 modulo the generator. */
  ghost function Checksum(m: seq<byte>): byte {
    Pack(Rem(Bits(m) + Zeros(8)))
  }

  /** Entry d of the table: d(x) * x^8 modulo the generator. */
  ghost function TableEntry(d: byte): byte {
    Pack(TimesXn(Poly(d), 8))
  }

  /** The 256 entries. */
  ghost function Table(): (t: seq<byte>)
    ensures |t| == CRC_TABLE_LENGTH
  {
    seq(CRC_TABLE_LENGTH, d requires 0 <= d < CRC_TABLE_LENGTH => TableEntry(d as byte))
  }

  lemma PolyOfChecksum(m: seq<byte>)
    ensures Poly(Checksum(m)) == TimesXn(Rem(Bits(m)), 8)
  {
    RemTrailingZeros(Bits(m), 8);
  }

  lemma ChecksumOfEmpty()
    ensures Checksum([]) == 0
  {
    PolyOfChecksum([]);
    TimesXnZero(Zeros(8), 8);
    PolyOfZero();
    PolyInjective(Checksum([]), 0);
  }

  lemma BitsSnoc(m: seq<byte>, b: byte)
    ensures Bits(m + [b]) == Bits(m) + Poly(b)
  {
    assert (m + [b])[..|m|] == m;
  }

  lemma EntryOfXor(b: byte, c: byte)
    ensures Poly(TableEntry(XorByte(b, c))) == TimesXn(Xor(Poly(c), Poly(b)), 8)
  {
    PolyOfXor(b, c);
    assert Xor(Poly(b), Poly(c)) == Xor(Poly(c), Poly(b));
  }

  /** One look-up advances the checksum by one byte. */
  lemma ChecksumSnoc(m: seq<byte>, b: byte)
    ensures Checksum(m + [b]) == TableEntry(XorByte(b, Checksum(m)))
  {
    BitsSnoc(m, b);
    PolyOfChecksum(m);
    PolyOfChecksum(m + [b]);
    RemAppend(Bits(m), Poly(b));
    RemOfResidue(Poly(b));
    EntryOfXor(b, Checksum(m));
    PolyInjective(Checksum(m + [b]), TableEntry(XorByte(b, Checksum(m))));
  }

  /** One round of the inner loop of `crcInit`: next is what the loop makes of r. */
  lemma DivideBit(r: byte, next: byte, d: byte, n: nat)
    requires next == if TopBit(r) then XorByte(ShiftLeft(r), 0xE1) else ShiftLeft(r)
    requires Poly(r) == TimesXn(Poly(d), n)
    ensures Poly(next) == TimesXn(Poly(d), n + 1)
  {
    PolyOfShift(r);
    PolyOfGenerator();
    PolyOfXor(ShiftLeft(r), 0xE1);
  }

  lemma EntryFromDivision(r: byte, d: byte)
    requires Poly(r) == TimesXn(Poly(d), 8)
    ensures r == TableEntry(d)
  {
    PolyInjective(r, TableEntry(d));
  }

  /** With WIDTH == 8 the shift `remainder << 8` leaves nothing in a byte. */
  function ShiftedOut(remainder: byte): byte {
    ((remainder as int * 256) % 256) as byte
  }

  lemma XorNothing(entry: byte, remainder: byte)
    ensures XorByte(entry, ShiftedOut(remainder)) == entry
  {
    assert ShiftedOut(remainder) == 0;
    PolyOfZero();
    XorZeros(Poly(entry));
    PolyOfXor(entry, 0);
    PolyInjective(XorByte(entry, 0), entry);
  }

  // ------------------------------------------------------------------- the code

  /** The static `crcTable` together with the two functions that use it. */
  class CrcEngine {
    const crcTable: array<byte>

    constructor ()
      ensures fresh(crcTable) && crcTable.Length == CRC_TABLE_LENGTH
    {
      crcTable := new byte[CRC_TABLE_LENGTH](i => 0);
    }

    /** What `crcInit` establishes and `computeCRC` relies on. */
    ghost predicate Initialised()
      reads crcTable
    {
      crcTable[..] == Table()
    }

    method CrcInit()
      requires crcTable.Length == CRC_TABLE_LENGTH
      modifies crcTable
      ensures Initialised()
    {
      for dividend := 0 to CRC_TABLE_LENGTH
        invariant crcTable[..dividend] == Table()[..dividend]
      {
        var remainder := dividend as byte;
        var bit := 8;
        while bit > 0
          invariant 0 <= bit <= 8
          invariant Poly(remainder) == TimesXn(Poly(dividend as byte), 8 - bit)
          invariant crcTable[..dividend] == Table()[..dividend]
        {
          ghost var before := remainder;
          if TopBit(remainder) {
            remainder := XorByte(ShiftLeft(remainder), 0xE1);
          } else {
            remainder := ShiftLeft(remainder);
          }
          DivideBit(before, remainder, dividend as byte, 8 - bit);
          bit := bit - 1;
        }
        EntryFromDivision(remainder, dividend as byte);
        crcTable[dividend] := remainder;
        assert crcTable[..dividend + 1] == Table()[..dividend] + [Table()[dividend]];
      }
    }

    method ComputeCrc(message: array<byte>, nBytes: nat) returns (crc: byte)
      requires Initialised()
      requires nBytes <= message.Length
      ensures crc == Checksum(message[..nBytes])
    {
      var remainder: byte := 0;
      ChecksumOfEmpty();
      assert message[..0] == [];
      for i := 0 to nBytes
        invariant remainder == Checksum(message[..i])
      {
        assert message[..i + 1] == message[..i] + [message[i]];
        ChecksumSnoc(message[..i], message[i]);
        var data := XorByte(message[i], remainder);
        assert crcTable[data] == Table()[data as int];
        XorNothing(crcTable[data], remainder);
        remainder := XorByte(crcTable[data], ShiftedOut(remainder));
      }
      crc := remainder;
    }
  }
}
