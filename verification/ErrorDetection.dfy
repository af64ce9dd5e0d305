/** What the checksum detects: which errors in payload and checksum turn a valid codeword into
    another valid one (Messages/messages.c:14-51, 126-138). */
module ErrorDetection {
  import opened Binary
  import opened Bytes
  import opened Crc
  import opened Gf2
  import opened PowersOfX

  /** The table is a permutation of the 256 bytes: every byte is an entry, and only once. */
  lemma TableIsPermutation(b: byte)
    ensures exists d: byte :: TableEntry(d) == b
    ensures forall d: byte, e: byte | TableEntry(d) == b && TableEntry(e) == b :: d == e
  {
    OrderOfX();
    FullTurn(Poly(b), ORDER_OF_X);
    RemOfResidue(Poly(b));
    var d := Pack(TimesXn(Poly(b), ORDER_OF_X - 8));
    TimesXnAdd(Poly(b), ORDER_OF_X - 8, 8);
    PolyInjective(TableEntry(d), b);
    forall d: byte, e: byte | TableEntry(d) == b && TableEntry(e) == b ensures d == e {
      EntryInjective(d, e);
    }
  }

  lemma EntryInjective(d: byte, e: byte)
    requires TableEntry(d) == TableEntry(e)
    ensures d == e
  {
    TimesXnLinear(Poly(d), Poly(e), 8);
    XorIsZero(TimesXn(Poly(d), 8), TimesXn(Poly(e), 8));
    TimesXnZero(Xor(Poly(d), Poly(e)), 8);
    XorIsZero(Poly(d), Poly(e));
    PolyInjective(d, e);
  }

  // ------------------------------------------------------------------------ codewords

  function XorMessages(c: seq<byte>, d: seq<byte>): (e: seq<byte>)
    requires |c| == |d|
    ensures |e| == |c|
    ensures forall j | 0 <= j < |c| :: e[j] == XorByte(c[j], d[j])
  {
    seq(|c|, j requires 0 <= j < |c| => XorByte(c[j], d[j]))
  }

  lemma {:induction false} BitsOfXor(c: seq<byte>, d: seq<byte>)
    requires |c| == |d|
    ensures Bits(XorMessages(c, d)) == Xor(Bits(c), Bits(d))
  {
    if c != [] {
      var n := |c| - 1;
      assert XorMessages(c, d)[..n] == XorMessages(c[..n], d[..n]);
      PolyOfXor(c[n], d[n]);
      BitsOfXor(c[..n], d[..n]);
      XorConcat(Bits(c[..n]), Poly(c[n]), Bits(d[..n]), Poly(d[n]));
    }
  }

  /** The checksum is linear over messages of equal length. */
  lemma ChecksumLinear(c: seq<byte>, d: seq<byte>)
    requires |c| == |d|
    ensures Checksum(XorMessages(c, d)) == XorByte(Checksum(c), Checksum(d))
  {
    BitsOfXor(c, d);
    PolyOfChecksum(c);
    PolyOfChecksum(d);
    PolyOfChecksum(XorMessages(c, d));
    RemXor(Bits(c), Bits(d));
    TimesXnLinear(Rem(Bits(c)), Rem(Bits(d)), 8);
    PolyOfXor(Checksum(c), Checksum(d));
    PolyInjective(Checksum(XorMessages(c, d)), XorByte(Checksum(c), Checksum(d)));
  }

  /** A payload followed by its checksum, which is what the receiver accepts. */
  ghost predicate Accepted(c: seq<byte>)
    requires c != []
  {
    Checksum(c[..|c| - 1]) == c[|c| - 1]
  }

  /** Acceptance is divisibility by the generator. */
  lemma AcceptedIffDivisible(c: seq<byte>)
    requires c != []
    ensures Accepted(c) <==> Rem(Bits(c)) == Zeros(8)
  {
    var p, b := c[..|c| - 1], c[|c| - 1];
    BitsSnoc(p, b);
    assert p + [b] == c;
    RemAppend(Bits(p), Poly(b));
    RemOfResidue(Poly(b));
    PolyOfChecksum(p);
    XorIsZero(Poly(Checksum(p)), Poly(b));
    if Poly(Checksum(p)) == Poly(b) {
      PolyInjective(Checksum(p), b);
    }
  }

  /** An accepted word plus an error is accepted exactly when the error alone is divisible. */
  lemma {:induction false} ErrorPasses(c: seq<byte>, d: seq<byte>)
    requires c != [] && |d| == |c| && Accepted(c)
    ensures Accepted(d) <==> Rem(Xor(Bits(c), Bits(d))) == Zeros(8)
  {
    AcceptedIffDivisible(c);
    AcceptedIffDivisible(d);
    RemXor(Bits(c), Bits(d));
    XorZeros(Rem(Bits(d)));
  }

  lemma {:induction false} BitsAt(m: seq<byte>, j: nat, i: nat)
    requires j < |m| && i < 8
    ensures Bits(m)[8 * j + i] == Poly(m[j])[i]
  {
    if j < |m| - 1 {
      BitsAt(m[..|m| - 1], j, i);
    }
  }

  lemma BitsInjective(c: seq<byte>, d: seq<byte>)
    requires |c| == |d| && Bits(c) == Bits(d)
    ensures c == d
  {
    forall j | 0 <= j < |c| ensures c[j] == d[j] {
      forall i | 0 <= i < 8 ensures Poly(c[j])[i] == Poly(d[j])[i] {
        BitsAt(c, j, i);
        BitsAt(d, j, i);
      }
      PolyInjective(c[j], d[j]);
    }
  }

  // ---------------------------------------------------------------------- burst errors

  /** Two polynomials of the same length that differ at most in the window [a, b). */
  ghost predicate DifferWithin(p: seq<bool>, q: seq<bool>, a: nat, b: nat) {
    |p| == |q| && forall i | 0 <= i < |p| && !(a <= i < b) :: p[i] == q[i]
  }

  lemma WindowOfZeros(p: seq<bool>, q: seq<bool>, a: nat)
    requires a + 8 <= |p| && DifferWithin(p, q, a, a + 8)
    requires Rem(Xor(p, q)) == Zeros(8)
    ensures p == q
  {
    var e := Xor(p, q);
    var w: Residue := e[a..a + 8];
    assert e == (Zeros(a) + w) + Zeros(|p| - a - 8);
    RemTrailingZeros(Zeros(a) + w, |p| - a - 8);
    TimesXnZero(Rem(Zeros(a) + w), |p| - a - 8);
    RemLeadingZeros(a, w);
    RemOfResidue(w);
    assert e == Zeros(|p|);
    XorIsZero(p, q);
  }

  /** Any error confined to eight consecutive bits of payload and checksum, whatever the length of
      the message and wherever the burst falls, is detected. */
  lemma {:induction false} BurstDetected(c: seq<byte>, d: seq<byte>, a: nat)
    requires c != [] && |d| == |c| && Accepted(c)
    requires DifferWithin(Bits(c), Bits(d), a, a + 8)
    ensures Accepted(d) <==> d == c
  {
    if Accepted(d) {
      ErrorPasses(c, d);
      var a' := if a + 8 <= 8 * |c| then a else 8 * |c| - 8;
      WindowOfZeros(Bits(c), Bits(d), a');
      BitsInjective(c, d);
    }
  }

  // -------------------------------------------------------------------- two-bit errors

  /** The byte that differs from b in bit i only. */
  ghost function FlipInByte(b: byte, i: nat): byte
    requires i < 8
  {
    Pack(Poly(b)[i := !Poly(b)[i]])
  }

  /** Inverts bit k of a message, counted from the first transmitted. */
  ghost function Flip(m: seq<byte>, k: nat): (m': seq<byte>)
    requires k < 8 * |m|
    ensures |m'| == |m|
  {
    m[k / 8 := FlipInByte(m[k / 8], k % 8)]
  }

  lemma FlipByte(b: byte, k: nat, i: nat)
    requires k < 8 && i < 8
    ensures Poly(FlipInByte(b, k))[i] == (Poly(b)[i] != (i == k))
  {
  }

  lemma {:induction false} FlipBit(m: seq<byte>, k: nat, j: nat, i: nat)
    requires k < 8 * |m| && j < |m| && i < 8
    ensures Bits(Flip(m, k))[8 * j + i] == (Bits(m)[8 * j + i] != (8 * j + i == k))
  {
    BitsAt(m, j, i);
    BitsAt(Flip(m, k), j, i);
    if j == k / 8 {
      FlipByte(m[j], k % 8, i);
    }
  }

  ghost predicate FlippedAt(p: seq<bool>, q: seq<bool>, k: nat, j: nat, i: nat) {
    8 * j + i < |p| == |q| && q[8 * j + i] == (p[8 * j + i] != (8 * j + i == k))
  }

  lemma FlippedEverywhere(p: seq<bool>, q: seq<bool>, k: nat, bytes: nat)
    requires k < |p| == |q| == 8 * bytes
    requires forall j: nat, i: nat | j < bytes && i < 8 :: FlippedAt(p, q, k, j, i)
    ensures q == p[k := !p[k]]
  {
    forall n | 0 <= n < |p| ensures q[n] == (p[n] != (n == k)) {
      assert FlippedAt(p, q, k, n / 8, n % 8);
    }
  }

  lemma {:induction false} FlipBits(m: seq<byte>, k: nat)
    requires k < 8 * |m|
    ensures Bits(Flip(m, k)) == Bits(m)[k := !Bits(m)[k]]
  {
    var p, q := Bits(m), Bits(Flip(m, k));
    forall j: nat, i: nat | j < |m| && i < 8 ensures FlippedAt(p, q, k, j, i) {
      FlipBit(m, k, j, i);
    }
    FlippedEverywhere(p, q, k, |m|);
  }

  /** The polynomial with exactly the coefficients i and j, of n. */
  function Pair(n: nat, i: nat, j: nat): (p: seq<bool>)
    requires i < j < n
    ensures |p| == n
  {
    ((Zeros(i) + [true] + Zeros(j - i - 1)) + [true]) + Zeros(n - j - 1)
  }

  lemma RemOfOne()
    ensures Rem([true]) == ONE
  {
    RemShort([true]);
    assert Zeros(7) + [true] == ONE;
  }

  /** x^d + 1, as the remainder of the coefficients from the first error to the second. */
  lemma RemOfSpan(i: nat, d: nat)
    requires 0 < d
    ensures Rem(Zeros(i) + [true] + Zeros(d - 1) + [true]) == Xor(TimesXn(ONE, d), ONE)
  {
    var head := Zeros(i) + [true];
    RemOfOne();
    RemLeadingZeros(i, [true]);
    RemTrailingZeros(head, d - 1);
    RemAppend(head + Zeros(d - 1), [true]);
    TimesXnAdd(ONE, d - 1, 1);
  }

  /** x^i + x^j is divisible by the generator exactly when the order of x divides the distance. */
  lemma RemOfPair(n: nat, i: nat, j: nat)
    requires i < j < n
    ensures Rem(Pair(n, i, j)) == Zeros(8) <==> (j - i) % ORDER_OF_X == 0
  {
    var d := TimesXn(ONE, j - i);
    RemOfSpan(i, j - i);
    RemTrailingZeros(Zeros(i) + [true] + Zeros(j - i - 1) + [true], n - j - 1);
    TimesXnZero(Xor(d, ONE), n - j - 1);
    XorIsZero(d, ONE);
    ReturnsToOne(j - i);
  }

  lemma PairAt(n: nat, i: nat, j: nat, k: nat)
    requires i < j < n && k < n
    ensures Pair(n, i, j)[k] <==> k == i || k == j
  {
  }

  lemma FlippingTwoBits(p: seq<bool>, i: nat, j: nat)
    requires i < j < |p|
    ensures var q := p[i := !p[i]]; Xor(p, q[j := !q[j]]) == Pair(|p|, i, j)
  {
    var q := p[i := !p[i]];
    forall k | 0 <= k < |p| ensures Xor(p, q[j := !q[j]])[k] == Pair(|p|, i, j)[k] {
      PairAt(|p|, i, j, k);
    }
  }

  /** Two inverted bits go undetected exactly when their distance is a multiple of 217, the
      order of x. */
  lemma TwoBitErrors(c: seq<byte>, i: nat, j: nat)
    requires c != [] && Accepted(c) && i < j < 8 * |c|
    ensures Accepted(Flip(Flip(c, i), j)) <==> (j - i) % ORDER_OF_X == 0
  {
    FlipBits(c, i);
    FlipBits(Flip(c, i), j);
    FlippingTwoBits(Bits(c), i, j);
    RemOfPair(8 * |c|, i, j);
    ErrorPasses(c, Flip(Flip(c, i), j));
  }

  // ---------------------------------------------------------------- bursts of nine bits

  lemma PushIsZero(r: Residue, c: bool)
    ensures Push(r, c) == Zeros(8) <==> r + [c] == Zeros(9) || r + [c] == GENERATOR
  {
    var low := r[1..] + [c];
    assert r + [c] == [r[0]] + low;
    assert Zeros(9) == [false] + Zeros(8);
    XorIsZero(low, GENERATOR_TAIL);
    assert r + [c] == GENERATOR ==> (r + [c])[1..] == GENERATOR[1..];
    assert r + [c] == Zeros(9) ==> (r + [c])[1..] == Zeros(9)[1..];
  }

  lemma RemOfNine(w: seq<bool>)
    requires |w| == 9
    ensures Rem(w) == Zeros(8) <==> w == Zeros(9) || w == GENERATOR
  {
    var r: Residue, c := w[..8], w[8];
    assert w == r + [c];
    RemOfResidue(r);
    PushIsZero(r, c);
  }

  lemma RemOfWindow(e: seq<bool>, a: nat, w: seq<bool>)
    requires |w| == 9 && a + 9 <= |e| && e == (Zeros(a) + w) + Zeros(|e| - a - 9)
    ensures Rem(e) == Zeros(8) <==> w == Zeros(9) || w == GENERATOR
  {
    RemTrailingZeros(Zeros(a) + w, |e| - a - 9);
    TimesXnZero(Rem(Zeros(a) + w), |e| - a - 9);
    RemLeadingZeros(a, w);
    RemOfNine(w);
  }

  /** Eight bits is the exact limit: of the bursts of nine bits exactly one pattern passes, at every
      position, and it is the generator itself. */
  lemma {:induction false} NineBitBurst(c: seq<byte>, d: seq<byte>, a: nat)
    requires c != [] && |d| == |c| && Accepted(c) && a + 9 <= 8 * |c|
    requires DifferWithin(Bits(c), Bits(d), a, a + 9)
    ensures Accepted(d) <==> d == c || Xor(Bits(c), Bits(d))[a..a + 9] == GENERATOR
  {
    var e := Xor(Bits(c), Bits(d));
    var w := e[a..a + 9];
    assert e == (Zeros(a) + w) + Zeros(|e| - a - 9);
    ErrorPasses(c, d);
    RemOfWindow(e, a, w);
    XorIsZero(Bits(c), Bits(d));
    if w == Zeros(9) {
      assert e == Zeros(|e|);
      BitsInjective(c, d);
    }
  }

  lemma FlippedWord(m: seq<byte>, k: nat) returns (m': seq<byte>)
    requires k < 8 * |m|
    ensures |m'| == |m| && Bits(m') == Bits(m)[k := !Bits(m)[k]]
  {
    m' := Flip(m, k);
    FlipBits(m, k);
  }

  /** And that pattern does occur: every codeword has such a burst at every position. */
  lemma {:induction false} GeneratorBurstPasses(c: seq<byte>, a: nat) returns (d: seq<byte>)
    requires c != [] && Accepted(c) && a + 9 <= 8 * |c|
    ensures |d| == |c| && d != c && DifferWithin(Bits(c), Bits(d), a, a + 9) && Accepted(d)
  {
    var m1 := FlippedWord(c, a);
    var m2 := FlippedWord(m1, a + 1);
    var m3 := FlippedWord(m2, a + 2);
    var m4 := FlippedWord(m3, a + 3);
    d := FlippedWord(m4, a + 8);
    GeneratorFlipped(Bits(c), Bits(m1), Bits(m2), Bits(m3), Bits(m4), Bits(d), a);
    NineBitBurst(c, d, a);
  }

  lemma GeneratorFlipped(p: seq<bool>, p1: seq<bool>, p2: seq<bool>, p3: seq<bool>, p4: seq<bool>, q: seq<bool>, a: nat)
    requires a + 9 <= |p| && |p| == |p1| == |p2| == |p3| == |p4| == |q|
    requires p1 == p[a := !p[a]] && p2 == p1[a + 1 := !p1[a + 1]] && p3 == p2[a + 2 := !p2[a + 2]]
    requires p4 == p3[a + 3 := !p3[a + 3]] && q == p4[a + 8 := !p4[a + 8]]
    ensures DifferWithin(p, q, a, a + 9) && q[a] != p[a] && Xor(p, q)[a..a + 9] == GENERATOR
  {
    forall i | 0 <= i < 9 ensures Xor(p, q)[a..a + 9][i] == GENERATOR[i] {
      assert q[a + i] == if i in {0, 1, 2, 3, 8} then !p[a + i] else p[a + i];
    }
  }
}
