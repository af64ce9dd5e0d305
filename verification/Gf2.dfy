/** Polynomials over GF(2) and the remainder modulo the generator of the serial link,
    x^8 + x^7 + x^6 + x^5 + 1.

    A polynomial is the sequence of its coefficients, highest degree first, so that
    appending `false` multiplies by x.
 */
module Gf2 {

  /** A polynomial of degree at most 7, with all eight coefficients. */
  type Residue = r: seq<bool> | |r| == 8 witness [false, false, false, false, false, false, false, false]

  /** POLYNOMIAL_CRC = 0xE1: the generator without its x^8. */
  const GENERATOR_TAIL: Residue := [true, true, true, false, false, false, false, true]

  /** All nine coefficients of the generator. */
  const GENERATOR: seq<bool> := [true] + GENERATOR_TAIL

  function Zeros(n: nat): (p: seq<bool>)
    ensures |p| == n
    ensures forall i | 0 <= i < n :: !p[i]
  {
    seq(n, i => false)
  }

  /** Addition of polynomials. */
  function Xor(p: seq<bool>, q: seq<bool>): (r: seq<bool>)
    requires |p| == |q|
    ensures |r| == |p|
    ensures forall i | 0 <= i < |p| :: r[i] == (p[i] != q[i])
  {
    seq(|p|, i requires 0 <= i < |p| => p[i] != q[i])
  }

  /** r * x + c modulo the generator. */
  function Push(r: Residue, c: bool): Residue {
    if r[0] then Xor(r[1..] + [c], GENERATOR_TAIL) else r[1..] + [c]
  }

  /** r * x^n modulo the generator. */
  function TimesXn(r: Residue, n: nat): Residue
    decreases n
  {
    if n == 0 then r else Push(TimesXn(r, n - 1), false)
  }

  /** Long division, one coefficient at a time: what is left of p modulo the generator. */
  function Rem(p: seq<bool>): Residue {
    if p == [] then Zeros(8) else Push(Rem(p[..|p| - 1]), p[|p| - 1])
  }

  /** c * generator. */
  function ScaledGenerator(c: bool): (p: seq<bool>)
    ensures |p| == 9
  {
    if c then GENERATOR else Zeros(9)
  }

  /** Schoolbook product of q and the generator, with |q| + 8 coefficients. */
  function TimesGenerator(q: seq<bool>): (p: seq<bool>)
    ensures |p| == |q| + 8
  {
    if q == [] then Zeros(8)
    else
      Xor(TimesGenerator(q[..|q| - 1]) + [false], Zeros(|q| - 1) + ScaledGenerator(q[|q| - 1]))
  }

  /** m + r, written over the coefficients of m. */
  function Plus(m: seq<bool>, r: Residue): (p: seq<bool>)
    requires 8 <= |m|
    ensures |p| == |m|
  {
    Xor(m, Zeros(|m| - 8) + r)
  }

  // ------------------------------------------------------- addition of polynomials

  lemma XorConcat(p: seq<bool>, q: seq<bool>, p': seq<bool>, q': seq<bool>)
    requires |p| == |p'| && |q| == |q'|
    ensures Xor(p + q, p' + q') == Xor(p, p') + Xor(q, q')
  {
  }

  lemma XorAssociative(p: seq<bool>, q: seq<bool>, r: seq<bool>)
    requires |p| == |q| == |r|
    ensures Xor(Xor(p, q), r) == Xor(p, Xor(q, r))
  {
  }

  lemma XorZeros(p: seq<bool>)
    ensures Xor(p, Zeros(|p|)) == p == Xor(Zeros(|p|), p)
  {
  }

  lemma XorIsZero(p: seq<bool>, q: seq<bool>)
    requires |p| == |q|
    ensures Xor(p, q) == Zeros(|p|) <==> p == q
  {
    if Xor(p, q) == Zeros(|p|) {
      forall i | 0 <= i < |p| ensures p[i] == q[i] {
        assert !Xor(p, q)[i];
      }
    }
  }

  // ---------------------------------------------------------------- linearity

  /** c * generator without its x^8: what one step of long division subtracts. */
  function Subtracted(c: bool): Residue {
    if c then GENERATOR_TAIL else Zeros(8)
  }

  lemma ScaledGeneratorParts(c: bool)
    ensures ScaledGenerator(c) == [c] + Subtracted(c)
  {
  }

  lemma PushAsXor(r: Residue, c: bool)
    ensures Push(r, c) == Xor(r[1..] + [c], Subtracted(r[0]))
  {
    XorZeros(r[1..] + [c]);
  }

  lemma PushLinear(r: Residue, s: Residue, c: bool, d: bool)
    ensures Push(Xor(r, s), c != d) == Xor(Push(r, c), Push(s, d))
  {
    PushAsXor(r, c);
    PushAsXor(s, d);
    PushAsXor(Xor(r, s), c != d);
    var a, b := r[1..] + [c], s[1..] + [d];
    var g, h := Subtracted(r[0]), Subtracted(s[0]);
    assert Xor(r, s)[1..] + [c != d] == Xor(a, b);
    assert Subtracted(r[0] != s[0]) == Xor(g, h);
    assert Xor(Xor(a, b), Xor(g, h)) == Xor(Xor(a, g), Xor(b, h));
  }

  lemma {:induction false} TimesXnLinear(r: Residue, s: Residue, n: nat)
    ensures TimesXn(Xor(r, s), n) == Xor(TimesXn(r, n), TimesXn(s, n))
  {
    if n > 0 {
      TimesXnLinear(r, s, n - 1);
      PushLinear(TimesXn(r, n - 1), TimesXn(s, n - 1), false, false);
    }
  }

  lemma {:induction false} TimesXnAdd(r: Residue, m: nat, n: nat)
    ensures TimesXn(r, m + n) == TimesXn(TimesXn(r, m), n)
  {
    if n > 0 {
      TimesXnAdd(r, m, n - 1);
    }
  }

  lemma PushZero()
    ensures Push(Zeros(8), false) == Zeros(8)
  {
  }

  /** Only zero becomes zero when multiplied by x, because the generator has a constant term. */
  lemma PushToZero(r: Residue)
    requires Push(r, false) == Zeros(8)
    ensures r == Zeros(8)
  {
    assert !Push(r, false)[7];
    assert r[1..] + [false] == Zeros(8);
    forall i | 0 <= i < 8 ensures !r[i] {
      if i > 0 {
        assert r[i] == (r[1..] + [false])[i - 1];
      }
    }
  }

  lemma {:induction false} TimesXnZero(r: Residue, n: nat)
    ensures TimesXn(r, n) == Zeros(8) <==> r == Zeros(8)
  {
    if n > 0 {
      TimesXnZero(r, n - 1);
      PushZero();
      if TimesXn(r, n) == Zeros(8) {
        PushToZero(TimesXn(r, n - 1));
      }
    }
  }

  lemma RemSnoc(p: seq<bool>, c: bool)
    ensures Rem(p + [c]) == Push(Rem(p), c)
  {
    assert (p + [c])[..|p|] == p;
  }

  /** The remainder is linear. */
  lemma {:induction false} RemXor(p: seq<bool>, q: seq<bool>)
    requires |p| == |q|
    ensures Rem(Xor(p, q)) == Xor(Rem(p), Rem(q))
  {
    if p == [] {
      XorZeros(Zeros(8));
    } else {
      var n := |p| - 1;
      assert Xor(p, q)[..n] == Xor(p[..n], q[..n]);
      RemXor(p[..n], q[..n]);
      PushLinear(Rem(p[..n]), Rem(q[..n]), p[n], q[n]);
    }
  }

  /** Appending |q| coefficients multiplies by x^|q| and adds q. */
  lemma {:induction false} RemAppend(p: seq<bool>, q: seq<bool>)
    ensures Rem(p + q) == Xor(TimesXn(Rem(p), |q|), Rem(q))
  {
    if q == [] {
      assert p + q == p;
      XorZeros(Rem(p));
    } else {
      var n := |q| - 1;
      assert (p + q)[..|p + q| - 1] == p + q[..n];
      RemAppend(p, q[..n]);
      PushLinear(TimesXn(Rem(p), n), Rem(q[..n]), false, q[n]);
    }
  }

  lemma {:induction false} RemZeros(n: nat)
    ensures Rem(Zeros(n)) == Zeros(8)
  {
    if n > 0 {
      assert Zeros(n)[..n - 1] == Zeros(n - 1);
      RemZeros(n - 1);
      PushZero();
    }
  }

  lemma RemLeadingZeros(n: nat, p: seq<bool>)
    ensures Rem(Zeros(n) + p) == Rem(p)
  {
    RemAppend(Zeros(n), p);
    RemZeros(n);
    TimesXnZero(Zeros(8), |p|);
    XorZeros(Rem(p));
  }

  lemma RemTrailingZeros(p: seq<bool>, n: nat)
    ensures Rem(p + Zeros(n)) == TimesXn(Rem(p), n)
  {
    RemAppend(p, Zeros(n));
    RemZeros(n);
    XorZeros(TimesXn(Rem(p), n));
  }

  /** A polynomial of degree at most 7 is its own remainder. */
  lemma {:induction false} RemShort(p: seq<bool>)
    requires |p| <= 8
    ensures Rem(p) == Zeros(8 - |p|) + p
  {
    if p != [] {
      var n := |p| - 1;
      RemShort(p[..n]);
      var u := Zeros(8 - n) + p[..n];
      assert Zeros(8 - |p|) + p == u[1..] + [p[n]];
      assert !u[0];
    }
  }

  lemma RemOfResidue(r: Residue)
    ensures Rem(r) == r
  {
    RemShort(r);
    assert Zeros(0) + r == r;
  }

  // ---------------------------------------------------- the division theorem

  lemma RemGenerator()
    ensures Rem(GENERATOR) == Zeros(8)
  {
    var r: Residue := GENERATOR[..8];
    assert GENERATOR == r + [GENERATOR[8]];
    RemOfResidue(r);
    RemSnoc(r, GENERATOR[8]);
    assert r[1..] + [GENERATOR[8]] == GENERATOR_TAIL;
    XorIsZero(GENERATOR_TAIL, GENERATOR_TAIL);
  }

  lemma {:induction false} MultipleHasNoRemainder(q: seq<bool>)
    ensures Rem(TimesGenerator(q)) == Zeros(8)
  {
    if q == [] {
      RemZeros(8);
    } else {
      MultipleHasNoRemainder(q[..|q| - 1]);
      var n := |q| - 1;
      var p, g := TimesGenerator(q[..n]), ScaledGenerator(q[n]);
      RemSnoc(p, false);
      PushZero();
      RemLeadingZeros(n, g);
      RemZeros(9);
      RemGenerator();
      RemXor(p + [false], Zeros(n) + g);
      XorZeros(Zeros(8));
    }
  }

  lemma {:induction false} TimesGeneratorSnoc(q: seq<bool>, c: bool)
    ensures TimesGenerator(q + [c])
            == Xor(TimesGenerator(q) + [false], Zeros(|q|) + ([c] + Subtracted(c)))
  {
    assert (q + [c])[..|q|] == q;
    ScaledGeneratorParts(c);
  }

  lemma DivisionStepLow(r: Residue, c: bool)
    ensures Xor([r[0]] + Subtracted(r[0]), [false] + Push(r, c)) == r + [c]
  {
    PushAsXor(r, c);
    XorConcat([r[0]], Subtracted(r[0]), [false], Push(r, c));
    assert Xor(Subtracted(r[0]), Push(r, c)) == r[1..] + [c];
    assert Xor([r[0]], [false]) == [r[0]];
    assert [r[0]] + (r[1..] + [c]) == r + [c];
  }

  lemma XorThree(t: seq<bool>, z: seq<bool>, high: seq<bool>, low: seq<bool>)
    requires z == Zeros(|z|) && |high| == |low| && |t| == |z| + |high|
    ensures Xor(Xor(t, z + high), z + low) == Xor(t, z + Xor(high, low))
  {
    XorAssociative(t, z + high, z + low);
    XorConcat(z, high, z, low);
    XorZeros(z);
  }

  /** One step of long division, for any multiple m already subtracted. */
  lemma DivisionStep(m: seq<bool>, r: Residue, c: bool)
    requires 8 <= |m|
    ensures Plus(Xor(m + [false], Zeros(|m| - 8) + ([r[0]] + Subtracted(r[0]))), Push(r, c))
            == Plus(m, r) + [c]
  {
    var z := Zeros(|m| - 8);
    assert Zeros(|m| - 7) + Push(r, c) == z + ([false] + Push(r, c));
    XorThree(m + [false], z, [r[0]] + Subtracted(r[0]), [false] + Push(r, c));
    DivisionStepLow(r, c);
    assert z + (r + [c]) == (z + r) + [c];
    XorConcat(m, [false], z + r, [c]);
    assert Xor([false], [c]) == [c];
  }

  lemma PlusResidue(r: Residue)
    ensures r == Plus(Zeros(8), Rem(r))
  {
    RemOfResidue(r);
    assert Zeros(0) + r == r;
    XorZeros(r);
  }

  lemma {:induction false} QuotientExists(p: seq<bool>) returns (q: seq<bool>)
    requires 8 <= |p|
    ensures |q| == |p| - 8
    ensures p == Plus(TimesGenerator(q), Rem(p))
  {
    if |p| == 8 {
      PlusResidue(p);
      q := [];
    } else {
      var u, c := p[..|p| - 1], p[|p| - 1];
      var q' := QuotientExists(u);
      q := q' + [Rem(u)[0]];
      DivisionStep(TimesGenerator(q'), Rem(u), c);
      TimesGeneratorSnoc(q', Rem(u)[0]);
      assert p == u + [c];
    }
  }

  /** Rem(p) is the one polynomial of degree below 8 that differs from p by a multiple of the
      generator. */
  lemma {:induction false} DivisionTheorem(p: seq<bool>, r: Residue)
    requires 8 <= |p|
    ensures r == Rem(p) <==> exists q: seq<bool> :: |q| == |p| - 8 && p == Plus(TimesGenerator(q), r)
  {
    var quotient := QuotientExists(p);
    forall q: seq<bool> | |q| == |p| - 8 && p == Plus(TimesGenerator(q), r)
      ensures r == Rem(p)
    {
      MultipleHasNoRemainder(q);
      RemLeadingZeros(|q|, r);
      RemOfResidue(r);
      RemXor(TimesGenerator(q), Zeros(|q|) + r);
      XorZeros(r);
    }
  }
}
