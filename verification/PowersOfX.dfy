/** The order of x modulo the generator, by running through its powers.  The powers are computed on
    machine words; nothing outside this module depends on that. */
module PowersOfX {
  import opened Gf2

  type word = bv8

  const ONE: Residue := [false, false, false, false, false, false, false, true]

  /** Bit i of a word, counted from the highest. */
  function Bit(b: word, i: nat): bool
    requires i < 8
  {
    if i == 0 then b & 0x80 != 0 else if i == 1 then b & 0x40 != 0
    else if i == 2 then b & 0x20 != 0 else if i == 3 then b & 0x10 != 0
    else if i == 4 then b & 0x08 != 0 else if i == 5 then b & 0x04 != 0
    else if i == 6 then b & 0x02 != 0 else b & 0x01 != 0
  }

  function PolyOfWord(b: word): (p: Residue)
    ensures forall i | 0 <= i < 8 :: p[i] == Bit(b, i)
  {
    seq(8, i requires 0 <= i < 8 => Bit(b, i))
  }

  lemma {:induction false} BitOfXor(a: word, b: word, i: nat)
    requires i < 8
    ensures Bit(a ^ b, i) == (Bit(a, i) != Bit(b, i))
  {
    if i == 0 {
      assert (a ^ b) & 0x80 != 0 <==> ((a & 0x80 != 0) != (b & 0x80 != 0));
    } else if i == 1 {
      assert (a ^ b) & 0x40 != 0 <==> ((a & 0x40 != 0) != (b & 0x40 != 0));
    } else if i == 2 {
      assert (a ^ b) & 0x20 != 0 <==> ((a & 0x20 != 0) != (b & 0x20 != 0));
    } else if i == 3 {
      assert (a ^ b) & 0x10 != 0 <==> ((a & 0x10 != 0) != (b & 0x10 != 0));
    } else if i == 4 {
      assert (a ^ b) & 0x08 != 0 <==> ((a & 0x08 != 0) != (b & 0x08 != 0));
    } else if i == 5 {
      assert (a ^ b) & 0x04 != 0 <==> ((a & 0x04 != 0) != (b & 0x04 != 0));
    } else if i == 6 {
      assert (a ^ b) & 0x02 != 0 <==> ((a & 0x02 != 0) != (b & 0x02 != 0));
    } else {
      assert (a ^ b) & 0x01 != 0 <==> ((a & 0x01 != 0) != (b & 0x01 != 0));
    }
  }

  lemma BitOfShift(r: word, i: nat)
    requires i < 8
    ensures Bit(r << 1, i) == (i < 7 && Bit(r, i + 1))
  {
    if i == 0 {
      assert (r << 1) & 0x80 != 0 <==> r & 0x40 != 0;
    } else if i == 1 {
      assert (r << 1) & 0x40 != 0 <==> r & 0x20 != 0;
    } else if i == 2 {
      assert (r << 1) & 0x20 != 0 <==> r & 0x10 != 0;
    } else if i == 3 {
      assert (r << 1) & 0x10 != 0 <==> r & 0x08 != 0;
    } else if i == 4 {
      assert (r << 1) & 0x08 != 0 <==> r & 0x04 != 0;
    } else if i == 5 {
      assert (r << 1) & 0x04 != 0 <==> r & 0x02 != 0;
    } else if i == 6 {
      assert (r << 1) & 0x02 != 0 <==> r & 0x01 != 0;
    } else {
      assert (r << 1) & 0x01 == 0;
    }
  }

  function Step(r: word): word {
    if r & 0x80 != 0 then (r << 1) ^ 0xE1 else r << 1
  }

  lemma StepIsPush(r: word)
    ensures PolyOfWord(Step(r)) == Push(PolyOfWord(r), false)
  {
    var p, s := PolyOfWord(r), PolyOfWord(r << 1);
    forall i | 0 <= i < 8 ensures s[i] == (p[1..] + [false])[i] {
      BitOfShift(r, i);
    }
    assert s == p[1..] + [false];
    forall i | 0 <= i < 8 ensures PolyOfWord((r << 1) ^ 0xE1)[i] == Xor(s, GENERATOR_TAIL)[i] {
      BitOfXor(r << 1, 0xE1, i);
      assert Bit(0xE1, i) == GENERATOR_TAIL[i];
    }
    assert p[0] == Bit(r, 0);
  }

  /** The order of x modulo the generator, 7 * 31. */
  const ORDER_OF_X: nat := 217

  ghost predicate Power(d: nat, b: word) {
    TimesXn(ONE, d) == PolyOfWord(b)
  }

  /** No power x^d with from < d <= to is 1. */
  ghost predicate NoReturn(from: nat, to: nat) {
    forall d: nat | from < d <= to :: TimesXn(ONE, d) != ONE
  }

  /** Of all words only 1 is the polynomial 1. */
  lemma OneIsOne(b: word)
    requires PolyOfWord(b) == ONE
    ensures b == 1
  {
    assert !Bit(b, 0) && !Bit(b, 1) && !Bit(b, 2) && !Bit(b, 3) by {
      assert !PolyOfWord(b)[0] && !PolyOfWord(b)[1] && !PolyOfWord(b)[2] && !PolyOfWord(b)[3];
    }
    assert !Bit(b, 4) && !Bit(b, 5) && !Bit(b, 6) && Bit(b, 7) by {
      assert !PolyOfWord(b)[4] && !PolyOfWord(b)[5] && !PolyOfWord(b)[6] && PolyOfWord(b)[7];
    }
  }

  lemma PolyOne()
    ensures PolyOfWord(1) == ONE
  {
    forall i | 0 <= i < 8 ensures PolyOfWord(1)[i] == ONE[i] {
      assert Bit(1, i) == ONE[i];
    }
  }

  lemma PowerStep(d: nat, b: word)
    requires Power(d, b)
    ensures Power(d + 1, Step(b))
    ensures Step(b) != 1 ==> TimesXn(ONE, d + 1) != ONE
  {
    StepIsPush(b);
    if TimesXn(ONE, d + 1) == ONE {
      OneIsOne(Step(b));
    }
  }

  /** Seven successive powers, none of them 1. */
  lemma Hop(d: nat, b: word, c: word)
    requires Power(d, b)
    requires
      var b1 := Step(b); var b2 := Step(b1); var b3 := Step(b2); var b4 := Step(b3);
      var b5 := Step(b4); var b6 := Step(b5);
      c == Step(b6) && b1 != 1 && b2 != 1 && b3 != 1 && b4 != 1 && b5 != 1 && b6 != 1
    ensures Power(d + 7, c) && NoReturn(d, d + 6)
    ensures c != 1 ==> NoReturn(d, d + 7)
  {
    var b1 := Step(b);
    var b2 := Step(b1);
    var b3 := Step(b2);
    var b4 := Step(b3);
    var b5 := Step(b4);
    var b6 := Step(b5);
    PowerStep(d, b);
    PowerStep(d + 1, b1);
    PowerStep(d + 2, b2);
    PowerStep(d + 3, b3);
    PowerStep(d + 4, b4);
    PowerStep(d + 5, b5);
    PowerStep(d + 6, b6);
    forall e: nat | d < e <= d + 7 && (e == d + 7 ==> c != 1) ensures TimesXn(ONE, e) != ONE {
      assert e == d + 1 || e == d + 2 || e == d + 3 || e == d + 4 || e == d + 5 || e == d + 6 || e == d + 7;
    }
  }

  lemma PowersTo28(d: nat)
    requires Power(d, 0x01)
    ensures Power(d + 28, 0x52) && NoReturn(d, d + 28)
  {
    Hop(d, 0x01, 0x80);
    Hop(d + 7, 0x80, 0x26);
    Hop(d + 14, 0x26, 0x3B);
    Hop(d + 21, 0x3B, 0x52);
  }

  lemma PowersTo56(d: nat)
    requires Power(d, 0x52)
    ensures Power(d + 28, 0x1C) && NoReturn(d, d + 28)
  {
    Hop(d, 0x52, 0x7E);
    Hop(d + 7, 0x7E, 0xE2);
    Hop(d + 14, 0xE2, 0x2D);
    Hop(d + 21, 0x2D, 0x1C);
  }

  lemma PowersTo84(d: nat)
    requires Power(d, 0x1C)
    ensures Power(d + 28, 0x9D) && NoReturn(d, d + 28)
  {
    Hop(d, 0x1C, 0xE9);
    Hop(d + 7, 0xE9, 0x0A);
    Hop(d + 14, 0x0A, 0xA7);
    Hop(d + 21, 0xA7, 0x9D);
  }

  lemma PowersTo112(d: nat)
    requires Power(d, 0x9D)
    ensures Power(d + 28, 0xB1) && NoReturn(d, d + 28)
  {
    Hop(d, 0x9D, 0x4F);
    Hop(d + 7, 0x4F, 0x17);
    Hop(d + 14, 0x17, 0xCE);
    Hop(d + 21, 0xCE, 0xB1);
  }

  lemma PowersTo140(d: nat)
    requires Power(d, 0xB1)
    ensures Power(d + 28, 0x44) && NoReturn(d, d + 28)
  {
    Hop(d, 0xB1, 0xD3);
    Hop(d + 7, 0xD3, 0xD8);
    Hop(d + 14, 0xD8, 0xFF);
    Hop(d + 21, 0xFF, 0x44);
  }

  lemma PowersTo168(d: nat)
    requires Power(d, 0x44)
    ensures Power(d + 28, 0x96) && NoReturn(d, d + 28)
  {
    Hop(d, 0x44, 0x30);
    Hop(d + 7, 0x30, 0x75);
    Hop(d + 14, 0x75, 0xC5);
    Hop(d + 21, 0xC5, 0x96);
  }

  lemma PowersTo196(d: nat)
    requires Power(d, 0x96)
    ensures Power(d + 28, 0xF4) && NoReturn(d, d + 28)
  {
    Hop(d, 0x96, 0x68);
    Hop(d + 7, 0x68, 0xAC);
    Hop(d + 14, 0xAC, 0xBA);
    Hop(d + 21, 0xBA, 0xF4);
  }

  lemma PowersTo217(d: nat)
    requires Power(d, 0xF4)
    ensures Power(d + 21, 0x01) && NoReturn(d, d + 20)
  {
    Hop(d, 0xF4, 0x63);
    Hop(d + 7, 0x63, 0x8B);
    Hop(d + 14, 0x8B, 0x01);
  }

  lemma NoReturnJoins(a: nat, b: nat, c: nat)
    requires NoReturn(a, b) && NoReturn(b, c)
    ensures NoReturn(a, c)
  {
  }

  /** x^n is 1 modulo the generator and no smaller power is. */
  ghost predicate IsOrder(n: nat) {
    0 < n && NoReturn(0, n - 1) && TimesXn(ONE, n) == ONE
  }

  /** From any exponent at which x^d is 1 it takes 217 more to come back to 1. */
  lemma FullCircle(d: nat)
    requires Power(d, 0x01)
    ensures Power(d + ORDER_OF_X, 0x01) && NoReturn(d, d + ORDER_OF_X - 1)
  {
    PowersTo28(d);
    PowersTo56(d + 28);
    NoReturnJoins(d, d + 28, d + 56);
    PowersTo84(d + 56);
    NoReturnJoins(d, d + 56, d + 84);
    PowersTo112(d + 84);
    NoReturnJoins(d, d + 84, d + 112);
    PowersTo140(d + 112);
    NoReturnJoins(d, d + 112, d + 140);
    PowersTo168(d + 140);
    NoReturnJoins(d, d + 140, d + 168);
    PowersTo196(d + 168);
    NoReturnJoins(d, d + 168, d + 196);
    PowersTo217(d + 196);
    NoReturnJoins(d, d + 196, d + 216);
  }

  /** x has that order modulo the generator. */
  lemma OrderOfX()
    ensures IsOrder(ORDER_OF_X)
  {
    PolyOne();
    assert Power(0, 0x01);
    FullCircle(0);
    assert 0 + ORDER_OF_X == ORDER_OF_X;
  }

  predicate Multiple(d: nat, n: nat)
    requires 0 < n
    decreases d
  {
    d == 0 || (n <= d && Multiple(d - n, n))
  }

  lemma {:induction false} MultipleMeansModulo(d: nat)
    ensures Multiple(d, ORDER_OF_X) <==> d % ORDER_OF_X == 0
  {
    if ORDER_OF_X <= d {
      MultipleMeansModulo(d - ORDER_OF_X);
    }
  }

  /** The exponents at which x is 1 are the multiples of the order. */
  lemma {:induction false} ReturnsAtMultiples(d: nat, n: nat)
    requires IsOrder(n)
    ensures TimesXn(ONE, d) == ONE <==> Multiple(d, n)
  {
    if n <= d {
      TimesXnAdd(ONE, n, d - n);
      ReturnsAtMultiples(d - n, n);
    }
  }

  lemma ReturnsToOne(d: nat)
    ensures TimesXn(ONE, d) == ONE <==> d % ORDER_OF_X == 0
  {
    OrderOfX();
    ReturnsAtMultiples(d, ORDER_OF_X);
    MultipleMeansModulo(d);
  }

  lemma PushSplit(r: Residue, c: bool)
    ensures Push(r, c) == Xor(Push(r, false), if c then ONE else Zeros(8))
  {
    PushAsXor(r, c);
    PushAsXor(r, false);
    var a := r[1..];
    assert a + [c] == Xor(a + [false], if c then ONE else Zeros(8));
  }

  /** Multiplying by that power of x changes no residue. */
  lemma {:induction false} FullTurn(p: seq<bool>, n: nat)
    requires IsOrder(n)
    ensures TimesXn(Rem(p), n) == Rem(p)
  {
    TimesXnZero(Zeros(8), n);
    if p != [] {
      var u, c := p[..|p| - 1], p[|p| - 1];
      FullTurn(u, n);
      PushSplit(Rem(u), c);
      TimesXnLinear(Push(Rem(u), false), if c then ONE else Zeros(8), n);
      TimesXnAdd(Rem(u), 1, n);
      TimesXnAdd(Rem(u), n, 1);
      assert TimesXn(Rem(u), 1) == Push(TimesXn(Rem(u), 0), false);
    }
  }
}
