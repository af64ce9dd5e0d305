/** The operators of `uint8_t` that the checksum uses, by their effect on binary digits. */
module Binary {
  import opened Bytes
  import opened Gf2

  /** Digit i of n in base two, counted from the lowest. */
  predicate Digit(n: nat, i: nat)
    decreases i
  {
    if i == 0 then n % 2 == 1 else Digit(n / 2, i - 1)
  }

  function Power2(k: nat): (p: nat)
    ensures 0 < p
  {
    if k == 0 then 1 else 2 * Power2(k - 1)
  }

  /** a ^ b */
  function XorNat(a: nat, b: nat): nat
    decreases a + b
  {
    if a == 0 && b == 0 then 0
    else 2 * XorNat(a / 2, b / 2) + if a % 2 != b % 2 then 1 else 0
  }

  lemma {:induction false} ZeroDigits(i: nat)
    ensures !Digit(0, i)
  {
    if i > 0 {
      ZeroDigits(i - 1);
    }
  }

  lemma {:induction false} XorDigits(a: nat, b: nat, i: nat)
    ensures Digit(XorNat(a, b), i) == (Digit(a, i) != Digit(b, i))
    decreases i
  {
    if a == 0 && b == 0 {
      ZeroDigits(i);
    } else {
      assert XorNat(a, b) / 2 == XorNat(a / 2, b / 2);
      if i > 0 {
        XorDigits(a / 2, b / 2, i - 1);
      }
    }
  }

  lemma {:induction false} XorBound(a: nat, b: nat, k: nat)
    requires a < Power2(k) && b < Power2(k)
    ensures XorNat(a, b) < Power2(k)
  {
    if k > 0 {
      XorBound(a / 2, b / 2, k - 1);
    }
  }

  lemma {:induction false} EqualDigits(m: nat, n: nat, k: nat)
    requires m < Power2(k) && n < Power2(k)
    requires forall i | 0 <= i < k :: Digit(m, i) == Digit(n, i)
    ensures m == n
  {
    if k > 0 {
      forall i | 0 <= i < k - 1 ensures Digit(m / 2, i) == Digit(n / 2, i) {
        assert Digit(m, i + 1) == Digit(n, i + 1);
      }
      EqualDigits(m / 2, n / 2, k - 1);
      assert Digit(m, 0) == Digit(n, 0);
    }
  }

  /** The number with the given binary digits, highest first. */
  function Value(p: seq<bool>): (n: nat)
    ensures n < Power2(|p|)
  {
    if p == [] then 0 else 2 * Value(p[..|p| - 1]) + if p[|p| - 1] then 1 else 0
  }

  lemma {:induction false} DigitsOfValue(p: seq<bool>, i: nat)
    requires i < |p|
    ensures Digit(Value(p), i) == p[|p| - 1 - i]
  {
    assert Value(p) / 2 == Value(p[..|p| - 1]);
    if i > 0 {
      DigitsOfValue(p[..|p| - 1], i - 1);
    }
  }

  lemma {:induction false} DigitsIgnoreHigh(n: nat, k: nat, i: nat)
    requires i < k
    ensures Digit(n + Power2(k), i) == Digit(n, i)
    decreases i
  {
    assert (n + Power2(k)) / 2 == n / 2 + Power2(k - 1);
    if i > 0 {
      DigitsIgnoreHigh(n / 2, k - 1, i - 1);
    }
  }

  lemma {:induction false} TopDigit(n: nat, k: nat)
    requires n < 2 * Power2(k)
    ensures Digit(n, k) <==> n >= Power2(k)
    decreases k
  {
    if k > 0 {
      TopDigit(n / 2, k - 1);
    }
  }

  lemma PowersOfTwo()
    ensures Power2(7) == 128 && Power2(8) == 256
  {
  }

  // ---------------------------------------------------------------------------- bytes

  /** A byte as the polynomial of its binary digits, highest first. */
  function Poly(b: byte): (p: Residue)
    ensures forall i | 0 <= i < 8 :: p[i] == Digit(b as nat, 7 - i)
  {
    seq(8, i requires 0 <= i < 8 => Digit(b as nat, 7 - i))
  }

  /** a ^ b */
  function XorByte(a: byte, b: byte): byte {
    PowersOfTwo();
    XorBound(a as nat, b as nat, 8);
    XorNat(a as nat, b as nat) as byte
  }

  /** (uint8_t) (b << 1) */
  function ShiftLeft(b: byte): byte {
    if b < 128 then 2 * b else 2 * (b - 128)
  }

  /** b & TOPBIT */
  predicate TopBit(b: byte) {
    b >= 128
  }

  lemma PolyOfXor(a: byte, b: byte)
    ensures Poly(XorByte(a, b)) == Xor(Poly(a), Poly(b))
  {
    forall i | 0 <= i < 8 ensures Poly(XorByte(a, b))[i] == Xor(Poly(a), Poly(b))[i] {
      XorDigits(a as nat, b as nat, 7 - i);
    }
  }

  lemma PolyInjective(a: byte, b: byte)
    requires Poly(a) == Poly(b)
    ensures a == b
  {
    var m, n := a as nat, b as nat;
    forall i | 0 <= i < 8 ensures Digit(m, i) == Digit(n, i) {
      assert Poly(a)[7 - i] == Poly(b)[7 - i];
    }
    PowersOfTwo();
    EqualDigits(m, n, 8);
  }

  lemma PolyOnto(r: Residue)
    ensures exists b: byte :: Poly(b) == r
  {
    PowersOfTwo();
    var b := Value(r) as byte;
    forall i | 0 <= i < 8 ensures Poly(b)[i] == r[i] {
      DigitsOfValue(r, 7 - i);
    }
    assert Poly(b) == r;
  }

  /** The byte with the given binary digits. */
  ghost function Pack(r: Residue): (b: byte)
    ensures Poly(b) == r
  {
    PolyOnto(r);
    var b: byte :| Poly(b) == r;
    b
  }

  lemma DigitOfShift(b: byte, i: nat)
    requires i < 8
    ensures Digit(ShiftLeft(b) as nat, i) == (0 < i && Digit(b as nat, i - 1))
  {
    if i > 0 && b >= 128 {
      PowersOfTwo();
      DigitsIgnoreHigh(b as nat - 128, 7, i - 1);
    }
  }

  lemma PolyOfShift(b: byte)
    ensures Poly(ShiftLeft(b)) == Poly(b)[1..] + [false]
    ensures TopBit(b) == Poly(b)[0]
  {
    forall i | 0 <= i < 8 ensures Poly(ShiftLeft(b))[i] == (Poly(b)[1..] + [false])[i] {
      DigitOfShift(b, 7 - i);
    }
    PowersOfTwo();
    TopDigit(b as nat, 7);
  }

  lemma PolyOfZero()
    ensures Poly(0) == Zeros(8)
  {
    forall i | 0 <= i < 8 ensures !Poly(0)[i] {
      ZeroDigits(7 - i);
    }
  }

  lemma DropDigits(n: nat, i: nat)
    ensures Digit(n, i + 4) == Digit(n / 16, i)
  {
    assert Digit(n, i + 4) == Digit(n / 2, i + 3);
    assert Digit(n / 2, i + 3) == Digit(n / 2 / 2, i + 2);
    assert Digit(n / 2 / 2, i + 2) == Digit(n / 2 / 2 / 2, i + 1);
  }

  lemma PolyOfGenerator()
    ensures Poly(0xE1) == GENERATOR_TAIL
  {
    var p := Poly(0xE1);
    DropDigits(0xE1, 0);
    DropDigits(0xE1, 1);
    DropDigits(0xE1, 2);
    DropDigits(0xE1, 3);
    assert p[7] && !p[6] && !p[5];
    assert Digit(0xE1, 3) == Digit(0x1C, 0);
    assert !p[4] && !p[3] && p[2] && p[1];
    assert Digit(0x0E, 3) == Digit(0x01, 0);
    forall i | 0 <= i < 8 ensures p[i] == GENERATOR_TAIL[i] {
    }
  }
}
