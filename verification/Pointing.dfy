/** Where the antenna points: the two encoder positions of its mount for an azimuth and an elevation
    (TrameAntennaConstructor/TrameAntennaConstructor.c:11-54). */
module Pointing {

  const AZIMUT_OFFSET := 0.83
  const MIN_EL_ANGLE := 10.0
  const MAX_EL_ANGLE := 90.0
  const ENCODER_X_STEP_BY_ANGLE := 6000.0 / 17.0
  const ENCODER_Y_STEP_BY_ANGLE := 20000.0 / 51.0
  const MAX_ENCODER_X := 28235
  const MAX_ENCODER_Y := 31435

  type int16 = x: int | -0x8000 <= x < 0x8000

  // -------------------------------------------------------------------- trigonometry

  /** Sine, cosine and their inverses for angles in degrees. */
  datatype Trigonometry = Trigonometry(sin: real -> real, cos: real -> real, asin: real -> real, acos: real -> real) {

    predicate OnCircle(a: real) {
      && sin(a) * sin(a) + cos(a) * cos(a) == 1.0
      && sin(-a) == -sin(a) && sin(90.0 - a) == cos(a)
      && (-90.0 <= a <= 450.0 ==> (cos(a) < 0.0 <==> 90.0 < a < 270.0))
    }

    predicate Rises(a: real, b: real) {
      -90.0 <= a < b <= 90.0 ==> sin(a) < sin(b)
    }

    predicate Inverts(v: real) {
      && sin(asin(v)) == v && -90.0 <= asin(v) <= 90.0
      && cos(acos(v)) == v && 0.0 <= acos(v) <= 180.0
    }

    /** What is used of the real functions. */
    ghost predicate Proper() {
      && (forall a :: OnCircle(a)) && (forall a, b :: Rises(a, b))
      && (forall v | -1.0 <= v <= 1.0 :: Inverts(v))
    }
  }

  // ------------------------------------------------------------------- encoder values

  /** A quotient; `CosineOfX` shows that the divisor is never zero. */
  function Over(a: real, b: real): real {
    if b == 0.0 then 0.0 else a / b
  }

  function Product(a: real, b: real): real {
    a * b
  }

  function XAngle(trig: Trigonometry, az: real, el: real): real {
    trig.asin(Product(trig.cos(el), trig.sin(az)))
  }

  function YAngle(trig: Trigonometry, az: real, el: real): real {
    trig.acos(Over(trig.sin(el), trig.cos(XAngle(trig, az, el))))
  }

  function Truncate(r: real): int {
    if r < 0.0 then -(-r).Floor else r.Floor
  }

  /** (int16_t) n, by wrapping; `StepsInLimits` shows that this never happens. */
  function Wrap16(n: int): int16 {
    var u := n % 0x1_0000;
    if u < 0x8000 then u else u - 0x1_0000
  }

  /** -y in sixteen bits. */
  function Negate(y: int16): int16 {
    if y == -0x8000 then -0x8000 else -y
  }

  /** The encoder values for two angles, Y turned round if the antenna points behind itself, or
      zeros beyond the limits. */
  function Steps(x: real, y: real, behind: bool): (xy: (int16, int16))
    ensures -MAX_ENCODER_X <= xy.0 <= MAX_ENCODER_X && -MAX_ENCODER_Y <= xy.1 <= MAX_ENCODER_Y
  {
    var xSteps := Wrap16(Truncate(x * ENCODER_X_STEP_BY_ANGLE));
    var ySteps := Wrap16(Truncate(y * ENCODER_Y_STEP_BY_ANGLE));
    var signed := if behind then Negate(ySteps) else ySteps;
    if -MAX_ENCODER_X <= xSteps <= MAX_ENCODER_X && -MAX_ENCODER_Y <= signed <= MAX_ENCODER_Y
    then (xSteps, signed) else (0, 0)
  }

  /** `computeXYencoderFromAzEl` */
  function EncoderXY(trig: Trigonometry, az: real, el: real): (xy: (int16, int16))
    ensures -MAX_ENCODER_X <= xy.0 <= MAX_ENCODER_X && -MAX_ENCODER_Y <= xy.1 <= MAX_ENCODER_Y
  {
    if !(MIN_EL_ANGLE < el < MAX_EL_ANGLE) then (0, 0)
    else
      var corrected := az - AZIMUT_OFFSET;
      Steps(XAngle(trig, corrected, el), YAngle(trig, corrected, el), 90.0 < corrected < 270.0)
  }

  /** What `computeXYencoderFromAzEl` is to those who call it. */
  type Encoder = (real, real) -> (int16, int16)

  function EncoderOf(trig: Trigonometry): Encoder {
    (az, el) => EncoderXY(trig, az, el)
  }

  // ----------------------------------------------------------------- the mount's angles

  lemma Grows(a: real, b: real, c: real)
    requires 0.0 < c && a < b
    ensures a * c < b * c
  {
    assert (b - a) * c > 0.0;
  }

  lemma SquareOrder(a: real, b: real)
    requires 0.0 <= a && 0.0 < b && a * a <= b * b
    ensures a <= b
  {
    if b < a {
      Grows(b, a, b);
      Grows(b, a, a);
    }
  }

  function Abs(b: real): real {
    if b < 0.0 then -b else b
  }

  lemma ZeroFactor(p: real, q: real)
    requires p * q == 0.0 && 0.0 < q
    ensures p == 0.0
  {
    if 0.0 < p {
      Grows(0.0, p, q);
    } else if p < 0.0 {
      Grows(p, 0.0, q);
    }
  }

  lemma SquareRoot(a: real, b: real)
    requires a * a == b * b && 0.0 <= a
    ensures a == Abs(b)
  {
    var n := Abs(b);
    assert n * n == b * b;
    assert (a - n) * (a + n) == a * a - n * n;
    if 0.0 < a + n {
      ZeroFactor(a - n, a + n);
    }
  }

  lemma AtMostOne(a: real)
    requires a * a <= 1.0
    ensures -1.0 <= a <= 1.0
  {
  }

  lemma Scaled(a: real, b: real, limit: real)
    requires 0.0 < a < limit && -1.0 <= b <= 1.0
    ensures -limit < Product(a, b) < limit
  {
    if b < 1.0 {
      Grows(b, 1.0, a);
    }
    if -1.0 < b {
      Grows(-1.0, b, a);
    }
  }

  lemma CircleBounds(trig: Trigonometry, a: real)
    requires trig.Proper()
    ensures -1.0 <= trig.sin(a) <= 1.0 && -1.0 <= trig.cos(a) <= 1.0
  {
    assert trig.OnCircle(a);
    AtMostOne(trig.sin(a));
    AtMostOne(trig.cos(a));
  }

  lemma SineOfZero(trig: Trigonometry)
    requires trig.Proper()
    ensures trig.sin(0.0) == 0.0
  {
    assert trig.OnCircle(0.0);
  }

  /** Sine and cosine of an allowed elevation. */
  lemma ElevationBounds(trig: Trigonometry, el: real)
    requires trig.Proper() && MIN_EL_ANGLE < el < MAX_EL_ANGLE
    ensures 0.0 < trig.sin(10.0) < trig.sin(el) && 0.0 < trig.cos(el) < trig.sin(80.0)
  {
    SineOfZero(trig);
    assert trig.OnCircle(el) && trig.Rises(0.0, 10.0) && trig.Rises(10.0, el);
    assert trig.Rises(0.0, 90.0 - el) && trig.Rises(90.0 - el, 80.0);
  }

  /** An angle whose sine is below that of eighty degrees. */
  lemma BelowEighty(trig: Trigonometry, x: real)
    requires trig.Proper() && -90.0 <= x <= 90.0 && -trig.sin(80.0) < trig.sin(x) < trig.sin(80.0)
    ensures -80.0 < x < 80.0
  {
    assert trig.OnCircle(80.0) && trig.Rises(80.0, x) && trig.Rises(x, -80.0);
  }

  /** The angle whose sine is v. */
  lemma InverseOf(trig: Trigonometry, v: real)
    requires trig.Proper() && -1.0 <= v <= 1.0
    ensures trig.Inverts(v)
  {
  }

  /** The sine of x as the code computes it. */
  lemma SineOfX(trig: Trigonometry, az: real, el: real)
    requires trig.Proper() && MIN_EL_ANGLE < el < MAX_EL_ANGLE
    ensures -trig.sin(80.0) < Product(trig.cos(el), trig.sin(az)) < trig.sin(80.0) <= 1.0
  {
    ElevationBounds(trig, el);
    CircleBounds(trig, az);
    CircleBounds(trig, 80.0);
    Scaled(trig.cos(el), trig.sin(az), trig.sin(80.0));
  }

  lemma XAngleBounds(trig: Trigonometry, az: real, el: real)
    requires trig.Proper() && MIN_EL_ANGLE < el < MAX_EL_ANGLE
    ensures var x := XAngle(trig, az, el);
            -80.0 < x < 80.0 && trig.sin(x) == Product(trig.cos(el), trig.sin(az))
  {
    SineOfX(trig, az, el);
    InverseOf(trig, Product(trig.cos(el), trig.sin(az)));
    BelowEighty(trig, XAngle(trig, az, el));
  }

  lemma Pythagoras(se: real, ce: real, sa: real, ca: real)
    requires se * se + ce * ce == 1.0 && sa * sa + ca * ca == 1.0
    ensures 1.0 - (ce * sa) * (ce * sa) == se * se + (ce * ca) * (ce * ca)
  {
    assert (ce * sa) * (ce * sa) == (ce * ce) * (sa * sa);
    assert (ce * ca) * (ce * ca) == (ce * ce) * (ca * ca);
    assert (ce * ce) * (sa * sa) + (ce * ce) * (ca * ca) == (ce * ce) * (sa * sa + ca * ca);
  }

  lemma SquareIsPositive(a: real)
    ensures 0.0 <= a * a
  {
  }

  lemma CosineAtLeast(se: real, ce: real, sa: real, ca: real, c: real)
    requires se * se + ce * ce == 1.0 && sa * sa + ca * ca == 1.0
    requires (ce * sa) * (ce * sa) + c * c == 1.0 && 0.0 < se && 0.0 <= c
    ensures c * c == se * se + (ce * ca) * (ce * ca) && se <= c
  {
    Pythagoras(se, ce, sa, ca);
    SquareIsPositive(ce * ca);
    if 0.0 < c {
      SquareOrder(se, c);
    } else {
      SquareOrder(c, se);
      SquareRoot(se, c);
    }
  }

  /** The cosine of x is at least the sine of the elevation. */
  lemma CosineOfX(trig: Trigonometry, az: real, el: real)
    requires trig.Proper() && MIN_EL_ANGLE < el < MAX_EL_ANGLE
    ensures var c, north := trig.cos(XAngle(trig, az, el)), trig.cos(el) * trig.cos(az);
            c * c == trig.sin(el) * trig.sin(el) + north * north && trig.sin(el) <= c <= 1.0
  {
    var x := XAngle(trig, az, el);
    XAngleBounds(trig, az, el);
    ElevationBounds(trig, el);
    assert trig.OnCircle(x) && trig.OnCircle(el) && trig.OnCircle(az);
    CircleBounds(trig, x);
    CosineAtLeast(trig.sin(el), trig.cos(el), trig.sin(az), trig.cos(az), trig.cos(x));
  }

  lemma FractionLow(a: real, b: real, q: real)
    requires 0.0 < a && 0.0 < b <= 1.0 && q * b == a
    ensures a <= q
  {
    ProductBelow(a, b);
    if q < a {
      Grows(q, a, b);
    }
  }

  lemma ProductBelow(a: real, b: real)
    requires 0.0 < a && 0.0 < b <= 1.0
    ensures a * b <= a
  {
    if b < 1.0 {
      Grows(b, 1.0, a);
      assert b * a == a * b;
    }
  }

  lemma FractionHigh(a: real, b: real, q: real)
    requires 0.0 < a <= b && q * b == a
    ensures q <= 1.0
  {
    if 1.0 < q {
      Grows(1.0, q, b);
    }
  }

  lemma FractionOver(a: real, b: real)
    requires 0.0 < a <= b <= 1.0
    ensures a <= Over(a, b) <= 1.0 && Product(b, Over(a, b)) == a
  {
    var q := a / b;
    assert q * b == a && b * q == a;
    FractionLow(a, b, q);
    FractionHigh(a, b, q);
  }

  /** cos y is the fraction that the code computes. */
  lemma YAngleBounds(trig: Trigonometry, az: real, el: real)
    requires trig.Proper() && MIN_EL_ANGLE < el < MAX_EL_ANGLE
    ensures var y, c := YAngle(trig, az, el), trig.cos(XAngle(trig, az, el));
            && 0.0 <= y < 80.0 && trig.cos(y) == Over(trig.sin(el), c) && Product(c, trig.cos(y)) == trig.sin(el)
  {
    var y, c := YAngle(trig, az, el), trig.cos(XAngle(trig, az, el));
    CosineOfX(trig, az, el);
    ElevationBounds(trig, el);
    FractionOver(trig.sin(el), c);
    InverseOf(trig, Over(trig.sin(el), c));
    assert trig.OnCircle(y) && trig.Rises(90.0 - y, 10.0);
  }

  // --------------------------------------------------------------- the values are right

  /** n is r without its fraction. */
  predicate IsTruncated(n: int, r: real) {
    if r < 0.0 then n <= 0 && r <= n as real < r + 1.0 else 0 <= n && n as real <= r < n as real + 1.0
  }

  lemma TruncateIsTruncated(r: real)
    ensures IsTruncated(Truncate(r), r)
  {
  }

  lemma XSteps(x: real)
    requires -80.0 < x < 80.0
    ensures var n := Truncate(x * ENCODER_X_STEP_BY_ANGLE);
            -MAX_ENCODER_X <= n <= MAX_ENCODER_X && Wrap16(n) == n && IsTruncated(n, x * 6000.0 / 17.0)
  {
    TruncateIsTruncated(x * ENCODER_X_STEP_BY_ANGLE);
  }

  lemma YSteps(y: real)
    requires 0.0 <= y < 80.0
    ensures var n := Truncate(y * ENCODER_Y_STEP_BY_ANGLE);
            0 <= n <= MAX_ENCODER_Y && Wrap16(n) == n && IsTruncated(n, y * 20000.0 / 51.0)
  {
    TruncateIsTruncated(y * ENCODER_Y_STEP_BY_ANGLE);
  }

  lemma StepsInLimits(x: real, y: real, behind: bool)
    requires -80.0 < x < 80.0 && 0.0 <= y < 80.0
    ensures var xy := Steps(x, y, behind);
            && IsTruncated(xy.0, x * 6000.0 / 17.0)
            && IsTruncated(if behind then -(xy.1 as int) else xy.1, y * 20000.0 / 51.0)
  {
    XSteps(x);
    YSteps(y);
  }

  /** For every allowed elevation the values are those of the angles of the mount, cut to whole steps,
      with Y turned round behind the antenna: the limits of the encoders are never the reason for zeros. */
  lemma EncoderXYSteps(trig: Trigonometry, az: real, el: real)
    requires trig.Proper() && 10.0 < el < 90.0
    ensures var xy, a := EncoderXY(trig, az, el), az - 0.83;
            && IsTruncated(xy.0, XAngle(trig, a, el) * 6000.0 / 17.0)
            && IsTruncated(if 90.83 < az < 270.83 then -(xy.1 as int) else xy.1, YAngle(trig, a, el) * 20000.0 / 51.0)
  {
    var a := az - 0.83;
    XAngleBounds(trig, a, el);
    YAngleBounds(trig, a, el);
    StepsInLimits(XAngle(trig, a, el), YAngle(trig, a, el), 90.0 < a < 270.0);
  }

  /** The angle whose steps `EncoderXY` gives for Y. */
  function SignedYAngle(trig: Trigonometry, a: real, el: real): real {
    if 90.0 < a < 270.0 then -YAngle(trig, a, el) else YAngle(trig, a, el)
  }

  lemma TruncatedNegation(n: int, r: real)
    requires IsTruncated(-n, r)
    ensures IsTruncated(n, -r)
  {
  }

  lemma SignedSteps(trig: Trigonometry, az: real, el: real)
    requires trig.Proper() && 10.0 < el < 90.0
    ensures var xy, a := EncoderXY(trig, az, el), az - 0.83;
            && IsTruncated(xy.0, XAngle(trig, a, el) * 6000.0 / 17.0)
            && IsTruncated(xy.1, SignedYAngle(trig, a, el) * 20000.0 / 51.0)
  {
    EncoderXYSteps(trig, az, el);
    if 90.83 < az < 270.83 {
      TruncatedNegation(EncoderXY(trig, az, el).1, YAngle(trig, az - 0.83, el) * 20000.0 / 51.0);
    }
  }

  /** Below and above them the antenna is sent to its zero position. */
  lemma EncoderXYForbidden(trig: Trigonometry, az: real, el: real)
    requires el <= 10.0 || 90.0 <= el
    ensures EncoderXY(trig, az, el) == (0, 0)
  {
  }

  /** A direction as a vector of length one. */
  datatype Direction = Direction(north: real, east: real, up: real)

  /** Where an azimuth and an elevation point. */
  function Sky(trig: Trigonometry, az: real, el: real): Direction {
    Direction(Product(trig.cos(el), trig.cos(az)), Product(trig.cos(el), trig.sin(az)), trig.sin(el))
  }

  /** Where the mount points: its fixed axis lies east to west and tilts it north by y, the axis that
      is carried tilts it east by x. */
  function Mount(trig: Trigonometry, x: real, y: real): Direction {
    Direction(Product(trig.cos(x), trig.sin(y)), trig.sin(x), Product(trig.cos(x), trig.cos(y)))
  }

  /** (c sin y)^2 = c^2 - (c cos y)^2. */
  lemma NorthSquared(c: real, cy: real, sy: real, up: real, north: real)
    requires sy * sy + cy * cy == 1.0 && c * cy == up && c * c == up * up + north * north
    ensures (c * sy) * (c * sy) == north * north
  {
    assert (c * sy) * (c * sy) == (c * c) * (sy * sy);
    assert (c * cy) * (c * cy) == (c * c) * (cy * cy);
    assert (c * c) * (sy * sy) + (c * c) * (cy * cy) == (c * c) * (sy * sy + cy * cy);
  }

  /** Without its sign, Y leads as far north or south as it should. */
  lemma NorthOfY(trig: Trigonometry, a: real, el: real)
    requires trig.Proper() && MIN_EL_ANGLE < el < MAX_EL_ANGLE
    ensures var x, y := XAngle(trig, a, el), YAngle(trig, a, el);
            0.0 <= trig.sin(y) && trig.cos(x) * trig.sin(y) == Abs(trig.cos(el) * trig.cos(a))
  {
    var x, y := XAngle(trig, a, el), YAngle(trig, a, el);
    var c, sy := trig.cos(x), trig.sin(y);
    CosineOfX(trig, a, el);
    YAngleBounds(trig, a, el);
    ElevationBounds(trig, el);
    SineOfZero(trig);
    assert trig.OnCircle(y) && trig.Rises(0.0, y);
    NorthSquared(c, trig.cos(y), sy, trig.sin(el), trig.cos(el) * trig.cos(a));
    assert 0.0 <= c * sy by {
      if 0.0 < sy {
        Grows(0.0, sy, c);
      }
    }
    SquareRoot(c * sy, trig.cos(el) * trig.cos(a));
  }

  /** The code takes the right sign for Y. */
  predicate SignIsRight(trig: Trigonometry, a: real) {
    trig.cos(a) == 0.0 || (90.0 < a < 270.0 <==> trig.cos(a) < 0.0)
  }

  lemma NorthSigned(trig: Trigonometry, a: real, el: real)
    requires trig.Proper() && MIN_EL_ANGLE < el < MAX_EL_ANGLE
    ensures var x, y := XAngle(trig, a, el), SignedYAngle(trig, a, el);
            Product(trig.cos(x), trig.sin(y)) == Product(trig.cos(el), trig.cos(a)) <==> SignIsRight(trig, a)
  {
    var c, sy, ce, ca := trig.cos(XAngle(trig, a, el)), trig.sin(YAngle(trig, a, el)), trig.cos(el), trig.cos(a);
    NorthOfY(trig, a, el);
    ElevationBounds(trig, el);
    assert trig.OnCircle(YAngle(trig, a, el));
    assert c * -sy == -(c * sy);
    if ca < 0.0 {
      Grows(ca, 0.0, ce);
    } else if ca > 0.0 {
      Grows(0.0, ca, ce);
    }
  }

  lemma EastAndUp(trig: Trigonometry, a: real, el: real)
    requires trig.Proper() && MIN_EL_ANGLE < el < MAX_EL_ANGLE
    ensures var mount := Mount(trig, XAngle(trig, a, el), SignedYAngle(trig, a, el));
            mount.east == Sky(trig, a, el).east && mount.up == Sky(trig, a, el).up
  {
    var y := YAngle(trig, a, el);
    XAngleBounds(trig, a, el);
    YAngleBounds(trig, a, el);
    CosineIsEven(trig, y);
  }

  lemma CosineIsEven(trig: Trigonometry, y: real)
    requires trig.Proper() && 0.0 <= y <= 90.0
    ensures trig.cos(-y) == trig.cos(y)
  {
    assert trig.OnCircle(y) && trig.OnCircle(-y);
    SquareRoot(trig.cos(y), trig.cos(-y));
  }

  /** The angles point where the azimuth and the elevation say, exactly if the sign is right. */
  lemma PointsThere(trig: Trigonometry, a: real, el: real)
    requires trig.Proper() && MIN_EL_ANGLE < el < MAX_EL_ANGLE
    ensures Mount(trig, XAngle(trig, a, el), SignedYAngle(trig, a, el)) == Sky(trig, a, el) <==> SignIsRight(trig, a)
  {
    NorthSigned(trig, a, el);
    EastAndUp(trig, a, el);
  }

  /** That it is for every azimuth of a full circle, and half a circle more around it. */
  lemma PointsAllRound(trig: Trigonometry, a: real, el: real)
    requires trig.Proper() && MIN_EL_ANGLE < el < MAX_EL_ANGLE && -90.0 <= a <= 450.0
    ensures Mount(trig, XAngle(trig, a, el), SignedYAngle(trig, a, el)) == Sky(trig, a, el)
  {
    assert trig.OnCircle(a);
    PointsThere(trig, a, el);
  }

  /** Beyond that an azimuth behind the antenna, such as 500 degrees, is taken for one before it. */
  lemma PointsAway(trig: Trigonometry, a: real, el: real)
    requires trig.Proper() && MIN_EL_ANGLE < el < MAX_EL_ANGLE && 450.0 < a && trig.cos(a) < 0.0
    ensures Mount(trig, XAngle(trig, a, el), SignedYAngle(trig, a, el)) != Sky(trig, a, el)
  {
    PointsThere(trig, a, el);
  }

  /** These encoder values are the steps, without fraction, of two angles at which the mount points to
      the azimuth, as far as it is corrected, and the elevation. */
  ghost predicate Aims(trig: Trigonometry, az: real, el: real, xSteps: int, ySteps: int) {
    exists x, y :: IsTruncated(xSteps, x * 6000.0 / 17.0) && IsTruncated(ySteps, y * 20000.0 / 51.0)
                   && Mount(trig, x, y) == Sky(trig, az - 0.83, el)
  }

  /** The values are right for every azimuth of a circle and every allowed elevation. */
  lemma EncoderAims(trig: Trigonometry, az: real, el: real)
    requires trig.Proper() && 10.0 < el < 90.0 && -89.17 <= az <= 450.83
    ensures Aims(trig, az, el, EncoderXY(trig, az, el).0, EncoderXY(trig, az, el).1)
  {
    SignedSteps(trig, az, el);
    PointsAllRound(trig, az - 0.83, el);
  }
}
