/** Conversion of a number to a 32-bit float of IEEE 754: rounding to nearest, ties to
    even (section 4.3.1). Whatever rounds beyond the largest float becomes one and the
    same value, which stands for infinity. */
module Rounding {
  import opened Ieee

  /** Floats have 24 binary digits. */
  const DIGITS := 0x100_0000

  const TOP := 254

  /** 2 to the power of -150. */
  const SMALLEST := 1.0 / 1427247692705959881058285969449495136382746624.0

  /** What the last digit of a float with exponent field `e` is worth. */
  function Unit(e: nat): (u: real)
    ensures u > 0.0
  {
    if e == 0 then SMALLEST else 2.0 * Unit(e - 1)
  }

  /** The exponent field of a number that is not negative, searched from `e` on. */
  function ExponentFrom(x: real, e: nat): (r: nat)
    requires 1 <= e <= TOP
    ensures e <= r <= TOP
    ensures r < TOP ==> x < DIGITS as real * Unit(r)
    decreases TOP - e, x
  {
    if e == TOP || x < DIGITS as real * Unit(e) then e else ExponentFrom(x, e + 1)
  }

  function HalfToEven(q: real): int {
    var n := q.Floor;
    var rest := q - n as real;
    if rest < 0.5 || (rest == 0.5 && n % 2 == 0) then n else n + 1
  }

  /** How many units there are in a number, at most `DIGITS`. */
  function Units(x: real, u: real): int
    requires u > 0.0
  {
    var n := HalfToEven(x / u);
    if n < DIGITS then n else DIGITS
  }

  function Whole(x: real, u: real): real
    requires u > 0.0
  {
    Units(x, u) as real * u
  }

  function Nearest(x: real): real {
    Whole(x, Unit(ExponentFrom(x, 1)))
  }

  function WithSign(negative: bool, x: real): real {
    if negative then -x else x
  }

  function ToFloat32(x: real): real {
    WithSign(x < 0.0, Nearest(WithSign(x < 0.0, x)))
  }

  /** Conversion to an integer truncates toward zero. */
  function TruncReal(x: real): int {
    if x < 0.0 then -((-x).Floor) else x.Floor
  }

  lemma {:induction false} TruncRealMeans(x: real)
    ensures var t := TruncReal(x) as real;
      if x < 0.0 then x <= t <= 0.0 && t < x + 1.0 else 0.0 <= t <= x && x - 1.0 < t
  {
  }

  // ------------------------------------------------------------ multiples of a unit

  lemma {:induction false} Larger(a: real, b: real, u: real)
    requires u > 0.0 && a <= b
    ensures a * u <= b * u
  {
  }

  lemma {:induction false} AtLeast(x: real, n: real, u: real)
    requires u > 0.0 && x >= n * u
    ensures x / u >= n
  {
    var q := x / u;
    assert q * u == x;
    if q < n {
      Smaller(q, n, u);
    }
  }

  lemma {:induction false} Smaller(a: real, b: real, u: real)
    requires u > 0.0 && a < b
    ensures a * u < b * u
  {
  }

  lemma {:induction false} RoundsInOrder(p: real, q: real)
    requires p <= q
    ensures HalfToEven(p) <= HalfToEven(q)
  {
    assert p.Floor <= q.Floor;
  }

  lemma {:induction false} IntegerStays(n: int)
    ensures HalfToEven(n as real) == n
  {
  }

  lemma {:induction false} QuotientGrows(x: real, y: real, u: real)
    requires u > 0.0 && x <= y
    ensures x / u <= y / u
  {
    var q := x / u;
    assert q * u == x;
    AtLeast(y, q, u);
  }

  lemma {:induction false} WholeGrows(x: real, y: real, u: real)
    requires u > 0.0 && x <= y
    ensures Whole(x, u) <= Whole(y, u)
  {
    QuotientGrows(x, y, u);
    RoundsInOrder(x / u, y / u);
    Larger(Units(x, u) as real, Units(y, u) as real, u);
  }

  lemma {:induction false} WholeAtMost(x: real, u: real)
    requires u > 0.0
    ensures Whole(x, u) <= DIGITS as real * u
  {
    Larger(Units(x, u) as real, DIGITS as real, u);
  }

  lemma {:induction false} WholeAtLeast(x: real, n: int, u: real)
    requires u > 0.0 && n <= DIGITS && x >= n as real * u
    ensures Whole(x, u) >= n as real * u
  {
    AtLeast(x, n as real, u);
    IntegerStays(n);
    RoundsInOrder(n as real, x / u);
    Larger(n as real, Units(x, u) as real, u);
  }

  lemma {:induction false} WholeStays(x: real, n: int, u: real)
    requires u > 0.0 && n <= DIGITS && x == n as real * u
    ensures Whole(x, u) == x
  {
    Quotient(x, n as real, u);
    IntegerStays(n);
  }

  lemma {:induction false} Quotient(x: real, n: real, u: real)
    requires u > 0.0 && x == n * u
    ensures x / u == n
  {
  }

  // ------------------------------------------------------------------ monotone

  lemma {:induction false} HigherExponent(x: real, y: real, e: nat)
    requires 1 <= e <= TOP && x <= y
    ensures ExponentFrom(x, e) <= ExponentFrom(y, e)
    decreases TOP - e
  {
    if ExponentFrom(y, e) > e && ExponentFrom(x, e) > e {
      HigherExponent(x, y, e + 1);
    }
  }

  /** Below its exponent there is no room. */
  lemma {:induction false} NoRoomBelow(x: real, e: nat, r: nat)
    requires 1 <= e < r <= TOP && r == ExponentFrom(x, e)
    ensures x >= DIGITS as real * Unit(r - 1)
    decreases TOP - e
  {
    if e + 1 < r {
      NoRoomBelow(x, e + 1, r);
    }
  }

  lemma {:induction false} UnitGrows(e: nat, g: nat)
    requires e <= g
    ensures Unit(e) <= Unit(g)
    decreases g - e
  {
    if e < g {
      UnitGrows(e + 1, g);
    }
  }

  /** Half the digits of a unit are all those of the next smaller one. */
  lemma {:induction false} WholeFromHalf(y: real, u: real, v: real)
    requires u > 0.0 && u == 2.0 * v && y >= DIGITS as real * v
    ensures DIGITS as real * v <= Whole(y, u)
  {
    WholeAtLeast(y, 0x80_0000, u);
  }

  /** A number beyond a range of digits, half of whose own unit is `v`. */
  lemma {:induction false} RangeStart(y: real, e: nat, g: nat) returns (v: real)
    requires 1 <= e < g == ExponentFrom(y, 1)
    ensures Unit(g) == 2.0 * v && Unit(e) <= v && y >= DIGITS as real * v
  {
    v := Unit(g - 1);
    NoRoomBelow(y, 1, g);
    UnitGrows(e, g - 1);
  }

  lemma {:induction false} NearestIs(x: real, u: real)
    requires u == Unit(ExponentFrom(x, 1))
    ensures Nearest(x) == Whole(x, u)
  {
  }

  lemma {:induction false} RangesInOrder(x: real, y: real, u: real, v: real, w: real)
    requires u > 0.0 && w == 2.0 * v && u <= v && y >= DIGITS as real * v
    ensures Whole(x, u) <= Whole(y, w)
  {
    WholeAtMost(x, u);
    WholeFromHalf(y, w, v);
  }

  lemma {:induction false} NearestGrows(x: real, y: real)
    requires x <= y
    ensures Nearest(x) <= Nearest(y)
  {
    var e, g := ExponentFrom(x, 1), ExponentFrom(y, 1);
    var u, w := Unit(e), Unit(g);
    HigherExponent(x, y, 1);
    NearestIs(x, u);
    NearestIs(y, w);
    if e == g {
      WholeGrows(x, y, u);
    } else {
      var v := RangeStart(y, e, g);
      RangesInOrder(x, y, u, v, w);
    }
  }

  lemma {:induction false} NotNegative(x: real)
    requires x >= 0.0
    ensures Nearest(x) >= 0.0
  {
    WholeAtLeast(x, 0, Unit(ExponentFrom(x, 1)));
  }

  /** Rounding never reverses an order. */
  lemma {:induction false} Monotone(x: real, y: real)
    requires x <= y
    ensures ToFloat32(x) <= ToFloat32(y)
  {
    var a, b := WithSign(x < 0.0, x), WithSign(y < 0.0, y);
    NotNegative(a);
    NotNegative(b);
    if y < 0.0 {
      NearestGrows(b, a);
    } else if x >= 0.0 {
      NearestGrows(a, b);
    }
  }

  // ---------------------------------------------------------- numbers that stay

  /** A unit is so many of a smaller one. */
  lemma {:induction false} UnitPower(e: nat, g: nat, u: real) returns (n: nat)
    requires e <= g && u == Unit(e)
    ensures n > 0 && Unit(g) == n as real * u
    decreases g - e
  {
    n := 1;
    if e < g {
      var half := UnitPower(e, g - 1, u);
      n := 2 * half;
      Twice(half, u);
    }
  }

  lemma {:induction false} Twice(n: nat, u: real)
    ensures 2.0 * (n as real * u) == (2 * n) as real * u
  {
    assert (2 * n) as real == 2.0 * n as real;
  }

  /** The search stops at the exponent of a number with so few digits. */
  lemma {:induction false} StopsBy(x: real, e: nat, g: nat)
    requires 1 <= e <= g <= TOP && x < DIGITS as real * Unit(g)
    ensures ExponentFrom(x, e) <= g && x < DIGITS as real * Unit(ExponentFrom(x, e))
    decreases g - e
  {
    if e < g {
      StopsBy(x, e + 1, g);
    }
  }

  lemma {:induction false} Product(m: nat, n: nat, u: real)
    ensures m as real * (n as real * u) == (m * n) as real * u
  {
    assert (m * n) as real == m as real * n as real;
  }

  lemma {:induction false} FitsDigits(n: nat, u: real)
    requires u > 0.0 && n as real * u < DIGITS as real * u
    ensures n < DIGITS
  {
    if n >= DIGITS {
      Larger(DIGITS as real, n as real, u);
    }
  }

  /** Some units of `k` smaller ones each. */
  lemma {:induction false} InSmaller(x: real, m: nat, k: nat, big: real, u: real)
    requires u > 0.0 && x == m as real * big && big == k as real * u && x < DIGITS as real * u
    ensures Whole(x, u) == x
  {
    Product(m, k, u);
    FitsDigits(m * k, u);
    WholeStays(x, m * k, u);
  }

  lemma {:induction false} InRange(x: real, m: nat, u: real)
    requires m < DIGITS && u > 0.0 && x == m as real * u
    ensures 0.0 <= x < DIGITS as real * u
  {
    Smaller(m as real, DIGITS as real, u);
    Larger(0.0, m as real, u);
  }

  /** The unit of a number in the range of `g`. */
  lemma {:induction false} FindUnit(x: real, g: nat, e: nat) returns (k: nat, u: real)
    requires 1 <= g <= TOP && x < DIGITS as real * Unit(g) && e == ExponentFrom(x, 1)
    ensures u == Unit(e) && x < DIGITS as real * u && Unit(g) == k as real * u
  {
    StopsBy(x, 1, g);
    u := Unit(e);
    k := UnitPower(e, g, u);
  }

  /** A number of at most 24 digits is not changed. */
  lemma {:induction false} FewDigitsStay(x: real, m: nat, g: nat, big: real)
    requires m < DIGITS && 1 <= g <= TOP && big == Unit(g) && x == m as real * big
    ensures x >= 0.0 && Nearest(x) == x
  {
    InRange(x, m, big);
    var k, u := FindUnit(x, g, ExponentFrom(x, 1));
    InSmaller(x, m, k, big, u);
    NearestIs(x, u);
  }

  lemma {:induction false} FiftyMore(n: nat)
    ensures TwoTo(n + 50) == 1125899906842624 * TwoTo(n)
  {
    TenMore(n);
    TenMore(n + 10);
    TenMore(n + 20);
    TenMore(n + 30);
    TenMore(n + 40);
  }

  lemma {:induction false} SmallestIs(n: nat)
    requires n == 0
    ensures TwoTo(n + 150) > 0 && SMALLEST == 1.0 / TwoTo(n + 150) as real
  {
    FiftyMore(n);
    FiftyMore(n + 50);
    FiftyMore(n + 100);
  }

  lemma {:induction false} UnitIsScaled(e: nat)
    ensures Scaled(1, e - 150) == Unit(e)
    decreases e
  {
    if e > 0 {
      UnitIsScaled(e - 1);
      ScaledTwice(1, e - 151);
    } else {
      SmallestIs(e);
    }
  }

  lemma {:induction false} ScaledOne(m: nat, p: int)
    ensures Scaled(m, p) == m as real * Scaled(1, p)
  {
    if p >= 0 {
      assert (m * TwoTo(p)) as real == m as real * TwoTo(p) as real;
    } else {
      TwoToIsPositive(-p);
      Fraction(m as real, TwoTo(-p) as real);
    }
  }

  lemma {:induction false} Fraction(m: real, n: real)
    requires n > 0.0
    ensures m / n == m * (1.0 / n)
  {
  }

  lemma {:induction false} ScaledTwice(m: nat, p: int)
    ensures Scaled(m, p + 1) == 2.0 * Scaled(m, p)
  {
    if p >= 0 {
      DoubledProduct(m, TwoTo(p));
    } else {
      TwoToIsPositive(-p - 1);
      HalfShare(m as real, TwoTo(-p - 1));
    }
  }

  lemma {:induction false} DoubledProduct(m: nat, n: nat)
    ensures (m * (2 * n)) as real == 2.0 * (m * n) as real
  {
    assert m * (2 * n) == 2 * (m * n);
  }

  lemma {:induction false} HalfShare(m: real, n: nat)
    requires n > 0
    ensures m / n as real == 2.0 * (m / (2 * n) as real)
  {
    var d := n as real;
    assert (2 * n) as real == 2.0 * d;
    assert m / (2.0 * d) == m / d / 2.0;
  }

  lemma {:induction false} StaysWithSign(x: real, y: real)
    requires Nearest(x) == x && x == WithSign(y < 0.0, y)
    ensures ToFloat32(y) == y
  {
  }

  lemma {:induction false} ScaledUnits(m: nat, e: nat, b: real, w: real)
    requires m < DIGITS && b == Scaled(m, e - 150) && w == Unit(e)
    ensures b == m as real * w && b >= 0.0
  {
    ScaledOne(m, e - 150);
    UnitIsScaled(e);
    InRange(b, m, w);
  }

  /** The digits and the unit of a float without its sign. */
  lemma {:induction false} PartsScaled(p: Parts) returns (m: nat, e: nat, b: real, w: real)
    requires PartsOk(p, SINGLE)
    ensures m < DIGITS && 1 <= e <= TOP && w == Unit(e) && b == m as real * w && b >= 0.0
    ensures PartsValue(p, SINGLE) == WithSign(p.negative, b)
  {
    e := if p.exponent == 0 then 1 else p.exponent;
    m := if p.exponent == 0 then p.mantissa else 0x80_0000 + p.mantissa;
    b := Scaled(m, e - 150);
    w := Unit(e);
    ScaledUnits(m, e, b, w);
  }

  /** Every finite value of a FLOAT32 column stays. */
  lemma {:induction false} FloatsStay(p: Parts)
    requires PartsOk(p, SINGLE)
    ensures ToFloat32(PartsValue(p, SINGLE)) == PartsValue(p, SINGLE)
  {
    var m, e, b, w := PartsScaled(p);
    FewDigitsStay(b, m, e, w);
    StaysWithSign(b, PartsValue(p, SINGLE));
  }

  // ------------------------------------------------------------------- closest

  function Gap(a: real, b: real): real {
    if a < b then b - a else a - b
  }

  lemma {:induction false} ClosestInteger(q: real, n: int)
    ensures Gap(HalfToEven(q) as real, q) <= Gap(n as real, q)
  {
    assert n <= q.Floor || n >= q.Floor + 1;
  }

  lemma {:induction false} GapsScale(a: real, b: real, q: real, u: real)
    requires u > 0.0 && Gap(a, q) <= Gap(b, q)
    ensures Gap(a * u, q * u) <= Gap(b * u, q * u)
  {
    GapScales(a, q, u);
    GapScales(b, q, u);
    Larger(Gap(a, q), Gap(b, q), u);
  }

  lemma {:induction false} GapScales(a: real, b: real, u: real)
    requires u > 0.0
    ensures Gap(a * u, b * u) == Gap(a, b) * u
  {
    if a < b {
      Smaller(a, b, u);
      assert (b - a) * u == b * u - a * u;
    } else {
      Larger(b, a, u);
      assert (a - b) * u == a * u - b * u;
    }
  }

  lemma {:induction false} FewUnits(x: real, u: real)
    requires u > 0.0 && x < DIGITS as real * u
    ensures Units(x, u) == HalfToEven(x / u)
  {
    var q := x / u;
    assert q * u == x;
    if q >= DIGITS as real {
      Larger(DIGITS as real, q, u);
    }
    IntegerStays(DIGITS);
    RoundsInOrder(q, DIGITS as real);
  }

  /** No multiple of the unit is closer. */
  lemma {:induction false} WholeIsClosest(x: real, n: int, u: real, y: real)
    requires u > 0.0 && x < DIGITS as real * u && y == n as real * u
    ensures Gap(Whole(x, u), x) <= Gap(y, x)
  {
    var q := x / u;
    assert q * u == x;
    FewUnits(x, u);
    ClosestInteger(q, n);
    GapsScale(HalfToEven(q) as real, n as real, q, u);
  }

  /** Numbers with smaller units lie below the range, whose start is a multiple. */
  lemma {:induction false} StartIsCloser(x: real, y: real, u: real, v: real)
    requires u > 0.0 && u == 2.0 * v && y <= DIGITS as real * v <= x < DIGITS as real * u
    ensures Gap(Whole(x, u), x) <= Gap(y, x)
  {
    WholeIsClosest(x, 0x80_0000, u, DIGITS as real * v);
  }

  lemma {:induction false} CloserThanBigger(x: real, m: nat, k: nat, w: real, u: real, y: real)
    requires u > 0.0 && x < DIGITS as real * u && w == k as real * u && y == m as real * w
    ensures Gap(Whole(x, u), x) <= Gap(y, x)
  {
    Product(m, k, u);
    WholeIsClosest(x, m * k, u, y);
  }

  lemma {:induction false} CloserThanSmaller(x: real, m: nat, w: real, v: real, u: real, y: real)
    requires u > 0.0 && u == 2.0 * v && 0.0 < w <= v && DIGITS as real * v <= x < DIGITS as real * u
    requires m < DIGITS && y == m as real * w
    ensures Gap(Whole(x, u), x) <= Gap(y, x)
  {
    InRange(y, m, w);
    Larger(w, v, DIGITS as real);
    StartIsCloser(x, y, u, v);
  }

  lemma {:induction false} ClosestInRange(x: real, m: nat, g: nat, e: nat, y: real, w: real, u: real)
    requires x < DIGITS as real * Unit(TOP) && m < DIGITS && 1 <= g <= TOP && e == ExponentFrom(x, 1)
    requires w == Unit(g) && u == Unit(e) && y == m as real * w
    ensures Gap(Whole(x, u), x) <= Gap(y, x)
  {
    StopsBy(x, 1, TOP);
    if e <= g {
      var k := UnitPower(e, g, u);
      CloserThanBigger(x, m, k, w, u, y);
    } else {
      var v := RangeStart(x, g, e);
      CloserThanSmaller(x, m, w, v, u, y);
    }
  }

  /** No float is closer to a number within their range than what it is rounded to. */
  lemma {:induction false} ToFloat32IsClosest(x: real, p: Parts)
    requires PartsOk(p, SINGLE) && WithSign(x < 0.0, x) < DIGITS as real * Unit(TOP)
    ensures Gap(ToFloat32(x), x) <= Gap(PartsValue(p, SINGLE), x)
  {
    var a := WithSign(x < 0.0, x);
    var m, e, b, w := PartsScaled(p);
    var u := Unit(ExponentFrom(a, 1));
    NearestIs(a, u);
    ClosestInRange(a, m, e, ExponentFrom(a, 1), b, w, u);
    ClosestInRange(a, 0, e, ExponentFrom(a, 1), 0.0, w, u);
    Mirrored(x, PartsValue(p, SINGLE), a, b, Nearest(a));
  }

  lemma {:induction false} Mirrored(x: real, y: real, a: real, b: real, n: real)
    requires a == WithSign(x < 0.0, x) && b >= 0.0 && (y == b || y == -b)
    requires Gap(n, a) <= Gap(b, a) && Gap(n, a) <= Gap(0.0, a)
    ensures Gap(WithSign(x < 0.0, n), x) <= Gap(y, x)
  {
  }

  // ------------------------------------------------------------------ integers

  lemma {:induction false} UnitIsOne()
    ensures Unit(150) == 1.0 && Unit(151) == 2.0
  {
    UnitIsScaled(150);
  }

  /** So does every integer of at most 24 bits. */
  lemma {:induction false} IntegersStay(i: int)
    requires -DIGITS < i < DIGITS
    ensures ToFloat32(i as real) == i as real
  {
    var m := if i < 0 then -i else i;
    UnitIsOne();
    FewDigitsStay(m as real, m, 150, 1.0);
    StaysWithSign(m as real, i as real);
  }

  /** Other integers become integers. */
  lemma {:induction false} IntegersStayWhole(i: int)
    ensures ToFloat32(i as real) == ToFloat32(i as real).Floor as real
  {
    if -DIGITS < i < DIGITS {
      IntegersStay(i);
    } else {
      var m := if i < 0 then -i else i;
      var n := LargeIntegers(m as real);
      assert WithSign(i as real < 0.0, i as real) == m as real;
      assert ToFloat32(i as real) == (if i < 0 then -n else n) as real;
    }
  }

  /** From 2^24 on the unit is an integer. */
  lemma {:induction false} LargeIntegers(x: real) returns (n: int)
    requires x >= DIGITS as real
    ensures Nearest(x) == n as real
  {
    var k, u := LargeUnit(x, ExponentFrom(x, 1));
    NearestIs(x, u);
    n := WholeMultiple(x, k, u, Units(x, u));
  }

  lemma {:induction false} WholeMultiple(x: real, k: nat, u: real, units: int) returns (n: int)
    requires u > 0.0 && u == k as real && units == Units(x, u)
    ensures Whole(x, u) == n as real
  {
    n := units * k;
    Multiple(units, k, u);
  }

  lemma {:induction false} LargeUnit(x: real, e: nat) returns (k: nat, u: real)
    requires x >= DIGITS as real && e == ExponentFrom(x, 1)
    ensures u == Unit(e) == k as real
  {
    UnitIsOne();
    if e < 150 {
      UnitGrows(e, 150);
    }
    u := Unit(e);
    k := UnitPower(150, e, 1.0);
  }

  lemma {:induction false} Multiple(n: int, k: nat, u: real)
    requires u == k as real
    ensures n as real * u == (n * k) as real
  {
    assert (n * k) as real == n as real * k as real;
  }

  /** 16777216.01 becomes 16777216. */
  lemma {:induction false} HundredthLost()
    ensures ToFloat32(16777216.01) == 16777216.0 == ToFloat32(16777216.0)
  {
    UnitIsOne();
    AtExponent151(16777216.01);
    AtExponent151(16777216.0);
    assert 16777216.01 / 2.0 == 8388608.005;
  }

  lemma {:induction false} HalfIs(m: nat, q: real)
    requires q == m as real + 0.5
    ensures HalfToEven(q) == if m % 2 == 0 then m else m + 1
  {
    assert q.Floor == m;
  }

  /** An odd integer of 25 bits, halfway between two 32-bit floats, becomes the one
      that is a multiple of 4. */
  lemma {:induction false} HalvesToEven(m: nat, x: real)
    requires 8388608 <= m < 16777216 && x == 2.0 * m as real + 1.0
    ensures ToFloat32(x) == 2.0 * (if m % 2 == 0 then m else m + 1) as real
  {
    AtExponent151(x);
    HalfIs(m, x / 2.0);
  }

  lemma {:induction false} AtExponent151(x: real)
    requires 16777216.0 <= x < 33554432.0
    ensures Unit(151) == 2.0 && Nearest(x) == Whole(x, 2.0)
  {
    UnitIsOne();
    StopsBy(x, 1, 151);
    var e := ExponentFrom(x, 1);
    if e <= 150 {
      UnitGrows(e, 150);
    }
  }
}
