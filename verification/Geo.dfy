/** Angles and UTM zones, over the reals. */
module Geo {

  function Abs(x: real): real {
    if x < 0.0 then -x else x
  }

  // ----- fmod and the remainder -----

  /** Rounding toward zero, as in fmod and in conversions to int. */
  function Trunc(q: real): int {
    if q >= 0.0 then q.Floor else -(-q).Floor
  }

  function Fmod(x: real, y: real): real
    requires y > 0.0
  {
    x - y * (Trunc(x / y) as real)
  }

  /** The nearest integer, ties to even. */
  function RoundEven(q: real): int {
    var n := q.Floor;
    var f := q - n as real;
    if f < 0.5 || (f == 0.5 && n % 2 == 0) then n else n + 1
  }

  /** remainder(x, y) of section 5.3.1 of IEEE 754-2008: x less the nearest multiple of y. */
  function Remainder(x: real, y: real): real
    requires y > 0.0
  {
    x - y * (RoundEven(x / y) as real)
  }

  /** z is y times f, so comparing 2|z| with y is comparing 2|f| with one. */
  lemma Scaled(y: real, f: real, z: real)
    requires y > 0.0 && z == y * f
    ensures 2.0 * Abs(z) == y <==> 2.0 * Abs(f) == 1.0
    ensures 2.0 * Abs(z) > y <==> 2.0 * Abs(f) > 1.0
    ensures z == 0.0 <==> f == 0.0
    ensures z < 0.0 <==> f < 0.0
  {
    Product(y, Abs(f));
    Product(y, 2.0 * Abs(f) - 1.0);
    SignOfProduct(y, f);
    assert Abs(z) == y * Abs(f) by {
      if f < 0.0 {
        assert y * f < 0.0;
        assert y * (-f) == -(y * f);
      }
    }
    assert y * (2.0 * Abs(f) - 1.0) == 2.0 * (y * Abs(f)) - y;
  }

  lemma Product(y: real, g: real)
    requires y > 0.0
    ensures y * g == 0.0 <==> g == 0.0
    ensures y * g > 0.0 <==> g > 0.0
  {
    if g < 0.0 {
      assert y * g < 0.0;
    }
  }

  lemma SignOfProduct(y: real, f: real)
    requires y > 0.0
    ensures y * f < 0.0 <==> f < 0.0
    ensures y * f == 0.0 <==> f == 0.0
  {
    Product(y, f);
  }

  /** The quotient's fractional part and its behaviour when the divisor is doubled. */
  lemma FmodParts(x: real, y: real)
    requires y > 0.0
    ensures var q := x / y;
      && Fmod(x, y) == y * (q - Trunc(q) as real)
      && Fmod(x, 2.0 * y) == y * (q - 2.0 * (Trunc(q / 2.0) as real))
  {
    var q := x / y;
    assert x == y * q;
    HalfQuotient(x, y);
    var t, t2 := Trunc(q) as real, Trunc(q / 2.0) as real;
    Distribute(y, q, t);
    Distribute(y, q, 2.0 * t2);
    assert 2.0 * y * t2 == y * (2.0 * t2);
  }

  lemma Distribute(y: real, a: real, b: real)
    ensures y * a - y * b == y * (a - b)
  {
  }

  lemma HalfQuotient(x: real, y: real)
    requires y > 0.0
    ensures x / (2.0 * y) == (x / y) / 2.0
  {
    var q := x / y;
    assert x == y * q;
    assert x == (2.0 * y) * (q / 2.0);
    DivideBack(2.0 * y, q / 2.0, x);
  }

  lemma DivideBack(y: real, q: real, x: real)
    requires y > 0.0 && x == y * q
    ensures x / y == q
  {
    var d := x / y;
    assert y * d == x;
    assert y * (d - q) == 0.0;
    Product(y, d - q);
  }

  /** What the branches of remainderx add up to, in units of y. */
  function Folded(q: real): real {
    var f := q - Trunc(q) as real;
    if f == 0.0 then 0.0
    else if 2.0 * Abs(f) == 1.0 then f - ((q - 2.0 * (Trunc(q / 2.0) as real)) - f)
    else if 2.0 * Abs(f) > 1.0 then f + (if f < 0.0 then 1.0 else -1.0)
    else f
  }

  lemma FoldedIsRounded(q: real)
    ensures Folded(q) == q - RoundEven(q) as real
  {
    var n := q.Floor;
    var f := q - n as real;
    if q >= 0.0 {
      HalfFloor(q, n);
    } else {
      var m := (-q).Floor;
      HalfFloor(-q, m);
      if q == n as real {
        assert m == -n;
      } else {
        assert m == -n - 1;
      }
    }
  }

  lemma HalfFloor(q: real, n: int)
    requires q >= 0.0 && n == q.Floor
    ensures (q / 2.0).Floor == n / 2
  {
    var h := n / 2;
    assert h as real <= q / 2.0 < (h + 1) as real;
  }

  lemma FoldOnce(y: real, f: real)
    ensures y * f + y == y * (f + 1.0) && y * f - y == y * (f - 1.0)
  {
  }

  lemma FoldTie(y: real, f: real, w: real)
    ensures y * f - (y * w - y * f) == y * (f - (w - f))
  {
  }

  method RemainderX(x: real, y0: real) returns (z: real)
    requires y0 != 0.0
    ensures z == Remainder(x, Abs(y0))
  {
    hide Trunc, RoundEven, Abs, Fmod, Remainder;
    AbsPositive(y0);
    var y := Abs(y0);
    ghost var q := x / y;
    ghost var f, w := q - Trunc(q) as real, q - 2.0 * (Trunc(q / 2.0) as real);
    FmodParts(x, y);
    FoldOnce(y, f);
    FoldTie(y, f, w);
    z := Fmod(x, y);
    assert z == y * f;
    Scaled(y, f, z);
    ghost var g := Folded(q);
    if z == 0.0 {
      // the sign of a zero is not modelled
      assert g == 0.0 && z == y * g;
    } else if 2.0 * Abs(z) == y {
      z := z - (Fmod(x, 2.0 * y) - z);
      assert g == f - (w - f) && z == y * g;
    } else if 2.0 * Abs(z) > y {
      assert g == f + (if z < 0.0 then 1.0 else -1.0);
      z := z + (if z < 0.0 then y else -y);
      assert z == y * g;
    } else {
      assert g == f && z == y * g;
    }
    FoldedIsRounded(q);
    RemainderQuotient(x, y);
  }

  lemma AbsPositive(y: real)
    requires y != 0.0
    ensures Abs(y) > 0.0
  {
  }

  lemma RemainderQuotient(x: real, y: real)
    requires y > 0.0
    ensures Remainder(x, y) == y * (x / y - RoundEven(x / y) as real)
  {
    hide RoundEven;
    var q := x / y;
    assert x == y * q;
    Distribute(y, q, RoundEven(q) as real);
  }

  /** The remainder differs from x by a multiple n of y, is at most half of y in size, and n is
      even when it is exactly half. */
  lemma RemainderNearest(x: real, y: real) returns (n: int)
    requires y > 0.0
    ensures x == y * (n as real) + Remainder(x, y)
    ensures 2.0 * Abs(Remainder(x, y)) <= y
    ensures 2.0 * Abs(Remainder(x, y)) == y ==> n % 2 == 0
  {
    hide Remainder, Abs, RoundEven;
    var q := x / y;
    n := RoundEven(q);
    RemainderQuotient(x, y);
    var f := q - n as real;
    Scaled(y, f, Remainder(x, y));
    RoundEvenNear(q);
    RemainderDefinition(x, y);
  }

  lemma RemainderDefinition(x: real, y: real)
    requires y > 0.0
    ensures x == y * (RoundEven(x / y) as real) + Remainder(x, y)
  {
    hide RoundEven;
  }

  lemma RoundEvenNear(q: real)
    ensures var f := q - RoundEven(q) as real;
      2.0 * Abs(f) <= 1.0 && (2.0 * Abs(f) == 1.0 ==> RoundEven(q) % 2 == 0)
  {
  }

  // ----- angles -----

  /** The angle in (-180, 180] that differs from x by whole turns. */
  ghost predicate IsNormal(x: real, a: real) {
    -180.0 < a <= 180.0 && exists k: int :: Turns(x, a, k)
  }

  ghost predicate Turns(x: real, a: real, k: int) {
    x == a + 360.0 * (k as real)
  }

  method AngNormalize(x0: real) returns (a: real)
    ensures a == Normalized(x0)
  {
    var x := RemainderX(x0, 360.0);
    return if x != -180.0 then x else 180.0;
  }

  function Normalized(x: real): real {
    var r := Remainder(x, 360.0);
    if r != -180.0 then r else 180.0
  }

  lemma NormalizedIsNormal(x: real)
    ensures IsNormal(x, Normalized(x))
  {
    hide Remainder;
    var n := RemainderNearest(x, 360.0);
    if Remainder(x, 360.0) == -180.0 {
      assert Turns(x, 180.0, n - 1);
    } else {
      assert Turns(x, Remainder(x, 360.0), n);
    }
  }

  lemma NormalUnique(x: real, a: real, b: real)
    requires IsNormal(x, a) && IsNormal(x, b)
    ensures a == b
  {
    var j: int :| Turns(x, a, j);
    var k: int :| Turns(x, b, k);
    assert a - b == 360.0 * ((k - j) as real);
  }

  /** Whole turns make no difference. */
  lemma NormalizedPeriodic(x: real, turns: int)
    ensures Normalized(x + 360.0 * (turns as real)) == Normalized(x)
  {
    hide Normalized;
    var y := x + 360.0 * (turns as real);
    NormalizedIsNormal(x);
    NormalizedIsNormal(y);
    var a := Normalized(x);
    var k: int :| Turns(x, a, k);
    assert Turns(y, a, k + turns);
    NormalUnique(y, a, Normalized(y));
  }

  // ----- UTM zones -----

  /** Division of ints, which rounds toward zero. */
  function IntDiv(a: int, b: int): int
    requires b > 0
  {
    if a >= 0 then a / b else -(-a / b)
  }

  function LatitudeBand(latitude: real): (band: int)
    ensures -10 <= band <= 9
    ensures -80.0 <= latitude < 80.0 ==> (8 * band) as real <= latitude < (8 * band + 8) as real
    ensures latitude < -80.0 ==> band == -10
    ensures latitude >= 80.0 ==> band == 9
  {
    var ilat := latitude.Floor;
    var b := IntDiv(ilat + 80, 8) - 10;
    var low := if b < 9 then b else 9;
    if low > -10 then low else -10
  }

  /** The longitude in [-180, 180). */
  function Wrapped(longitude: real): real {
    var a := Normalized(longitude);
    if a == 180.0 then -180.0 else a
  }

  /** The six-degree strip of a longitude. */
  function Strip(longitude: real): int {
    (Wrapped(longitude).Floor + 180) / 6 + 1
  }

  predicate Norway(latitude: real, longitude: real) {
    56.0 <= latitude < 64.0 && 3.0 <= Wrapped(longitude) < 6.0
  }

  predicate Svalbard(latitude: real, longitude: real) {
    latitude >= 72.0 && 0.0 <= Wrapped(longitude) < 42.0
  }

  /** The zone by the published map: the strip, but 32 in the south-west of Norway and the four
      wide zones of Svalbard. */
  function Zone(latitude: real, longitude: real): int {
    if Norway(latitude, longitude) then 32
    else if Svalbard(latitude, longitude) then
      if Wrapped(longitude) < 9.0 then 31
      else if Wrapped(longitude) < 21.0 then 33
      else if Wrapped(longitude) < 33.0 then 35 else 37
    else Strip(longitude)
  }

  method StandardUtmZone(latitude: real, longitude: real) returns (zone: int)
    ensures zone == Zone(latitude, longitude)
  {
    hide Normalized;
    NormalizedRange(longitude);
    var a := AngNormalize(longitude);
    var ilon := a.Floor;
    if ilon == 180 {
      ilon := -180;
    }
    assert ilon == Wrapped(longitude).Floor;
    zone := IntDiv(ilon + 186, 6);
    var band := LatitudeBand(latitude);
    if band == 7 && zone == 31 && ilon >= 3 {
      zone := 32;
    } else if band == 9 && ilon >= 0 && ilon < 42 {
      zone := 2 * IntDiv(ilon + 183, 12) + 1;
    }
  }

  lemma NormalizedRange(x: real)
    ensures -180.0 < Normalized(x) <= 180.0 && -180.0 <= Wrapped(x) < 180.0
  {
    hide Remainder;
    NormalizedIsNormal(x);
  }

  /** The published map, for a longitude a in [-180, 180) and any whole turns: 32 over the south
      of Norway up to 12 degrees east, the wide zones 31, 33, 35 and 37 north of 72 degrees, and
      everywhere else the six-degree strip that contains a. */
  lemma ZoneByMap(latitude: real, a: real, turns: int)
    requires -180.0 <= a < 180.0
    ensures var zone := Zone(latitude, a + 360.0 * (turns as real));
      if 56.0 <= latitude < 64.0 && 3.0 <= a < 12.0 then zone == 32
      else if latitude >= 72.0 && 0.0 <= a < 9.0 then zone == 31
      else if latitude >= 72.0 && 9.0 <= a < 21.0 then zone == 33
      else if latitude >= 72.0 && 21.0 <= a < 33.0 then zone == 35
      else if latitude >= 72.0 && 33.0 <= a < 42.0 then zone == 37
      else (-180 + 6 * (zone - 1)) as real <= a < (-180 + 6 * zone) as real
  {
    hide Normalized;
    WrappedIs(a, turns);
  }

  lemma WrappedIs(a: real, turns: int)
    requires -180.0 <= a < 180.0
    ensures Wrapped(a + 360.0 * (turns as real)) == a
  {
    hide Normalized;
    NormalizedPeriodic(a, turns);
    NormalizedIsNormal(a);
    if a == -180.0 {
      assert Turns(a, 180.0, -1);
      NormalUnique(a, 180.0, Normalized(a));
    } else {
      assert Turns(a, a, 0);
      NormalUnique(a, a, Normalized(a));
    }
  }

  /** Every point has a zone in 1..60, the same one a whole turn further; outside Norway and
      Svalbard it is the strip that contains the longitude, and inside them at most one off. */
  lemma ZoneLaws(latitude: real, longitude: real, turns: int)
    ensures var zone := Zone(latitude, longitude);
      && 1 <= zone <= 60
      && Zone(latitude, longitude + 360.0 * (turns as real)) == zone
      && (-180 + 6 * (Strip(longitude) - 1)) as real <= Wrapped(longitude) < (-180 + 6 * Strip(longitude)) as real
      && (!Norway(latitude, longitude) && !Svalbard(latitude, longitude) ==> zone == Strip(longitude))
      && -1 <= zone - Strip(longitude) <= 1
  {
    hide Normalized;
    NormalizedRange(longitude);
    NormalizedPeriodic(longitude, turns);
  }
}
