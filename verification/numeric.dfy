/** Exact-arithmetic stand-ins for the f32 and JavaScript number operations the
    image engine uses. Every f32 value is modelled as a `real`; rounding of the
    machine format is not modelled. */
module Numeric {

  /** An 8-bit channel sample. */
  type Byte = x: int | 0 <= x < 256

  function Min(x: real, y: real): real { if x <= y then x else y }

  function Max(x: real, y: real): real { if x >= y then x else y }

  function Abs(x: real): real { if x < 0.0 then -x else x }

  /** An integer saturated into the range of a byte. */
  function SaturateByte(n: int): (b: Byte)
    ensures 0 <= n < 256 ==> b == n
  {
    if n < 0 then 0 else if n > 255 then 255 else n
  }

  /** `f32::clamp(lo, hi)`. */
  function Clamp(x: real, lo: real, hi: real): (r: real)
    requires lo <= hi
    ensures lo <= r <= hi
    ensures lo <= x <= hi ==> r == x
  {
    if x < lo then lo else if x > hi then hi else x
  }

  /** Rust's saturating `f32 as u8` cast on a non-NaN value: truncation toward
      zero, then saturation at 0 and 255. */
  function AsU8(x: real): (b: Byte)
    ensures 0.0 <= x < 256.0 ==> b as real <= x < b as real + 1.0
    ensures x <= 0.0 ==> b == 0
    ensures x >= 255.0 ==> b == 255
  {
    if x < 0.0 then 0 else if x >= 255.0 then 255 else x.Floor
  }

  lemma AsU8Monotone(x: real, y: real)
    requires x <= y
    ensures AsU8(x) <= AsU8(y)
  {
  }

  lemma AsU8OfByte(v: Byte)
    ensures AsU8(v as real) == v
  {
  }

  /** Rust's `f32::round`: halves are rounded away from zero. */
  function RoundHalfAway(x: real): (n: int)
    ensures Abs(x - n as real) <= 0.5
  {
    if x >= 0.0 then (x + 0.5).Floor else -((-x + 0.5).Floor)
  }

  /** JavaScript's `Math.round`: halves are rounded up. */
  function JsRound(x: real): (n: int)
    ensures x - 0.5 < n as real <= x + 0.5
  {
    (x + 0.5).Floor
  }

  lemma RoundHalfAwayMonotone(x: real, y: real)
    requires x <= y
    ensures RoundHalfAway(x) <= RoundHalfAway(y)
  {
  }

  lemma JsRoundMonotone(x: real, y: real)
    requires x <= y
    ensures JsRound(x) <= JsRound(y)
  {
  }

  /** Truncation toward zero. */
  function Trunc(x: real): (n: int)
    ensures x >= 0.0 ==> 0 <= n && n as real <= x < n as real + 1.0
    ensures x < 0.0 ==> n <= 0 && n as real - 1.0 < x <= n as real
  {
    if x >= 0.0 then x.Floor else -((-x).Floor)
  }

  /** JavaScript's conversion of a number to a signed 32-bit integer, as a
      number reaches a function that takes `i32`: truncate, then wrap. */
  function ToInt32(x: real): (n: int)
    ensures -0x8000_0000 <= n < 0x8000_0000
    ensures -0x8000_0000 as real < x < 0x8000_0000 as real ==> n == Trunc(x)
  {
    var m := Trunc(x) % 0x1_0000_0000;
    if m >= 0x8000_0000 then m - 0x1_0000_0000 else m
  }

  /** Rust's `as i32` on a float: truncation toward zero, saturated at the
      bounds of `i32` rather than wrapped. */
  function CastI32(x: real): (n: int)
    ensures -0x8000_0000 <= n < 0x8000_0000
    ensures -0x8000_0000 as real - 1.0 < x < 0x8000_0000 as real ==> n == Trunc(x)
    ensures x >= 0x8000_0000 as real ==> n == 0x7FFF_FFFF
    ensures x <= -0x8000_0000 as real - 1.0 ==> n == -0x8000_0000
  {
    var t := Trunc(x);
    if t < -0x8000_0000 then -0x8000_0000 else if t > 0x7FFF_FFFF then 0x7FFF_FFFF else t
  }

  /** The saturating cast never reverses order: a larger value never casts
      to a smaller integer. */
  lemma CastI32Monotone(x: real, y: real)
    requires x <= y
    ensures CastI32(x) <= CastI32(y)
  {
  }

  /** A number reaching a `u8` parameter: the 32-bit conversion, then the
      low eight bits. */
  function ToUint8(x: real): (b: Byte)
    ensures 0.0 <= x < 256.0 ==> b == Trunc(x)
  {
    ToInt32(x) % 256
  }

  /** Rust's `%` on floats: the remainder of truncated division, which takes
      the sign of the dividend. */
  function FRem(x: real, y: real): (r: real)
    requires y > 0.0
    ensures x >= 0.0 ==> 0.0 <= r < y
    ensures x < 0.0 ==> -y < r <= 0.0
    ensures -y < x < y ==> r == x
  {
    TruncatedRemainderBounds(x, y);
    x - y * (Trunc(x / y) as real)
  }

  lemma TruncatedRemainderBounds(x: real, y: real)
    requires y > 0.0
    ensures var r := x - y * (Trunc(x / y) as real);
      && (x >= 0.0 ==> 0.0 <= r < y)
      && (x < 0.0 ==> -y < r <= 0.0)
      && (-y < x < y ==> r == x)
  {
    QuotientBounds(x, y);
    var q := x / y;
    var n := Trunc(q) as real;
    var f := q - n;
    Distribute(y, q, n);
    var r := x - y * n;
    assert r == y * f;
    RemainderFromFraction(y, r, f);
    if -y < x < y {
      assert Trunc(q) == 0;
      UnitScale(y);
    }
  }

  /** A positive multiple of a fraction of a unit stays within one multiple. */
  lemma RemainderFromFraction(y: real, r: real, f: real)
    requires y > 0.0 && r == y * f
    ensures 0.0 <= f < 1.0 ==> 0.0 <= r < y
    ensures -1.0 < f <= 0.0 ==> -y < r <= 0.0
  {
    UnitScale(y);
    if 0.0 <= f < 1.0 {
      ScaleFraction(y, f, 0.0, 1.0);
    }
    if -1.0 < f <= 0.0 {
      ScaleFraction(y, f, -1.0, 0.0);
    }
  }

  lemma Distribute(y: real, q: real, n: real)
    ensures y * (q - n) == y * q - y * n
  {
  }

  lemma UnitScale(y: real)
    ensures y * 0.0 == 0.0 && y * 1.0 == y && y * -1.0 == -y
  {
  }

  /** Where the quotient `x / y` lies, for a positive divisor. */
  lemma QuotientBounds(x: real, y: real)
    requires y > 0.0
    ensures x == y * (x / y)
    ensures x >= 0.0 ==> x / y >= 0.0
    ensures x < 0.0 ==> x / y < 0.0
    ensures -y < x < y ==> -1.0 < x / y < 1.0
  {
    var q := x / y;
    assert x == y * q;
    if q < 0.0 && x >= 0.0 { ScaleFraction(y, q, q, 0.0); }
    if q >= 0.0 && x < 0.0 { ScaleFraction(y, q, 0.0, q); }
    if q >= 1.0 && x < y { ScaleFraction(y, 1.0, 1.0, q); }
    if q <= -1.0 && -y < x { ScaleFraction(y, q, q, -1.0); }
  }

  /** A positive scale keeps a value inside a scaled interval. */
  lemma ScaleFraction(y: real, f: real, lo: real, hi: real)
    requires y > 0.0 && lo <= f <= hi
    ensures y * lo <= y * f <= y * hi
    ensures lo <= f < hi ==> y * f < y * hi
    ensures lo < f <= hi ==> y * lo < y * f
  {
  }

  /** A quotient of a part by its positive whole lies in [0, 1]. */
  lemma FractionBounds(a: real, d: real)
    requires d > 0.0 && 0.0 <= a <= d
    ensures 0.0 <= a / d <= 1.0
  {
    QuotientBounds(a, d);
    QuotientBounds(d - a, d);
    assert a / d + (d - a) / d == d / d;
    DivideBySelf(d);
  }

  /** Products of a factor with known sign and a non-negative factor. */
  lemma ProductSign(a: real, b: real)
    requires b >= 0.0
    ensures a >= 0.0 ==> a * b >= 0.0
    ensures a <= 0.0 ==> a * b <= 0.0
  {
  }

  lemma DivideBySelf(t: real)
    requires t > 0.0
    ensures t / t == 1.0
  {
  }

  lemma QuotientMonotone(a: real, b: real, d: real)
    requires d > 0.0 && a <= b
    ensures a / d <= b / d
  {
    QuotientBounds(a, d);
    QuotientBounds(b, d);
    CancelFactor(a, b, d, a / d, b / d);
  }

  /** A positive common factor can be cancelled from an inequality. */
  lemma CancelFactor(a: real, b: real, d: real, x: real, y: real)
    requires d > 0.0 && a <= b && a == d * x && b == d * y
    ensures x <= y
  {
    if x > y {
      ScaleFraction(d, x, y, x);
    }
  }

  lemma ScaleDirection(x: real, m: real)
    requires x >= 0.0
    ensures m >= 1.0 ==> x * m >= x
    ensures m <= 1.0 ==> x * m <= x
  {
    ProductSign(m - 1.0, x);
    assert x * m == x + (m - 1.0) * x;
  }

  /** The laws a real power function `pow(x, e)` obeys on [0, 1] for a positive
      exponent; `powf` is not modelled beyond them. */
  ghost predicate PowLaws(pow: (real, real) -> real)
  {
    && (forall e: real :: e > 0.0 ==> pow(0.0, e) == 0.0)
    && (forall e: real :: e > 0.0 ==> pow(1.0, e) == 1.0)
    && (forall x: real, e: real {:trigger pow(x, e)} ::
          0.0 <= x <= 1.0 && e > 0.0 ==> 0.0 <= pow(x, e) <= 1.0)
    && (forall x: real, y: real, e: real {:trigger pow(x, e), pow(y, e)} ::
          0.0 <= x <= y <= 1.0 && e > 0.0 ==> pow(x, e) <= pow(y, e))
  }

  /** `pow(x, 1) == x`, an extra law used only where a unit exponent matters. */
  ghost predicate PowUnitExponent(pow: (real, real) -> real)
  {
    forall x: real {:trigger pow(x, 1.0)} :: 0.0 <= x <= 1.0 ==> pow(x, 1.0) == x
  }
}
