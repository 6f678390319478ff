/** Colour operators: white balance, hue rotation and vibrance, plus the three
    basic adjustments that hand the raster to the image library (`brighten`,
    `adjust_contrast`, `huerotate`), which appear here as function parameters. */
module Color {
  import opened Numeric
  import opened Raster

  /** The image library's own operators, outside this model. */
  datatype Library = Library(
    brighten: (Image, int) -> Image,
    contrast: (Image, real) -> Image,
    huerotate: (Image, int) -> Image)

  /** The library keeps a well-formed raster well-formed. */
  ghost predicate KeepsValid(lib: Library)
  {
    && (forall i, v :: Valid(i) ==> Valid(lib.brighten(i, v)))
    && (forall i, v :: Valid(i) ==> Valid(lib.contrast(i, v)))
    && (forall i, v :: Valid(i) ==> Valid(lib.huerotate(i, v)))
  }

  /** The library leaves a raster alone at the neutral value. */
  ghost predicate NeutralAtZero(lib: Library)
  {
    && (forall i :: lib.brighten(i, 0) == i)
    && (forall i :: lib.contrast(i, 0.0) == i)
    && (forall i :: lib.huerotate(i, 0) == i)
  }

  // ----------------------------------------------------- library delegates

  /** `adjust_brightness`: the library's `brighten` with the integer value. */
  function AdjustBrightness(img: Image, value: int, brighten: (Image, int) -> Image): (out: Image)
  {
    brighten(img, value)
  }

  /** `adjust_contrast`: the library's contrast adjustment with the value as is. */
  function AdjustContrast(img: Image, value: real, contrast: (Image, real) -> Image): (out: Image)
  {
    contrast(img, value)
  }

  /** `adjust_saturation`: despite its name it rotates hue, by the value
      truncated toward zero to an integer number of degrees; `as i32`
      saturates values beyond the 32-bit range. */
  function AdjustSaturation(img: Image, value: real, huerotate: (Image, int) -> Image): (out: Image)
    ensures -1.0 < value < 1.0 ==> out == huerotate(img, 0)
    ensures 0.0 <= value < 2147483648.0 ==>
              exists n: int :: 0 <= n && n as real <= value < n as real + 1.0 && out == huerotate(img, n)
    ensures -2147483649.0 < value < 0.0 ==>
              exists n: int :: n <= 0 && n as real - 1.0 < value <= n as real && out == huerotate(img, n)
    ensures value >= 2147483648.0 ==> out == huerotate(img, 2147483647)
    ensures value <= -2147483649.0 ==> out == huerotate(img, -2147483648)
  {
    huerotate(img, CastI32(value))
  }

  // ---------------------------------------------------------- white balance

  /** Adds a real offset to a channel and writes it back clamped to [0, 255]
      and truncated. */
  function ShiftChannel(v: Byte, offset: real): Byte
  {
    AsU8(Clamp(v as real + offset, 0.0, 255.0))
  }

  /** The colour-temperature shift of one pixel for `factor = value / 100`:
      warming adds to red and green and takes from blue, cooling the reverse
      with different weights. */
  function WhiteBalancePixel(p: Rgb, factor: real): Rgb
  {
    if factor > 0.0 then
      Rgb(ShiftChannel(p.r, 50.0 * factor), ShiftChannel(p.g, 20.0 * factor), ShiftChannel(p.b, -(40.0 * factor)))
    else
      var a := Abs(factor);
      Rgb(ShiftChannel(p.r, -(40.0 * a)), ShiftChannel(p.g, -(10.0 * a)), ShiftChannel(p.b, 50.0 * a))
  }

  /** `adjust_white_balance`: value 0 returns the input; otherwise every pixel
      is shifted on its own. */
  function AdjustWhiteBalance(img: Image, value: real): (out: Image)
    requires Valid(img)
    ensures Valid(out) && SameSize(out, img)
    ensures value == 0.0 ==> out == img
    ensures value != 0.0 ==>
              forall y, x :: 0 <= y < img.height && 0 <= x < img.width ==>
                out.rows[y][x] == WhiteBalancePixel(img.rows[y][x], value / 100.0)
  {
    if value == 0.0 then img
    else MapPixels(img, (p: Rgb) => WhiteBalancePixel(p, value / 100.0))
  }

  /** A channel shift equals integer addition of the offset's floor followed
      by saturation: the fractional part of the offset is always lost. */
  lemma ShiftChannelIsIntegerShift(v: Byte, offset: real)
    ensures ShiftChannel(v, offset) == SaturateByte(v + offset.Floor)
  {
    var t := v as real + offset;
    assert t.Floor == v + offset.Floor;
  }

  lemma ShiftChannelDirection(v: Byte, offset: real)
    ensures offset >= 0.0 ==> ShiftChannel(v, offset) >= v
    ensures offset <= 0.0 ==> ShiftChannel(v, offset) <= v
  {
    ShiftChannelIsIntegerShift(v, offset);
  }

  /** Warming never lowers red or green and never raises blue; cooling never
      raises red or green and never lowers blue. */
  lemma WhiteBalanceDirection(p: Rgb, value: real)
    ensures value > 0.0 ==> var q := WhiteBalancePixel(p, value / 100.0);
              q.r >= p.r && q.g >= p.g && q.b <= p.b
    ensures value < 0.0 ==> var q := WhiteBalancePixel(p, value / 100.0);
              q.r <= p.r && q.g <= p.g && q.b >= p.b
  {
    var f := value / 100.0;
    var a := Abs(f);
    ShiftChannelDirection(p.r, 50.0 * f);
    ShiftChannelDirection(p.g, 20.0 * f);
    ShiftChannelDirection(p.b, -(40.0 * f));
    ShiftChannelDirection(p.r, -(40.0 * a));
    ShiftChannelDirection(p.g, -(10.0 * a));
    ShiftChannelDirection(p.b, 50.0 * a);
  }

  /** Full warming (value 100) in integer terms: red +50 and green +20
      saturating at 255, blue -40 saturating at 0. */
  lemma FullWarmth(p: Rgb)
    ensures WhiteBalancePixel(p, 100.0 / 100.0)
            == Rgb(SaturateByte(p.r + 50), SaturateByte(p.g + 20), SaturateByte(p.b - 40))
  {
    ShiftChannelIsIntegerShift(p.r, 50.0);
    ShiftChannelIsIntegerShift(p.g, 20.0);
    ShiftChannelIsIntegerShift(p.b, -40.0);
  }

  // -------------------------------------------------------------------- HSV

  function Max3(r: real, g: real, b: real): real { Max(r, Max(g, b)) }

  function Min3(r: real, g: real, b: real): real { Min(r, Min(g, b)) }

  /** The hue in degrees of a normalised colour, as the operators compute it:
      sextant formulas with the truncated remainder for the red sextant, then
      one turn added to a negative result; 0 for a grey. */
  function HsvHue(r: real, g: real, b: real): real
  {
    var mx := Max3(r, g, b);
    var delta := mx - Min3(r, g, b);
    var h :=
      if delta == 0.0 then 0.0
      else if mx == r then 60.0 * FRem((g - b) / delta, 6.0)
      else if mx == g then 60.0 * ((b - r) / delta + 2.0)
      else 60.0 * ((r - g) / delta + 4.0);
    if h < 0.0 then h + 360.0 else h
  }

  /** Back from hue, saturation and value to bytes, each channel clamped to
      [0, 255] and truncated. */
  function HsvToRgb(h: real, s: real, v: real): Rgb
  {
    var c := v * s;
    var x := c * (1.0 - Abs(FRem(h / 60.0, 2.0) - 1.0));
    var m := v - c;
    var rgb :=
      if h < 60.0 then (c, x, 0.0)
      else if h < 120.0 then (x, c, 0.0)
      else if h < 180.0 then (0.0, c, x)
      else if h < 240.0 then (0.0, x, c)
      else if h < 300.0 then (x, 0.0, c)
      else (c, 0.0, x);
    Rgb(AsU8(Clamp((rgb.0 + m) * 255.0, 0.0, 255.0)),
        AsU8(Clamp((rgb.1 + m) * 255.0, 0.0, 255.0)),
        AsU8(Clamp((rgb.2 + m) * 255.0, 0.0, 255.0)))
  }

  // -------------------------------------------------------------------- hue

  /** The shift brought into [0, 360) by two truncated remainders. */
  function NormalizeShift(shift: real): (h: real)
    ensures 0.0 <= h < 360.0
  {
    FRem(FRem(shift, 360.0) + 360.0, 360.0)
  }

  /** Within one turn either side of zero the normalised shift is the shift
      itself, or one turn more for a negative shift. */
  lemma NormalizeShiftWithinOneTurn(shift: real)
    requires -360.0 < shift < 360.0
    ensures shift >= 0.0 ==> NormalizeShift(shift) == shift
    ensures shift < 0.0 ==> NormalizeShift(shift) == shift + 360.0
  {
    assert FRem(shift, 360.0) == shift;
    if shift >= 0.0 {
      assert FRem(shift + 360.0, 360.0) == shift by {
        FRemShift(shift, 360.0);
      }
    }
  }

  /** Adding one period to a value in [0, y) does not change its remainder. */
  lemma FRemShift(x: real, y: real)
    requires y > 0.0 && 0.0 <= x < y
    ensures FRem(x + y, y) == x
  {
    QuotientBounds(x + y, y);
    QuotientBounds(x, y);
    var q := (x + y) / y;
    assert y * (x / y + 1.0) == x + y;
    CancelPositive(y, q, x / y + 1.0);
    assert Trunc(q) == 1;
  }

  lemma CancelPositive(y: real, a: real, b: real)
    requires y > 0.0 && y * a == y * b
    ensures a == b
  {
    if a < b { ScaleFraction(y, a, a, b); }
    if a > b { ScaleFraction(y, b, b, a); }
  }

  function HuePixel(p: Rgb, hueShift: real): Rgb
  {
    var r := Norm(p.r);
    var g := Norm(p.g);
    var b := Norm(p.b);
    var mx := Max3(r, g, b);
    var delta := mx - Min3(r, g, b);
    var s := if mx == 0.0 then 0.0 else delta / mx;
    var h := FRem(HsvHue(r, g, b) + hueShift, 360.0);
    HsvToRgb(h, s, mx)
  }

  /** `adjust_hue`: shift 0 returns the input; otherwise every pixel's hue is
      turned by the normalised shift. */
  function AdjustHue(img: Image, shift: real): (out: Image)
    requires Valid(img)
    ensures Valid(out) && SameSize(out, img)
    ensures shift == 0.0 ==> out == img
    ensures shift != 0.0 ==>
              forall y, x :: 0 <= y < img.height && 0 <= x < img.width ==>
                out.rows[y][x] == HuePixel(img.rows[y][x], NormalizeShift(shift))
  {
    if shift == 0.0 then img
    else
      var hs := NormalizeShift(shift);
      MapPixels(img, (p: Rgb) => HuePixel(p, hs))
  }

  /** A grey has no hue: every shift leaves it as it was. */
  lemma HueKeepsGray(p: Rgb, hueShift: real)
    requires p.r == p.g == p.b
    ensures HuePixel(p, hueShift) == p
  {
    var v := Norm(p.r);
    assert Max3(v, v, v) == v && Min3(v, v, v) == v;
    var h := FRem(HsvHue(v, v, v) + hueShift, 360.0);
    HsvToRgbOfGray(h, p.r);
  }

  /** Zero saturation gives back the grey of the value. */
  lemma HsvToRgbOfGray(h: real, c: Byte)
    ensures HsvToRgb(h, 0.0, Norm(c)) == Rgb(c, c, c)
  {
    var v := Norm(c);
    assert v * 0.0 == 0.0;
    var x := 0.0 * (1.0 - Abs(FRem(h / 60.0, 2.0) - 1.0));
    assert x == 0.0;
    assert (0.0 + (v - 0.0)) * 255.0 == c as real;
    AsU8OfByte(c);
  }

  // --------------------------------------------------------------- vibrance

  /** The HSV saturation of a colour with positive value. */
  function Saturation(r: real, g: real, b: real): real
    requires 0.0 < Max3(r, g, b)
  {
    (Max3(r, g, b) - Min3(r, g, b)) / Max3(r, g, b)
  }

  /** How strongly vibrance acts on a colour: 0.3 for reddish colours (a
      guard for skin tones) and 1 otherwise, times `1 - sqrt(s)` so that
      saturated colours are damped. The square root is `pow` with exponent
      0.5. */
  function Protection(r: real, g: real, b: real, pow: (real, real) -> real): real
    requires 0.0 < Max3(r, g, b)
  {
    var skin := if r > g && r > b then 0.3 else 1.0;
    skin * (1.0 - pow(Saturation(r, g, b), 0.5))
  }

  /** Moves a saturation toward 1 (toward 0 for a negative adjustment) by the
      adjustment times the remaining room. */
  function SaturationStep(s: real, adjusted: real): real
  {
    Clamp(s + adjusted * (1.0 - s), 0.0, 1.0)
  }

  /** The saturation vibrance aims for. */
  function VibranceSaturation(r: real, g: real, b: real, factor: real,
                              pow: (real, real) -> real): real
    requires 0.0 < Max3(r, g, b)
  {
    SaturationStep(Saturation(r, g, b), factor * Protection(r, g, b, pow))
  }

  /** Only visibly coloured pixels (value above 0, spread above 0.01) are
      adjusted; the rest are left as they were. */
  predicate VibranceTouches(p: Rgb)
  {
    var mx := Max3(Norm(p.r), Norm(p.g), Norm(p.b));
    mx > 0.0 && mx - Min3(Norm(p.r), Norm(p.g), Norm(p.b)) > 0.01
  }

  function VibrancePixel(p: Rgb, factor: real, pow: (real, real) -> real): Rgb
  {
    if VibranceTouches(p) then
      var r := Norm(p.r);
      var g := Norm(p.g);
      var b := Norm(p.b);
      HsvToRgb(HsvHue(r, g, b), VibranceSaturation(r, g, b, factor, pow), Max3(r, g, b))
    else p
  }

  /** `adjust_vibrance`: amount 0 returns the input; otherwise dull pixels are
      left alone and the others get the damped saturation change. */
  function AdjustVibrance(img: Image, amount: real, pow: (real, real) -> real): (out: Image)
    requires Valid(img)
    ensures Valid(out) && SameSize(out, img)
    ensures amount == 0.0 ==> out == img
    ensures forall y, x :: 0 <= y < img.height && 0 <= x < img.width ==>
              !VibranceTouches(img.rows[y][x]) ==> out.rows[y][x] == img.rows[y][x]
    ensures amount != 0.0 ==>
              forall y, x :: 0 <= y < img.height && 0 <= x < img.width ==>
                out.rows[y][x] == VibrancePixel(img.rows[y][x], amount / 100.0, pow)
  {
    if amount == 0.0 then img
    else MapPixels(img, (p: Rgb) => VibrancePixel(p, amount / 100.0, pow))
  }

  /** The saturation of a colour with non-negative channels and positive
      value lies in [0, 1]. */
  lemma SaturationBounds(r: real, g: real, b: real)
    requires 0.0 <= r && 0.0 <= g && 0.0 <= b && 0.0 < Max3(r, g, b)
    ensures 0.0 <= Saturation(r, g, b) <= 1.0
  {
    FractionBounds(Max3(r, g, b) - Min3(r, g, b), Max3(r, g, b));
  }

  lemma ProtectionBounds(r: real, g: real, b: real, pow: (real, real) -> real)
    requires 0.0 <= r && 0.0 <= g && 0.0 <= b && 0.0 < Max3(r, g, b)
    requires PowLaws(pow)
    ensures 0.0 <= Protection(r, g, b, pow) <= 1.0
  {
    SaturationBounds(r, g, b);
    var sq := pow(Saturation(r, g, b), 0.5);
    assert 0.0 <= sq <= 1.0;
    var skin := if r > g && r > b then 0.3 else 1.0;
    ScaleFraction(skin, 1.0 - sq, 0.0, 1.0);
  }

  lemma SaturationStepDirection(s: real, adjusted: real)
    requires 0.0 <= s <= 1.0
    ensures adjusted >= 0.0 ==> SaturationStep(s, adjusted) >= s
    ensures adjusted <= 0.0 ==> SaturationStep(s, adjusted) <= s
  {
    ProductSign(adjusted, 1.0 - s);
  }

  /** A positive vibrance never lowers a colour's saturation and a negative
      one never raises it. */
  lemma VibranceDirection(r: real, g: real, b: real, factor: real, pow: (real, real) -> real)
    requires 0.0 <= r && 0.0 <= g && 0.0 <= b && 0.0 < Max3(r, g, b)
    requires PowLaws(pow)
    ensures factor >= 0.0 ==> VibranceSaturation(r, g, b, factor, pow) >= Saturation(r, g, b)
    ensures factor <= 0.0 ==> VibranceSaturation(r, g, b, factor, pow) <= Saturation(r, g, b)
  {
    ProtectionBounds(r, g, b, pow);
    SaturationBounds(r, g, b);
    ProductSign(factor, Protection(r, g, b, pow));
    SaturationStepDirection(Saturation(r, g, b), factor * Protection(r, g, b, pow));
  }
}
