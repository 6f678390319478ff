/** Tone operators built on lookup tables or luminance masks: levels, curves,
    highlights, shadows and exposure (`adjust_levels`, `adjust_curves`,
    `adjust_highlights`, `adjust_shadows`, `adjust_exposure`). Each checks its
    neutral parameter first and then hands back the input raster unchanged. */
module Tone {
  import opened Numeric
  import opened Raster

  /** Passes the three channels of every pixel through three tables. */
  function ApplyLuts(img: Image, lr: seq<Byte>, lg: seq<Byte>, lb: seq<Byte>): (out: Image)
    requires Valid(img) && |lr| == 256 && |lg| == 256 && |lb| == 256
    ensures Valid(out) && SameSize(out, img)
    ensures forall y, x :: 0 <= y < img.height && 0 <= x < img.width ==>
              var p := img.rows[y][x];
              out.rows[y][x] == Rgb(lr[p.r], lg[p.g], lb[p.b])
  {
    MapPixels(img, (p: Rgb) => Rgb(lr[p.r], lg[p.g], lb[p.b]))
  }

  predicate Monotone(lut: seq<Byte>)
  {
    forall i, j :: 0 <= i <= j < |lut| ==> lut[i] <= lut[j]
  }

  // ---------------------------------------------------------------- levels

  /** The input level of intensity `i`: 0 up to the black point, 1 from the
      white point on, linear in between. */
  function LevelInput(i: nat, black: Byte, white: Byte): (n: real)
    requires black < white
    ensures 0.0 <= n <= 1.0
  {
    if i <= black then 0.0
    else if i >= white then 1.0
    else
      var d := (white - black) as real;
      FractionBounds((i - black) as real, d);
      (i - black) as real / d
  }

  /** The gamma the levels table uses: clamped to [0.1, 3.0]. */
  function ClampGamma(gamma: real): (g: real)
    ensures 0.1 <= g <= 3.0
  {
    Clamp(gamma, 0.1, 3.0)
  }

  /** One entry of the levels table. */
  function LevelsEntry(i: nat, black: Byte, white: Byte, gamma: real,
                       pow: (real, real) -> real): Byte
    requires black < white
  {
    var n := LevelInput(i, black, white);
    var g := ClampGamma(gamma);
    var corrected := if g != 1.0 then pow(n, 1.0 / g) else n;
    AsU8(Clamp(corrected * 255.0, 0.0, 255.0))
  }

  function LevelsLut(black: Byte, white: Byte, gamma: real,
                     pow: (real, real) -> real): (lut: seq<Byte>)
    requires black < white
    ensures |lut| == 256
    ensures forall i :: 0 <= i < 256 ==> lut[i] == LevelsEntry(i, black, white, gamma, pow)
  {
    seq(256, i requires 0 <= i < 256 => LevelsEntry(i, black, white, gamma, pow))
  }

  /** `adjust_levels`: an inverted range (black point not below the white
      point) and the neutral setting (0, 255, 1.0) both return the input;
      otherwise one table is applied to all three channels. */
  function AdjustLevels(img: Image, black: Byte, white: Byte, gamma: real,
                        pow: (real, real) -> real): (out: Image)
    requires Valid(img)
    ensures Valid(out) && SameSize(out, img)
    ensures black >= white ==> out == img
    ensures black == 0 && white == 255 && gamma == 1.0 ==> out == img
    ensures black < white && !(black == 0 && white == 255 && gamma == 1.0) ==>
              forall y, x :: 0 <= y < img.height && 0 <= x < img.width ==>
                var p := img.rows[y][x];
                var lut := LevelsLut(black, white, gamma, pow);
                out.rows[y][x] == Rgb(lut[p.r], lut[p.g], lut[p.b])
  {
    if black >= white then img
    else if black == 0 && white == 255 && gamma == 1.0 then img
    else
      var lut := LevelsLut(black, white, gamma, pow);
      ApplyLuts(img, lut, lut, lut)
  }

  /** The levels table sends everything up to the black point to 0 and
      everything from the white point on to 255, and never decreases. */
  lemma LevelsLutShape(black: Byte, white: Byte, gamma: real, pow: (real, real) -> real)
    requires black < white && PowLaws(pow)
    ensures var lut := LevelsLut(black, white, gamma, pow);
      && (forall i :: 0 <= i <= black ==> lut[i] == 0)
      && (forall i :: white <= i < 256 ==> lut[i] == 255)
      && Monotone(lut)
  {
    var lut := LevelsLut(black, white, gamma, pow);
    var g := ClampGamma(gamma);
    assert 1.0 / g > 0.0;
    forall i, j | 0 <= i <= j < 256
      ensures lut[i] <= lut[j]
    {
      LevelsEntryMonotone(i, j, black, white, gamma, pow);
    }
  }

  lemma LevelInputMonotone(i: nat, j: nat, black: Byte, white: Byte)
    requires black < white && i <= j
    ensures LevelInput(i, black, white) <= LevelInput(j, black, white)
  {
    if black < i <= j < white {
      QuotientMonotone((i - black) as real, (j - black) as real, (white - black) as real);
    }
  }

  lemma LevelsEntryMonotone(i: nat, j: nat, black: Byte, white: Byte, gamma: real,
                            pow: (real, real) -> real)
    requires black < white && i <= j && PowLaws(pow)
    ensures LevelsEntry(i, black, white, gamma, pow) <= LevelsEntry(j, black, white, gamma, pow)
  {
    var ni := LevelInput(i, black, white);
    var nj := LevelInput(j, black, white);
    LevelInputMonotone(i, j, black, white);
    var g := ClampGamma(gamma);
    var ci := if g != 1.0 then pow(ni, 1.0 / g) else ni;
    var cj := if g != 1.0 then pow(nj, 1.0 / g) else nj;
    assert ci <= cj;
    AsU8Monotone(Clamp(ci * 255.0, 0.0, 255.0), Clamp(cj * 255.0, 0.0, 255.0));
  }

  /** The neutral setting's table is the identity, so the early return for it
      does not change the result. */
  lemma LevelsNeutralTableIsIdentity(pow: (real, real) -> real)
    ensures forall i :: 0 <= i < 256 ==> LevelsLut(0, 255, 1.0, pow)[i] == i
  {
    forall i | 0 <= i < 256
      ensures LevelsEntry(i, 0, 255, 1.0, pow) == i
    {
      var n := LevelInput(i, 0, 255);
      assert n * 255.0 == i as real;
      AsU8OfByte(i);
    }
  }

  // ---------------------------------------------------------------- curves

  /** One entry of a curves table: `(i / 255) ^ (1 / gamma)` scaled back to
      255, with the gamma clamped to [0.1, 3.0]. */
  function CurveEntry(i: nat, gamma: real, pow: (real, real) -> real): Byte
  {
    AsU8(Clamp(pow(i as real / 255.0, 1.0 / ClampGamma(gamma)) * 255.0, 0.0, 255.0))
  }

  function CurveLut(gamma: real, pow: (real, real) -> real): (lut: seq<Byte>)
    ensures |lut| == 256
    ensures forall i :: 0 <= i < 256 ==> lut[i] == CurveEntry(i, gamma, pow)
  {
    seq(256, i requires 0 <= i < 256 => CurveEntry(i, gamma, pow))
  }

  /** `adjust_curves`: three gammas of exactly 1.0 return the input; otherwise
      every channel goes through the table of its own gamma. */
  function AdjustCurves(img: Image, redGamma: real, greenGamma: real, blueGamma: real,
                        pow: (real, real) -> real): (out: Image)
    requires Valid(img)
    ensures Valid(out) && SameSize(out, img)
    ensures redGamma == 1.0 && greenGamma == 1.0 && blueGamma == 1.0 ==> out == img
    ensures !(redGamma == 1.0 && greenGamma == 1.0 && blueGamma == 1.0) ==>
              forall y, x :: 0 <= y < img.height && 0 <= x < img.width ==>
                var p := img.rows[y][x];
                out.rows[y][x] == Rgb(CurveEntry(p.r, redGamma, pow),
                                      CurveEntry(p.g, greenGamma, pow),
                                      CurveEntry(p.b, blueGamma, pow))
  {
    if redGamma == 1.0 && greenGamma == 1.0 && blueGamma == 1.0 then img
    else ApplyLuts(img, CurveLut(redGamma, pow), CurveLut(greenGamma, pow), CurveLut(blueGamma, pow))
  }

  /** Every curves table fixes black and white and never decreases. */
  lemma CurveLutShape(gamma: real, pow: (real, real) -> real)
    requires PowLaws(pow)
    ensures var lut := CurveLut(gamma, pow);
      lut[0] == 0 && lut[255] == 255 && Monotone(lut)
  {
    var e := 1.0 / ClampGamma(gamma);
    assert e > 0.0;
    assert CurveEntry(0, gamma, pow) == AsU8(Clamp(pow(0.0, e) * 255.0, 0.0, 255.0));
    assert CurveEntry(255, gamma, pow) == AsU8(Clamp(pow(1.0, e) * 255.0, 0.0, 255.0));
    forall i, j | 0 <= i <= j < 256
      ensures CurveEntry(i, gamma, pow) <= CurveEntry(j, gamma, pow)
    {
      var xi := i as real / 255.0;
      var xj := j as real / 255.0;
      assert 0.0 <= xi <= xj <= 1.0;
      assert pow(xi, e) <= pow(xj, e);
      AsU8Monotone(Clamp(pow(xi, e) * 255.0, 0.0, 255.0), Clamp(pow(xj, e) * 255.0, 0.0, 255.0));
    }
  }

  /** A gamma of 1.0 gives the identity table when `pow(x, 1) == x`, so on the
      adjusting path a channel whose gamma is 1.0 is still left as it was. */
  lemma CurveUnitGammaIsIdentity(pow: (real, real) -> real)
    requires PowUnitExponent(pow)
    ensures forall i :: 0 <= i < 256 ==> CurveLut(1.0, pow)[i] == i
  {
    forall i | 0 <= i < 256
      ensures CurveEntry(i, 1.0, pow) == i
    {
      var x := i as real / 255.0;
      assert pow(x, 1.0) == x;
      assert x * 255.0 == i as real;
      AsU8OfByte(i);
    }
  }

  /** The curves output in one channel depends only on the same channel of
      the input pixel. */
  lemma CurvesChannelsIndependent(img: Image, rg: real, gg: real, bg: real,
                                  pow: (real, real) -> real,
                                  x1: nat, y1: nat, x2: nat, y2: nat, c: Channel)
    requires Valid(img)
    requires x1 < img.width && y1 < img.height && x2 < img.width && y2 < img.height
    requires Sample(img.rows[y1][x1], c) == Sample(img.rows[y2][x2], c)
    ensures Sample(AdjustCurves(img, rg, gg, bg, pow).rows[y1][x1], c)
            == Sample(AdjustCurves(img, rg, gg, bg, pow).rows[y2][x2], c)
  {
  }

  // ------------------------------------------------------ highlights, shadows

  /** Rec. 601 luma of a normalised pixel. */
  function Luminance(r: real, g: real, b: real): real
  {
    0.299 * r + 0.587 * g + 0.114 * b
  }

  function PixelLuminance(p: Rgb): real
  {
    Luminance(Norm(p.r), Norm(p.g), Norm(p.b))
  }

  /** Moves a normalised channel toward white by `adj` of the remaining headroom. */
  function LiftChannel(v: Byte, adj: real): Byte
  {
    var x := Norm(v);
    AsU8(Clamp(x + adj * (1.0 - x), 0.0, 1.0) * 255.0)
  }

  /** Scales a normalised channel by `1 + adj`. */
  function ScaleChannel(v: Byte, adj: real): Byte
  {
    var x := Norm(v);
    AsU8(Clamp(x + adj * x, 0.0, 1.0) * 255.0)
  }

  function LiftPixel(p: Rgb, adj: real): Rgb
  {
    Rgb(LiftChannel(p.r, adj), LiftChannel(p.g, adj), LiftChannel(p.b, adj))
  }

  function ScalePixel(p: Rgb, adj: real): Rgb
  {
    Rgb(ScaleChannel(p.r, adj), ScaleChannel(p.g, adj), ScaleChannel(p.b, adj))
  }

  /** Pixels brighter than luminance 0.7 are lifted toward white by the factor
      times a mask that ramps from 0 at 0.7 to 1 at full brightness. */
  function HighlightPixel(p: Rgb, factor: real): Rgb
  {
    if PixelLuminance(p) > 0.7 then LiftPixel(p, HighlightAdjust(p, factor)) else p
  }

  /** Pixels darker than luminance 0.3 are scaled by the factor times a mask
      that ramps from 1 at black to 0 at 0.3. */
  function ShadowPixel(p: Rgb, factor: real): Rgb
  {
    if PixelLuminance(p) < 0.3 then ScalePixel(p, ShadowAdjust(p, factor)) else p
  }

  /** `adjust_highlights`: amount 0 returns the input; otherwise only pixels
      brighter than luminance 0.7 are touched. */
  function AdjustHighlights(img: Image, amount: real): (out: Image)
    requires Valid(img)
    ensures Valid(out) && SameSize(out, img)
    ensures amount == 0.0 ==> out == img
    ensures forall y, x :: 0 <= y < img.height && 0 <= x < img.width ==>
              PixelLuminance(img.rows[y][x]) <= 0.7 ==> out.rows[y][x] == img.rows[y][x]
    ensures amount != 0.0 ==>
              forall y, x :: 0 <= y < img.height && 0 <= x < img.width ==>
                out.rows[y][x] == HighlightPixel(img.rows[y][x], amount / 100.0)
  {
    if amount == 0.0 then img
    else MapPixels(img, (p: Rgb) => HighlightPixel(p, amount / 100.0))
  }

  /** `adjust_shadows`: amount 0 returns the input; otherwise only pixels
      darker than luminance 0.3 are touched. */
  function AdjustShadows(img: Image, amount: real): (out: Image)
    requires Valid(img)
    ensures Valid(out) && SameSize(out, img)
    ensures amount == 0.0 ==> out == img
    ensures forall y, x :: 0 <= y < img.height && 0 <= x < img.width ==>
              PixelLuminance(img.rows[y][x]) >= 0.3 ==> out.rows[y][x] == img.rows[y][x]
    ensures amount != 0.0 ==>
              forall y, x :: 0 <= y < img.height && 0 <= x < img.width ==>
                out.rows[y][x] == ShadowPixel(img.rows[y][x], amount / 100.0)
  {
    if amount == 0.0 then img
    else MapPixels(img, (p: Rgb) => ShadowPixel(p, amount / 100.0))
  }

  lemma NormScalesBack(v: Byte)
    ensures Norm(v) * 255.0 == v as real
  {
  }

  /** Writing back a normalised value at least (at most) a channel's own gives
      a channel at least (at most) the original. */
  lemma WriteBackDirection(v: Byte, y: real)
    ensures y >= Norm(v) ==> AsU8(y * 255.0) >= v
    ensures y <= Norm(v) ==> AsU8(y * 255.0) <= v
  {
    var x := Norm(v);
    NormScalesBack(v);
    AsU8OfByte(v);
    if y >= x {
      assert y * 255.0 >= x * 255.0;
      AsU8Monotone(x * 255.0, y * 255.0);
    }
    if y <= x {
      assert y * 255.0 <= x * 255.0;
      AsU8Monotone(y * 255.0, x * 255.0);
    }
  }

  /** Clamping to [0, 1] keeps a value on the same side of a point of
      [0, 1]. */
  lemma ClampKeepsDirection(x: real, z: real)
    requires 0.0 <= x <= 1.0
    ensures z >= x ==> Clamp(z, 0.0, 1.0) >= x
    ensures z <= x ==> Clamp(z, 0.0, 1.0) <= x
  {
  }

  /** Moving a point of [0, 1] by `adj` times a non-negative weight and
      clamping goes the way the sign of `adj` says. */
  lemma ClampedShiftDirection(x: real, adj: real, w: real)
    requires 0.0 <= x <= 1.0 && w >= 0.0
    ensures adj >= 0.0 ==> Clamp(x + adj * w, 0.0, 1.0) >= x
    ensures adj <= 0.0 ==> Clamp(x + adj * w, 0.0, 1.0) <= x
  {
    ProductSign(adj, w);
    ClampKeepsDirection(x, x + adj * w);
  }

  /** A non-negative adjustment never darkens a channel and a non-positive one
      never brightens it. */
  lemma LiftChannelDirection(v: Byte, adj: real)
    ensures adj >= 0.0 ==> LiftChannel(v, adj) >= v
    ensures adj <= 0.0 ==> LiftChannel(v, adj) <= v
  {
    var y := Clamp(Norm(v) + adj * (1.0 - Norm(v)), 0.0, 1.0);
    assert LiftChannel(v, adj) == AsU8(y * 255.0);
    ClampedShiftDirection(Norm(v), adj, 1.0 - Norm(v));
    WriteBackDirection(v, y);
  }

  lemma ScaleChannelDirection(v: Byte, adj: real)
    ensures adj >= 0.0 ==> ScaleChannel(v, adj) >= v
    ensures adj <= 0.0 ==> ScaleChannel(v, adj) <= v
  {
    var y := Clamp(Norm(v) + adj * Norm(v), 0.0, 1.0);
    assert ScaleChannel(v, adj) == AsU8(y * 255.0);
    ClampedShiftDirection(Norm(v), adj, Norm(v));
    WriteBackDirection(v, y);
  }

  function HighlightMask(p: Rgb): real
  {
    Clamp((PixelLuminance(p) - 0.7) / 0.3, 0.0, 1.0)
  }

  function ShadowMask(p: Rgb): real
  {
    Clamp(1.0 - PixelLuminance(p) / 0.3, 0.0, 1.0)
  }

  function HighlightAdjust(p: Rgb, factor: real): real
  {
    factor * HighlightMask(p)
  }

  function ShadowAdjust(p: Rgb, factor: real): real
  {
    factor * ShadowMask(p)
  }

  /** The adjustment takes the sign of the factor, since the masks are
      non-negative. */
  lemma AdjustSign(p: Rgb, factor: real)
    ensures factor >= 0.0 ==> HighlightAdjust(p, factor) >= 0.0 && ShadowAdjust(p, factor) >= 0.0
    ensures factor <= 0.0 ==> HighlightAdjust(p, factor) <= 0.0 && ShadowAdjust(p, factor) <= 0.0
  {
    ProductSign(factor, HighlightMask(p));
    ProductSign(factor, ShadowMask(p));
  }

  /** Component-wise order on pixels. */
  predicate Brighter(q: Rgb, p: Rgb)
  {
    q.r >= p.r && q.g >= p.g && q.b >= p.b
  }

  lemma LiftPixelDirection(p: Rgb, adj: real)
    ensures adj >= 0.0 ==> Brighter(LiftPixel(p, adj), p)
    ensures adj <= 0.0 ==> Brighter(p, LiftPixel(p, adj))
  {
    LiftChannelDirection(p.r, adj);
    LiftChannelDirection(p.g, adj);
    LiftChannelDirection(p.b, adj);
  }

  lemma ScalePixelDirection(p: Rgb, adj: real)
    ensures adj >= 0.0 ==> Brighter(ScalePixel(p, adj), p)
    ensures adj <= 0.0 ==> Brighter(p, ScalePixel(p, adj))
  {
    ScaleChannelDirection(p.r, adj);
    ScaleChannelDirection(p.g, adj);
    ScaleChannelDirection(p.b, adj);
  }

  lemma HighlightFollowsAdjust(p: Rgb, factor: real)
    ensures HighlightAdjust(p, factor) >= 0.0 ==> Brighter(HighlightPixel(p, factor), p)
    ensures HighlightAdjust(p, factor) <= 0.0 ==> Brighter(p, HighlightPixel(p, factor))
  {
    LiftPixelDirection(p, HighlightAdjust(p, factor));
  }

  lemma ShadowFollowsAdjust(p: Rgb, factor: real)
    ensures ShadowAdjust(p, factor) >= 0.0 ==> Brighter(ShadowPixel(p, factor), p)
    ensures ShadowAdjust(p, factor) <= 0.0 ==> Brighter(p, ShadowPixel(p, factor))
  {
    ScalePixelDirection(p, ShadowAdjust(p, factor));
  }

  /** A non-negative factor (a non-negative amount) brightens highlights
      channel-wise and a non-positive one darkens them. */
  lemma HighlightsDirection(p: Rgb, factor: real)
    ensures factor >= 0.0 ==> Brighter(HighlightPixel(p, factor), p)
    ensures factor <= 0.0 ==> Brighter(p, HighlightPixel(p, factor))
  {
    AdjustSign(p, factor);
    HighlightFollowsAdjust(p, factor);
  }

  /** The same for shadows. */
  lemma ShadowsDirection(p: Rgb, factor: real)
    ensures factor >= 0.0 ==> Brighter(ShadowPixel(p, factor), p)
    ensures factor <= 0.0 ==> Brighter(p, ShadowPixel(p, factor))
  {
    AdjustSign(p, factor);
    ShadowFollowsAdjust(p, factor);
  }

  // -------------------------------------------------------------- exposure

  /** Multiplies a normalised channel by the exposure multiplier. */
  function ExposeChannel(v: Byte, multiplier: real): Byte
  {
    AsU8(Clamp(Norm(v) * multiplier, 0.0, 1.0) * 255.0)
  }

  /** `adjust_exposure`: zero stops returns the input; otherwise every channel
      is scaled by `exp2(stops)`. The power of two is a parameter. */
  function AdjustExposure(img: Image, stops: real, exp2: real -> real): (out: Image)
    requires Valid(img)
    ensures Valid(out) && SameSize(out, img)
    ensures stops == 0.0 ==> out == img
    ensures stops != 0.0 ==>
              forall y, x :: 0 <= y < img.height && 0 <= x < img.width ==>
                var p := img.rows[y][x];
                var m := exp2(stops);
                out.rows[y][x] == Rgb(ExposeChannel(p.r, m), ExposeChannel(p.g, m), ExposeChannel(p.b, m))
  {
    if stops == 0.0 then img
    else
      var m := exp2(stops);
      MapPixels(img, (p: Rgb) => Rgb(ExposeChannel(p.r, m), ExposeChannel(p.g, m), ExposeChannel(p.b, m)))
  }

  /** A multiplier of at least one never darkens a channel; one in [0, 1]
      never brightens it. */
  lemma ExposeChannelDirection(v: Byte, multiplier: real)
    ensures multiplier >= 1.0 ==> ExposeChannel(v, multiplier) >= v
    ensures 0.0 <= multiplier <= 1.0 ==> ExposeChannel(v, multiplier) <= v
  {
    var y := Clamp(Norm(v) * multiplier, 0.0, 1.0);
    ClampedScaleDirection(Norm(v), multiplier);
    WriteBackDirection(v, y);
  }

  /** Scaling a point of [0, 1] and clamping moves it up for a factor of at
      least one and down for a factor of at most one. */
  lemma ClampedScaleDirection(x: real, m: real)
    requires 0.0 <= x <= 1.0
    ensures m >= 1.0 ==> Clamp(x * m, 0.0, 1.0) >= x
    ensures m <= 1.0 ==> Clamp(x * m, 0.0, 1.0) <= x
  {
    ScaleDirection(x, m);
    ClampKeepsDirection(x, x * m);
  }


}
