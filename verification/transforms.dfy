/** Geometric operators: the lossless quarter-turn rotations and flips, crop,
    the resize guard and the angle snapping and white fill of arbitrary
    rotation. Pixel positions follow the image library's conventions, stated
    here as index formulas. */
module Transforms {
  import opened Numeric
  import opened Raster

  /** A quarter turn clockwise: the pixel at (x, y) moves to (h-1-y, x). */
  function Rotate90(img: Image): (out: Image)
    requires Valid(img)
    ensures Valid(out) && out.width == img.height && out.height == img.width
    ensures forall y, x :: 0 <= y < out.height && 0 <= x < out.width ==>
              out.rows[y][x] == img.rows[img.height - 1 - x][y]
  {
    Image(img.height, img.width,
          seq(img.width, y requires 0 <= y < img.width =>
            seq(img.height, x requires 0 <= x < img.height => img.rows[img.height - 1 - x][y])))
  }

  /** A half turn: the pixel at (x, y) moves to (w-1-x, h-1-y). */
  function Rotate180(img: Image): (out: Image)
    requires Valid(img)
    ensures Valid(out) && SameSize(out, img)
    ensures forall y, x :: 0 <= y < out.height && 0 <= x < out.width ==>
              out.rows[y][x] == img.rows[img.height - 1 - y][img.width - 1 - x]
  {
    Image(img.width, img.height,
          seq(img.height, y requires 0 <= y < img.height =>
            seq(img.width, x requires 0 <= x < img.width =>
              img.rows[img.height - 1 - y][img.width - 1 - x])))
  }

  /** Three quarter turns clockwise: the pixel at (x, y) moves to (y, w-1-x). */
  function Rotate270(img: Image): (out: Image)
    requires Valid(img)
    ensures Valid(out) && out.width == img.height && out.height == img.width
    ensures forall y, x :: 0 <= y < out.height && 0 <= x < out.width ==>
              out.rows[y][x] == img.rows[x][img.width - 1 - y]
  {
    Image(img.height, img.width,
          seq(img.width, y requires 0 <= y < img.width =>
            seq(img.height, x requires 0 <= x < img.height => img.rows[x][img.width - 1 - y])))
  }

  /** `flip_horizontal`: mirror left to right. */
  function FlipHorizontal(img: Image): (out: Image)
    requires Valid(img)
    ensures Valid(out) && SameSize(out, img)
    ensures forall y, x :: 0 <= y < out.height && 0 <= x < out.width ==>
              out.rows[y][x] == img.rows[y][img.width - 1 - x]
  {
    Image(img.width, img.height,
          seq(img.height, y requires 0 <= y < img.height =>
            seq(img.width, x requires 0 <= x < img.width => img.rows[y][img.width - 1 - x])))
  }

  /** `flip_vertical`: mirror top to bottom. */
  function FlipVertical(img: Image): (out: Image)
    requires Valid(img)
    ensures Valid(out) && SameSize(out, img)
    ensures forall y, x :: 0 <= y < out.height && 0 <= x < out.width ==>
              out.rows[y][x] == img.rows[img.height - 1 - y][x]
  {
    Image(img.width, img.height,
          seq(img.height, y requires 0 <= y < img.height =>
            seq(img.width, x requires 0 <= x < img.width => img.rows[img.height - 1 - y][x])))
  }

  /** Two rasters are equal when their sizes and all their pixels agree. */
  lemma ImageExtensionality(a: Image, b: Image)
    requires Valid(a) && Valid(b) && SameSize(a, b)
    requires forall y, x :: 0 <= y < a.height && 0 <= x < a.width ==> a.rows[y][x] == b.rows[y][x]
    ensures a == b
  {
    forall y | 0 <= y < a.height
      ensures a.rows[y] == b.rows[y]
    {
    }
  }

  /** A quarter turn one way undoes a quarter turn the other way. */
  lemma QuarterTurnsCancel(img: Image)
    requires Valid(img)
    ensures Rotate270(Rotate90(img)) == img
    ensures Rotate90(Rotate270(img)) == img
  {
    ImageExtensionality(Rotate270(Rotate90(img)), img);
    ImageExtensionality(Rotate90(Rotate270(img)), img);
  }

  /** Two quarter turns make a half turn. */
  lemma TwoQuarterTurns(img: Image)
    requires Valid(img)
    ensures Rotate90(Rotate90(img)) == Rotate180(img)
    ensures Rotate270(Rotate270(img)) == Rotate180(img)
  {
    ImageExtensionality(Rotate90(Rotate90(img)), Rotate180(img));
    ImageExtensionality(Rotate270(Rotate270(img)), Rotate180(img));
  }

  /** A half turn is both flips, and two half turns are nothing. */
  lemma HalfTurnIsBothFlips(img: Image)
    requires Valid(img)
    ensures Rotate180(img) == FlipHorizontal(FlipVertical(img))
    ensures Rotate180(img) == FlipVertical(FlipHorizontal(img))
    ensures Rotate180(Rotate180(img)) == img
  {
    ImageExtensionality(Rotate180(img), FlipHorizontal(FlipVertical(img)));
    ImageExtensionality(Rotate180(img), FlipVertical(FlipHorizontal(img)));
    ImageExtensionality(Rotate180(Rotate180(img)), img);
  }

  /** Each flip undoes itself. */
  lemma FlipsAreInvolutions(img: Image)
    requires Valid(img)
    ensures FlipHorizontal(FlipHorizontal(img)) == img
    ensures FlipVertical(FlipVertical(img)) == img
  {
    ImageExtensionality(FlipHorizontal(FlipHorizontal(img)), img);
    ImageExtensionality(FlipVertical(FlipVertical(img)), img);
  }

  /** Four quarter turns are the identity. */
  lemma FullTurn(img: Image)
    requires Valid(img)
    ensures Rotate90(Rotate90(Rotate90(Rotate90(img)))) == img
  {
    TwoQuarterTurns(img);
    TwoQuarterTurns(Rotate90(Rotate90(img)));
    HalfTurnIsBothFlips(img);
  }

  /** `rotate`: 90, 180 and 270 turn the raster; any other angle returns it
      as it was. */
  function Rotate(img: Image, angle: nat): (out: Image)
    requires Valid(img)
    ensures Valid(out)
    ensures angle != 90 && angle != 180 && angle != 270 ==> out == img
    ensures angle == 90 || angle == 270 ==> out.width == img.height && out.height == img.width
    ensures angle == 180 ==> SameSize(out, img)
  {
    if angle == 90 then Rotate90(img)
    else if angle == 180 then Rotate180(img)
    else if angle == 270 then Rotate270(img)
    else img
  }

  /** Turning by 90 and then by 270 gives the original back. */
  lemma RotateInverse(img: Image)
    requires Valid(img)
    ensures Rotate(Rotate(img, 90), 270) == img
    ensures Rotate(Rotate(img, 270), 90) == img
  {
    QuarterTurnsCancel(img);
  }

  // ------------------------------------------------------------------ crop

  /** Whether the crop rectangle fits; the operands are unbounded here, so
      the `u32` addition of the source cannot wrap. */
  predicate CropFits(img: Image, x: nat, y: nat, width: nat, height: nat)
  {
    x + width <= img.width && y + height <= img.height
  }

  /** `crop`: a rectangle reaching past the right or bottom edge returns the
      input; otherwise the `width × height` window at (x, y). */
  function Crop(img: Image, x: nat, y: nat, width: nat, height: nat): (out: Image)
    requires Valid(img)
    ensures Valid(out)
    ensures !CropFits(img, x, y, width, height) ==> out == img
    ensures CropFits(img, x, y, width, height) ==>
              && out.width == width && out.height == height
              && forall j, i :: 0 <= j < height && 0 <= i < width ==> out.rows[j][i] == img.rows[y + j][x + i]
  {
    if x + width > img.width || y + height > img.height then img
    else Image(width, height, seq(height, j requires 0 <= j < height => img.rows[y + j][x .. x + width]))
  }

  /** Cropping the whole raster gives it back. */
  lemma CropWhole(img: Image)
    requires Valid(img)
    ensures Crop(img, 0, 0, img.width, img.height) == img
  {
    ImageExtensionality(Crop(img, 0, 0, img.width, img.height), img);
  }

  /** A crop of a crop is one crop at the summed offset. */
  lemma CropOfCrop(img: Image, x1: nat, y1: nat, w1: nat, h1: nat, x2: nat, y2: nat, w2: nat, h2: nat)
    requires Valid(img) && CropFits(img, x1, y1, w1, h1)
    requires x2 + w2 <= w1 && y2 + h2 <= h1
    ensures Crop(Crop(img, x1, y1, w1, h1), x2, y2, w2, h2) == Crop(img, x1 + x2, y1 + y2, w2, h2)
  {
    ImageExtensionality(Crop(Crop(img, x1, y1, w1, h1), x2, y2, w2, h2), Crop(img, x1 + x2, y1 + y2, w2, h2));
  }

  // ---------------------------------------------------------------- resize

  /** `resize`: a zero width or height returns the input; otherwise the
      library's Lanczos resampling to the requested size. */
  function Resize(img: Image, width: nat, height: nat, lanczos: (Image, nat, nat) -> Image): (out: Image)
    ensures width == 0 || height == 0 ==> out == img
  {
    if width == 0 || height == 0 then img else lanczos(img, width, height)
  }

  // ------------------------------------------------------ arbitrary rotation

  /** What the trigonometry of a general rotation produces: the size of the
      output and, for each output pixel, the rounded source position. */
  datatype Geometry = Geometry(width: nat, height: nat, source: (nat, nat) -> (int, int))

  /** The general path: every output pixel copies its source pixel when that
      lies inside the input and is white otherwise. */
  function ResampleRotated(img: Image, g: Geometry): (out: Image)
    requires Valid(img)
    ensures Valid(out) && out.width == g.width && out.height == g.height
    ensures forall y, x :: 0 <= y < g.height && 0 <= x < g.width ==>
              var (sx, sy) := g.source(x, y);
              out.rows[y][x] == if 0 <= sx < img.width && 0 <= sy < img.height then img.rows[sy][sx] else White
  {
    Image(g.width, g.height,
          seq(g.height, y requires 0 <= y < g.height =>
            seq(g.width, x requires 0 <= x < g.width =>
              var (sx, sy) := g.source(x, y);
              if 0 <= sx < img.width && 0 <= sy < img.height then img.rows[sy][sx] else White)))
  }

  /** Which lossless path an angle snaps to, if any: the truncated remainder
      by 360 within 0.1 of 0, 90, 180 or 270. */
  datatype Snap = NoTurn | Quarter | Half | ThreeQuarter | General

  function SnapAngle(angle: real): Snap
  {
    var a := FRem(angle, 360.0);
    if Abs(a) < 0.1 then NoTurn
    else if Abs(a - 90.0) < 0.1 then Quarter
    else if Abs(a - 180.0) < 0.1 then Half
    else if Abs(a - 270.0) < 0.1 then ThreeQuarter
    else General
  }

  /** `rotate_arbitrary`: snapped angles use the lossless operators; any
      other angle resamples through the geometry its trigonometry yields
      (`geometry`, a parameter). */
  function RotateArbitrary(img: Image, angle: real, geometry: real -> Geometry): (out: Image)
    requires Valid(img)
    ensures Valid(out)
    ensures SnapAngle(angle) == NoTurn ==> out == img
    ensures SnapAngle(angle) == Quarter ==> out == Rotate90(img)
    ensures SnapAngle(angle) == Half ==> out == Rotate180(img)
    ensures SnapAngle(angle) == ThreeQuarter ==> out == Rotate270(img)
    ensures SnapAngle(angle) == General ==> out == ResampleRotated(img, geometry(angle))
  {
    match SnapAngle(angle)
    case NoTurn => img
    case Quarter => Rotate90(img)
    case Half => Rotate180(img)
    case ThreeQuarter => Rotate270(img)
    case General => ResampleRotated(img, geometry(angle))
  }

  /** Snapping, angle by angle: whole turns either way do nothing, and the
      positive quarter turns snap. Because the remainder keeps the sign of
      the angle, -90 lands at -90 and takes the general path. */
  lemma SnapExamples()
    ensures SnapAngle(0.0) == NoTurn && SnapAngle(360.0) == NoTurn && SnapAngle(-360.0) == NoTurn
    ensures SnapAngle(0.05) == NoTurn && SnapAngle(-0.05) == NoTurn
    ensures SnapAngle(90.0) == Quarter && SnapAngle(450.0) == Quarter
    ensures SnapAngle(180.0) == Half && SnapAngle(-180.0) == General
    ensures SnapAngle(270.0) == ThreeQuarter
    ensures SnapAngle(-90.0) == General && SnapAngle(-270.0) == General
    ensures SnapAngle(45.0) == General
  {
    FRemPeriod(90.0, 1);
    FRemPeriod(0.0, 1);
    FRemPeriod(0.0, -1);
  }

  /** The remainder of an angle shifted by whole turns in its own direction. */
  lemma FRemPeriod(x: real, k: int)
    requires 0.0 <= x < 360.0
    ensures k >= 0 ==> FRem(x + 360.0 * k as real, 360.0) == x
    ensures k < 0 && x == 0.0 ==> FRem(360.0 * k as real, 360.0) == 0.0
  {
    var q := (x + 360.0 * k as real) / 360.0;
    assert q == x / 360.0 + k as real;
    if k >= 0 {
      assert Trunc(q) == k;
    }
    if k < 0 && x == 0.0 {
      assert Trunc(360.0 * k as real / 360.0) == k;
    }
  }

  /** Snapping depends only on where the angle lies modulo 360 with its
      sign: the snap class of an angle in [0, 360) is decided by the angle
      itself. */
  lemma SnapOfPrincipalAngle(angle: real)
    requires 0.0 <= angle < 360.0
    ensures SnapAngle(angle) == NoTurn <==> angle < 0.1
    ensures SnapAngle(angle) == Quarter <==> 89.9 < angle < 90.1
    ensures SnapAngle(angle) == Half <==> 179.9 < angle < 180.1
    ensures SnapAngle(angle) == ThreeQuarter <==> 269.9 < angle < 270.1
  {
  }
}
