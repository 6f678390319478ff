/** The decoded raster every operator works on. Operators decode their input to
    8-bit RGB before touching pixels, so a pixel is an RGB triple and alpha is
    not part of the model. Rows are stored top to bottom, each left to right. */
module Raster {
  import opened Numeric

  datatype Rgb = Rgb(r: Byte, g: Byte, b: Byte)

  datatype Channel = Red | Green | Blue

  function Sample(p: Rgb, c: Channel): Byte
  {
    match c
    case Red => p.r
    case Green => p.g
    case Blue => p.b
  }

  /** A channel sample as an `f32` in [0, 1]. */
  function Norm(v: Byte): (x: real)
    ensures 0.0 <= x <= 1.0
  {
    v as real / 255.0
  }

  const White := Rgb(255, 255, 255)
  const MidGray := Rgb(128, 128, 128)

  datatype Image = Image(width: nat, height: nat, rows: seq<seq<Rgb>>)

  /** The buffer holds exactly `height` rows of `width` pixels. */
  predicate Valid(img: Image)
  {
    && |img.rows| == img.height
    && forall y :: 0 <= y < |img.rows| ==> |img.rows[y]| == img.width
  }

  predicate SameSize(a: Image, b: Image)
  {
    a.width == b.width && a.height == b.height
  }

  function At(img: Image, x: nat, y: nat): Rgb
    requires Valid(img) && x < img.width && y < img.height
  {
    img.rows[y][x]
  }

  /** Every pixel of `img` is `c`. */
  predicate Uniform(img: Image, c: Rgb)
    requires Valid(img)
  {
    forall y, x :: 0 <= y < img.height && 0 <= x < img.width ==> img.rows[y][x] == c
  }

  /** A pixel on the outermost ring of the raster. */
  predicate OnBorder(img: Image, x: nat, y: nat)
  {
    x == 0 || y == 0 || x + 1 == img.width || y + 1 == img.height
  }

  /** Applies a per-pixel function: each output pixel depends only on the input
      pixel at the same position. */
  function MapPixels(img: Image, f: Rgb -> Rgb): (out: Image)
    requires Valid(img)
    ensures Valid(out) && SameSize(out, img)
    ensures forall y, x :: 0 <= y < img.height && 0 <= x < img.width ==>
              out.rows[y][x] == f(img.rows[y][x])
  {
    Image(img.width, img.height,
          seq(img.height, y requires 0 <= y < img.height =>
            seq(img.width, x requires 0 <= x < img.width => f(img.rows[y][x]))))
  }

  lemma MapPixelsIdentity(img: Image, f: Rgb -> Rgb)
    requires Valid(img)
    requires forall y, x :: 0 <= y < img.height && 0 <= x < img.width ==>
               f(img.rows[y][x]) == img.rows[y][x]
    ensures MapPixels(img, f) == img
  {
    var out := MapPixels(img, f);
    forall y | 0 <= y < img.height
      ensures out.rows[y] == img.rows[y]
    {
    }
  }

  /** The pixels in row-major order. */
  function Pixels(img: Image): seq<Rgb>
  {
    Flatten(img.rows)
  }

  function Flatten(rows: seq<seq<Rgb>>): seq<Rgb>
  {
    if |rows| == 0 then [] else Flatten(rows[..|rows| - 1]) + rows[|rows| - 1]
  }

  lemma {:induction false} FlattenLength(rows: seq<seq<Rgb>>, w: nat)
    requires forall y :: 0 <= y < |rows| ==> |rows[y]| == w
    ensures |Flatten(rows)| == |rows| * w
  {
    if |rows| > 0 {
      FlattenLength(rows[..|rows| - 1], w);
    }
  }

  lemma PixelCount(img: Image)
    requires Valid(img)
    ensures |Pixels(img)| == img.width * img.height
  {
    FlattenLength(img.rows, img.width);
  }
}
