/** Neighbourhood and colour filters: the 3×3 sharpen and emboss kernels with
    their border policies, sepia, and the guards of the filters whose bodies
    are library calls or transcendental arithmetic (Gaussian blur, vignette,
    noise reduction). */
module Filters {
  import opened Numeric
  import opened Raster

  /** A 3×3 kernel in row-major order, `k[ky * 3 + kx]` weighting the
      neighbour at offset (kx - 1, ky - 1). */
  type Kernel = k: seq<real> | |k| == 9 witness [0.0, 0.0, 0.0, 0.0, 0.0, 0.0, 0.0, 0.0, 0.0]

  function KernelWeightSum(k: Kernel): real
  {
    k[0] + k[1] + k[2] + k[3] + k[4] + k[5] + k[6] + k[7] + k[8]
  }

  /** The interior of the raster: every pixel whose 3×3 neighbourhood lies
      inside it. */
  predicate Interior(img: Image, x: nat, y: nat)
  {
    0 < x && x + 1 < img.width && 0 < y && y + 1 < img.height
  }

  /** The weighted sum of one channel over the 3×3 neighbourhood of (x, y). */
  function Convolve(img: Image, x: nat, y: nat, c: Channel, k: Kernel): real
    requires Valid(img) && Interior(img, x, y)
  {
    var up := img.rows[y - 1];
    var mid := img.rows[y];
    var down := img.rows[y + 1];
    k[0] * Sample(up[x - 1], c) as real + k[1] * Sample(up[x], c) as real + k[2] * Sample(up[x + 1], c) as real
    + k[3] * Sample(mid[x - 1], c) as real + k[4] * Sample(mid[x], c) as real + k[5] * Sample(mid[x + 1], c) as real
    + k[6] * Sample(down[x - 1], c) as real + k[7] * Sample(down[x], c) as real + k[8] * Sample(down[x + 1], c) as real
  }

  /** Every pixel of the 3×3 neighbourhood of (x, y) is `p`. */
  predicate FlatAround(img: Image, x: nat, y: nat, p: Rgb)
    requires Valid(img) && Interior(img, x, y)
  {
    && img.rows[y - 1][x - 1] == p && img.rows[y - 1][x] == p && img.rows[y - 1][x + 1] == p
    && img.rows[y][x - 1] == p && img.rows[y][x] == p && img.rows[y][x + 1] == p
    && img.rows[y + 1][x - 1] == p && img.rows[y + 1][x] == p && img.rows[y + 1][x + 1] == p
  }

  /** On a flat neighbourhood the convolution is the value times the sum of
      the weights. */
  lemma ConvolveFlat(img: Image, x: nat, y: nat, p: Rgb, c: Channel, k: Kernel)
    requires Valid(img) && Interior(img, x, y) && FlatAround(img, x, y, p)
    ensures Convolve(img, x, y, c, k) == KernelWeightSum(k) * Sample(p, c) as real
  {
  }

  // --------------------------------------------------------------- sharpen

  /** The sharpening kernel: centre `1 + 4a`, the four edge neighbours `-a`,
      corners 0. */
  function SharpenKernel(amount: real): (k: Kernel)
    ensures KernelWeightSum(k) == 1.0
  {
    [0.0, -amount, 0.0, -amount, 1.0 + 4.0 * amount, -amount, 0.0, -amount, 0.0]
  }

  function Filtered(img: Image, x: nat, y: nat, k: Kernel, bias: real): Rgb
    requires Valid(img) && Interior(img, x, y)
  {
    Rgb(AsU8(Clamp(Convolve(img, x, y, Red, k) + bias, 0.0, 255.0)),
        AsU8(Clamp(Convolve(img, x, y, Green, k) + bias, 0.0, 255.0)),
        AsU8(Clamp(Convolve(img, x, y, Blue, k) + bias, 0.0, 255.0)))
  }

  /** `sharpen`: a non-positive amount returns the input; otherwise interior
      pixels are convolved with the sharpening kernel and border pixels are
      copied from the input. */
  function Sharpen(img: Image, amount: real): (out: Image)
    requires Valid(img)
    ensures Valid(out) && SameSize(out, img)
    ensures amount <= 0.0 ==> out == img
    ensures forall y, x :: 0 <= y < img.height && 0 <= x < img.width && OnBorder(img, x, y) ==>
              out.rows[y][x] == img.rows[y][x]
    ensures amount > 0.0 ==>
              forall y, x :: 0 <= y < img.height && 0 <= x < img.width && Interior(img, x, y) ==>
                out.rows[y][x] == Filtered(img, x, y, SharpenKernel(amount), 0.0)
  {
    if amount <= 0.0 then img
    else
      var k := SharpenKernel(amount);
      Image(img.width, img.height,
            seq(img.height, y requires 0 <= y < img.height =>
              seq(img.width, x requires 0 <= x < img.width =>
                if OnBorder(img, x, y) then img.rows[y][x] else Filtered(img, x, y, k, 0.0))))
  }

  /** Filtering a flat neighbourhood with a kernel whose weights sum to 1
      gives back its pixel, shifted by the bias and saturated. */
  lemma FilteredFlat(img: Image, x: nat, y: nat, p: Rgb, k: Kernel, bias: real)
    requires Valid(img) && Interior(img, x, y) && FlatAround(img, x, y, p)
    requires KernelWeightSum(k) == 1.0
    ensures Filtered(img, x, y, k, bias)
            == Rgb(AsU8(Clamp(p.r as real + bias, 0.0, 255.0)),
                   AsU8(Clamp(p.g as real + bias, 0.0, 255.0)),
                   AsU8(Clamp(p.b as real + bias, 0.0, 255.0)))
  {
    ConvolveFlat(img, x, y, p, Red, k);
    ConvolveFlat(img, x, y, p, Green, k);
    ConvolveFlat(img, x, y, p, Blue, k);
    assert Convolve(img, x, y, Red, k) == p.r as real;
    assert Convolve(img, x, y, Green, k) == p.g as real;
    assert Convolve(img, x, y, Blue, k) == p.b as real;
  }

  /** Sharpening leaves a pixel alone wherever its neighbourhood is flat. */
  lemma SharpenFlat(img: Image, amount: real, x: nat, y: nat)
    requires Valid(img) && Interior(img, x, y)
    requires FlatAround(img, x, y, img.rows[y][x])
    ensures Sharpen(img, amount).rows[y][x] == img.rows[y][x]
  {
    var p := img.rows[y][x];
    if amount > 0.0 {
      FilteredFlat(img, x, y, p, SharpenKernel(amount), 0.0);
      AsU8OfByte(p.r);
      AsU8OfByte(p.g);
      AsU8OfByte(p.b);
    }
  }

  /** So an image of one colour is unchanged by sharpening. */
  lemma SharpenUniform(img: Image, amount: real, c: Rgb)
    requires Valid(img) && Uniform(img, c)
    ensures Sharpen(img, amount) == img
  {
    var out := Sharpen(img, amount);
    forall y | 0 <= y < img.height
      ensures out.rows[y] == img.rows[y]
    {
      forall x | 0 <= x < img.width
        ensures out.rows[y][x] == img.rows[y][x]
      {
        if Interior(img, x, y) {
          SharpenFlat(img, amount, x, y);
        }
      }
    }
  }

  // ---------------------------------------------------------------- emboss

  /** The directional emboss kernel; its weights sum to 1. */
  const EmbossKernel: Kernel := [-2.0, -1.0, 0.0, -1.0, 1.0, 1.0, 0.0, 1.0, 2.0]

  /** `apply_emboss`: interior pixels are the kernel response plus a bias of
      128, border pixels are middle grey. */
  function Emboss(img: Image): (out: Image)
    requires Valid(img)
    ensures Valid(out) && SameSize(out, img)
    ensures forall y, x :: 0 <= y < img.height && 0 <= x < img.width && OnBorder(img, x, y) ==>
              out.rows[y][x] == MidGray
    ensures forall y, x :: 0 <= y < img.height && 0 <= x < img.width && Interior(img, x, y) ==>
              out.rows[y][x] == Filtered(img, x, y, EmbossKernel, 128.0)
  {
    Image(img.width, img.height,
          seq(img.height, y requires 0 <= y < img.height =>
            seq(img.width, x requires 0 <= x < img.width =>
              if OnBorder(img, x, y) then MidGray else Filtered(img, x, y, EmbossKernel, 128.0))))
  }

  /** Adding 128 and saturating, in integers. */
  lemma BiasSaturates(v: Byte)
    ensures AsU8(Clamp(v as real + 128.0, 0.0, 255.0)) == if v + 128 > 255 then 255 else v + 128
  {
  }

  /** Where the neighbourhood is flat with colour c the embossed pixel is
      `min(c + 128, 255)` per channel: flat areas come out mid to light grey
      and only edges show. */
  lemma EmbossFlat(img: Image, x: nat, y: nat, p: Rgb)
    requires Valid(img) && Interior(img, x, y) && FlatAround(img, x, y, p)
    ensures var q := Emboss(img).rows[y][x];
      && q.r == (if p.r + 128 > 255 then 255 else p.r + 128)
      && q.g == (if p.g + 128 > 255 then 255 else p.g + 128)
      && q.b == (if p.b + 128 > 255 then 255 else p.b + 128)
  {
    assert KernelWeightSum(EmbossKernel) == 1.0;
    FilteredFlat(img, x, y, p, EmbossKernel, 128.0);
    BiasSaturates(p.r);
    BiasSaturates(p.g);
    BiasSaturates(p.b);
  }

  // ----------------------------------------------------------------- sepia

  /** One row of the sepia matrix applied to a pixel. */
  function Weighted(p: Rgb, wr: real, wg: real, wb: real): real
  {
    p.r as real * wr + p.g as real * wg + p.b as real * wb
  }

  /** A sepia channel: the weighted sum capped at 255 from above only; the
      weights are positive, so the sum is never negative. */
  function SepiaChannel(p: Rgb, wr: real, wg: real, wb: real): Byte
  {
    AsU8(Min(Weighted(p, wr, wg, wb), 255.0))
  }

  function SepiaPixel(p: Rgb): Rgb
  {
    Rgb(SepiaChannel(p, 0.393, 0.769, 0.189),
        SepiaChannel(p, 0.349, 0.686, 0.168),
        SepiaChannel(p, 0.272, 0.534, 0.131))
  }

  /** `apply_sepia`: the sepia matrix on every pixel, with no guard. */
  function Sepia(img: Image): (out: Image)
    requires Valid(img)
    ensures Valid(out) && SameSize(out, img)
    ensures forall y, x :: 0 <= y < img.height && 0 <= x < img.width ==>
              out.rows[y][x] == SepiaPixel(img.rows[y][x])
  {
    MapPixels(img, (p: Rgb) => SepiaPixel(p))
  }

  /** Sepia output is warm: red at least green, green at least blue, because
      each matrix row dominates the next weight by weight. */
  lemma SepiaWarmOrder(p: Rgb)
    ensures var q := SepiaPixel(p); q.r >= q.g >= q.b
  {
    var r := p.r as real;
    var g := p.g as real;
    var b := p.b as real;
    assert r * 0.393 + g * 0.769 + b * 0.189 >= r * 0.349 + g * 0.686 + b * 0.168;
    assert r * 0.349 + g * 0.686 + b * 0.168 >= r * 0.272 + g * 0.534 + b * 0.131;
    AsU8Monotone(Min(r * 0.349 + g * 0.686 + b * 0.168, 255.0), Min(r * 0.393 + g * 0.769 + b * 0.189, 255.0));
    AsU8Monotone(Min(r * 0.272 + g * 0.534 + b * 0.131, 255.0), Min(r * 0.349 + g * 0.686 + b * 0.168, 255.0));
  }

  /** A brighter input (channel by channel) never gives a darker sepia tone. */
  lemma SepiaMonotone(p: Rgb, q: Rgb)
    requires p.r <= q.r && p.g <= q.g && p.b <= q.b
    ensures var sp := SepiaPixel(p); var sq := SepiaPixel(q);
      sp.r <= sq.r && sp.g <= sq.g && sp.b <= sq.b
  {
    SepiaChannelMonotone(p, q, 0.393, 0.769, 0.189);
    SepiaChannelMonotone(p, q, 0.349, 0.686, 0.168);
    SepiaChannelMonotone(p, q, 0.272, 0.534, 0.131);
  }

  lemma SepiaChannelMonotone(p: Rgb, q: Rgb, wr: real, wg: real, wb: real)
    requires p.r <= q.r && p.g <= q.g && p.b <= q.b
    requires wr >= 0.0 && wg >= 0.0 && wb >= 0.0
    ensures SepiaChannel(p, wr, wg, wb) <= SepiaChannel(q, wr, wg, wb)
  {
    WeightedMonotone(p, q, wr, wg, wb);
    AsU8Monotone(Min(Weighted(p, wr, wg, wb), 255.0), Min(Weighted(q, wr, wg, wb), 255.0));
  }

  lemma WeightedMonotone(p: Rgb, q: Rgb, wr: real, wg: real, wb: real)
    requires p.r <= q.r && p.g <= q.g && p.b <= q.b
    requires wr >= 0.0 && wg >= 0.0 && wb >= 0.0
    ensures Weighted(p, wr, wg, wb) <= Weighted(q, wr, wg, wb)
  {
    WeightMonotone(p.r as real, q.r as real, wr);
    WeightMonotone(p.g as real, q.g as real, wg);
    WeightMonotone(p.b as real, q.b as real, wb);
    AddMonotone(p.r as real * wr, p.g as real * wg, p.b as real * wb,
                q.r as real * wr, q.g as real * wg, q.b as real * wb);
  }

  lemma AddMonotone(a1: real, a2: real, a3: real, b1: real, b2: real, b3: real)
    requires a1 <= b1 && a2 <= b2 && a3 <= b3
    ensures a1 + a2 + a3 <= b1 + b2 + b3
  {
  }

  lemma WeightMonotone(a: real, b: real, w: real)
    requires a <= b && w >= 0.0
    ensures a * w <= b * w
  {
    ProductSign(w, b - a);
    assert b * w - a * w == w * (b - a);
  }

  /** Black stays black and white becomes the light cream (255, 255, 238). */
  lemma SepiaExtremes()
    ensures SepiaPixel(Rgb(0, 0, 0)) == Rgb(0, 0, 0)
    ensures SepiaPixel(White) == Rgb(255, 255, 238)
  {
    assert 255.0 * 0.272 + 255.0 * 0.534 + 255.0 * 0.131 == 238.935;
  }

  // --------------------------------------------------------------- guards

  /** `gaussian_blur`: a non-positive sigma returns the input; otherwise the
      library's blur. */
  function GaussianBlur(img: Image, sigma: real, blur: (Image, real) -> Image): (out: Image)
    ensures sigma <= 0.0 ==> out == img
  {
    if sigma <= 0.0 then img else blur(img, sigma)
  }

  /** `apply_vignette`: strength 0 returns the input; the radial falloff
      itself (square roots) is the `falloff` parameter. */
  function Vignette(img: Image, strength: real, radius: real,
                    falloff: (Image, real, real) -> Image): (out: Image)
    ensures strength == 0.0 ==> out == img
  {
    if strength == 0.0 then img else falloff(img, strength, radius)
  }

  /** `reduce_noise`: a non-positive strength returns the input; the
      bilateral filter itself (exponentials) is the `bilateral` parameter. */
  function ReduceNoise(img: Image, strength: real, bilateral: (Image, real) -> Image): (out: Image)
    ensures strength <= 0.0 ==> out == img
  {
    if strength <= 0.0 then img else bilateral(img, strength)
  }
}
