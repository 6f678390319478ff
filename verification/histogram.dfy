/** Histogram computation and per-channel histogram equalization
    (`calculate_histogram` and `histogram_equalization`). */
module Histogram {
  import opened Numeric
  import opened Raster

  /** Number of pixels of `ps` whose channel `c` holds the value `v`. */
  function Count(ps: seq<Rgb>, c: Channel, v: int): nat
  {
    if |ps| == 0 then 0
    else Count(ps[..|ps| - 1], c, v) + (if Sample(ps[|ps| - 1], c) == v then 1 else 0)
  }

  /** The 256 bucket counts of one channel. */
  function Block(ps: seq<Rgb>, c: Channel): (h: seq<nat>)
    ensures |h| == 256
  {
    seq(256, v requires 0 <= v < 256 => Count(ps, c, v))
  }

  function Sum(s: seq<nat>): nat
  {
    if |s| == 0 then 0 else Sum(s[..|s| - 1]) + s[|s| - 1]
  }

  /** Incrementing one bucket increments the total. */
  lemma {:induction false} SumIncrement(s: seq<nat>, k: nat)
    requires k < |s|
    ensures Sum(s[k := s[k] + 1]) == Sum(s) + 1
  {
    var t := s[k := s[k] + 1];
    if k == |s| - 1 {
      assert t[..|t| - 1] == s[..|s| - 1];
    } else {
      assert t[..|t| - 1] == s[..|s| - 1][k := s[k] + 1];
      SumIncrement(s[..|s| - 1], k);
    }
  }

  lemma {:induction false} SumZeros(n: nat)
    ensures Sum(seq(n, _ => 0)) == 0
  {
    if n > 0 {
      assert seq(n, _ => 0)[..n - 1] == seq(n - 1, _ => 0);
      SumZeros(n - 1);
    }
  }

  /** `h` holds the 256 counts of channel `c` over `ps`. */
  predicate Tallies(h: seq<nat>, ps: seq<Rgb>, c: Channel)
  {
    |h| == 256 && forall v :: 0 <= v < 256 ==> h[v] == Count(ps, c, v)
  }

  /** Counting one more pixel bumps exactly its bucket. */
  lemma TallyNext(h: seq<nat>, ps: seq<Rgb>, i: nat, c: Channel)
    requires i < |ps| && Tallies(h, ps[..i], c) && Sum(h) == i
    ensures Tallies(h[Sample(ps[i], c) := h[Sample(ps[i], c)] + 1], ps[..i + 1], c)
    ensures Sum(h[Sample(ps[i], c) := h[Sample(ps[i], c)] + 1]) == i + 1
  {
    assert ps[..i + 1][..i] == ps[..i];
    assert ps[..i + 1][i] == ps[i];
    SumIncrement(h, Sample(ps[i], c));
  }

  /** `calculate_histogram`: 768 counts, the red block, then green, then blue,
      each bucket counting the pixels with that channel value; every block
      sums to the number of pixels. */
  method CalculateHistogram(img: Image) returns (hist: seq<nat>)
    requires Valid(img)
    ensures |hist| == 768
    ensures forall v :: 0 <= v < 256 ==>
              && hist[v] == Count(Pixels(img), Red, v)
              && hist[256 + v] == Count(Pixels(img), Green, v)
              && hist[512 + v] == Count(Pixels(img), Blue, v)
    ensures Sum(hist[..256]) == img.width * img.height
    ensures Sum(hist[256..512]) == img.width * img.height
    ensures Sum(hist[512..]) == img.width * img.height
  {
    var ps := Pixels(img);
    PixelCount(img);
    var hr: seq<nat> := seq(256, _ => 0);
    var hg: seq<nat> := seq(256, _ => 0);
    var hb: seq<nat> := seq(256, _ => 0);
    SumZeros(256);
    var i := 0;
    while i < |ps|
      invariant 0 <= i <= |ps|
      invariant Tallies(hr, ps[..i], Red) && Tallies(hg, ps[..i], Green) && Tallies(hb, ps[..i], Blue)
      invariant Sum(hr) == i && Sum(hg) == i && Sum(hb) == i
    {
      var p := ps[i];
      TallyNext(hr, ps, i, Red);
      TallyNext(hg, ps, i, Green);
      TallyNext(hb, ps, i, Blue);
      hr := hr[p.r := hr[p.r] + 1];
      hg := hg[p.g := hg[p.g] + 1];
      hb := hb[p.b := hb[p.b] + 1];
      i := i + 1;
    }
    assert ps[..|ps|] == ps;
    hist := hr + hg + hb;
    assert hist[..256] == hr && hist[256..512] == hg && hist[512..] == hb;
  }

  /** Each pixel adds exactly one to one bucket of each channel, so every
      channel block sums to the number of pixels. */
  lemma {:induction false} BlockSum(ps: seq<Rgb>, c: Channel)
    ensures Sum(Block(ps, c)) == |ps|
  {
    if |ps| == 0 {
      assert Block(ps, c) == seq(256, _ => 0);
      SumZeros(256);
    } else {
      var init := ps[..|ps| - 1];
      var k := Sample(ps[|ps| - 1], c);
      BlockSum(init, c);
      assert Block(ps, c) == Block(init, c)[k := Block(init, c)[k] + 1];
      SumIncrement(Block(init, c), k);
    }
  }

  /** The cumulative distribution as the source accumulates it:
      `cdf[0] = h[0] / N` and `cdf[i] = cdf[i - 1] + h[i] / N`. */
  function Cdf(h: seq<nat>, total: nat, i: nat): real
    requires i < |h| && total > 0
  {
    if i == 0 then h[0] as real / total as real
    else Cdf(h, total, i - 1) + h[i] as real / total as real
  }

  /** The equalization lookup table of one channel: the cumulative share scaled
      to 255, rounded half away from zero, clamped and cast. An empty image
      makes every share NaN, which the cast turns into 0. */
  function EqualizationLut(h: seq<nat>, total: nat): (lut: seq<Byte>)
    requires |h| == 256
    ensures |lut| == 256
    ensures total == 0 ==> forall i :: 0 <= i < 256 ==> lut[i] == 0
  {
    seq(256, i requires 0 <= i < 256 =>
      if total == 0 then 0
      else LutEntry(Cdf(h, total, i)))
  }

  lemma {:induction false} CdfIsPrefixShare(h: seq<nat>, total: nat, i: nat)
    requires i < |h| && total > 0
    ensures Cdf(h, total, i) == Sum(h[..i + 1]) as real / total as real
  {
    assert h[..i + 1][..i] == h[..i];
    assert Sum(h[..i + 1]) == Sum(h[..i]) + h[i];
    if i == 0 {
      assert h[..0] == [];
    } else {
      CdfIsPrefixShare(h, total, i - 1);
      AddShares(Sum(h[..i]) as real, h[i] as real, total as real);
    }
  }

  lemma AddShares(a: real, b: real, t: real)
    requires t > 0.0
    ensures a / t + b / t == (a + b) / t
  {
  }

  lemma {:induction false} CdfMonotone(h: seq<nat>, total: nat, i: nat, j: nat)
    requires i <= j < |h| && total > 0
    ensures Cdf(h, total, i) <= Cdf(h, total, j)
  {
    if i < j {
      CdfMonotone(h, total, i, j - 1);
      assert h[j] as real / total as real >= 0.0;
    }
  }

  /** The equalization table never maps a larger intensity below a smaller one. */
  lemma EqualizationLutMonotone(h: seq<nat>, total: nat, i: nat, j: nat)
    requires |h| == 256 && i <= j < 256
    ensures EqualizationLut(h, total)[i] <= EqualizationLut(h, total)[j]
  {
    if total > 0 {
      CdfMonotone(h, total, i, j);
      LutEntryMonotone(Cdf(h, total, i), Cdf(h, total, j));
    }
  }

  /** One table entry as a function of its cumulative share. */
  function LutEntry(share: real): Byte
  {
    AsU8(Clamp(RoundHalfAway(share * 255.0) as real, 0.0, 255.0))
  }

  lemma LutEntryMonotone(a: real, b: real)
    requires a <= b
    ensures LutEntry(a) <= LutEntry(b)
  {
    RoundHalfAwayMonotone(a * 255.0, b * 255.0);
    AsU8Monotone(Clamp(RoundHalfAway(a * 255.0) as real, 0.0, 255.0),
                 Clamp(RoundHalfAway(b * 255.0) as real, 0.0, 255.0));
  }

  /** When the buckets account for every pixel, the top intensity maps to 255. */
  lemma EqualizationLutTop(h: seq<nat>, total: nat)
    requires |h| == 256 && total > 0 && Sum(h) == total
    ensures EqualizationLut(h, total)[255] == 255
  {
    CdfIsPrefixShare(h, total, 255);
    assert h[..256] == h;
    var t := total as real;
    assert Cdf(h, total, 255) == t / t;
    DivideBySelf(t);
    var top := Cdf(h, total, 255) * 255.0;
    assert top == 255.0;
    assert RoundHalfAway(top) == 255;
    assert EqualizationLut(h, total)[255] == LutEntry(Cdf(h, total, 255));
  }

  /** `histogram_equalization`: each channel passes through the table built
      from its own histogram. */
  function HistogramEqualization(img: Image): (out: Image)
    requires Valid(img)
    ensures Valid(out) && SameSize(out, img)
    ensures forall y, x :: 0 <= y < img.height && 0 <= x < img.width ==>
              var p := img.rows[y][x];
              out.rows[y][x] == Rgb(
                EqualizationLut(Block(Pixels(img), Red), |Pixels(img)|)[p.r],
                EqualizationLut(Block(Pixels(img), Green), |Pixels(img)|)[p.g],
                EqualizationLut(Block(Pixels(img), Blue), |Pixels(img)|)[p.b])
  {
    var ps := Pixels(img);
    var lr := EqualizationLut(Block(ps, Red), |ps|);
    var lg := EqualizationLut(Block(ps, Green), |ps|);
    var lb := EqualizationLut(Block(ps, Blue), |ps|);
    MapPixels(img, (p: Rgb) => Rgb(lr[p.r], lg[p.g], lb[p.b]))
  }

  /** Equalization keeps the order of intensities within each channel. */
  lemma EqualizationPreservesOrder(img: Image, x1: nat, y1: nat, x2: nat, y2: nat, c: Channel)
    requires Valid(img)
    requires x1 < img.width && y1 < img.height && x2 < img.width && y2 < img.height
    requires Sample(img.rows[y1][x1], c) <= Sample(img.rows[y2][x2], c)
    ensures Sample(HistogramEqualization(img).rows[y1][x1], c)
            <= Sample(HistogramEqualization(img).rows[y2][x2], c)
  {
    var ps := Pixels(img);
    EqualizationLutMonotone(Block(ps, c), |ps|,
      Sample(img.rows[y1][x1], c), Sample(img.rows[y2][x2], c));
  }

  /** Every pixel of `ps` has the value `v` in channel `c`. */
  lemma {:induction false} CountOfConstant(ps: seq<Rgb>, c: Channel, v: Byte, u: int)
    requires forall k :: 0 <= k < |ps| ==> Sample(ps[k], c) == v
    ensures Count(ps, c, u) == if u == v then |ps| else 0
  {
    if |ps| > 0 {
      CountOfConstant(ps[..|ps| - 1], c, v, u);
    }
  }

  lemma {:induction false} FlattenUniform(rows: seq<seq<Rgb>>, q: Rgb, k: nat)
    requires forall y, x :: 0 <= y < |rows| && 0 <= x < |rows[y]| ==> rows[y][x] == q
    requires k < |Flatten(rows)|
    ensures Flatten(rows)[k] == q
  {
    var init := rows[..|rows| - 1];
    if k < |Flatten(init)| {
      FlattenUniform(init, q, k);
    } else {
      assert Flatten(rows)[k] == rows[|rows| - 1][k - |Flatten(init)|];
    }
  }

  lemma ConstantChannelLut(ps: seq<Rgb>, c: Channel, v: Byte)
    requires |ps| > 0
    requires forall k :: 0 <= k < |ps| ==> Sample(ps[k], c) == v
    ensures EqualizationLut(Block(ps, c), |ps|)[v] == 255
  {
    var h := Block(ps, c);
    forall u | 0 <= u < 256
      ensures h[u] == if u == v then |ps| else 0
    {
      CountOfConstant(ps, c, v, u);
    }
    BlockSum(ps, c);
    CdfIsPrefixShare(h, |ps|, v);
    var pre := h[..v + 1];
    assert pre == h[..v] + [|ps|];
    assert Sum(h[..v]) == 0 by {
      assert h[..v] == seq(v, _ => 0);
      SumZeros(v);
    }
    assert Sum(pre) == |ps| by { assert pre[..|pre| - 1] == h[..v]; }
    DivideBySelf(|ps| as real);
    assert Cdf(h, |ps|, v) == 1.0;
  }

  /** A non-empty image of one colour equalizes to pure white: the flat input
      is not left unchanged. */
  lemma UniformEqualizesToWhite(img: Image, q: Rgb)
    requires Valid(img) && img.width > 0 && img.height > 0 && Uniform(img, q)
    ensures Uniform(HistogramEqualization(img), White)
  {
    var ps := Pixels(img);
    PixelCount(img);
    assert |ps| > 0 by {
      assert img.width * img.height > 0;
    }
    forall k | 0 <= k < |ps|
      ensures ps[k] == q
    {
      FlattenUniform(img.rows, q, k);
    }
    ConstantChannelLut(ps, Red, q.r);
    ConstantChannelLut(ps, Green, q.g);
    ConstantChannelLut(ps, Blue, q.b);
  }
}
