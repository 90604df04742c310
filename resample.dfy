/** Bilinear point sampling of a pixel buffer at a real coordinate, with the
    coordinate clamped into the image first (ImageProcessor.bilinearSample). */
module Resample {
  import opened Pixels

  /** The interpolated channels of one sample. */
  datatype Sample = Sample(r: int, g: int, b: int, a: int)
  {
    function Get(c: nat): int
      requires c < 4
    {
      if c == 0 then r else if c == 1 then g else if c == 2 then b else a
    }

    predicate InRange() {
      0 <= r < 256 && 0 <= g < 256 && 0 <= b < 256 && 0 <= a < 256
    }
  }

  /** The four neighbouring pixels and the fractional offsets between them. */
  datatype Site = Site(x0: int, y0: int, x1: int, y1: int, dx: real, dy: real)

  function Min(a: real, b: real): real { if a <= b then a else b }
  function Max(a: real, b: real): real { if a >= b then a else b }

  /** Math.max(0, Math.min(v, hi)). */
  function Clamp(v: real, hi: real): (r: real)
    requires hi >= 0.0
    ensures 0.0 <= r <= hi
    ensures 0.0 <= v <= hi ==> r == v
    ensures v <= 0.0 ==> r == 0.0
    ensures v >= hi ==> r == hi
  {
    Max(0.0, Min(v, hi))
  }

  /** Locates the clamped coordinate between its four neighbouring pixels. */
  function SampleSite(w: nat, h: nat, x: real, y: real): (s: Site)
    requires w >= 1 && h >= 1
    ensures 0 <= s.x0 <= s.x1 <= w - 1 && s.x1 <= s.x0 + 1
    ensures 0 <= s.y0 <= s.y1 <= h - 1 && s.y1 <= s.y0 + 1
    ensures 0.0 <= s.dx < 1.0 && 0.0 <= s.dy < 1.0
    ensures s.x1 == s.x0 ==> s.dx == 0.0
    ensures s.y1 == s.y0 ==> s.dy == 0.0
    ensures s.x0 as real + s.dx == Clamp(x, (w - 1) as real)
    ensures s.y0 as real + s.dy == Clamp(y, (h - 1) as real)
  {
    var xc := Clamp(x, (w - 1) as real);
    var yc := Clamp(y, (h - 1) as real);
    var x0 := xc.Floor;
    var y0 := yc.Floor;
    var x1 := if x0 + 1 <= w - 1 then x0 + 1 else w - 1;
    var y1 := if y0 + 1 <= h - 1 then y0 + 1 else h - 1;
    Site(x0, y0, x1, y1, xc - x0 as real, yc - y0 as real)
  }

  lemma SumLe4(a1: real, a2: real, a3: real, a4: real, b1: real, b2: real, b3: real, b4: real)
    requires a1 <= b1 && a2 <= b2 && a3 <= b3 && a4 <= b4
    ensures a1 + a2 + a3 + a4 <= b1 + b2 + b3 + b4
  {
  }

  lemma ScaleUnit4(wa: real, wb: real, wc: real, wd: real, k: real)
    requires wa + wb + wc + wd == 1.0
    ensures wa * k + wb * k + wc * k + wd * k == k
  {
    assert wa * k + wb * k + wc * k + wd * k == (wa + wb + wc + wd) * k;
  }

  /** A convex combination of four values in [lo, hi] lies in [lo, hi]. */
  lemma Convex4(lo: real, hi: real, a: real, b: real, c: real, d: real,
                wa: real, wb: real, wc: real, wd: real)
    requires lo <= a <= hi && lo <= b <= hi && lo <= c <= hi && lo <= d <= hi
    requires wa >= 0.0 && wb >= 0.0 && wc >= 0.0 && wd >= 0.0
    requires wa + wb + wc + wd == 1.0
    ensures lo <= wa * a + wb * b + wc * c + wd * d <= hi
  {
    ConvexLower(lo, a, b, c, d, wa, wb, wc, wd);
    ConvexUpper(hi, a, b, c, d, wa, wb, wc, wd);
  }

  lemma ConvexLower(lo: real, a: real, b: real, c: real, d: real,
                    wa: real, wb: real, wc: real, wd: real)
    requires lo <= a && lo <= b && lo <= c && lo <= d
    requires wa >= 0.0 && wb >= 0.0 && wc >= 0.0 && wd >= 0.0
    requires wa + wb + wc + wd == 1.0
    ensures lo <= wa * a + wb * b + wc * c + wd * d
  {
    MulWithin(wa, lo, a, a);
    MulWithin(wb, lo, b, b);
    MulWithin(wc, lo, c, c);
    MulWithin(wd, lo, d, d);
    ScaleUnit4(wa, wb, wc, wd, lo);
    assert wa * lo <= wa * a && wb * lo <= wb * b && wc * lo <= wc * c && wd * lo <= wd * d;
    SumLe4(wa * lo, wb * lo, wc * lo, wd * lo, wa * a, wb * b, wc * c, wd * d);
  }

  lemma ConvexUpper(hi: real, a: real, b: real, c: real, d: real,
                    wa: real, wb: real, wc: real, wd: real)
    requires a <= hi && b <= hi && c <= hi && d <= hi
    requires wa >= 0.0 && wb >= 0.0 && wc >= 0.0 && wd >= 0.0
    requires wa + wb + wc + wd == 1.0
    ensures wa * a + wb * b + wc * c + wd * d <= hi
  {
    MulWithin(wa, a, a, hi);
    MulWithin(wb, b, b, hi);
    MulWithin(wc, c, c, hi);
    MulWithin(wd, d, d, hi);
    ScaleUnit4(wa, wb, wc, wd, hi);
    assert wa * a <= wa * hi && wb * b <= wb * hi && wc * c <= wc * hi && wd * d <= wd * hi;
    SumLe4(wa * a, wb * b, wc * c, wd * d, wa * hi, wb * hi, wc * hi, wd * hi);
  }

  /** The bilinear weights (1-dx)(1-dy), dx(1-dy), (1-dx)dy, dx*dy are a convex combination. */
  lemma BilinearWeights(dx: real, dy: real)
    requires 0.0 <= dx <= 1.0 && 0.0 <= dy <= 1.0
    ensures (1.0 - dx) * (1.0 - dy) >= 0.0 && dx * (1.0 - dy) >= 0.0
    ensures (1.0 - dx) * dy >= 0.0 && dx * dy >= 0.0
    ensures (1.0 - dx) * (1.0 - dy) + dx * (1.0 - dy) + (1.0 - dx) * dy + dx * dy == 1.0
  {
    MulNonneg(1.0 - dx, 1.0 - dy);
    MulNonneg(dx, 1.0 - dy);
    MulNonneg(1.0 - dx, dy);
    MulNonneg(dx, dy);
  }

  /** Channel c interpolated at site s and rounded with Math.round. */
  function Blend(img: Image, s: Site, c: nat): (v: int)
    requires img.Valid() && c < 4
    requires 0 <= s.x0 < img.width && 0 <= s.x1 < img.width
    requires 0 <= s.y0 < img.height && 0 <= s.y1 < img.height
    requires 0.0 <= s.dx <= 1.0 && 0.0 <= s.dy <= 1.0
    ensures 0 <= v < 256
  {
    var p00 := img.Channel(s.x0, s.y0, c) as real;
    var p10 := img.Channel(s.x1, s.y0, c) as real;
    var p01 := img.Channel(s.x0, s.y1, c) as real;
    var p11 := img.Channel(s.x1, s.y1, c) as real;
    var w00, w10 := (1.0 - s.dx) * (1.0 - s.dy), s.dx * (1.0 - s.dy);
    var w01, w11 := (1.0 - s.dx) * s.dy, s.dx * s.dy;
    BilinearWeights(s.dx, s.dy);
    Convex4(0.0, 255.0, p00, p10, p01, p11, w00, w10, w01, w11);
    Round(w00 * p00 + w10 * p10 + w01 * p01 + w11 * p11)
  }

  /** ImageProcessor.bilinearSample: never reads outside the buffer, and every
      channel of the result is a channel value. */
  function BilinearSample(img: Image, x: real, y: real): (r: Sample)
    requires img.Valid() && img.width >= 1 && img.height >= 1
    ensures r.InRange()
  {
    var s := SampleSite(img.width, img.height, x, y);
    Sample(Blend(img, s, 0), Blend(img, s, 1), Blend(img, s, 2), Blend(img, s, 3))
  }

  /** The four channels of pixel (x, y), as a sample. */
  function PixelSample(img: Image, x: nat, y: nat): Sample
    requires img.Valid() && x < img.width && y < img.height
  {
    Sample(img.Channel(x, y, 0), img.Channel(x, y, 1), img.Channel(x, y, 2), img.Channel(x, y, 3))
  }

  /** Sampling exactly at a pixel reproduces that pixel with no blending error. */
  lemma SampleAtPixel(img: Image, x: nat, y: nat)
    requires img.Valid() && x < img.width && y < img.height
    ensures BilinearSample(img, x as real, y as real) == PixelSample(img, x, y)
  {
    var s := SampleSite(img.width, img.height, x as real, y as real);
    assert s.x0 == x && s.y0 == y && s.dx == 0.0 && s.dy == 0.0;
    forall c | 0 <= c < 4
      ensures Blend(img, s, c) == img.Channel(x, y, c)
    {
      var v := img.Channel(x, y, c) as real;
      var p10 := img.Channel(s.x1, s.y0, c) as real;
      var p01 := img.Channel(s.x0, s.y1, c) as real;
      var p11 := img.Channel(s.x1, s.y1, c) as real;
      assert (1.0 - 0.0) * (1.0 - 0.0) * v + 0.0 * (1.0 - 0.0) * p10
             + (1.0 - 0.0) * 0.0 * p01 + 0.0 * 0.0 * p11 == v;
      RoundIntegral(img.Channel(x, y, c));
    }
  }

  /** A coordinate past an edge samples exactly as the coordinate on that edge. */
  lemma SampleBeyondEdge(img: Image, x: real, y: real)
    requires img.Valid() && img.width >= 1 && img.height >= 1
    ensures x <= 0.0 ==> BilinearSample(img, x, y) == BilinearSample(img, 0.0, y)
    ensures x >= (img.width - 1) as real ==>
      BilinearSample(img, x, y) == BilinearSample(img, (img.width - 1) as real, y)
    ensures y <= 0.0 ==> BilinearSample(img, x, y) == BilinearSample(img, x, 0.0)
    ensures y >= (img.height - 1) as real ==>
      BilinearSample(img, x, y) == BilinearSample(img, x, (img.height - 1) as real)
  {
    var w, h := img.width, img.height;
    var s := SampleSite(w, h, x, y);
    if x <= 0.0 { assert s == SampleSite(w, h, 0.0, y); }
    if x >= (w - 1) as real { assert s == SampleSite(w, h, (w - 1) as real, y); }
    if y <= 0.0 { assert s == SampleSite(w, h, x, 0.0); }
    if y >= (h - 1) as real { assert s == SampleSite(w, h, x, (h - 1) as real); }
  }

  /** A coordinate beyond the image in both directions returns the nearest corner pixel. */
  lemma SampleBeyondCorner(img: Image, x: real, y: real)
    requires img.Valid() && img.width >= 1 && img.height >= 1
    requires x <= 0.0 || x >= (img.width - 1) as real
    requires y <= 0.0 || y >= (img.height - 1) as real
    ensures BilinearSample(img, x, y) ==
      PixelSample(img, if x <= 0.0 then 0 else img.width - 1, if y <= 0.0 then 0 else img.height - 1)
  {
    var cx: nat := if x <= 0.0 then 0 else img.width - 1;
    var cy: nat := if y <= 0.0 then 0 else img.height - 1;
    assert SampleSite(img.width, img.height, x, y) ==
           SampleSite(img.width, img.height, cx as real, cy as real);
    SampleAtPixel(img, cx, cy);
  }
}
