/** Edge-preserving smoothing (ImageProcessor.bilateralFilter): every pixel's R, G
    and B become the weighted average of its in-bounds neighbours within a square
    window, each neighbour weighted by a spatial term of its squared distance and a
    colour term of its squared colour difference from the centre. The two weight
    terms are Math.exp of negative quantities; here they are parameters. */
module Bilateral {
  import opened Pixels

  /** The running totals of one window: the total weight and the weighted sums. */
  datatype Acc = Acc(total: real, r: real, g: real, b: real)
  {
    function Get(c: nat): real
      requires c < 3
    {
      if c == 0 then r else if c == 1 then g else b
    }

    function Plus(o: Acc): Acc {
      Acc(total + o.total, r + o.r, g + o.g, b + o.b)
    }
  }

  const Zero := Acc(0.0, 0.0, 0.0, 0.0)

  /** A weight term that is never negative (Math.exp never is). */
  ghost predicate NonNegative(f: int -> real) {
    forall n :: f(n) >= 0.0
  }

  /** A weight term that is always positive (Math.exp without underflow). */
  ghost predicate Positive(f: int -> real) {
    forall n :: f(n) > 0.0
  }

  /** The squared Euclidean distance between two colours. */
  function DistSq(r1: int, g1: int, b1: int, r2: int, g2: int, b2: int): int {
    (r1 - r2) * (r1 - r2) + (g1 - g2) * (g1 - g2) + (b1 - b2) * (b1 - b2)
  }

  /** The squared colour distance between pixel (x, y) and pixel (nx, ny). */
  function ColorDistSq(img: Image, x: nat, y: nat, nx: nat, ny: nat): int
    requires img.Valid() && x < img.width && y < img.height
    requires nx < img.width && ny < img.height
  {
    DistSq(img.Channel(x, y, 0), img.Channel(x, y, 1), img.Channel(x, y, 2),
           img.Channel(nx, ny, 0), img.Channel(nx, ny, 1), img.Channel(nx, ny, 2))
  }

  /** The channels of pixel (x, y) at the flat index k = (y*width + x)*4. */
  lemma PixelChannels(img: Image, x: nat, y: nat, k: int)
    requires img.Valid() && x < img.width && y < img.height
    requires k == (y * img.width + x) * 4
    ensures 0 <= k && k + 3 < |img.data|
    ensures img.Channel(x, y, 0) == img.data[k] && img.Channel(x, y, 1) == img.data[k + 1]
    ensures img.Channel(x, y, 2) == img.data[k + 2] && img.Channel(x, y, 3) == img.data[k + 3]
  {
    OffsetInBounds(img.width, img.height, x, y, 0);
  }

  /** spatialWeight * colorWeight. */
  function Weight(spatial: real, color: real): (w: real)
    ensures spatial >= 0.0 && color >= 0.0 ==> w >= 0.0
    ensures spatial > 0.0 && color > 0.0 ==> w > 0.0
  {
    spatial * color
  }

  /** The totals of a single neighbour of colour (r, g, b) and the given weight. */
  function Weighted(weight: real, r: Byte, g: Byte, b: Byte): Acc {
    Acc(weight, r as real * weight, g as real * weight, b as real * weight)
  }

  /** What the neighbour at offset (dx, dy) adds to the totals of pixel (x, y):
      nothing when it lies outside the image. */
  function Contribution(img: Image, sw: int -> real, cw: int -> real,
                        x: nat, y: nat, dx: int, dy: int): Acc
    requires img.Valid() && x < img.width && y < img.height
  {
    var nx, ny := x + dx, y + dy;
    if 0 <= ny < img.height && 0 <= nx < img.width then
      var weight := Weight(sw(dx * dx + dy * dy), cw(ColorDistSq(img, x, y, nx, ny)));
      Weighted(weight, img.Channel(nx, ny, 0), img.Channel(nx, ny, 1), img.Channel(nx, ny, 2))
    else Zero
  }

  /** The totals acc0 extended, in loop order, by the neighbours at offsets
      (-radius, dy) .. (dxEnd - 1, dy). */
  function RowFrom(img: Image, sw: int -> real, cw: int -> real, x: nat, y: nat,
                   radius: int, acc0: Acc, dy: int, dxEnd: int): Acc
    requires img.Valid() && x < img.width && y < img.height
    decreases dxEnd + radius
  {
    if dxEnd <= -radius then acc0
    else RowFrom(img, sw, cw, x, y, radius, acc0, dy, dxEnd - 1)
           .Plus(Contribution(img, sw, cw, x, y, dxEnd - 1, dy))
  }

  /** The totals after the rows dy = -radius .. dyEnd - 1 of the window. */
  function WindowAcc(img: Image, sw: int -> real, cw: int -> real, x: nat, y: nat,
                     radius: int, dyEnd: int): Acc
    requires img.Valid() && x < img.width && y < img.height
    decreases dyEnd + radius
  {
    if dyEnd <= -radius then Zero
    else RowFrom(img, sw, cw, x, y, radius,
                 WindowAcc(img, sw, cw, x, y, radius, dyEnd - 1), dyEnd - 1, radius + 1)
  }

  /** The totals over the whole window of pixel (x, y). */
  function Window(img: Image, d: int, sw: int -> real, cw: int -> real, x: nat, y: nat): Acc
    requires img.Valid() && x < img.width && y < img.height
  {
    WindowAcc(img, sw, cw, x, y, Radius(d), Radius(d) + 1)
  }

  /** Channel c of output pixel (x, y): alpha copied; R, G, B the weighted average
      stored through a Uint8ClampedArray, or the centre's own value when the total
      weight is zero. */
  function SmoothedChannel(img: Image, d: int, sw: int -> real, cw: int -> real,
                           x: nat, y: nat, c: nat): Byte
    requires img.Valid() && x < img.width && y < img.height && c < 4
  {
    var centre := img.Channel(x, y, c);
    if c == 3 then centre
    else
      var acc := Window(img, d, sw, cw, x, y);
      if acc.total == 0.0 then centre else ToUint8Clamp(acc.Get(c) / acc.total)
  }

  /** The result buffer of bilateralFilter. */
  function Smoothed(img: Image, d: int, sw: int -> real, cw: int -> real): (r: Image)
    requires img.Valid()
    ensures r.Valid() && r.width == img.width && r.height == img.height
  {
    var w, h := img.width, img.height;
    Image(w, h, seq(w * h * 4, i requires 0 <= i < w * h * 4 =>
      var p := CoordOf(w, h, i); SmoothedChannel(img, d, sw, cw, p.x, p.y, p.c)))
  }

  /** Each result channel is the per-pixel formula. */
  lemma SmoothedAt(img: Image, d: int, sw: int -> real, cw: int -> real, x: nat, y: nat, c: nat)
    requires img.Valid() && x < img.width && y < img.height && c < 4
    ensures Offset(img.width, x, y, c) < |img.data|
    ensures Smoothed(img, d, sw, cw).data[Offset(img.width, x, y, c)] ==
            SmoothedChannel(img, d, sw, cw, x, y, c)
  {
    CoordOfOffset(img.width, img.height, x, y, c);
  }

  /** SmoothedAt at the flat index k of channel c of pixel (x, y). */
  lemma SmoothedData(img: Image, d: int, sw: int -> real, cw: int -> real, x: nat, y: nat, c: nat, k: nat)
    requires img.Valid() && x < img.width && y < img.height && c < 4
    requires k == Offset(img.width, x, y, c)
    ensures k < |Smoothed(img, d, sw, cw).data|
    ensures Smoothed(img, d, sw, cw).data[k] == SmoothedChannel(img, d, sw, cw, x, y, c)
  {
    SmoothedAt(img, d, sw, cw, x, y, c);
  }

  /** Channel c of every pixel of row y of spec, which starts at flat index
      rowStart, holds what the filtered image has there. */
  ghost predicate RowMatches(spec: seq<Byte>, img: Image, d: int, sw: int -> real, cw: int -> real, y: nat, rowStart: nat, c: nat)
    requires img.Valid() && y < img.height && c < 4
  {
    forall x {:trigger SmoothedChannel(img, d, sw, cw, x, y, c)} :: 0 <= x < img.width ==>
      rowStart + x * 4 + c < |spec| && spec[rowStart + x * 4 + c] == SmoothedChannel(img, d, sw, cw, x, y, c)
  }

  /** The channels of row y of the result, which starts at flat index rowStart. */
  lemma SmoothedRow(img: Image, d: int, sw: int -> real, cw: int -> real, y: nat, rowStart: nat)
    requires img.Valid() && y < img.height && rowStart == y * img.width * 4
    ensures RowMatches(Smoothed(img, d, sw, cw).data, img, d, sw, cw, y, rowStart, 0)
    ensures RowMatches(Smoothed(img, d, sw, cw).data, img, d, sw, cw, y, rowStart, 1)
    ensures RowMatches(Smoothed(img, d, sw, cw).data, img, d, sw, cw, y, rowStart, 2)
    ensures RowMatches(Smoothed(img, d, sw, cw).data, img, d, sw, cw, y, rowStart, 3)
  {
    forall x | 0 <= x < img.width {
      SmoothedData(img, d, sw, cw, x, y, 0, rowStart + x * 4);
    }
    forall x | 0 <= x < img.width {
      SmoothedData(img, d, sw, cw, x, y, 1, rowStart + x * 4 + 1);
    }
    forall x | 0 <= x < img.width {
      SmoothedData(img, d, sw, cw, x, y, 2, rowStart + x * 4 + 2);
    }
    forall x | 0 <= x < img.width {
      SmoothedData(img, d, sw, cw, x, y, 3, rowStart + x * 4 + 3);
    }
  }

  /** ImageProcessor.bilateralFilter: for every pixel, accumulates the window and
      writes the result buffer at (y*width + x)*4. */
  method BilateralFilter(img: Image, d: int, sw: int -> real, cw: int -> real)
    returns (result: Image)
    requires img.Valid()
    ensures result == Smoothed(img, d, sw, cw)
  {
    var width, height := img.width, img.height;
    ghost var spec := Smoothed(img, d, sw, cw).data;
    var resultData := new Byte[width * height * 4];
    var radius := d / 2;
    var y := 0;
    while y < height
      invariant 0 <= y <= height
      invariant forall i :: 0 <= i < y * width * 4 ==> resultData[i] == spec[i]
    {
      ghost var rowStart := y * width * 4;
      RowFits(width, height, y);
      SmoothedRow(img, d, sw, cw, y, rowStart);
      FilterRow(img, d, radius, sw, cw, y, resultData, spec, rowStart);
      y := y + 1;
    }
    assert |spec| == width * height * 4 == y * width * 4;
    assert resultData[..] == spec;
    result := Image(width, height, resultData[..]);
  }

  /** The body of the x loop of bilateralFilter: the four channels of result
      pixel (x, y). */
  method FilterPixel(img: Image, d: int, radius: int, sw: int -> real, cw: int -> real, x: nat, y: nat)
    returns (r: Byte, g: Byte, b: Byte, a: Byte)
    requires img.Valid() && x < img.width && y < img.height && radius == Radius(d)
    ensures r == SmoothedChannel(img, d, sw, cw, x, y, 0) && g == SmoothedChannel(img, d, sw, cw, x, y, 1)
    ensures b == SmoothedChannel(img, d, sw, cw, x, y, 2) && a == SmoothedChannel(img, d, sw, cw, x, y, 3)
  {
    var centerIndex := (y * img.width + x) * 4;
    OffsetInBounds(img.width, img.height, x, y, 0);
    var centerR, centerG, centerB := img.data[centerIndex], img.data[centerIndex + 1], img.data[centerIndex + 2];
    var acc := WindowSum(img, sw, cw, x, y, radius);
    assert acc == Window(img, d, sw, cw, x, y);
    if acc.total == 0.0 {
      r, g, b := centerR, centerG, centerB;
    } else {
      r, g, b := ToUint8Clamp(acc.r / acc.total), ToUint8Clamp(acc.g / acc.total),
                 ToUint8Clamp(acc.b / acc.total);
    }
    a := img.data[centerIndex + 3];
  }

  /** The four channels of pixel x of a matching row. */
  lemma RowMatchesAt(spec: seq<Byte>, img: Image, d: int, sw: int -> real, cw: int -> real,
                     y: nat, rowStart: nat, x: nat)
    requires img.Valid() && y < img.height && x < img.width
    requires RowMatches(spec, img, d, sw, cw, y, rowStart, 0) && RowMatches(spec, img, d, sw, cw, y, rowStart, 1)
    requires RowMatches(spec, img, d, sw, cw, y, rowStart, 2) && RowMatches(spec, img, d, sw, cw, y, rowStart, 3)
    ensures rowStart + x * 4 + 3 < |spec|
    ensures spec[rowStart + x * 4] == SmoothedChannel(img, d, sw, cw, x, y, 0)
    ensures spec[rowStart + x * 4 + 1] == SmoothedChannel(img, d, sw, cw, x, y, 1)
    ensures spec[rowStart + x * 4 + 2] == SmoothedChannel(img, d, sw, cw, x, y, 2)
    ensures spec[rowStart + x * 4 + 3] == SmoothedChannel(img, d, sw, cw, x, y, 3)
  {
  }

  /** The x loop of bilateralFilter for row y, which starts at rowStart. */
  method FilterRow(img: Image, d: int, radius: int, sw: int -> real, cw: int -> real, y: nat,
                   resultData: array<Byte>, ghost spec: seq<Byte>, ghost rowStart: nat)
    requires img.Valid() && y < img.height && radius == Radius(d)
    requires rowStart == y * img.width * 4 && rowStart + img.width * 4 <= |spec| == resultData.Length
    requires RowMatches(spec, img, d, sw, cw, y, rowStart, 0)
    requires RowMatches(spec, img, d, sw, cw, y, rowStart, 1)
    requires RowMatches(spec, img, d, sw, cw, y, rowStart, 2)
    requires RowMatches(spec, img, d, sw, cw, y, rowStart, 3)
    requires forall i :: 0 <= i < rowStart ==> resultData[i] == spec[i]
    modifies resultData
    ensures forall i :: 0 <= i < rowStart + img.width * 4 ==> resultData[i] == spec[i]
    ensures forall i :: rowStart + img.width * 4 <= i < resultData.Length ==> resultData[i] == old(resultData[i])
  {
    var width := img.width;
    var x := 0;
    while x < width
      invariant 0 <= x <= width
      invariant forall i :: 0 <= i < rowStart + x * 4 ==> resultData[i] == spec[i]
      invariant forall i :: rowStart + img.width * 4 <= i < resultData.Length ==> resultData[i] == old(resultData[i])
    {
      var centerIndex := (y * width + x) * 4;
      assert centerIndex == rowStart + x * 4;
      var r, g, b, a := FilterPixel(img, d, radius, sw, cw, x, y);
      RowMatchesAt(spec, img, d, sw, cw, y, rowStart, x);
      resultData[centerIndex] := r;
      resultData[centerIndex + 1] := g;
      resultData[centerIndex + 2] := b;
      resultData[centerIndex + 3] := a;
      forall i | 0 <= i < centerIndex + 4 ensures resultData[i] == spec[i] {
        if i >= centerIndex {
          assert i == centerIndex || i == centerIndex + 1 || i == centerIndex + 2 || i == centerIndex + 3;
        }
      }
      x := x + 1;
    }
  }

  /** The dy loop of bilateralFilter for pixel (x, y). */
  method WindowSum(img: Image, sw: int -> real, cw: int -> real, x: nat, y: nat, radius: int)
    returns (acc: Acc)
    requires img.Valid() && x < img.width && y < img.height
    ensures acc == WindowAcc(img, sw, cw, x, y, radius, radius + 1)
  {
    acc := Zero;
    var dy := -radius;
    while dy <= radius
      invariant -radius <= dy && (radius >= 0 ==> dy <= radius + 1) && (radius < 0 ==> dy == -radius)
      invariant acc == WindowAcc(img, sw, cw, x, y, radius, dy)
    {
      acc := RowSum(img, sw, cw, x, y, radius, acc, dy);
      dy := dy + 1;
    }
  }

  /** The dx loop of bilateralFilter: adds row dy of the window to acc0. */
  method RowSum(img: Image, sw: int -> real, cw: int -> real, x: nat, y: nat, radius: int,
                acc0: Acc, dy: int) returns (acc: Acc)
    requires img.Valid() && x < img.width && y < img.height
    ensures acc == RowFrom(img, sw, cw, x, y, radius, acc0, dy, radius + 1)
  {
    var width, height := img.width, img.height;
    var centerIndex := (y * width + x) * 4;
    PixelChannels(img, x, y, centerIndex);
    var centerR, centerG, centerB := img.data[centerIndex], img.data[centerIndex + 1], img.data[centerIndex + 2];
    acc := acc0;
    var dx := -radius;
    while dx <= radius
      invariant -radius <= dx && (radius >= 0 ==> dx <= radius + 1) && (radius < 0 ==> dx == -radius)
      invariant acc == RowFrom(img, sw, cw, x, y, radius, acc0, dy, dx)
    {
      var ny, nx := y + dy, x + dx;
      if ny >= 0 && ny < height && nx >= 0 && nx < width {
        var neighborIndex := (ny * width + nx) * 4;
        PixelChannels(img, nx, ny, neighborIndex);
        var neighborR, neighborG, neighborB :=
          img.data[neighborIndex], img.data[neighborIndex + 1], img.data[neighborIndex + 2];
        var spatialDistSq := dx * dx + dy * dy;
        var spatialWeight := sw(spatialDistSq);
        var colorDistSq := DistSq(centerR, centerG, centerB, neighborR, neighborG, neighborB);
        var colorWeight := cw(colorDistSq);
        var weight := Weight(spatialWeight, colorWeight);
        assert Contribution(img, sw, cw, x, y, dx, dy) == Weighted(weight, neighborR, neighborG, neighborB);
        // add the weight to the total and the weighted neighbour colour to the sums
        acc := acc.Plus(Weighted(weight, neighborR, neighborG, neighborB));
      } else {
        assert Contribution(img, sw, cw, x, y, dx, dy) == Zero;
      }
      RowFromStep(img, sw, cw, x, y, radius, acc0, dy, dx);
      dx := dx + 1;
    }
  }

  /** One more neighbour of the row. */
  lemma RowFromStep(img: Image, sw: int -> real, cw: int -> real, x: nat, y: nat,
                    radius: int, acc0: Acc, dy: int, dx: int)
    requires img.Valid() && x < img.width && y < img.height && dx >= -radius
    ensures RowFrom(img, sw, cw, x, y, radius, acc0, dy, dx + 1) ==
            RowFrom(img, sw, cw, x, y, radius, acc0, dy, dx).Plus(Contribution(img, sw, cw, x, y, dx, dy))
  {
  }

  /** The totals of acc keep channel c between lo and hi times the total weight. */
  ghost predicate Within(acc: Acc, c: nat, lo: real, hi: real)
    requires c < 3
  {
    acc.total >= 0.0 && lo * acc.total <= acc.Get(c) <= hi * acc.total
  }

  /** Channel c of every in-bounds pixel of the window of (x, y) lies in [lo, hi]. */
  ghost predicate WindowBounded(img: Image, x: nat, y: nat, radius: int, c: nat, lo: Byte, hi: Byte)
    requires img.Valid() && c < 4
  {
    forall nx: int, ny: int ::
      0 <= nx < img.width && 0 <= ny < img.height &&
      x - radius <= nx <= x + radius && y - radius <= ny <= y + radius ==>
        lo <= img.Channel(nx, ny, c) <= hi
  }

  /** A neighbour inside the window adds a non-negative weight and a weighted
      channel between lo and hi times that weight. */
  lemma ContributionWithin(img: Image, sw: int -> real, cw: int -> real, x: nat, y: nat,
                           radius: int, dx: int, dy: int, c: nat, lo: Byte, hi: Byte)
    requires img.Valid() && x < img.width && y < img.height && c < 3
    requires NonNegative(sw) && NonNegative(cw)
    requires -radius <= dx <= radius && -radius <= dy <= radius
    requires WindowBounded(img, x, y, radius, c, lo, hi)
    ensures Within(Contribution(img, sw, cw, x, y, dx, dy), c, lo as real, hi as real)
  {
    var nx, ny := x + dx, y + dy;
    if 0 <= ny < img.height && 0 <= nx < img.width {
      var sp, co := sw(dx * dx + dy * dy), cw(ColorDistSq(img, x, y, nx, ny));
      assert sp >= 0.0 && co >= 0.0;
      assert lo <= img.Channel(nx, ny, c) <= hi;
      WeightedWithin(Weight(sp, co), img.Channel(nx, ny, 0), img.Channel(nx, ny, 1),
                     img.Channel(nx, ny, 2), c, lo, hi);
    }
  }

  /** A single neighbour whose channel c is in [lo, hi], with a non-negative weight. */
  lemma WeightedWithin(weight: real, r: Byte, g: Byte, b: Byte, c: nat, lo: Byte, hi: Byte)
    requires weight >= 0.0 && c < 3
    requires c == 0 ==> lo <= r <= hi
    requires c == 1 ==> lo <= g <= hi
    requires c == 2 ==> lo <= b <= hi
    ensures Within(Weighted(weight, r, g, b), c, lo as real, hi as real)
  {
    var v := if c == 0 then r else if c == 1 then g else b;
    ScaledWithin(weight, v as real, Weighted(weight, r, g, b).Get(c), lo as real, hi as real);
  }

  /** g = v * t with t >= 0 and v in [lo, hi] lies between lo * t and hi * t. */
  lemma ScaledWithin(t: real, v: real, g: real, lo: real, hi: real)
    requires t >= 0.0 && lo <= v <= hi && g == v * t
    ensures lo * t <= g <= hi * t
  {
    MulWithin(t, lo, v, hi);
  }

  lemma PlusWithin(a: Acc, b: Acc, c: nat, lo: real, hi: real)
    requires c < 3 && Within(a, c, lo, hi) && Within(b, c, lo, hi)
    ensures Within(a.Plus(b), c, lo, hi)
  {
    assert lo * (a.total + b.total) == lo * a.total + lo * b.total;
    assert hi * (a.total + b.total) == hi * a.total + hi * b.total;
  }

  lemma {:induction false} RowFromWithin(img: Image, sw: int -> real, cw: int -> real, x: nat, y: nat,
                                         radius: int, acc0: Acc, dy: int, dxEnd: int,
                                         c: nat, lo: Byte, hi: Byte)
    requires img.Valid() && x < img.width && y < img.height && c < 3
    requires NonNegative(sw) && NonNegative(cw)
    requires -radius <= dy <= radius && dxEnd <= radius + 1
    requires WindowBounded(img, x, y, radius, c, lo, hi)
    requires Within(acc0, c, lo as real, hi as real)
    ensures Within(RowFrom(img, sw, cw, x, y, radius, acc0, dy, dxEnd), c, lo as real, hi as real)
    decreases dxEnd + radius
  {
    if dxEnd > -radius {
      RowFromWithin(img, sw, cw, x, y, radius, acc0, dy, dxEnd - 1, c, lo, hi);
      ContributionWithin(img, sw, cw, x, y, radius, dxEnd - 1, dy, c, lo, hi);
      PlusWithin(RowFrom(img, sw, cw, x, y, radius, acc0, dy, dxEnd - 1),
                 Contribution(img, sw, cw, x, y, dxEnd - 1, dy), c, lo as real, hi as real);
    }
  }

  lemma {:induction false} WindowAccWithin(img: Image, sw: int -> real, cw: int -> real, x: nat, y: nat,
                                           radius: int, dyEnd: int, c: nat, lo: Byte, hi: Byte)
    requires img.Valid() && x < img.width && y < img.height && c < 3
    requires NonNegative(sw) && NonNegative(cw)
    requires dyEnd <= radius + 1
    requires WindowBounded(img, x, y, radius, c, lo, hi)
    ensures Within(WindowAcc(img, sw, cw, x, y, radius, dyEnd), c, lo as real, hi as real)
    decreases dyEnd + radius
  {
    if dyEnd > -radius {
      WindowAccWithin(img, sw, cw, x, y, radius, dyEnd - 1, c, lo, hi);
      RowFromWithin(img, sw, cw, x, y, radius, WindowAcc(img, sw, cw, x, y, radius, dyEnd - 1),
                    dyEnd - 1, radius + 1, c, lo, hi);
    }
  }

  /** The per-pixel form of SmoothedWithin. */
  lemma ChannelWithin(img: Image, d: int, sw: int -> real, cw: int -> real,
                      x: nat, y: nat, c: nat, lo: Byte, hi: Byte)
    requires img.Valid() && x < img.width && y < img.height && c < 3 && d >= 0
    requires NonNegative(sw) && NonNegative(cw)
    requires WindowBounded(img, x, y, Radius(d), c, lo, hi)
    ensures lo <= SmoothedChannel(img, d, sw, cw, x, y, c) <= hi
  {
    var radius := Radius(d);
    WindowAccWithin(img, sw, cw, x, y, radius, radius + 1, c, lo, hi);
    var acc := Window(img, d, sw, cw, x, y);
    if acc.total == 0.0 {
      assert x - radius <= x <= x + radius && y - radius <= y <= y + radius;
      assert lo <= img.Channel(x, y, c) <= hi;
    } else {
      AverageWithin(acc, c, lo, hi);
    }
  }

  /** The stored average of totals that keep channel c in [lo, hi] is in [lo, hi]. */
  lemma AverageWithin(acc: Acc, c: nat, lo: Byte, hi: Byte)
    requires c < 3 && Within(acc, c, lo as real, hi as real) && acc.total != 0.0
    ensures lo <= ToUint8Clamp(acc.Get(c) / acc.total) <= hi
  {
    DivBetween(acc.Get(c), acc.total, lo as real, hi as real);
    ToUint8ClampWithin(acc.Get(c) / acc.total, lo, hi);
  }

  /** With non-negative weights each smoothed R, G, B channel lies between the
      smallest and the largest value of that channel in the pixel's window. */
  lemma SmoothedWithin(img: Image, d: int, sw: int -> real, cw: int -> real,
                       x: nat, y: nat, c: nat, lo: Byte, hi: Byte)
    requires img.Valid() && x < img.width && y < img.height && c < 3 && d >= 0
    requires NonNegative(sw) && NonNegative(cw)
    requires WindowBounded(img, x, y, Radius(d), c, lo, hi)
    ensures lo <= Smoothed(img, d, sw, cw).Channel(x, y, c) <= hi
  {
    SmoothedAt(img, d, sw, cw, x, y, c);
    ChannelWithin(img, d, sw, cw, x, y, c, lo, hi);
  }

  /** The alpha channel of the result is the input's alpha. */
  lemma SmoothedAlpha(img: Image, d: int, sw: int -> real, cw: int -> real, x: nat, y: nat)
    requires img.Valid() && x < img.width && y < img.height
    ensures Smoothed(img, d, sw, cw).Channel(x, y, 3) == img.Channel(x, y, 3)
  {
    SmoothedAt(img, d, sw, cw, x, y, 3);
  }

  /** A negative window size leaves an empty window: every pixel keeps its value. */
  lemma EmptyWindow(img: Image, d: int, sw: int -> real, cw: int -> real, x: nat, y: nat)
    requires img.Valid() && x < img.width && y < img.height && d < 0
    ensures Window(img, d, sw, cw, x, y) == Zero
  {
  }

  /** An image of one uniform colour passes through the filter unchanged. */
  lemma SmoothedUniform(img: Image, d: int, sw: int -> real, cw: int -> real, col: seq<Byte>)
    requires img.Valid() && |col| == 4 && Uniform(img.data, col)
    requires NonNegative(sw) && NonNegative(cw)
    ensures Smoothed(img, d, sw, cw) == img
  {
    var w, h := img.width, img.height;
    var r := Smoothed(img, d, sw, cw);
    forall i | 0 <= i < |img.data|
      ensures r.data[i] == img.data[i]
    {
      var p := CoordOf(w, h, i);
      UniformChannel(img, col, p.x, p.y, p.c);
      SmoothedAt(img, d, sw, cw, p.x, p.y, p.c);
      if p.c < 3 {
        if d < 0 {
          EmptyWindow(img, d, sw, cw, p.x, p.y);
        } else {
          forall nx: int, ny: int | 0 <= nx < w && 0 <= ny < h
            ensures img.Channel(nx, ny, p.c) == col[p.c]
          {
            UniformChannel(img, col, nx, ny, p.c);
          }
          SmoothedWithin(img, d, sw, cw, p.x, p.y, p.c, col[p.c], col[p.c]);
        }
      }
    }
  }

  lemma ContributionWeight(img: Image, sw: int -> real, cw: int -> real, x: nat, y: nat, dx: int, dy: int)
    requires img.Valid() && x < img.width && y < img.height
    requires NonNegative(sw) && NonNegative(cw)
    ensures Contribution(img, sw, cw, x, y, dx, dy).total >= 0.0
  {
    var nx, ny := x + dx, y + dy;
    if 0 <= ny < img.height && 0 <= nx < img.width {
    }
  }

  /** With non-negative weights a row only adds to the total weight. */
  lemma {:induction false} RowFromGrows(img: Image, sw: int -> real, cw: int -> real, x: nat, y: nat,
                                        radius: int, acc0: Acc, dy: int, dxEnd: int)
    requires img.Valid() && x < img.width && y < img.height
    requires NonNegative(sw) && NonNegative(cw)
    ensures RowFrom(img, sw, cw, x, y, radius, acc0, dy, dxEnd).total >= acc0.total
    decreases dxEnd + radius
  {
    if dxEnd > -radius {
      RowFromGrows(img, sw, cw, x, y, radius, acc0, dy, dxEnd - 1);
      ContributionWeight(img, sw, cw, x, y, dxEnd - 1, dy);
    }
  }

  /** The centre row, once it reaches offset 0, has added the centre's positive weight. */
  lemma {:induction false} CentreRowPositive(img: Image, sw: int -> real, cw: int -> real, x: nat, y: nat,
                                             radius: int, acc0: Acc, dxEnd: int)
    requires img.Valid() && x < img.width && y < img.height
    requires Positive(sw) && Positive(cw) && radius >= 0 && dxEnd >= 1
    ensures RowFrom(img, sw, cw, x, y, radius, acc0, 0, dxEnd).total > acc0.total
    decreases dxEnd
  {
    assert NonNegative(sw) && NonNegative(cw);
    if dxEnd == 1 {
      RowFromGrows(img, sw, cw, x, y, radius, acc0, 0, 0);
    } else {
      CentreRowPositive(img, sw, cw, x, y, radius, acc0, dxEnd - 1);
      ContributionWeight(img, sw, cw, x, y, dxEnd - 1, 0);
    }
  }

  /** Once the window has passed its centre row, the total weight is positive. */
  lemma {:induction false} WindowAccPositive(img: Image, sw: int -> real, cw: int -> real, x: nat, y: nat,
                                             radius: int, dyEnd: int)
    requires img.Valid() && x < img.width && y < img.height
    requires Positive(sw) && Positive(cw) && radius >= 0 && dyEnd >= 1
    ensures WindowAcc(img, sw, cw, x, y, radius, dyEnd).total > 0.0
    decreases dyEnd
  {
    assert NonNegative(sw) && NonNegative(cw);
    var prev := WindowAcc(img, sw, cw, x, y, radius, dyEnd - 1);
    assert WindowAcc(img, sw, cw, x, y, radius, dyEnd) ==
           RowFrom(img, sw, cw, x, y, radius, prev, dyEnd - 1, radius + 1);
    if dyEnd == 1 {
      WindowAccNonneg(img, sw, cw, x, y, radius, 0);
      CentreRowPositive(img, sw, cw, x, y, radius, prev, radius + 1);
    } else {
      WindowAccPositive(img, sw, cw, x, y, radius, dyEnd - 1);
      RowFromGrows(img, sw, cw, x, y, radius, prev, dyEnd - 1, radius + 1);
    }
  }

  lemma {:induction false} WindowAccNonneg(img: Image, sw: int -> real, cw: int -> real, x: nat, y: nat,
                                           radius: int, dyEnd: int)
    requires img.Valid() && x < img.width && y < img.height
    requires NonNegative(sw) && NonNegative(cw)
    ensures WindowAcc(img, sw, cw, x, y, radius, dyEnd).total >= 0.0
    decreases dyEnd + radius
  {
    if dyEnd > -radius {
      WindowAccNonneg(img, sw, cw, x, y, radius, dyEnd - 1);
      RowFromGrows(img, sw, cw, x, y, radius, WindowAcc(img, sw, cw, x, y, radius, dyEnd - 1),
                   dyEnd - 1, radius + 1);
    }
  }

  /** With weights that never underflow to zero and d >= 0 the centre pixel is in
      its own window, so the zero-weight fallback is never taken. */
  lemma PositiveWeightsNoFallback(img: Image, d: int, sw: int -> real, cw: int -> real, x: nat, y: nat)
    requires img.Valid() && x < img.width && y < img.height && d >= 0
    requires Positive(sw) && Positive(cw)
    ensures Window(img, d, sw, cw, x, y).total > 0.0
  {
    WindowAccPositive(img, sw, cw, x, y, Radius(d), Radius(d) + 1);
  }
}
