/** Local-mean binarisation (ImageProcessor.adaptiveThreshold): a pixel becomes
    white when its rounded luma exceeds the mean rounded luma of its in-bounds
    window minus C, and black otherwise; alpha becomes opaque. */
module Threshold {
  import opened Pixels

  /** The running sum of rounded lumas and the number of pixels summed. */
  datatype Tally = Tally(sum: int, count: int)
  {
    function Plus(o: Tally): Tally {
      Tally(sum + o.sum, count + o.count)
    }
  }

  /** The rounded luma of pixel (x, y). */
  function LumaAt(img: Image, x: nat, y: nat): Byte
    requires img.Valid() && x < img.width && y < img.height
  {
    Luma(img.Channel(x, y, 0), img.Channel(x, y, 1), img.Channel(x, y, 2))
  }

  /** What the neighbour at offset (dx, dy) adds: its luma and one to the count,
      or nothing when it lies outside the image. */
  function Neighbor(img: Image, x: nat, y: nat, dx: int, dy: int): Tally
    requires img.Valid() && x < img.width && y < img.height
  {
    var nx, ny := x + dx, y + dy;
    if 0 <= ny < img.height && 0 <= nx < img.width then Tally(LumaAt(img, nx, ny), 1)
    else Tally(0, 0)
  }

  /** t0 extended, in loop order, by the neighbours (-radius, dy) .. (dxEnd - 1, dy). */
  function RowFrom(img: Image, x: nat, y: nat, radius: int, t0: Tally, dy: int, dxEnd: int): Tally
    requires img.Valid() && x < img.width && y < img.height
    decreases dxEnd + radius
  {
    if dxEnd <= -radius then t0
    else RowFrom(img, x, y, radius, t0, dy, dxEnd - 1).Plus(Neighbor(img, x, y, dxEnd - 1, dy))
  }

  /** The tally after rows dy = -radius .. dyEnd - 1 of the window. */
  function WindowFrom(img: Image, x: nat, y: nat, radius: int, dyEnd: int): Tally
    requires img.Valid() && x < img.width && y < img.height
    decreases dyEnd + radius
  {
    if dyEnd <= -radius then Tally(0, 0)
    else RowFrom(img, x, y, radius, WindowFrom(img, x, y, radius, dyEnd - 1), dyEnd - 1, radius + 1)
  }

  /** The tally over the whole window of pixel (x, y). */
  function Window(img: Image, blockSize: int, x: nat, y: nat): Tally
    requires img.Valid() && x < img.width && y < img.height
  {
    WindowFrom(img, x, y, Radius(blockSize), Radius(blockSize) + 1)
  }

  /** centerGray > mean - C, where mean = sum / count. With count = 0 the mean is
      NaN in JavaScript and the comparison is false. */
  predicate AboveLocalMean(centre: int, t: Tally, C: real) {
    t.count != 0 && centre as real > t.sum as real / t.count as real - C
  }

  /** Channel c of output pixel (x, y). */
  function BinarizedChannel(img: Image, blockSize: int, C: real, x: nat, y: nat, c: nat): Byte
    requires img.Valid() && x < img.width && y < img.height && c < 4
  {
    if c == 3 then 255
    else if AboveLocalMean(LumaAt(img, x, y), Window(img, blockSize, x, y), C) then 255 else 0
  }

  /** The result buffer of adaptiveThreshold. */
  function Binarized(img: Image, blockSize: int, C: real): (r: Image)
    requires img.Valid()
    ensures r.Valid() && r.width == img.width && r.height == img.height
  {
    var w, h := img.width, img.height;
    Image(w, h, seq(w * h * 4, i requires 0 <= i < w * h * 4 =>
      var p := CoordOf(w, h, i); BinarizedChannel(img, blockSize, C, p.x, p.y, p.c)))
  }

  lemma BinarizedAt(img: Image, blockSize: int, C: real, x: nat, y: nat, c: nat)
    requires img.Valid() && x < img.width && y < img.height && c < 4
    ensures Offset(img.width, x, y, c) < |img.data|
    ensures Binarized(img, blockSize, C).data[Offset(img.width, x, y, c)] ==
            BinarizedChannel(img, blockSize, C, x, y, c)
  {
    CoordOfOffset(img.width, img.height, x, y, c);
  }

  /** BinarizedAt at the flat index k of channel c of pixel (x, y). */
  lemma BinarizedData(img: Image, blockSize: int, C: real, x: nat, y: nat, c: nat, k: nat)
    requires img.Valid() && x < img.width && y < img.height && c < 4
    requires k == Offset(img.width, x, y, c)
    ensures k < |Binarized(img, blockSize, C).data|
    ensures Binarized(img, blockSize, C).data[k] == BinarizedChannel(img, blockSize, C, x, y, c)
  {
    BinarizedAt(img, blockSize, C, x, y, c);
  }

  /** Channel c of every pixel of row y of spec, which starts at flat index
      rowStart, holds what the binarised image has there. */
  ghost predicate RowMatches(spec: seq<Byte>, img: Image, blockSize: int, C: real, y: nat, rowStart: nat, c: nat)
    requires img.Valid() && y < img.height && c < 4
  {
    forall x {:trigger BinarizedChannel(img, blockSize, C, x, y, c)} :: 0 <= x < img.width ==>
      rowStart + x * 4 + c < |spec| && spec[rowStart + x * 4 + c] == BinarizedChannel(img, blockSize, C, x, y, c)
  }

  /** The channels of row y of the result, which starts at flat index rowStart. */
  lemma BinarizedRow(img: Image, blockSize: int, C: real, y: nat, rowStart: nat)
    requires img.Valid() && y < img.height && rowStart == y * img.width * 4
    ensures RowMatches(Binarized(img, blockSize, C).data, img, blockSize, C, y, rowStart, 0)
    ensures RowMatches(Binarized(img, blockSize, C).data, img, blockSize, C, y, rowStart, 1)
    ensures RowMatches(Binarized(img, blockSize, C).data, img, blockSize, C, y, rowStart, 2)
    ensures RowMatches(Binarized(img, blockSize, C).data, img, blockSize, C, y, rowStart, 3)
  {
    forall x | 0 <= x < img.width {
      BinarizedData(img, blockSize, C, x, y, 0, rowStart + x * 4);
    }
    forall x | 0 <= x < img.width {
      BinarizedData(img, blockSize, C, x, y, 1, rowStart + x * 4 + 1);
    }
    forall x | 0 <= x < img.width {
      BinarizedData(img, blockSize, C, x, y, 2, rowStart + x * 4 + 2);
    }
    forall x | 0 <= x < img.width {
      BinarizedData(img, blockSize, C, x, y, 3, rowStart + x * 4 + 3);
    }
  }

  /** The pixel at flat index k = (y*width + x)*4 and its rounded luma. */
  lemma LumaAtIndex(img: Image, x: nat, y: nat, k: int)
    requires img.Valid() && x < img.width && y < img.height
    requires k == (y * img.width + x) * 4
    ensures 0 <= k && k + 3 < |img.data|
    ensures LumaAt(img, x, y) == Luma(img.data[k], img.data[k + 1], img.data[k + 2])
  {
    OffsetInBounds(img.width, img.height, x, y, 0);
  }

  /** ImageProcessor.adaptiveThreshold: for every pixel, tallies the window and
      writes the binary result at (y*width + x)*4. */
  method AdaptiveThreshold(img: Image, blockSize: int, C: real) returns (result: Image)
    requires img.Valid()
    ensures result == Binarized(img, blockSize, C)
  {
    var width, height := img.width, img.height;
    ghost var spec := Binarized(img, blockSize, C).data;
    var resultData := new Byte[width * height * 4];
    var radius := blockSize / 2;
    var y := 0;
    while y < height
      invariant 0 <= y <= height
      invariant forall i :: 0 <= i < y * width * 4 ==> resultData[i] == spec[i]
    {
      ghost var rowStart := y * width * 4;
      RowFits(width, height, y);
      BinarizedRow(img, blockSize, C, y, rowStart);
      ThresholdRow(img, blockSize, radius, C, y, resultData, spec, rowStart);
      y := y + 1;
    }
    assert |spec| == width * height * 4 == y * width * 4;
    assert resultData[..] == spec;
    result := Image(width, height, resultData[..]);
  }

  /** The x loop of adaptiveThreshold for row y, which starts at rowStart. */
  method ThresholdRow(img: Image, blockSize: int, radius: int, C: real, y: nat,
                      resultData: array<Byte>, ghost spec: seq<Byte>, ghost rowStart: nat)
    requires img.Valid() && y < img.height && radius == Radius(blockSize)
    requires rowStart == y * img.width * 4 && rowStart + img.width * 4 <= |spec| == resultData.Length
    requires RowMatches(spec, img, blockSize, C, y, rowStart, 0)
    requires RowMatches(spec, img, blockSize, C, y, rowStart, 1)
    requires RowMatches(spec, img, blockSize, C, y, rowStart, 2)
    requires RowMatches(spec, img, blockSize, C, y, rowStart, 3)
    requires forall i :: 0 <= i < rowStart ==> resultData[i] == spec[i]
    modifies resultData
    ensures forall i :: 0 <= i < rowStart + img.width * 4 ==> resultData[i] == spec[i]
    ensures forall i :: rowStart + img.width * 4 <= i < resultData.Length ==> resultData[i] == old(resultData[i])
  {
    var width := img.width;
    var x := 0;
    while x < width
      invariant 0 <= x <= width
      invariant forall i :: 0 <= i < rowStart + x * 4 ==> resultData[i] == spec[i]
      invariant forall i :: rowStart + img.width * 4 <= i < resultData.Length ==> resultData[i] == old(resultData[i])
    {
      var centerIndex := (y * width + x) * 4;
      assert centerIndex == rowStart + x * 4;
      var value := ThresholdPixel(img, blockSize, radius, C, x, y);
      RowMatchesAt(spec, img, blockSize, C, y, rowStart, x);
      resultData[centerIndex] := value;
      resultData[centerIndex + 1] := value;
      resultData[centerIndex + 2] := value;
      resultData[centerIndex + 3] := 255;
      forall i | 0 <= i < centerIndex + 4 ensures resultData[i] == spec[i] {
        if i >= centerIndex {
          assert i == centerIndex || i == centerIndex + 1 || i == centerIndex + 2 || i == centerIndex + 3;
        }
      }
      x := x + 1;
    }
  }

  /** The body of the x loop of adaptiveThreshold: the binary value of pixel
      (x, y). */
  method ThresholdPixel(img: Image, blockSize: int, radius: int, C: real, x: nat, y: nat)
    returns (value: Byte)
    requires img.Valid() && x < img.width && y < img.height && radius == Radius(blockSize)
    ensures value == BinarizedChannel(img, blockSize, C, x, y, 0)
  {
    var t := WindowSum(img, x, y, radius);
    assert t == Window(img, blockSize, x, y);
    var centerIndex := (y * img.width + x) * 4;
    LumaAtIndex(img, x, y, centerIndex);
    var centerGray := Luma(img.data[centerIndex], img.data[centerIndex + 1], img.data[centerIndex + 2]);
    if t.count == 0 {
      // an empty window has no mean (NaN in JavaScript), and no value exceeds it
      value := 0;
    } else {
      var mean := t.sum as real / t.count as real;
      var threshold := mean - C;
      value := if centerGray as real > threshold then 255 else 0;
    }
  }

  /** The four channels of pixel x of a matching row. */
  lemma RowMatchesAt(spec: seq<Byte>, img: Image, blockSize: int, C: real, y: nat, rowStart: nat, x: nat)
    requires img.Valid() && y < img.height && x < img.width
    requires RowMatches(spec, img, blockSize, C, y, rowStart, 0) && RowMatches(spec, img, blockSize, C, y, rowStart, 1)
    requires RowMatches(spec, img, blockSize, C, y, rowStart, 2) && RowMatches(spec, img, blockSize, C, y, rowStart, 3)
    ensures rowStart + x * 4 + 3 < |spec|
    ensures spec[rowStart + x * 4] == BinarizedChannel(img, blockSize, C, x, y, 0)
    ensures spec[rowStart + x * 4 + 1] == BinarizedChannel(img, blockSize, C, x, y, 0)
    ensures spec[rowStart + x * 4 + 2] == BinarizedChannel(img, blockSize, C, x, y, 0)
    ensures spec[rowStart + x * 4 + 3] == 255
  {
    assert BinarizedChannel(img, blockSize, C, x, y, 1) == BinarizedChannel(img, blockSize, C, x, y, 0);
    assert BinarizedChannel(img, blockSize, C, x, y, 2) == BinarizedChannel(img, blockSize, C, x, y, 0);
    assert BinarizedChannel(img, blockSize, C, x, y, 3) == 255;
  }

  /** The dy loop of adaptiveThreshold for pixel (x, y). */
  method WindowSum(img: Image, x: nat, y: nat, radius: int) returns (t: Tally)
    requires img.Valid() && x < img.width && y < img.height
    ensures t == WindowFrom(img, x, y, radius, radius + 1)
  {
    t := Tally(0, 0);
    var dy := -radius;
    while dy <= radius
      invariant -radius <= dy && (radius >= 0 ==> dy <= radius + 1) && (radius < 0 ==> dy == -radius)
      invariant t == WindowFrom(img, x, y, radius, dy)
    {
      t := RowSum(img, x, y, radius, t, dy);
      dy := dy + 1;
    }
  }

  /** One more neighbour of the row. */
  lemma RowFromStep(img: Image, x: nat, y: nat, radius: int, t0: Tally, dy: int, dx: int)
    requires img.Valid() && x < img.width && y < img.height && dx >= -radius
    ensures RowFrom(img, x, y, radius, t0, dy, dx + 1) ==
            RowFrom(img, x, y, radius, t0, dy, dx).Plus(Neighbor(img, x, y, dx, dy))
  {
  }

  /** The dx loop of adaptiveThreshold: adds row dy of the window to t0. */
  method RowSum(img: Image, x: nat, y: nat, radius: int, t0: Tally, dy: int) returns (t: Tally)
    requires img.Valid() && x < img.width && y < img.height
    ensures t == RowFrom(img, x, y, radius, t0, dy, radius + 1)
  {
    var width, height := img.width, img.height;
    t := t0;
    var dx := -radius;
    while dx <= radius
      invariant -radius <= dx && (radius >= 0 ==> dx <= radius + 1) && (radius < 0 ==> dx == -radius)
      invariant t == RowFrom(img, x, y, radius, t0, dy, dx)
    {
      var ny, nx := y + dy, x + dx;
      if ny >= 0 && ny < height && nx >= 0 && nx < width {
        var index := (ny * width + nx) * 4;
        LumaAtIndex(img, nx, ny, index);
        var gray := Luma(img.data[index], img.data[index + 1], img.data[index + 2]);
        assert Neighbor(img, x, y, dx, dy) == Tally(gray, 1);
        t := Tally(t.sum + gray, t.count + 1);
      } else {
        assert Neighbor(img, x, y, dx, dy) == Tally(0, 0);
      }
      RowFromStep(img, x, y, radius, t0, dy, dx);
      dx := dx + 1;
    }
  }

  /** Every pixel is black or white (R = G = B, each 0 or 255) and opaque. */
  ghost predicate IsBinary(img: Image)
    requires img.Valid()
  {
    forall x: nat, y: nat, c: nat :: x < img.width && y < img.height && c < 4 ==>
      img.Channel(x, y, c) == (if c == 3 then 255 else img.Channel(x, y, 0)) &&
      (img.Channel(x, y, c) == 0 || img.Channel(x, y, c) == 255)
  }

  /** adaptiveThreshold always produces a binary, opaque image. */
  lemma BinarizedIsBinary(img: Image, blockSize: int, C: real)
    requires img.Valid()
    ensures IsBinary(Binarized(img, blockSize, C))
  {
    var r := Binarized(img, blockSize, C);
    forall x: nat, y: nat, c: nat | x < img.width && y < img.height && c < 4
      ensures r.Channel(x, y, c) == (if c == 3 then 255 else r.Channel(x, y, 0))
      ensures r.Channel(x, y, c) == 0 || r.Channel(x, y, c) == 255
    {
      BinarizedAt(img, blockSize, C, x, y, c);
      BinarizedAt(img, blockSize, C, x, y, 0);
    }
  }

  /** A row only adds to the count. */
  lemma {:induction false} RowFromCountGrows(img: Image, x: nat, y: nat, radius: int,
                                             t0: Tally, dy: int, dxEnd: int)
    requires img.Valid() && x < img.width && y < img.height
    ensures RowFrom(img, x, y, radius, t0, dy, dxEnd).count >= t0.count
    decreases dxEnd + radius
  {
    if dxEnd > -radius {
      RowFromCountGrows(img, x, y, radius, t0, dy, dxEnd - 1);
    }
  }

  /** The centre row, once it reaches offset 0, has counted the centre pixel. */
  lemma {:induction false} CentreRowCounted(img: Image, x: nat, y: nat, radius: int,
                                            t0: Tally, dxEnd: int)
    requires img.Valid() && x < img.width && y < img.height && radius >= 0 && dxEnd >= 1
    ensures RowFrom(img, x, y, radius, t0, 0, dxEnd).count > t0.count
    decreases dxEnd
  {
    if dxEnd == 1 {
      RowFromCountGrows(img, x, y, radius, t0, 0, 0);
    } else {
      CentreRowCounted(img, x, y, radius, t0, dxEnd - 1);
    }
  }

  lemma {:induction false} WindowFromCount(img: Image, x: nat, y: nat, radius: int, dyEnd: int)
    requires img.Valid() && x < img.width && y < img.height && radius >= 0
    ensures WindowFrom(img, x, y, radius, dyEnd).count >= 0
    ensures dyEnd >= 1 ==> WindowFrom(img, x, y, radius, dyEnd).count >= 1
    decreases dyEnd + radius
  {
    if dyEnd > -radius {
      var prev := WindowFrom(img, x, y, radius, dyEnd - 1);
      WindowFromCount(img, x, y, radius, dyEnd - 1);
      if dyEnd == 1 {
        CentreRowCounted(img, x, y, radius, prev, radius + 1);
      } else {
        RowFromCountGrows(img, x, y, radius, prev, dyEnd - 1, radius + 1);
      }
    }
  }

  /** With blockSize >= 0 the centre is in its own window, so count >= 1 and the
      mean is a number. */
  lemma WindowCountPositive(img: Image, blockSize: int, x: nat, y: nat)
    requires img.Valid() && x < img.width && y < img.height && blockSize >= 0
    ensures Window(img, blockSize, x, y).count >= 1
  {
    WindowFromCount(img, x, y, Radius(blockSize), Radius(blockSize) + 1);
  }

  /** Every pixel of img has rounded luma L. */
  ghost predicate FlatLuma(img: Image, L: int)
    requires img.Valid()
  {
    forall x: nat, y: nat :: x < img.width && y < img.height ==> LumaAt(img, x, y) == L
  }

  lemma {:induction false} RowFromFlat(img: Image, L: int, x: nat, y: nat, radius: int,
                                       t0: Tally, dy: int, dxEnd: int)
    requires img.Valid() && x < img.width && y < img.height && FlatLuma(img, L)
    requires t0.sum == L * t0.count
    ensures RowFrom(img, x, y, radius, t0, dy, dxEnd).sum ==
            L * RowFrom(img, x, y, radius, t0, dy, dxEnd).count
    decreases dxEnd + radius
  {
    if dxEnd > -radius {
      var prev := RowFrom(img, x, y, radius, t0, dy, dxEnd - 1);
      RowFromFlat(img, L, x, y, radius, t0, dy, dxEnd - 1);
      var nb := Neighbor(img, x, y, dxEnd - 1, dy);
      NeighborFlat(img, L, x, y, dxEnd - 1, dy);
      assert RowFrom(img, x, y, radius, t0, dy, dxEnd) == prev.Plus(nb);
      MulAdd(L, prev.count, nb.count);
    }
  }

  /** On an image of one luma a neighbour adds L per pixel counted. */
  lemma NeighborFlat(img: Image, L: int, x: nat, y: nat, dx: int, dy: int)
    requires img.Valid() && x < img.width && y < img.height && FlatLuma(img, L)
    ensures Neighbor(img, x, y, dx, dy).sum == L * Neighbor(img, x, y, dx, dy).count
  {
    var nx, ny := x + dx, y + dy;
    if 0 <= ny < img.height && 0 <= nx < img.width {
      assert LumaAt(img, nx, ny) == L;
    }
  }

  lemma MulAdd(L: int, a: int, b: int)
    ensures L * a + L * b == L * (a + b)
  {
  }

  lemma {:induction false} WindowFromFlat(img: Image, L: int, x: nat, y: nat, radius: int, dyEnd: int)
    requires img.Valid() && x < img.width && y < img.height && FlatLuma(img, L)
    ensures WindowFrom(img, x, y, radius, dyEnd).sum == L * WindowFrom(img, x, y, radius, dyEnd).count
    decreases dyEnd + radius
  {
    if dyEnd > -radius {
      WindowFromFlat(img, L, x, y, radius, dyEnd - 1);
      RowFromFlat(img, L, x, y, radius, WindowFrom(img, x, y, radius, dyEnd - 1), dyEnd - 1, radius + 1);
    } else {
      assert WindowFrom(img, x, y, radius, dyEnd) == Tally(0, 0);
    }
  }

  lemma MeanOfConstant(L: int, n: int)
    requires n >= 1
    ensures (L * n) as real / n as real == L as real
  {
    assert (L * n) as real == L as real * n as real;
  }

  /** On an image of one constant luma, with C > 0 and blockSize >= 0, a pixel's
      luma L exceeds its local mean L minus C. */
  lemma FlatPixelAbove(img: Image, blockSize: int, C: real, L: int, x: nat, y: nat)
    requires img.Valid() && x < img.width && y < img.height
    requires FlatLuma(img, L) && C > 0.0 && blockSize >= 0
    ensures AboveLocalMean(LumaAt(img, x, y), Window(img, blockSize, x, y), C)
  {
    var t := Window(img, blockSize, x, y);
    WindowCountPositive(img, blockSize, x, y);
    WindowFromFlat(img, L, x, y, Radius(blockSize), Radius(blockSize) + 1);
    MeanOfConstant(L, t.count);
    assert t.sum as real / t.count as real == L as real;
  }

  /** On an image of one constant luma and with C > 0 and blockSize >= 0, every
      pixel lies above its local mean minus C: the result is entirely white. */
  lemma BinarizedFlat(img: Image, blockSize: int, C: real, L: int)
    requires img.Valid() && FlatLuma(img, L) && C > 0.0 && blockSize >= 0
    ensures Uniform(Binarized(img, blockSize, C).data, [255, 255, 255, 255])
  {
    var r := Binarized(img, blockSize, C);
    forall i | 0 <= i < |r.data|
      ensures r.data[i] == [255, 255, 255, 255][i % 4]
    {
      var p := CoordOf(img.width, img.height, i);
      assert r.data[i] == BinarizedChannel(img, blockSize, C, p.x, p.y, p.c);
      FlatPixelAbove(img, blockSize, C, L, p.x, p.y);
    }
  }

  /** An image of one colour has one constant luma. */
  lemma UniformIsFlat(img: Image, col: seq<Byte>)
    requires img.Valid() && |col| == 4 && Uniform(img.data, col)
    ensures FlatLuma(img, Luma(col[0], col[1], col[2]))
  {
    forall x: nat, y: nat | x < img.width && y < img.height
      ensures LumaAt(img, x, y) == Luma(col[0], col[1], col[2])
    {
      UniformChannel(img, col, x, y, 0);
      UniformChannel(img, col, x, y, 1);
      UniformChannel(img, col, x, y, 2);
    }
  }
}
