/** The pixel buffer shared by every operation: an RGBA8 image stored row-major,
    four channels per pixel, channel c of pixel (x, y) at index (y*width + x)*4 + c.
    Also the two rounding rules the engine relies on (Math.round and the
    Uint8ClampedArray store) and the BT.601 luma formula. */
module Pixels {

  /** One unsigned 8-bit channel value. */
  type Byte = v: int | 0 <= v < 256

  /** A pixel buffer: width, height and the flat channel data. */
  datatype Image = Image(width: nat, height: nat, data: seq<Byte>)
  {
    /** The buffer invariant: no partial pixels, exactly width*height of them. */
    predicate Valid() {
      |data| == width * height * 4
    }

    /** Channel c of the pixel at column x, row y. */
    function Channel(x: nat, y: nat, c: nat): Byte
      requires Valid() && x < width && y < height && c < 4
    {
      OffsetInBounds(width, height, x, y, c);
      data[Offset(width, x, y, c)]
    }
  }

  /** The position of one channel of one pixel. */
  datatype Coord = Coord(x: nat, y: nat, c: nat)

  /** The index arithmetic (y*width + x)*4 + c. */
  function Offset(w: nat, x: nat, y: nat, c: nat): nat {
    (y * w + x) * 4 + c
  }

  lemma MulMono(a: int, b: int, k: nat)
    requires a <= b
    ensures a * k <= b * k
  {
    assert (b - a) * k >= 0;
  }

  lemma MulSucc(a: int, k: int)
    ensures (a + 1) * k == a * k + k
  {
  }

  /** Every channel of an in-range pixel has its index inside the buffer. */
  lemma OffsetInBounds(w: nat, h: nat, x: nat, y: nat, c: nat)
    requires x < w && y < h && c < 4
    ensures Offset(w, x, y, c) + (3 - c) < w * h * 4
  {
    RowFits(w, h, y);
  }

  /** Row y of a w-by-h buffer starts at y*w*4 and ends inside the buffer. */
  lemma RowFits(w: nat, h: nat, y: nat)
    requires y < h
    ensures y * w * 4 + w * 4 <= w * h * 4
    ensures (y + 1) * w * 4 == y * w * 4 + w * 4
  {
    MulMono(y + 1, h, w);
    MulSucc(y, w);
    assert (y + 1) * w <= h * w == w * h;
  }

  /** Row-major numbering of the pixels is one-to-one. */
  lemma RowMajorInjective(w: nat, x1: nat, y1: nat, x2: nat, y2: nat)
    requires x1 < w && x2 < w
    requires y1 * w + x1 == y2 * w + x2
    ensures x1 == x2 && y1 == y2
  {
    MulSucc(y1, w);
    MulSucc(y2, w);
    MulCancel(y1, y2 + 1, w);
    MulCancel(y2, y1 + 1, w);
  }

  /** A product smaller than another with the same non-negative factor has the
      smaller other factor. */
  lemma MulCancel(a: int, b: int, k: nat)
    requires a * k < b * k
    ensures a < b
  {
  }

  /** Distinct (x, y, c) with x < w and c < 4 never share an index. */
  lemma OffsetInjective(w: nat, x1: nat, y1: nat, c1: nat, x2: nat, y2: nat, c2: nat)
    requires x1 < w && x2 < w && c1 < 4 && c2 < 4
    requires Offset(w, x1, y1, c1) == Offset(w, x2, y2, c2)
    ensures x1 == x2 && y1 == y2 && c1 == c2
  {
    var p1, p2 := y1 * w + x1, y2 * w + x2;
    assert p1 * 4 + c1 == p2 * 4 + c2;
    assert c1 == c2 && p1 == p2;
    RowMajorInjective(w, x1, y1, x2, y2);
  }

  /** The inverse of Offset: which channel of which pixel index i designates,
      found row by row. */
  function CoordOf(w: nat, h: nat, i: nat): (p: Coord)
    requires i < w * h * 4
    ensures p.x < w && p.y < h && p.c < 4
    ensures Offset(w, p.x, p.y, p.c) == i
    decreases h
  {
    if i < w * 4 then
      assert 0 * w == 0;
      Coord(i / 4, 0, i % 4)
    else
      assert h >= 2 by {
        MulCancel(1, h, w * 4);
      }
      RowFits(w, h, h - 2);
      var p := CoordOf(w, h - 1, i - w * 4);
      MulSucc(p.y, w);
      Coord(p.x, p.y + 1, p.c)
  }

  /** CoordOf undoes Offset on every in-range position. */
  lemma CoordOfOffset(w: nat, h: nat, x: nat, y: nat, c: nat)
    requires x < w && y < h && c < 4
    ensures Offset(w, x, y, c) < w * h * 4
    ensures CoordOf(w, h, Offset(w, x, y, c)) == Coord(x, y, c)
  {
    OffsetInBounds(w, h, x, y, c);
    var p := CoordOf(w, h, Offset(w, x, y, c));
    OffsetInjective(w, p.x, p.y, p.c, x, y, c);
  }

  lemma MulNonneg(a: real, b: real)
    requires a >= 0.0 && b >= 0.0
    ensures a * b >= 0.0
  {
  }

  /** Scaling by a non-negative weight keeps the order. */
  lemma MulWithin(w: real, lo: real, v: real, hi: real)
    requires w >= 0.0 && lo <= v <= hi
    ensures w * lo <= w * v <= w * hi
  {
    MulNonneg(w, v - lo);
    MulNonneg(w, hi - v);
  }

  /** Division by a positive real keeps a value that is between lo and hi times
      the divisor between lo and hi. */
  lemma DivBetween(t: real, n: real, lo: real, hi: real)
    requires n > 0.0 && lo * n <= t <= hi * n
    ensures lo <= t / n <= hi
  {
    var q := t / n;
    assert q * n == t;
    RealMulCancel(lo, q, n);
    RealMulCancel(q, hi, n);
  }

  /** A positive factor can be cancelled from both sides of an inequality. */
  lemma RealMulCancel(a: real, b: real, k: real)
    requires k > 0.0 && a * k <= b * k
    ensures a <= b
  {
  }

  /** The half-width Math.floor(size / 2) of a square window of the given size;
      Dafny's division by a positive divisor rounds down, as Math.floor does. */
  function Radius(size: int): (radius: int)
    ensures 2 * radius <= size < 2 * radius + 2
  {
    size / 2
  }

  /** JavaScript's Math.round on an exact real: halves go toward +infinity. */
  function Round(v: real): (r: int)
    ensures r as real - 0.5 <= v < r as real + 0.5
  {
    (v + 0.5).Floor
  }

  /** Math.round of an integral value is that value. */
  lemma RoundIntegral(n: int)
    ensures Round(n as real) == n
  {
  }

  /** The unrounded BT.601 luma 0.299 R + 0.587 G + 0.114 B. */
  function Brightness(r: int, g: int, b: int): real {
    0.299 * r as real + 0.587 * g as real + 0.114 * b as real
  }

  /** Rounded luma, as every stage of the engine computes it. */
  function Luma(r: Byte, g: Byte, b: Byte): (l: Byte)
    ensures l as real - 0.5 <= Brightness(r, g, b) < l as real + 0.5
  {
    var v := Brightness(r, g, b);
    assert 0.0 <= v <= 255.0;
    Round(v)
  }

  /** The weights sum to one, so a gray pixel keeps its level. */
  lemma LumaOfGray(v: Byte)
    ensures Luma(v, v, v) == v
  {
    assert Brightness(v, v, v) == v as real;
    RoundIntegral(v);
  }

  /** The luma of the channel-wise negative is at least 255 minus the luma. */
  lemma LumaOfNegative(r: Byte, g: Byte, b: Byte)
    ensures Luma(255 - r, 255 - g, 255 - b) >= 255 - Luma(r, g, b)
  {
    var t := Brightness(r, g, b);
    assert Brightness(255 - r, 255 - g, 255 - b) == 255.0 - t;
  }

  /** The store of a real into a Uint8ClampedArray cell (ECMAScript ToUint8Clamp):
      clamp to [0, 255], then round to nearest, ties to even. */
  function ToUint8Clamp(v: real): (r: Byte)
    ensures v <= 0.0 ==> r == 0
    ensures v >= 255.0 ==> r == 255
    ensures 0.0 <= v <= 255.0 ==> v - 0.5 <= r as real <= v + 0.5
  {
    if v <= 0.0 then 0
    else if v >= 255.0 then 255
    else
      var f := v.Floor;
      if f as real + 0.5 < v then f + 1
      else if v < f as real + 0.5 then f
      else if f % 2 == 0 then f else f + 1
  }

  /** A value between two channel values is stored between them. */
  lemma ToUint8ClampWithin(v: real, lo: Byte, hi: Byte)
    requires lo as real <= v <= hi as real
    ensures lo <= ToUint8Clamp(v) <= hi
  {
  }

  /** Every pixel of the data has the colour col (R, G, B, A). */
  ghost predicate Uniform(s: seq<Byte>, col: seq<Byte>)
    requires |col| == 4
  {
    forall i :: 0 <= i < |s| ==> s[i] == col[i % 4]
  }

  /** Channel access on a uniform image gives the colour's channel. */
  lemma UniformChannel(img: Image, col: seq<Byte>, x: nat, y: nat, c: nat)
    requires img.Valid() && |col| == 4 && Uniform(img.data, col)
    requires x < img.width && y < img.height && c < 4
    ensures img.Channel(x, y, c) == col[c]
  {
    OffsetInBounds(img.width, img.height, x, y, c);
    assert Offset(img.width, x, y, c) % 4 == c;
  }
}
