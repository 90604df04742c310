/** Perspective correction (ImageProcessor.perspectiveTransform): every destination
    pixel is mapped to a source point by bilinear interpolation of the four corners,
    and the source is resampled there. */
module Warp {
  import opened Pixels
  import opened Resample

  /** The eight corner coordinates, in the order top-left, top-right,
      bottom-right, bottom-left. */
  datatype Quad = Quad(x0: real, y0: real, x1: real, y1: real,
                       x2: real, y2: real, x3: real, y3: real)

  datatype Point = Point(x: real, y: real)

  /** The normalised parameter i / (n - 1), or 0 when n - 1 is 0. */
  function Param(i: nat, n: nat): (u: real)
    ensures i < n ==> 0.0 <= u <= 1.0
    ensures n == 1 ==> u == 0.0
    ensures n >= 2 ==> u * (n - 1) as real == i as real
  {
    var m := n as int - 1;
    if m == 0 then 0.0 else i as real / m as real
  }

  /** The bilinear blend of four corner values with weights (1-u)(1-v), u(1-v), uv, (1-u)v. */
  function Bilerp(u: real, v: real, a: real, b: real, c: real, d: real): real {
    var oneMinusU, oneMinusV := 1.0 - u, 1.0 - v;
    oneMinusU * oneMinusV * a + u * oneMinusV * b + u * v * c + oneMinusU * v * d
  }

  /** The source point of destination pixel (x, y). */
  function SourcePoint(q: Quad, dw: nat, dh: nat, x: nat, y: nat): Point {
    var u, v := Param(x, dw), Param(y, dh);
    Point(Bilerp(u, v, q.x0, q.x1, q.x2, q.x3), Bilerp(u, v, q.y0, q.y1, q.y2, q.y3))
  }

  function Min4(a: real, b: real, c: real, d: real): real { Min(Min(a, b), Min(c, d)) }
  function Max4(a: real, b: real, c: real, d: real): real { Max(Max(a, b), Max(c, d)) }

  /** For u, v in [0, 1] the blend lies between the smallest and largest corner value. */
  lemma BilerpInRange(u: real, v: real, a: real, b: real, c: real, d: real)
    requires 0.0 <= u <= 1.0 && 0.0 <= v <= 1.0
    ensures Min4(a, b, c, d) <= Bilerp(u, v, a, b, c, d) <= Max4(a, b, c, d)
  {
    BilinearWeights(u, v);
    Convex4(Min4(a, b, c, d), Max4(a, b, c, d), a, b, c, d,
            (1.0 - u) * (1.0 - v), u * (1.0 - v), u * v, (1.0 - u) * v);
  }

  /** Every source point of an in-range destination pixel lies in the corners' bounding box. */
  lemma SourcePointInBox(q: Quad, dw: nat, dh: nat, x: nat, y: nat)
    requires x < dw && y < dh
    ensures Min4(q.x0, q.x1, q.x2, q.x3) <= SourcePoint(q, dw, dh, x, y).x <= Max4(q.x0, q.x1, q.x2, q.x3)
    ensures Min4(q.y0, q.y1, q.y2, q.y3) <= SourcePoint(q, dw, dh, x, y).y <= Max4(q.y0, q.y1, q.y2, q.y3)
  {
    var u, v := Param(x, dw), Param(y, dh);
    BilerpInRange(u, v, q.x0, q.x1, q.x2, q.x3);
    BilerpInRange(u, v, q.y0, q.y1, q.y2, q.y3);
  }

  /** The corners of a w-by-h image itself. */
  function FullQuad(w: nat, h: nat): Quad {
    Quad(0.0, 0.0, (w - 1) as real, 0.0, (w - 1) as real, (h - 1) as real, 0.0, (h - 1) as real)
  }

  lemma ParamScale(i: nat, n: nat)
    requires i < n
    ensures Param(i, n) * (n - 1) as real == i as real
  {
  }

  /** With the image's own corners and its own size, pixel (x, y) maps to (x, y). */
  lemma SourcePointOfFullQuad(w: nat, h: nat, x: nat, y: nat)
    requires x < w && y < h
    ensures SourcePoint(FullQuad(w, h), w, h, x, y) == Point(x as real, y as real)
  {
    var u, v := Param(x, w), Param(y, h);
    var W, H := (w - 1) as real, (h - 1) as real;
    ParamScale(x, w);
    ParamScale(y, h);
    calc {
      (1.0 - u) * (1.0 - v) * 0.0 + u * (1.0 - v) * W + u * v * W + (1.0 - u) * v * 0.0;
      u * W * ((1.0 - v) + v);
      x as real;
    }
    calc {
      (1.0 - u) * (1.0 - v) * 0.0 + u * (1.0 - v) * 0.0 + u * v * H + (1.0 - u) * v * H;
      v * H * (u + (1.0 - u));
      y as real;
    }
  }

  /** Channel c of destination pixel (x, y). */
  function WarpedChannel(src: Image, q: Quad, dw: nat, dh: nat, x: nat, y: nat, c: nat): Byte
    requires src.Valid() && src.width >= 1 && src.height >= 1 && c < 4
  {
    var p := SourcePoint(q, dw, dh, x, y);
    BilinearSample(src, p.x, p.y).Get(c)
  }

  /** The destination buffer that perspectiveTransform produces. */
  function Warped(src: Image, q: Quad, dw: nat, dh: nat): (r: Image)
    requires src.Valid() && src.width >= 1 && src.height >= 1
    ensures r.Valid() && r.width == dw && r.height == dh
  {
    Image(dw, dh, seq(dw * dh * 4, i requires 0 <= i < dw * dh * 4 =>
      var p := CoordOf(dw, dh, i); WarpedChannel(src, q, dw, dh, p.x, p.y, p.c)))
  }

  /** Each destination channel is the source sampled at the pixel's source point. */
  lemma WarpedAt(src: Image, q: Quad, dw: nat, dh: nat, x: nat, y: nat, c: nat)
    requires src.Valid() && src.width >= 1 && src.height >= 1
    requires x < dw && y < dh && c < 4
    ensures Warped(src, q, dw, dh).Channel(x, y, c) ==
      BilinearSample(src, SourcePoint(q, dw, dh, x, y).x, SourcePoint(q, dw, dh, x, y).y).Get(c)
  {
    CoordOfOffset(dw, dh, x, y, c);
  }

  /** Warping an image onto its own corners at its own size reproduces it exactly. */
  lemma WarpFullQuadIsIdentity(src: Image)
    requires src.Valid() && src.width >= 1 && src.height >= 1
    ensures Warped(src, FullQuad(src.width, src.height), src.width, src.height) == src
  {
    var w, h := src.width, src.height;
    var r := Warped(src, FullQuad(w, h), w, h);
    forall i | 0 <= i < |src.data|
      ensures r.data[i] == src.data[i]
    {
      var p := CoordOf(w, h, i);
      SourcePointOfFullQuad(w, h, p.x, p.y);
      SampleAtPixel(src, p.x, p.y);
    }
  }

  /** A 1-by-1 destination has u = v = 0 and samples the first corner. */
  lemma WarpSinglePixel(src: Image, q: Quad)
    requires src.Valid() && src.width >= 1 && src.height >= 1
    ensures Warped(src, q, 1, 1).data ==
      var s := BilinearSample(src, q.x0, q.y0); [s.r, s.g, s.b, s.a]
  {
    var s := BilinearSample(src, q.x0, q.y0);
    assert SourcePoint(q, 1, 1, 0, 0) == Point(q.x0, q.y0);
    var r := Warped(src, q, 1, 1);
    forall c | 0 <= c < 4 ensures r.data[c] == s.Get(c) {
      assert CoordOf(1, 1, c) == Coord(0, 0, c);
    }
  }

  /** The flat-index form of WarpedAt: channel c of pixel (x, y) sits at k. */
  lemma WarpedData(src: Image, q: Quad, dw: nat, dh: nat, x: nat, y: nat, c: nat, k: nat)
    requires src.Valid() && src.width >= 1 && src.height >= 1
    requires x < dw && y < dh && c < 4 && k == Offset(dw, x, y, c)
    ensures k < |Warped(src, q, dw, dh).data|
    ensures Warped(src, q, dw, dh).data[k] == WarpedChannel(src, q, dw, dh, x, y, c)
  {
    CoordOfOffset(dw, dh, x, y, c);
  }

  /** Channel c of every pixel of row y of spec, which starts at flat index
      rowStart, holds what the destination has there. */
  ghost predicate RowMatches(spec: seq<Byte>, src: Image, q: Quad, dw: nat, dh: nat, y: nat, rowStart: nat, c: nat)
    requires src.Valid() && src.width >= 1 && src.height >= 1 && y < dh && c < 4
  {
    forall x {:trigger WarpedChannel(src, q, dw, dh, x, y, c)} :: 0 <= x < dw ==>
      rowStart + x * 4 + c < |spec| && spec[rowStart + x * 4 + c] == WarpedChannel(src, q, dw, dh, x, y, c)
  }

  /** The channels of row y of the result, which starts at flat index rowStart. */
  lemma WarpedRow(src: Image, q: Quad, dw: nat, dh: nat, y: nat, rowStart: nat)
    requires src.Valid() && src.width >= 1 && src.height >= 1
    requires y < dh && rowStart == y * dw * 4
    ensures RowMatches(Warped(src, q, dw, dh).data, src, q, dw, dh, y, rowStart, 0)
    ensures RowMatches(Warped(src, q, dw, dh).data, src, q, dw, dh, y, rowStart, 1)
    ensures RowMatches(Warped(src, q, dw, dh).data, src, q, dw, dh, y, rowStart, 2)
    ensures RowMatches(Warped(src, q, dw, dh).data, src, q, dw, dh, y, rowStart, 3)
  {
    forall x | 0 <= x < dw {
      WarpedData(src, q, dw, dh, x, y, 0, rowStart + x * 4);
    }
    forall x | 0 <= x < dw {
      WarpedData(src, q, dw, dh, x, y, 1, rowStart + x * 4 + 1);
    }
    forall x | 0 <= x < dw {
      WarpedData(src, q, dw, dh, x, y, 2, rowStart + x * 4 + 2);
    }
    forall x | 0 <= x < dw {
      WarpedData(src, q, dw, dh, x, y, 3, rowStart + x * 4 + 3);
    }
  }

  /** The four channels of pixel x of a matching row are the pixel's sample. */
  lemma RowMatchesAt(spec: seq<Byte>, src: Image, q: Quad, dw: nat, dh: nat, y: nat, rowStart: nat,
                     x: nat, sample: Sample)
    requires src.Valid() && src.width >= 1 && src.height >= 1 && y < dh && x < dw
    requires RowMatches(spec, src, q, dw, dh, y, rowStart, 0) && RowMatches(spec, src, q, dw, dh, y, rowStart, 1)
    requires RowMatches(spec, src, q, dw, dh, y, rowStart, 2) && RowMatches(spec, src, q, dw, dh, y, rowStart, 3)
    requires sample == BilinearSample(src, SourcePoint(q, dw, dh, x, y).x, SourcePoint(q, dw, dh, x, y).y)
    ensures rowStart + x * 4 + 3 < |spec|
    ensures spec[rowStart + x * 4] == sample.r && spec[rowStart + x * 4 + 1] == sample.g
    ensures spec[rowStart + x * 4 + 2] == sample.b && spec[rowStart + x * 4 + 3] == sample.a
  {
    assert WarpedChannel(src, q, dw, dh, x, y, 0) == sample.r;
    assert WarpedChannel(src, q, dw, dh, x, y, 1) == sample.g;
    assert WarpedChannel(src, q, dw, dh, x, y, 2) == sample.b;
    assert WarpedChannel(src, q, dw, dh, x, y, 3) == sample.a;
  }

  /** ImageProcessor.perspectiveTransform: loops over rows and columns, writing the
      four channels of each destination pixel at (y*destWidth + x)*4. */
  method PerspectiveTransform(src: Image, q: Quad, destWidth: nat, destHeight: nat)
    returns (dest: Image)
    requires src.Valid() && src.width >= 1 && src.height >= 1
    ensures dest == Warped(src, q, destWidth, destHeight)
  {
    ghost var spec := Warped(src, q, destWidth, destHeight).data;
    var data := new Byte[destWidth * destHeight * 4];
    var y := 0;
    while y < destHeight
      invariant 0 <= y <= destHeight
      invariant forall i :: 0 <= i < y * destWidth * 4 ==> data[i] == spec[i]
    {
      ghost var rowStart := y * destWidth * 4;
      RowFits(destWidth, destHeight, y);
      WarpedRow(src, q, destWidth, destHeight, y, rowStart);
      WarpRow(src, q, destWidth, destHeight, y, data, spec, rowStart);
      y := y + 1;
    }
    assert |spec| == destWidth * destHeight * 4 == y * destWidth * 4;
    assert data[..] == spec;
    dest := Image(destWidth, destHeight, data[..]);
  }

  /** The inner loop of perspectiveTransform: fills row y of the destination, which
      starts at rowStart, with the values spec holds for it. */
  method WarpRow(src: Image, q: Quad, destWidth: nat, destHeight: nat, y: nat,
                 data: array<Byte>, ghost spec: seq<Byte>, ghost rowStart: nat)
    requires src.Valid() && src.width >= 1 && src.height >= 1
    requires rowStart == y * destWidth * 4 && rowStart + destWidth * 4 <= |spec| == data.Length
    requires y < destHeight
    requires RowMatches(spec, src, q, destWidth, destHeight, y, rowStart, 0)
    requires RowMatches(spec, src, q, destWidth, destHeight, y, rowStart, 1)
    requires RowMatches(spec, src, q, destWidth, destHeight, y, rowStart, 2)
    requires RowMatches(spec, src, q, destWidth, destHeight, y, rowStart, 3)
    requires forall i :: 0 <= i < rowStart ==> data[i] == spec[i]
    modifies data
    ensures forall i :: 0 <= i < rowStart + destWidth * 4 ==> data[i] == spec[i]
    ensures forall i :: rowStart + destWidth * 4 <= i < data.Length ==> data[i] == old(data[i])
  {
    var x := 0;
    while x < destWidth
      invariant 0 <= x <= destWidth
      invariant forall i :: 0 <= i < rowStart + x * 4 ==> data[i] == spec[i]
      invariant forall i :: rowStart + destWidth * 4 <= i < data.Length ==> data[i] == old(data[i])
    {
      var p := SourcePoint(q, destWidth, destHeight, x, y);
      var sample := BilinearSample(src, p.x, p.y);
      var destIndex := (y * destWidth + x) * 4;
      assert destIndex == rowStart + x * 4;
      RowMatchesAt(spec, src, q, destWidth, destHeight, y, rowStart, x, sample);
      data[destIndex] := sample.r;
      data[destIndex + 1] := sample.g;
      data[destIndex + 2] := sample.b;
      data[destIndex + 3] := sample.a;
      forall i | 0 <= i < destIndex + 4 ensures data[i] == spec[i] {
        if i >= destIndex {
          assert i == destIndex || i == destIndex + 1 || i == destIndex + 2 || i == destIndex + 3;
        }
      }
      x := x + 1;
    }
  }
}
