/** The three per-pixel passes over a buffer: conversion to gray (toGrayscale),
    the colour negative (invert), both in place, and the mean luma of a buffer
    (calculateMean). */
module Tone {
  import opened Pixels

  /** Channel i of the grayscale conversion of s: the pixel's rounded luma in
      R, G and B, the alpha channel untouched. */
  function GrayAt(s: seq<Byte>, i: nat): Byte
    requires |s| % 4 == 0 && i < |s|
  {
    var p := i - i % 4;
    if i % 4 == 3 then s[i] else Luma(s[p], s[p + 1], s[p + 2])
  }

  /** The whole buffer after toGrayscale. */
  function Grayscaled(s: seq<Byte>): (r: seq<Byte>)
    requires |s| % 4 == 0
    ensures |r| == |s|
  {
    seq(|s|, i requires 0 <= i < |s| => GrayAt(s, i))
  }

  /** Channel i of the negative of s: 255 - c in R, G and B, alpha untouched. */
  function InvertAt(s: seq<Byte>, i: nat): Byte
    requires i < |s|
  {
    if i % 4 == 3 then s[i] else 255 - s[i]
  }

  /** The whole buffer after invert. */
  function Inverted(s: seq<Byte>): (r: seq<Byte>)
    ensures |r| == |s|
  {
    seq(|s|, i requires 0 <= i < |s| => InvertAt(s, i))
  }

  /** ImageProcessor.toGrayscale on the pixel data: each pixel's R, G, B are
      overwritten with its rounded luma, four channels at a time. */
  method ToGrayscale(a: array<Byte>)
    requires a.Length % 4 == 0
    modifies a
    ensures a[..] == Grayscaled(old(a[..]))
  {
    ghost var s := a[..];
    var i := 0;
    while i < a.Length
      invariant 0 <= i <= a.Length && i % 4 == 0
      invariant forall j :: 0 <= j < i ==> a[j] == GrayAt(s, j)
      invariant forall j :: i <= j < a.Length ==> a[j] == s[j]
    {
      PixelBase(i);
      var gray := Luma(a[i], a[i + 1], a[i + 2]);
      a[i] := gray;
      a[i + 1] := gray;
      a[i + 2] := gray;
      assert GrayAt(s, i) == gray && GrayAt(s, i + 1) == gray && GrayAt(s, i + 2) == gray;
      assert GrayAt(s, i + 3) == a[i + 3];
      i := i + 4;
    }
    assert a[..] == Grayscaled(s);
  }

  /** ImageProcessor.invert on the pixel data: R, G, B become 255 - c in place. */
  method Invert(a: array<Byte>)
    requires a.Length % 4 == 0
    modifies a
    ensures a[..] == Inverted(old(a[..]))
  {
    ghost var s := a[..];
    var i := 0;
    while i < a.Length
      invariant 0 <= i <= a.Length && i % 4 == 0
      invariant forall j :: 0 <= j < i ==> a[j] == InvertAt(s, j)
      invariant forall j :: i <= j < a.Length ==> a[j] == s[j]
    {
      PixelBase(i);
      a[i] := 255 - a[i];
      a[i + 1] := 255 - a[i + 1];
      a[i + 2] := 255 - a[i + 2];
      assert InvertAt(s, i + 3) == a[i + 3];
      i := i + 4;
    }
    assert a[..] == Inverted(s);
  }

  /** Every pixel of the grayscale buffer has R = G = B = its original rounded
      luma, and keeps its alpha. */
  lemma GrayscaledPixel(s: seq<Byte>, k: nat)
    requires |s| % 4 == 0 && k % 4 == 0 && k + 3 < |s|
    ensures Grayscaled(s)[k] == Luma(s[k], s[k + 1], s[k + 2])
    ensures Grayscaled(s)[k + 1] == Grayscaled(s)[k] && Grayscaled(s)[k + 2] == Grayscaled(s)[k]
    ensures Grayscaled(s)[k + 3] == s[k + 3]
  {
    var r := Grayscaled(s);
    PixelBase(k);
    assert r[k] == GrayAt(s, k) && r[k + 1] == GrayAt(s, k + 1);
    assert r[k + 2] == GrayAt(s, k + 2) && r[k + 3] == GrayAt(s, k + 3);
  }

  /** The four channels of the pixel starting at k. */
  lemma PixelBase(k: nat)
    requires k % 4 == 0
    ensures (k + 1) % 4 == 1 && (k + 2) % 4 == 2 && (k + 3) % 4 == 3
    ensures k - k % 4 == k && (k + 1) - (k + 1) % 4 == k
    ensures (k + 2) - (k + 2) % 4 == k && (k + 3) - (k + 3) % 4 == k
  {
  }

  /** Index i of a buffer of whole pixels lies in the pixel starting at k. */
  lemma PixelOf(i: nat, n: nat) returns (k: nat)
    requires n % 4 == 0 && i < n
    ensures k == i - i % 4 && k % 4 == 0 && k + 3 < n
    ensures i == k || i == k + 1 || i == k + 2 || i == k + 3
  {
    k := i - i % 4;
  }

  /** Graying an already gray buffer changes nothing: the luma weights sum to one. */
  lemma GrayscaleIdempotent(s: seq<Byte>)
    requires |s| % 4 == 0
    ensures Grayscaled(Grayscaled(s)) == Grayscaled(s)
  {
    var g := Grayscaled(s);
    forall i | 0 <= i < |s|
      ensures Grayscaled(g)[i] == g[i]
    {
      var k := PixelOf(i, |s|);
      GrayOfGrayPixel(s, k);
    }
  }

  /** The pixel at k of a gray buffer is left as it is by a second conversion. */
  lemma GrayOfGrayPixel(s: seq<Byte>, k: nat)
    requires |s| % 4 == 0 && k % 4 == 0 && k + 3 < |s|
    ensures var g := Grayscaled(s);
      && Grayscaled(g)[k] == g[k] && Grayscaled(g)[k + 1] == g[k + 1]
      && Grayscaled(g)[k + 2] == g[k + 2] && Grayscaled(g)[k + 3] == g[k + 3]
  {
    var g := Grayscaled(s);
    GrayscaledPixel(s, k);
    GrayscaledPixel(g, k);
    LumaOfGray(g[k]);
  }

  /** The negative maps R, G, B to 255 - c and keeps alpha. */
  lemma InvertedPixel(s: seq<Byte>, k: nat)
    requires k % 4 == 0 && k + 3 < |s|
    ensures Inverted(s)[k] == 255 - s[k] && Inverted(s)[k + 1] == 255 - s[k + 1]
    ensures Inverted(s)[k + 2] == 255 - s[k + 2] && Inverted(s)[k + 3] == s[k + 3]
  {
    var r := Inverted(s);
    assert r[k] == InvertAt(s, k) && r[k + 1] == InvertAt(s, k + 1);
    assert r[k + 2] == InvertAt(s, k + 2) && r[k + 3] == InvertAt(s, k + 3);
  }

  /** Inverting twice gives back the original buffer. */
  lemma InvertInvolution(s: seq<Byte>)
    ensures Inverted(Inverted(s)) == s
  {
    forall i | 0 <= i < |s|
      ensures Inverted(Inverted(s))[i] == s[i]
    {
      assert Inverted(Inverted(s))[i] == InvertAt(Inverted(s), i);
    }
  }

  /** The rounded lumas of all pixels of s, summed. */
  function LumaSum(s: seq<Byte>): int
    requires |s| % 4 == 0
  {
    if |s| == 0 then 0
    else
      var n := |s| - 4;
      LumaSum(s[..n]) + Luma(s[n], s[n + 1], s[n + 2])
  }

  /** The value calculateMean returns: the average rounded luma, 0 for no pixels. */
  function MeanBrightness(s: seq<Byte>): real
    requires |s| % 4 == 0
  {
    if |s| == 0 then 0.0 else LumaSum(s) as real / (|s| / 4) as real
  }

  /** ImageProcessor.calculateMean: accumulates the rounded luma of every pixel
      and their count, and divides unless there were none. */
  method CalculateMean(s: seq<Byte>) returns (mean: real)
    requires |s| % 4 == 0
    ensures mean == MeanBrightness(s)
  {
    var sum := 0;
    var count := 0;
    var i := 0;
    while i < |s|
      invariant 0 <= i <= |s| && i % 4 == 0
      invariant sum == LumaSum(s[..i]) && count * 4 == i
    {
      var k := PixelOf(i, |s|);
      LumaSumSnoc(s, i);
      sum := sum + Luma(s[i], s[i + 1], s[i + 2]);
      count := count + 1;
      i := i + 4;
    }
    assert s[..i] == s;
    assert count == |s| / 4;
    mean := if count > 0 then sum as real / count as real else 0.0;
  }

  /** Extending a prefix by one pixel adds that pixel's luma. */
  lemma LumaSumSnoc(s: seq<Byte>, i: nat)
    requires i % 4 == 0 && i + 4 <= |s|
    ensures LumaSum(s[..i + 4]) == LumaSum(s[..i]) + Luma(s[i], s[i + 1], s[i + 2])
  {
    var t := s[..i + 4];
    assert t[..i] == s[..i];
    assert t[i] == s[i] && t[i + 1] == s[i + 1] && t[i + 2] == s[i + 2];
  }

  /** Each pixel contributes a value in [0, 255] to the sum. */
  lemma {:induction false} LumaSumBounds(s: seq<Byte>)
    requires |s| % 4 == 0
    ensures 0 <= LumaSum(s) <= 255 * (|s| / 4)
  {
    if |s| > 0 {
      LumaSumBounds(s[..|s| - 4]);
    }
  }

  /** calculateMean returns a channel level: a value in [0, 255]. */
  lemma MeanInRange(s: seq<Byte>)
    requires |s| % 4 == 0
    ensures 0.0 <= MeanBrightness(s) <= 255.0
  {
    if |s| > 0 {
      LumaSumBounds(s);
      var n := (|s| / 4) as real;
      var t := LumaSum(s) as real;
      assert 0.0 <= t <= 255.0 * n;
      DivBetween(t, n, 0.0, 255.0);
    }
  }

  lemma DivSum(a: real, b: real, n: real)
    requires n > 0.0
    ensures a / n + b / n == (a + b) / n
  {
  }

  /** Taking a prefix of whole pixels commutes with inversion. */
  lemma InvertedPrefix(s: seq<Byte>, n: nat)
    requires n <= |s|
    ensures Inverted(s)[..n] == Inverted(s[..n])
  {
    forall i | 0 <= i < n
      ensures Inverted(s)[..n][i] == Inverted(s[..n])[i]
    {
      assert Inverted(s)[i] == InvertAt(s, i);
      assert Inverted(s[..n])[i] == InvertAt(s[..n], i);
    }
  }

  /** The lumas of the negative add up to at least 255 per pixel minus the
      original lumas. */
  lemma {:induction false} LumaSumOfInverted(s: seq<Byte>)
    requires |s| % 4 == 0
    ensures LumaSum(Inverted(s)) >= 255 * (|s| / 4) - LumaSum(s)
  {
    if |s| > 0 {
      var n := |s| - 4;
      InvertedPrefix(s, n);
      LumaSumOfInverted(s[..n]);
      InvertedPixel(s, n);
      LumaOfNegative(s[n], s[n + 1], s[n + 2]);
    }
  }

  /** A dark buffer becomes a light one: the mean of the negative is at least
      255 minus the original mean, so a mean below 120 turns into one above 135. */
  lemma MeanOfInverted(s: seq<Byte>)
    requires |s| % 4 == 0
    ensures |s| > 0 ==> MeanBrightness(Inverted(s)) >= 255.0 - MeanBrightness(s)
  {
    if |s| > 0 {
      LumaSumOfInverted(s);
      MeanBound(LumaSum(Inverted(s)) as real, LumaSum(s) as real, (|s| / 4) as real);
    }
  }

  lemma MeanBound(a: real, b: real, n: real)
    requires n > 0.0 && a + b >= 255.0 * n
    ensures a / n >= 255.0 - b / n
  {
    DivSum(a, b, n);
    DivBetween(a + b, n, 255.0, (a + b) / n);
  }

  /** The negative of a one-colour buffer is one colour: the negative colour. */
  lemma InvertedUniform(s: seq<Byte>, col: seq<Byte>)
    requires |col| == 4 && Uniform(s, col)
    ensures Uniform(Inverted(s), [255 - col[0], 255 - col[1], 255 - col[2], col[3]])
  {
    var neg := [255 - col[0], 255 - col[1], 255 - col[2], col[3]];
    forall i | 0 <= i < |s|
      ensures Inverted(s)[i] == neg[i % 4]
    {
      assert Inverted(s)[i] == InvertAt(s, i);
    }
  }

  /** Graying a one-colour buffer gives one gray level with the same alpha. */
  lemma GrayscaledUniform(s: seq<Byte>, col: seq<Byte>)
    requires |s| % 4 == 0 && |col| == 4 && Uniform(s, col)
    ensures var l := Luma(col[0], col[1], col[2]); Uniform(Grayscaled(s), [l, l, l, col[3]])
  {
    var l := Luma(col[0], col[1], col[2]);
    forall i | 0 <= i < |s|
      ensures Grayscaled(s)[i] == [l, l, l, col[3]][i % 4]
    {
      var p := i - i % 4;
      PixelBase(p);
      assert p % 4 == 0;
      assert s[p] == col[0] && s[p + 1] == col[1] && s[p + 2] == col[2];
      assert Grayscaled(s)[i] == GrayAt(s, i);
    }
  }
}
