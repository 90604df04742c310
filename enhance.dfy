/** The black-and-white enhancement pipeline (the enhanceBAndW task): invert a
    dark image, convert to gray, smooth with the bilateral filter (d = 9) and
    binarise with the adaptive threshold (blockSize = 15, C = 8). The filter's
    two Math.exp weight terms, with sigma 75, are the parameters sw and cw. */
module Enhance {
  import opened Pixels
  import opened Tone
  import B = Bilateral
  import T = Threshold

  /** The default arguments of bilateralFilter and adaptiveThreshold. */
  const FilterDiameter := 9
  const BlockSize := 15
  const MeanOffset := 8.0

  /** An image whose mean rounded luma is below this is inverted first. */
  const DarkMean := 120.0

  lemma WholePixels(img: Image)
    requires img.Valid()
    ensures |img.data| % 4 == 0
  {
    assert img.width * img.height * 4 == (img.width * img.height) * 4;
  }

  /** toGrayscale on an image. */
  function Gray(img: Image): (r: Image)
    requires img.Valid()
    ensures r.Valid() && r.width == img.width && r.height == img.height
  {
    WholePixels(img);
    Image(img.width, img.height, Grayscaled(img.data))
  }

  /** invert on an image. */
  function Negative(img: Image): (r: Image)
    requires img.Valid()
    ensures r.Valid() && r.width == img.width && r.height == img.height
  {
    Image(img.width, img.height, Inverted(img.data))
  }

  /** The working image after the mean test: inverted exactly when its mean is
      below 120. */
  function Prepared(img: Image): (r: Image)
    requires img.Valid()
    ensures r.Valid() && r.width == img.width && r.height == img.height
  {
    WholePixels(img);
    if MeanBrightness(img.data) < DarkMean then Negative(img) else img
  }

  /** The image the enhanceBAndW task posts back. */
  function Enhanced(img: Image, sw: int -> real, cw: int -> real): (r: Image)
    requires img.Valid()
    ensures r.Valid() && r.width == img.width && r.height == img.height
  {
    var blurred := B.Smoothed(Gray(Prepared(img)), FilterDiameter, sw, cw);
    T.Binarized(blurred, BlockSize, MeanOffset)
  }

  /** The stages after the mean test always start from a light image: a
      mean below 120 is inverted into one of at least 135. */
  lemma PreparedIsLight(img: Image)
    requires img.Valid() && |img.data| > 0
    ensures MeanBrightness(Prepared(img).data) >= DarkMean
  {
    WholePixels(img);
    if MeanBrightness(img.data) < DarkMean {
      MeanOfInverted(img.data);
    }
  }

  /** The enhanced image is black and white and fully opaque. */
  lemma EnhancedIsBinary(img: Image, sw: int -> real, cw: int -> real)
    requires img.Valid()
    ensures T.IsBinary(Enhanced(img, sw, cw))
  {
    var blurred := B.Smoothed(Gray(Prepared(img)), FilterDiameter, sw, cw);
    T.BinarizedIsBinary(blurred, BlockSize, MeanOffset);
  }

  /** A one-colour picture has no local contrast: every pixel of the enhanced
      image is white. */
  lemma EnhancedUniform(img: Image, sw: int -> real, cw: int -> real, col: seq<Byte>)
    requires img.Valid() && |col| == 4 && Uniform(img.data, col)
    requires B.NonNegative(sw) && B.NonNegative(cw)
    ensures Uniform(Enhanced(img, sw, cw).data, [255, 255, 255, 255])
  {
    WholePixels(img);
    var pc: seq<Byte>;
    if MeanBrightness(img.data) < DarkMean {
      pc := [255 - col[0], 255 - col[1], 255 - col[2], col[3]];
      InvertedUniform(img.data, col);
    } else {
      pc := col;
    }
    var prepared := Prepared(img);
    assert Uniform(prepared.data, pc);
    var l := Luma(pc[0], pc[1], pc[2]);
    GrayscaledUniform(prepared.data, pc);
    var gray := Gray(prepared);
    assert Uniform(gray.data, [l, l, l, pc[3]]);
    B.SmoothedUniform(gray, FilterDiameter, sw, cw, [l, l, l, pc[3]]);
    T.UniformIsFlat(gray, [l, l, l, pc[3]]);
    LumaOfGray(l);
    T.BinarizedFlat(gray, BlockSize, MeanOffset, l);
  }
}
