# ImageProcessor pixel engine, modelled in Dafny

This project models the image-processing engine of the document-scanner web
worker: the static methods of `ImageProcessor` and the black-and-white
enhancement pipeline that the worker's `enhanceBAndW` task runs. Each operation
works on an RGBA8 pixel buffer. The buffer is stored row-major with four
channels per pixel, so channel `c` of pixel `(x, y)` is at index
`(y*width + x)*4 + c`.

Modules (one file each):

- `Pixels` (`pixels.dfy`): the buffer (`Image`, whose `Valid()` says it has
  exactly `width*height*4` channels) and the index arithmetic with its inverse
  `CoordOf`. It also holds `Math.round`, the `Uint8ClampedArray` store
  (`ToUint8Clamp`) and the rounded BT.601 luma `0.299 R + 0.587 G + 0.114 B`.
- `Resample` (`resample.dfy`): `bilinearSample`, a pure function.
- `Warp` (`warp.dfy`): `perspectiveTransform`. The specification function is
  `Warped`. The method `PerspectiveTransform` fills an `array` row by row, as
  the source's nested loops do, and is proved equal to `Warped`.
- `Tone` (`tone.dfy`): `toGrayscale` and `invert`, as methods that work in
  place on an `array` and are proved against `Grayscaled` and `Inverted`. Also
  `calculateMean`, as a loop proved against `MeanBrightness`.
- `Bilateral` (`bilateral.dfy`): `bilateralFilter`. Its four nested loops are
  the methods `BilateralFilter`, `FilterRow`, `WindowSum` and `RowSum`, with
  `FilterPixel` as the per-pixel body. They are proved against `Smoothed`.
- `Threshold` (`threshold.dfy`): `adaptiveThreshold`, written the same way and
  proved against `Binarized`.
- `Enhance` (`enhance.dfy`): the `enhanceBAndW` stage order as a pure function.
  The steps are: invert when the mean is below 120, then grayscale, then the
  bilateral filter with `d = 9`, then the adaptive threshold with
  `blockSize = 15` and `C = 8`.

Arithmetic is exact. Channel values are integers in [0, 255], and all
fractional quantities are Dafny `real`s. Three JavaScript behaviours are
written out:

- `Math.round` is `floor(v + 0.5)`, so halves go up.
- A store into a `Uint8ClampedArray` clamps to [0, 255] and rounds to nearest,
  ties to even.
- `Math.floor(d / 2)` is Dafny's `/`, which agrees with it for every integer `d`.

The two `Math.exp` weight terms of the bilateral filter are the parameters
`sw` (spatial, applied to `dx*dx + dy*dy`) and `cw` (colour, applied to the
squared RGB distance). Lemmas that need the weights to be non-negative or
positive say so with `NonNegative` or `Positive`.

When `blockSize` is negative, the adaptive threshold's window is empty. JavaScript
then computes the mean `0 / 0` as NaN, and `centerGray > NaN - C` is false, so
the pixel becomes 0. The model follows this behaviour
(`Threshold.AboveLocalMean`, `Threshold.ThresholdPixel`).

## Model

| member | source | states |
|---|---|---|
| Pixels.Image.Channel | imageProcessorWorker.js:144-146 | definition: channel `c` of pixel `(x, y)` is the buffer entry at `Offset`, read only for an in-range pixel |
| Pixels.Offset | imageProcessorWorker.js:49 | definition: the index `(y*width + x)*4 + c` of channel `c` of pixel `(x, y)`, as every loop of the engine computes it |
| Pixels.OffsetInBounds | imageProcessorWorker.js:79-82 | the index of channel `c` of an in-range pixel, and those of the channels after `c` up to the pixel's last one, lie inside a `width*height*4` buffer |
| Pixels.OffsetInjective | imageProcessorWorker.js:49-53 | distinct (pixel, channel) pairs of a row-major buffer never share an index, so each index is written by exactly one loop iteration |
| Pixels.CoordOf | imageProcessorWorker.js:49-53 | every index of a `w*h*4` buffer is `(y*w + x)*4 + c` for some in-range pixel `(x, y)` and channel `c < 4` |
| Pixels.CoordOfOffset | imageProcessorWorker.js:134-137 | `CoordOf` recovers the pixel and channel from `(y*w + x)*4 + c`, so it is the inverse of the index arithmetic |
| Pixels.RowFits | imageProcessorWorker.js:36-37 | row `y < h` of a `w`-wide buffer occupies `[y*w*4, (y+1)*w*4)`, inside the buffer |
| Pixels.Radius | imageProcessorWorker.js:125 | `Math.floor(d / 2)`: the largest `r` with `2r <= d` |
| Pixels.Round | imageProcessorWorker.js:84-87 | `Math.round`: the integer `r` with `r - 0.5 <= v < r + 0.5`, so halves round up |
| Pixels.Brightness | imageProcessorWorker.js:109 | definition: the unrounded luma `0.299 R + 0.587 G + 0.114 B` |
| Pixels.Luma | imageProcessorWorker.js:109 | the rounded BT.601 luma is a channel value within 0.5 of `0.299 R + 0.587 G + 0.114 B` |
| Pixels.LumaOfGray | imageProcessorWorker.js:109 | because the luma weights sum to 1, a gray pixel `(v, v, v)` has luma `v` |
| Pixels.LumaOfNegative | imageProcessorWorker.js:225 | the luma of the negative colour is at least 255 minus the luma of the colour |
| Pixels.ToUint8Clamp | imageProcessorWorker.js:162 | the store into a `Uint8ClampedArray`: 0 at or below 0, 255 at or above 255, and between them within 0.5 of the value |
| Pixels.ToUint8ClampWithin | imageProcessorWorker.js:162 | a value between two channel values is stored between them |
| Resample.Clamp | imageProcessorWorker.js:65-66 | `Math.max(0, Math.min(v, hi))` is in [0, hi], is `v` when `v` is in range, and is the nearer end otherwise |
| Resample.SampleSite | imageProcessorWorker.js:65-74 | `0 <= x0 <= x1 <= width-1` with `x1 <= x0+1`, the same for y, `0 <= dx, dy < 1`, `x0 + dx` and `y0 + dy` equal the clamped coordinates, and `dx = 0` when `x1 = x0` |
| Resample.BilinearWeights | imageProcessorWorker.js:76-86 | the four weights `(1-dx)(1-dy)`, `dx(1-dy)`, `(1-dx)dy` and `dx*dy` are non-negative and sum to 1 |
| Resample.Convex4 | imageProcessorWorker.js:84-99 | a convex combination of four values in [lo, hi] lies in [lo, hi] |
| Resample.Blend | imageProcessorWorker.js:84-99 | one channel of the four neighbours blended with the bilinear weights and rounded by `Math.round`; the result is in [0, 255] |
| Resample.BilinearSample | imageProcessorWorker.js:60-102 | for any real coordinate, every returned channel is in [0, 255], and only in-range pixels are read |
| Resample.PixelSample | imageProcessorWorker.js:101 | definition: the four channels of one pixel as an `{ r, g, b, a }` sample |
| Resample.SampleAtPixel | imageProcessorWorker.js:65-101 | sampling at an integer in-range coordinate returns exactly that pixel's r, g, b, a |
| Resample.SampleBeyondEdge | imageProcessorWorker.js:65-66 | a coordinate beyond an edge samples exactly as the same coordinate moved onto that edge, for each of the four edges |
| Resample.SampleBeyondCorner | imageProcessorWorker.js:65-71 | a coordinate beyond the image in both axes returns the nearest corner pixel |
| Warp.Param | imageProcessorWorker.js:38-39 | `u = x / (destWidth-1)` is in [0, 1] for an in-range `x`, is 0 when `destWidth` is 1, and otherwise satisfies `u * (destWidth-1) = x` |
| Warp.Bilerp | imageProcessorWorker.js:44-45 | definition: the corner blend `(1-u)(1-v)a + u(1-v)b + uv c + (1-u)v d` |
| Warp.SourcePoint | imageProcessorWorker.js:38-45 | definition: `(srcX, srcY)` of destination pixel `(x, y)`, from `u`, `v` and the eight corner coordinates |
| Warp.BilerpInRange | imageProcessorWorker.js:41-45 | for `u, v` in [0, 1], the corner blend lies between the smallest and the largest corner value |
| Warp.SourcePointInBox | imageProcessorWorker.js:38-45 | the source point `(srcX, srcY)` of every destination pixel lies in the bounding box of the four corners |
| Warp.SourcePointOfFullQuad | imageProcessorWorker.js:38-45 | with corners (0,0), (W-1,0), (W-1,H-1), (0,H-1) and a W-by-H destination, pixel `(x, y)` maps to `srcX = x`, `srcY = y` |
| Warp.WarpedChannel | imageProcessorWorker.js:47-53 | definition: channel `c` of destination pixel `(x, y)` is channel `c` of the sample at its source point |
| Warp.Warped | imageProcessorWorker.js:27-29 | the destination is a valid buffer of exactly `destWidth` by `destHeight` pixels |
| Warp.WarpedAt | imageProcessorWorker.js:44-53 | destination channel `c` of pixel `(x, y)` is channel `c` of the source sampled at that pixel's source point |
| Warp.PerspectiveTransform | imageProcessorWorker.js:23-58 | the nested loops produce exactly `Warped`: every destination index is written, with the sample of its own pixel |
| Warp.WarpRow | imageProcessorWorker.js:37-54 | the inner loop fills row `y` with the row's specified values, keeps the rows already written, and leaves every index after row `y` unchanged |
| Warp.WarpFullQuadIsIdentity | imageProcessorWorker.js:31-55 | warping an image onto its own corners at its own size returns the image unchanged |
| Warp.WarpSinglePixel | imageProcessorWorker.js:33-47 | a 1-by-1 destination has `u = v = 0` and no division by zero, and holds the source sampled at corner `(x0, y0)` |
| Tone.GrayAt | imageProcessorWorker.js:109-110 | definition: R, G and B of a pixel become its rounded luma, and alpha is kept |
| Tone.Grayscaled | imageProcessorWorker.js:108-111 | converting to gray keeps the buffer length |
| Tone.ToGrayscale | imageProcessorWorker.js:104-115 | the in-place loop leaves the array equal to `Grayscaled` of its old contents |
| Tone.GrayscaledPixel | imageProcessorWorker.js:109-110 | every pixel gets R = G = B = its rounded luma and keeps its alpha |
| Tone.GrayscaleIdempotent | imageProcessorWorker.js:108-111 | a second conversion to gray changes nothing |
| Tone.GrayscaledUniform | imageProcessorWorker.js:108-111 | a one-colour buffer becomes one gray level with the same alpha |
| Tone.InvertAt | imageProcessorWorker.js:225 | definition: R, G and B become `255 - c`, and alpha is kept |
| Tone.Inverted | imageProcessorWorker.js:224-226 | inverting keeps the buffer length |
| Tone.Invert | imageProcessorWorker.js:220-230 | the in-place loop leaves the array equal to `Inverted` of its old contents |
| Tone.InvertedPixel | imageProcessorWorker.js:225 | R, G and B become `255 - c`, and alpha is unchanged |
| Tone.InvertInvolution | imageProcessorWorker.js:224-226 | inverting twice gives back the original buffer |
| Tone.InvertedUniform | imageProcessorWorker.js:224-226 | the negative of a one-colour buffer is the negative colour everywhere |
| Tone.LumaSum | imageProcessorWorker.js:213-216 | definition: the sum of the rounded lumas of all pixels, in buffer order |
| Tone.MeanBrightness | imageProcessorWorker.js:217 | definition: the luma sum divided by the pixel count, or 0 when there are no pixels |
| Tone.CalculateMean | imageProcessorWorker.js:208-218 | the loop returns `MeanBrightness`: the summed rounded lumas over the pixel count, or 0 for an empty buffer |
| Tone.LumaSumSnoc | imageProcessorWorker.js:213-216 | one more loop step adds that pixel's rounded luma to the sum |
| Tone.LumaSumBounds | imageProcessorWorker.js:213-216 | the luma sum is between 0 and 255 times the pixel count |
| Tone.MeanInRange | imageProcessorWorker.js:217 | the mean is in [0, 255] |
| Tone.LumaSumOfInverted | imageProcessorWorker.js:213-216 | the lumas of the negative sum to at least 255 per pixel minus the original sum |
| Tone.MeanOfInverted | imageProcessorWorker.js:252-254 | for a non-empty buffer, the mean of the negative is at least 255 minus the original mean |
| Bilateral.DistSq | imageProcessorWorker.js:149-151 | definition: the squared RGB distance between two colours |
| Bilateral.ColorDistSq | imageProcessorWorker.js:149-151 | definition: the squared colour distance between the centre pixel and a neighbour |
| Bilateral.Weight | imageProcessorWorker.js:153 | the product of two non-negative weight terms is non-negative, and of two positive terms positive |
| Bilateral.Weighted | imageProcessorWorker.js:154-155 | definition: one neighbour's share of the totals: its weight, and its R, G and B times that weight |
| Bilateral.Contribution | imageProcessorWorker.js:141-155 | definition: an in-bounds neighbour adds its weight `sw(dx²+dy²) * cw(colour distance²)` to the total and its weighted colour to the sums; an out-of-bounds one adds nothing |
| Bilateral.RowFrom | imageProcessorWorker.js:140-157 | definition: the totals after the neighbours `dx = -radius ..` of one row, added in loop order |
| Bilateral.WindowAcc | imageProcessorWorker.js:139-158 | definition: the totals after the rows `dy = -radius ..` of the window, added in loop order |
| Bilateral.Window | imageProcessorWorker.js:125 | definition: the totals of the whole window of radius `Math.floor(d / 2)` |
| Bilateral.SmoothedChannel | imageProcessorWorker.js:159-164 | definition: alpha is copied; R, G, B are the weighted average stored through the clamp, or the centre's value when the total weight is 0 |
| Bilateral.Smoothed | imageProcessorWorker.js:124 | the result is a valid buffer of the input's size |
| Bilateral.SmoothedAt | imageProcessorWorker.js:159-164 | each result channel is the per-pixel formula `SmoothedChannel`: the window average stored through the clamp, the centre's value when the total weight is 0, or the copied alpha |
| Bilateral.BilateralFilter | imageProcessorWorker.js:117-170 | the four nested loops produce exactly `Smoothed` |
| Bilateral.FilterRow | imageProcessorWorker.js:131-165 | the x loop fills row `y` with the row's specified values, keeps the rows already written, and leaves every index after row `y` unchanged |
| Bilateral.FilterPixel | imageProcessorWorker.js:132-164 | the loop body yields all four result channels of pixel `(x, y)` |
| Bilateral.WindowSum | imageProcessorWorker.js:139-158 | the dy loop accumulates the whole window's totals |
| Bilateral.RowSum | imageProcessorWorker.js:140-157 | the dx loop adds one row of in-bounds neighbours, each weighted by `sw(dx²+dy²) * cw(colour distance²)`; it reads only in-bounds indices |
| Bilateral.AverageWithin | imageProcessorWorker.js:162 | a weighted average whose totals keep a channel in [lo, hi] is stored in [lo, hi] |
| Bilateral.SmoothedWithin | imageProcessorWorker.js:139-163 | with non-negative weights, each smoothed R, G, B lies between the smallest and the largest value of that channel in the pixel's window |
| Bilateral.SmoothedAlpha | imageProcessorWorker.js:164 | alpha is copied from the centre pixel |
| Bilateral.EmptyWindow | imageProcessorWorker.js:139-140 | a negative `d` gives an empty window, so every total is 0 |
| Bilateral.SmoothedUniform | imageProcessorWorker.js:130-165 | with non-negative weights, a one-colour image is returned unchanged |
| Bilateral.PositiveWeightsNoFallback | imageProcessorWorker.js:139-159 | with positive weights and `d >= 0`, the centre is in its own window, so the total weight is positive and the `totalWeight === 0` fallback is not taken |
| Threshold.LumaAt | imageProcessorWorker.js:196 | definition: the rounded luma of pixel `(x, y)` |
| Threshold.Neighbor | imageProcessorWorker.js:186-190 | definition: an in-bounds neighbour adds its rounded luma to the sum and 1 to the count; an out-of-bounds one adds nothing |
| Threshold.RowFrom | imageProcessorWorker.js:185-192 | definition: the tally after the neighbours `dx = -radius ..` of one row |
| Threshold.WindowFrom | imageProcessorWorker.js:184-193 | definition: the tally after the rows `dy = -radius ..` of the window |
| Threshold.Window | imageProcessorWorker.js:179 | definition: the tally of the whole window of radius `Math.floor(blockSize / 2)` |
| Threshold.AboveLocalMean | imageProcessorWorker.js:194-198 | definition: `centerGray > sum / count - C`, false when `count` is 0 because the mean is then NaN |
| Threshold.BinarizedChannel | imageProcessorWorker.js:194-200 | definition: R, G, B are 255 when the centre is above its local mean and 0 otherwise; alpha is 255 |
| Threshold.Binarized | imageProcessorWorker.js:178 | the result is a valid buffer of the input's size |
| Threshold.BinarizedAt | imageProcessorWorker.js:194-200 | each result channel is the per-pixel rule: R, G and B are 255 exactly when the centre's rounded luma exceeds the window mean minus `C`, and alpha is 255 |
| Threshold.AdaptiveThreshold | imageProcessorWorker.js:172-206 | the four nested loops produce exactly `Binarized` |
| Threshold.ThresholdRow | imageProcessorWorker.js:182-201 | the x loop fills row `y` with the row's specified values, keeps the rows already written, and leaves every index after row `y` unchanged |
| Threshold.ThresholdPixel | imageProcessorWorker.js:183-198 | the loop body yields the pixel's binary value, and 0 when the window is empty (NaN mean) |
| Threshold.WindowSum | imageProcessorWorker.js:184-193 | the dy loop tallies the whole window |
| Threshold.RowSum | imageProcessorWorker.js:185-192 | the dx loop adds the rounded luma and a count of one for each in-bounds neighbour of one row |
| Threshold.BinarizedIsBinary | imageProcessorWorker.js:198-200 | every output pixel has R = G = B, each 0 or 255, and alpha 255 |
| Threshold.WindowCountPositive | imageProcessorWorker.js:184-194 | with `blockSize >= 0`, the centre is in its own window, so `count >= 1` and the mean is defined |
| Threshold.FlatPixelAbove | imageProcessorWorker.js:194-198 | on an image of one luma, with `C > 0`, a pixel lies above its local mean minus `C` |
| Threshold.BinarizedFlat | imageProcessorWorker.js:181-200 | on an image of one luma, with `C > 0` and `blockSize >= 0`, every pixel becomes white |
| Threshold.UniformIsFlat | imageProcessorWorker.js:189 | a one-colour image has one luma everywhere |
| Enhance.Gray | imageProcessorWorker.js:256 | the grayscale stage keeps the image's size |
| Enhance.Negative | imageProcessorWorker.js:254 | the inversion stage keeps the image's size |
| Enhance.Prepared | imageProcessorWorker.js:252-255 | definition: the image is inverted exactly when its mean is below 120; the contract states that its size is kept |
| Enhance.Enhanced | imageProcessorWorker.js:252-258 | the composed pipeline keeps the image's size |
| Enhance.PreparedIsLight | imageProcessorWorker.js:252-255 | after the mean test, a non-empty image always has mean at least 120 |
| Enhance.EnhancedIsBinary | imageProcessorWorker.js:252-258 | the pipeline's output is black and white and fully opaque, for any weight functions |
| Enhance.EnhancedUniform | imageProcessorWorker.js:252-258 | with non-negative weights, a one-colour picture comes out entirely white |

## Left out

- Canvas plumbing is not modelled: `createCanvas`, `imageBitmapToCanvas`,
  `getContext`, `getImageData`, `createImageData` and `putImageData`
  (imageProcessorWorker.js:2-21 and the first and last lines of each method).
  Buffers are passed and returned directly as `Image` values or arrays.
  Each `putImageData` followed by `getImageData` between two stages (for
  example lines 113 and 119, or 168 and 174) is taken to be lossless. Browsers
  may store canvas pixels premultiplied by alpha, so this holds for opaque
  pixels only.
- The `self.onmessage` dispatch, `postMessage`, the transferred buffers,
  `imageBitmap.close` and `console.error` (imageProcessorWorker.js:233-276) are
  message-passing I/O. Only the stage order of `enhanceBAndW` is modelled.
  The `grayscale` and `perspectiveTransform` tasks call `ToGrayscale` and
  `PerspectiveTransform` directly.
- The numeric values of `Math.exp` in the bilateral filter
  (imageProcessorWorker.js:148, 152) are the parameters `sw` and `cw`.
  `sigmaColor` and `sigmaSpace` therefore appear only through those functions.
- Floating point is not modelled. All arithmetic is exact: `x / (W-1) * (W-1)`
  is exactly `x`, and a luma is never one unit in the last place away from a
  .5 boundary. IEEE-754 rounding can differ from the model in such cases.
- Resample.BilinearSample and Warp.PerspectiveTransform: they require a source
  of at least 1-by-1 pixels and finite coordinates. Real values cannot be NaN
  or infinite.
- Zero-sized canvases are not rejected. In the browser, `getImageData` on a
  canvas with zero width or height throws an IndexSizeError (lines 25, 106,
  119, 174, 210 and 222), and so does `createImageData` with a zero
  `destWidth` or `destHeight` (line 29). The worker's `catch` then posts a
  failure. The model instead returns an empty image from
  `Warp.PerspectiveTransform`, `Tone.ToGrayscale`, `Tone.Invert`,
  `Bilateral.BilateralFilter` and `Threshold.AdaptiveThreshold`, and a mean of
  0 from `Tone.CalculateMean`.
- The eight corner numbers are the datatype `Warp.Quad`, not an array that is
  destructured. A short corners array is not modelled.
- The bodies of the inner loops are separate methods (`WarpRow`, `FilterRow`,
  `FilterPixel`, `WindowSum`, `RowSum`, `ThresholdRow`, `ThresholdPixel`). The
  loops and their bounds are the source's.
- The result buffers of `bilateralFilter` and `adaptiveThreshold` are arrays of
  channel values. Each store goes through `ToUint8Clamp` where the source
  stores a fraction (line 162). The integer stores in lines 160, 164 and 199-200
  need none.
- Pixels.ToUint8Clamp: its contract states only the clamp and a rounding
  error of at most 0.5. The body models the ties-to-even rule exactly.
- Tone.ToGrayscale, Tone.Invert and Tone.CalculateMean take an array or a
  sequence whose length is a multiple of 4, as every canvas buffer is.
- Bilateral.SmoothedWithin, Bilateral.SmoothedUniform and
  Enhance.EnhancedUniform require only non-negative weights. `Math.exp` gives
  weights that are positive or, by underflow, zero.
