# imgdiff kernel in Dafny

This project models the scalar image-diff kernel of `src/imgdiff_main.cpp`
and proves properties of the model. The kernel takes two images of the same
size and compares them pixel by pixel.

- An image is a flat, row-major buffer of `width * height` pixels. Each pixel
  has four channels, stored in the order b, g, r, a.
- When colour is to be ignored, both input buffers are first greyed in
  place.
- A pixel whose RGBA distance to its counterpart is within the tolerance is
  *similar*. The output holds the left pixel there, and the pixel is counted.
- Any other pixel is drawn as a blend of the right pixel toward an error
  colour. In Flat mode it is the plain blend. In Movement mode it is the
  right pixel tinted by the error colour, blended toward it and made opaque.
  The blend weight is the overlay transparency, multiplied by the distance
  when weighting by divergence is on.
- The similarity is the number of similar pixels divided by `width * height`.
- A byte entry point converts both byte images to float images, runs the
  kernel and converts the diff image back to bytes.

Modules:

- `Colors` (`colors.dfy`) holds the colour types, the component-wise
  operators, `clamp01`, `saturate`, `lerp`, `mix` and the per-pixel
  byte/float conversions.
- `Images` (`images.dfy`) holds the image types and the counted conversion
  loops.
- `Greyscale` (`greyscale.dfy`) holds the in-place greyscale pass.
- `Diff` (`diff.dfy`) holds the kernel and the two entry points.

Arithmetic and abstractions:

- Float channels are `real`s and byte channels are `Byte` (0..255).
- Similarity is decided exactly, without a square root: a pixel is similar
  when the tolerance is non-negative and the squared distance is at most the
  squared tolerance. For every tolerance this is the same as
  `sqrt(squared) <= tolerance`, so the kernel needs no precondition on the
  tolerance.
- The distance value itself is needed only for the blend weight. There it
  comes from a function parameter `sqrt`.
- Images are datatypes that hold a reference to a pixel array. This mirrors
  the by-value C++ struct that holds a pointer. Two images may therefore
  share one buffer.

## Model

| member | source | states |
|---|---|---|
| Colors.Argb | src/imgdiff_main.cpp:54-62 | the colour built from alpha, red, green and blue has exactly those channels |
| Colors.PlusMinusInverse | src/imgdiff_main.cpp:108-114 | component-wise `+` undoes component-wise `-` in both orders |
| Colors.Clamp01 | src/imgdiff_main.cpp:124-126 | the result lies in [0,1]; it is the input when the input is in [0,1], 0 below and 1 above |
| Colors.Saturate | src/imgdiff_main.cpp:128-130 | every channel is clamped into [0,1], so the result lies in the unit cube, and a colour already in it is unchanged |
| Colors.Mix | src/imgdiff_main.cpp:137-140 | the weight is clamped first: a weight at most 0 gives the first colour, at least 1 the second |
| Colors.MixClampsFirst | src/imgdiff_main.cpp:137-140 | blending with a weight is the same as blending with that weight clamped |
| Colors.LerpAgreesWithMix | src/imgdiff_main.cpp:108-140 | `lerp` and `mix`, built from the component-wise `+`, `-` and the scaling by a float (`Scale`, lines 120-122), give the same colour for every pair of colours and every weight |
| Colors.MixInUnit | src/imgdiff_main.cpp:137-140 | blending two colours of the unit cube stays in the unit cube, whatever the weight |
| Colors.TimesInUnit | src/imgdiff_main.cpp:116-118 | the component-wise product of two unit-cube colours lies in the unit cube |
| Colors.ChannelToFloat | src/imgdiff_main.cpp:84 | a byte divided by 255 lies in [0,1] and times 255 gives the byte back |
| Colors.ConvertToFloat | src/imgdiff_main.cpp:142-144 | a converted byte colour lies in the unit cube |
| Colors.Truncate | src/imgdiff_main.cpp:70 | the float-to-integer conversion rounds toward zero, for either sign |
| Colors.ChannelToByte | src/imgdiff_main.cpp:70 | for a channel in [0,1] the byte is the floor of the channel times 255 |
| Colors.ChannelRoundTrip | src/imgdiff_main.cpp:70-84 | a byte converted to float and back is the same byte |
| Colors.ColorRoundTrip | src/imgdiff_main.cpp:64-144 | a byte colour converted to float and back is the same colour |
| Images.RoundTripAll | src/imgdiff_main.cpp:64-90 | a byte buffer converted to floats and back is the same buffer |
| Images.ToFloatAllInUnit | src/imgdiff_main.cpp:78-90 | every pixel of a converted byte buffer lies in the unit cube |
| Images.ConvertPixelsToFloat | src/imgdiff_main.cpp:78-90 | the nested loop fills a fresh buffer of `w * h` pixels, each the conversion of the input pixel at the same position |
| Images.ConvertPixelsToByte | src/imgdiff_main.cpp:64-76 | the nested loop fills a fresh buffer of `w * h` pixels, each the conversion of the input pixel at the same position |
| Images.ConvertImageToFloat | src/imgdiff_main.cpp:92-96 | a fresh float image of the same width and height whose pixels are the converted input pixels |
| Images.ConvertImageToByte | src/imgdiff_main.cpp:98-102 | a fresh byte image of the same width and height whose pixels are the converted input pixels |
| Greyscale.Grey | src/imgdiff_main.cpp:151-153 | a greyed pixel keeps its alpha and has red, green and blue all equal to the luma `0.3 r + 0.59 g + 0.11 b` |
| Greyscale.GreyFixesGrey | src/imgdiff_main.cpp:152 | the luma weights sum to one, so a grey pixel is its own luma and greying leaves it unchanged |
| Greyscale.GreyIdempotent | src/imgdiff_main.cpp:151-153 | greying a pixel twice is the same as greying it once |
| Greyscale.GreyInUnit | src/imgdiff_main.cpp:151-153 | greying keeps a unit-cube pixel in the unit cube |
| Greyscale.GreyscaledPixels | src/imgdiff_main.cpp:146-157 | the greyed buffer has the same length; every pixel keeps its alpha and gets the luma of the old pixel in r, g and b |
| Greyscale.GreyscaledIdempotent | src/imgdiff_main.cpp:146-157 | greying a whole buffer twice is the same as greying it once |
| Greyscale.MakeGreyscale | src/imgdiff_main.cpp:146-157 | the in-place nested loop replaces exactly the `width * height` pixels of the buffer by their greyed versions and writes nothing else |
| Diff.SizeCheckAsWrittenMisjudges | src/imgdiff_main.cpp:161 | the written check rejects two equal 2x1 images and accepts a 2x2 image against a 2x1 one |
| Diff.DimensionsMatchReadsInBounds | src/imgdiff_main.cpp:161-182 | with equal widths and heights both buffers hold a pixel for every position the loop visits |
| Diff.SquaredDistance | src/imgdiff_main.cpp:183-188 | the squared RGBA distance is never negative |
| Diff.SquaredDistanceZero | src/imgdiff_main.cpp:183-188 | the distance is zero exactly when the two pixels are equal |
| Diff.SimilarIffWithinTolerance | src/imgdiff_main.cpp:185-195 | for any non-negative root of the squared distance, the squared comparison holds exactly when the distance is within the tolerance |
| Diff.SimilarMonotone | src/imgdiff_main.cpp:195 | a pixel similar under one tolerance is similar under any larger one |
| Diff.SimilarToItself | src/imgdiff_main.cpp:183-195 | under a non-negative tolerance every pixel is similar to itself |
| Diff.DiffSelection | src/imgdiff_main.cpp:190-205 | the output has the input length. A similar position holds the left pixel. A dissimilar one holds `mix(right, error, t)` in Flat mode, or, in Movement mode, the colour channels of `mix(right * error, error, t)` with alpha 1 |
| Diff.CountSimilar | src/imgdiff_main.cpp:207-209 | the number of similar pixels among the first `n` is at most `n` |
| Diff.SimilarCount | src/imgdiff_main.cpp:178-209 | the similar-pixel count is at most the number of pixels |
| Diff.CountIsCardinality | src/imgdiff_main.cpp:207-209 | the count is the size of the set of similar positions |
| Diff.AllSimilarIff | src/imgdiff_main.cpp:207-209 | every pixel is counted exactly when every position is similar |
| Diff.NoneSimilarIff | src/imgdiff_main.cpp:207-209 | no pixel is counted exactly when no position is similar |
| Diff.ToleranceMonotone | src/imgdiff_main.cpp:195-209 | raising the tolerance never lowers the count |
| Diff.SimilarityInUnit | src/imgdiff_main.cpp:217 | for a non-empty image the similarity is a number in [0,1]; it is 1 exactly when every pixel is similar and 0 exactly when none is |
| Diff.SimilarityMonotone | src/imgdiff_main.cpp:195-217 | raising the tolerance never lowers the similarity |
| Diff.IdentityDiff | src/imgdiff_main.cpp:183-217 | diffing a buffer with itself under a non-negative tolerance gives the buffer back, with every pixel counted |
| Diff.DiffPixelInUnit | src/imgdiff_main.cpp:196-205 | with unit-cube inputs and error colour, the output pixel lies in the unit cube |
| Diff.DiffPixelsInUnit | src/imgdiff_main.cpp:179-215 | with unit-cube inputs and error colour, every output pixel lies in the unit cube |
| Diff.WhiteAgainstBlack | src/imgdiff_main.cpp:185-209 | opaque white against opaque black, tolerance 0.2, full overlay transparency, Flat mode, no weighting: every output pixel is the error colour and no pixel is counted |
| Diff.DiffOnePixel | src/imgdiff_main.cpp:181-209 | the loop body: its similarity flag is the squared comparison and its pixel is the per-pixel result for the distance `sqrt` gives |
| Diff.PrepareInputs | src/imgdiff_main.cpp:163-166 | both buffers are greyed in place when colour is ignored and left alone otherwise, also when the two images share one buffer |
| Diff.CompareRow | src/imgdiff_main.cpp:180-214 | one row of the inner loop extends the compared prefix of the output and the running count by `w` positions |
| Diff.ComparedAll | src/imgdiff_main.cpp:168-216 | an output compared at every position is the diff image |
| Diff.AreaIsProduct | src/imgdiff_main.cpp:179-180 | counting `w` pixels row by row over `h` rows gives `w * h` |
| Diff.AreaMonotone | src/imgdiff_main.cpp:179-180 | fewer rows cover no more pixels |
| Diff.ComparePixels | src/imgdiff_main.cpp:168-216 | the nested pixel loop fills a fresh buffer with the diff image and returns the number of similar pixels |
| Diff.DiffImg | src/imgdiff_main.cpp:160-218 | for two images of equal size the inputs are greyed when asked. The output is a fresh image of the same size holding the diff of the prepared inputs. The similarity is the similar count over `width * height`, which for a non-empty image is a number in [0,1] |
| Diff.DiffImgByte | src/imgdiff_main.cpp:220-230 | the byte inputs are unchanged; the result is the byte conversion of the diff of the converted and prepared inputs, with that diff's similarity |
| Diff.ByteIdentityDiff | src/imgdiff_main.cpp:183-230 | a byte image diffed with an equal one, colours kept and under a non-negative tolerance, comes back byte for byte |
| Diff.ByteIdentitySimilarity | src/imgdiff_main.cpp:183-230 | a non-empty byte image diffed with an equal one under a non-negative tolerance has similarity 1, whether or not colour is ignored |

## Left out

- IEEE-754 single-precision rounding is not modelled. Channels are exact
  reals; `/ 255` and `* 255` are exact; `0.3`, `0.59` and `0.11` are exact
  decimals.
- `sqrtf` is not modelled. The similarity test compares squares exactly. The
  distance used for the blend weight comes from the `sqrt` parameter, which
  the kernel's contract leaves arbitrary.
- Colors.ChannelToByte: the C++ conversion to `byte` truncates toward zero
  and is undefined behaviour when the truncated value does not fit a byte,
  that is, for a product outside (-1, 256). The model truncates toward zero
  and keeps the low eight bits, so it gives 0 on (-1, 0) as C++ does, and it
  states the result only for channels in [0,1].
- Image dimensions are `nat`. Negative `int` sizes and overflow of
  `width * height` in `int` and `uint32` are not modelled.
- Diff.DiffImg: the size precondition is the intended one, equal widths and
  equal heights, not the check on line 161 (see Findings). A failing `assert`
  aborting the process, and asserts compiled out under `NDEBUG`, are not
  modelled.
- 0/0 in the similarity is modelled as a `NaN` value of the `Score`
  datatype. Float NaN and infinity in the channels are not modelled.
- Memory management is not modelled: `new[]`, the `delete` of arrays
  allocated with `new[]` in `diff_img_byte`, and the leaked buffers. Fresh
  arrays stand for the allocations.
- `operator==` on colours (lines 104-106) is Dafny's equality on the colour
  datatype, which compares the same four channels.
- The two byte flags of the options are `Byte` values that count as set
  when non-zero. The DLL export and calling-convention attributes and the
  packed layout of the options record are not modelled.
- The `isSimilar ? left : ...` conditionals on lines 200 and 203 sit in the
  dissimilar branch, so they always take the blend; the model writes the
  blend directly.
- The pointer walks of the loops are array indices. The inner loop of the
  kernel is its own method, `Diff.CompareRow`, called once per row.
- `bindings/ImageDiff/ImageDiff.cs` is not part of this model. It holds the
  P/Invoke marshalling, bitmap locking and a `free_img_mem` import that has
  no definition in the C++ source.
- `test/ImageDiffTest/Program.cs` is not part of this model. It is a
  benchmark harness with file loading, timing and console output.
- No padded, planar or SIMD buffer layout appears in the code, so none is
  modelled: buffers are the plain interleaved pixel arrays the loops walk.

## Findings

| source | as written | input that shows it | evidently intended | confidence | as-written member | corrected member |
|---|---|---|---|---|---|---|
| src/imgdiff_main.cpp:161 | `left.width == right.width && left.height == right.width` | two equal 2x1 images are rejected; a 2x2 left image with a 2x1 right image is accepted, and the loop then reads four right pixels from a two-pixel buffer | `left.width == right.width && left.height == right.height` | not executed | Diff.SizeCheckAsWrittenMisjudges | Diff.DimensionsMatchReadsInBounds |
