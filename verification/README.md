# PhotoCraft image engine — a Dafny model

This project models the pixel-processing core of a browser photo editor: the
`ImageProcessor` filter library (`src/utils/imageProcessing.ts`) and the
state-handling parts of its studio component (`src/components/ProcessingStudio.tsx`).

An image is the browser's `ImageData`: a width, a height and a row-major RGBA byte
buffer of length `width * height * 4` (`Raster.Image`). Each filter is modelled
twice:

- **A specification function** on values says which byte every offset ends up
  holding (`Denoise.Denoised`, `Background.BackgroundRemoved`, `Edges.EdgeMap`, …).
- **A method** does what the source does with its loops. It either rewrites the
  caller's `array<Byte>` in place (bilateral filter, colour quantization,
  saturation boost, edge darkening), copies the input into a fresh array and
  writes it (chroma key, enhance, sharpen, denoise), or, for the edge map, fills a
  fresh zeroed width*height array. Its `ensures` ties the result to the
  specification function.

Lemmas then prove what the source promises about those functions:

- which bytes a filter may change, and which it keeps;
- fixed points on single-colour images;
- identity settings;
- idempotence of the chroma key and of quantization;
- the tie-breaking of background detection;
- the round trip between the colour picker's hex string and `hexToRgb`.

Every store into a `Uint8ClampedArray` passes through `Bytes.ToUint8Clamp`: the
clamped conversion of ECMA-262, section 7.1.12, which rounds ties to even. The
one store into a `Uint8Array` (the edge map) passes through `Bytes.ToUint8`
(section 7.1.11). JavaScript numbers are modelled as exact reals.

Modules:

- `Bytes`: byte stores and `Math.round`.
- `Raster`: images, index arithmetic, `getColorAtPoint`, and the per-pixel colour map.
- `Scan`: loop invariants shared by the filters.
- `Bilateral`: `fastBilateralFilter`.
- `PointFilters`: quantization and the saturation boost.
- `Edges`: `fastEdgeDetection` and `addCleanEdges`.
- `Cartoon`: `cartoonify`.
- `Background`: `removeBackground`.
- `SmartBackground`: `smartBackgroundRemoval`.
- `Enhance`: `enhance`.
- `Sharpen`: `fastSharpen` and `restore`.
- `Denoise`: `fastDenoise`.
- `Hex`: `hexToRgb` and the picker's hex formatting.
- `Studio`: the component's state and handlers, as a class whose methods update
  its fields.

Three behaviours of the code that a reader might not expect:

- **Edges in `cartoonify`.** `addCleanEdges` computes its edge map from the
  buffer it is handed (src/utils/imageProcessing.ts:109-110). Inside `cartoonify`,
  that buffer has already been smoothed, quantized and boosted, so the edges are
  those of the stylized image, not of the input. `Cartoon.Stylized` applies
  `Edges.CleanEdges` to that boosted buffer.
- **The download gate and a missing user.** The download gate refuses only a
  present, non-admin user holding fewer than 4 credits. With no user,
  `!undefined` is true but `undefined < 4` is false, so the export goes ahead
  (`Studio.DownloadRefused`).
- **Quantization levels.** `fastColorQuantization` accepts any levels of at least 2,
  and the posterize slider produces 3..12. Idempotence is proved for 2..255 levels.

## Model

| member | source | states |
|---|---|---|
| Bytes.Clamp255 | src/utils/imageProcessing.ts:101-103 | `Math.max(0, Math.min(255, x))` lies in [0, 255] and is the identity on [0, 255] |
| Bytes.MathRound | src/utils/imageProcessing.ts:84-86 | `Math.round(x)` is the integer n with -0.5 <= x - n < 0.5 (halves round up) |
| Bytes.ToUint8Clamp | src/utils/imageProcessing.ts:70-72 | a clamped-array store gives 0 at or below 0, 255 at or above 255, and a byte within 0.5 of the value in between |
| Bytes.ToUint8 | src/utils/imageProcessing.ts:149 | a `Uint8Array` store of a value in [0, 256) keeps its integer part |
| Bytes.ToUint8ClampOfByte | src/utils/imageProcessing.ts:178-180 | storing a whole byte leaves it unchanged |
| Bytes.ToUint8ClampOfInt | src/utils/imageProcessing.ts:272-274 | storing a whole number clamps it to [0, 255] |
| Bytes.ToUint8ClampMonotone | src/utils/imageProcessing.ts:118-120 | the clamped store is monotone |
| Bytes.ToUint8ClampAtMost | src/utils/imageProcessing.ts:118-120 | storing a value no larger than byte v yields at most v |
| Bytes.Clamp255Monotone | src/utils/imageProcessing.ts:272-274 | the max/min clamp is monotone |
| Raster.ColorAtPoint | src/utils/imageProcessing.ts:405-412 | the colour at (x, y) has the bytes at offsets (y*width + x)*4 + c for c = 0, 1, 2 |
| Raster.ColorAtPointUniform | src/utils/imageProcessing.ts:405-412 | on a single-colour image every point has that colour |
| Raster.MapColors | src/utils/imageProcessing.ts:83-87 | the per-pixel colour rewrite of the point filters keeps the buffer's length |
| Raster.MapColorsPixel | src/utils/imageProcessing.ts:92-104 | after the rewrite, bytes i..i+2 of a pixel hold f of its colour and byte i+3 keeps its alpha |
| Raster.MapColorsFixes | src/utils/imageProcessing.ts:83-87 | the rewrite keeps every alpha byte, and every byte of a colour that f fixes |
| Raster.MapColorsUniform | src/utils/imageProcessing.ts:92-104 | rewriting a single-colour buffer gives a single-colour buffer of f of that colour |
| Scan.MapColorsInPlace | src/utils/imageProcessing.ts:92-104 | the loop over i = 0, 4, 8, … that rewrites bytes i, i+1, i+2 in place leaves exactly `MapColors` of the old buffer |
| Scan.MapPixelsInPlace | src/utils/imageProcessing.ts:83-87 | the same loop reaches any target that maps every pixel's colour and keeps its alpha |
| Bilateral.WindowIndex | src/utils/imageProcessing.ts:47-52 | `weightIdx++` in (dy, dx) order reads the spatial weight computed for that same (dx, dy) |
| Bilateral.NeighbourInside | src/utils/imageProcessing.ts:49-65 | each neighbour of a centre at least r from the border contributes its bytes scaled by spatial weight times colour weight |
| Bilateral.Bilateral | src/utils/imageProcessing.ts:40-75 | the filtered buffer has the input's length |
| Bilateral.BilateralKeepsBorder | src/utils/imageProcessing.ts:40-41 | pixels closer than the radius to the border, and every alpha byte, are unchanged |
| Bilateral.BilateralPixel | src/utils/imageProcessing.ts:69-73 | an inner colour byte becomes the stored weighted mean when the total weight is positive, and is kept otherwise |
| Bilateral.BilateralAt | src/utils/imageProcessing.ts:40-73 | the byte at one offset after the filter: a pixel closer than the radius to the border, and every alpha byte, keeps the input byte |
| Bilateral.AverageBounded | src/utils/imageProcessing.ts:69-72 | a weighted mean with positive total weight lies between the bounds of its terms |
| Bilateral.SumsBounded | src/utils/imageProcessing.ts:47-67 | when every neighbour's channel lies in [lo, hi], the window's weighted channel sum lies between lo and hi times its total weight |
| Bilateral.ScaledBounded | src/utils/imageProcessing.ts:62-65 | a neighbour's channel times a non-negative weight lies between lo*weight and hi*weight |
| Bilateral.BilateralWithinWindow | src/utils/imageProcessing.ts:47-72 | with non-negative weights, every output channel lies between the window's minimum and maximum of that channel |
| Bilateral.BilateralUniform | src/utils/imageProcessing.ts:27-76 | with non-negative weights a single-colour buffer is a fixed point |
| Bilateral.SpatialWeights | src/utils/imageProcessing.ts:32-38 | the table has (2r+1)^2 entries, and entry k is the weight of the squared distance of the k-th (dy, dx) |
| Bilateral.SpatialTableOfWeights | src/utils/imageProcessing.ts:32-38 | the entry at the index of (dx, dy) is the weight of dx^2 + dy^2 |
| Bilateral.WindowSums | src/utils/imageProcessing.ts:44-67 | the double loop accumulates exactly the window's total of scaled neighbours and weights |
| Bilateral.WindowRow | src/utils/imageProcessing.ts:48-66 | one row of the window adds that row's contributions and advances weightIdx by 2r+1 |
| Bilateral.AddNeighbour | src/utils/imageProcessing.ts:49-65 | one neighbour adds its three scaled channels and its weight to the sums |
| Bilateral.AddScaled | src/utils/imageProcessing.ts:62-65 | adding the three scaled channels and the weight adds one neighbour's contribution |
| Bilateral.FastBilateralFilter | src/utils/imageProcessing.ts:27-76 | the in-place filter, reading only its copy of the input, leaves exactly `Bilateral` of the old buffer with radius floor(d/2) |
| Bilateral.FilterPixel | src/utils/imageProcessing.ts:42-73 | one centre pixel's three stores extend the done prefix of the scan |
| Edges.ISqrt | src/utils/imageProcessing.ts:148 | the integer root r satisfies r^2 <= n < (r+1)^2 |
| Edges.ISqrtAtLeast | src/utils/imageProcessing.ts:148 | isqrt(n) >= k exactly when n >= k^2 |
| Edges.FloorOfRoot | src/utils/imageProcessing.ts:148-149 | the floor of an exact square root m of n/9 is the r bracketed by r^2 <= n/9 < (r+1)^2 |
| Edges.RootBracket | src/utils/imageProcessing.ts:148 | isqrt(q div 9) brackets the real q/9 |
| Edges.EdgeValueIsStoredMagnitude | src/utils/imageProcessing.ts:148-149 | storing `Math.min(255, sqrt(gx^2 + gy^2))` into the byte map gives min(255, isqrt((Sx^2 + Sy^2) div 9)), with Sx, Sy in thirds |
| Edges.EdgeThreshold | src/utils/imageProcessing.ts:116 | an edge value exceeds 30 exactly when Sx^2 + Sy^2 >= 9 * 31^2 |
| Edges.EdgeMap | src/utils/imageProcessing.ts:126-154 | the edge map has one byte per pixel |
| Edges.GradientStep | src/utils/imageProcessing.ts:137-145 | the kernel index (ky+1)*3 + (kx+1) walks the nine taps in loop order, each adding gray * kernel |
| Edges.Gradient | src/utils/imageProcessing.ts:137-146 | the kernel-weighted grey sum over the first n cells of the 3x3 window, each cell adding at most 1530 either way (grey in thirds up to 765, weights at most 2) |
| Edges.EdgeValue | src/utils/imageProcessing.ts:148-149 | the stored edge byte is the integer square root of (Sx^2+Sy^2)/9 capped at 255: its square is at most that value, and below 255 the next square exceeds it |
| Edges.SobelSums | src/utils/imageProcessing.ts:135-146 | the two accumulators end as the full Sobel X and Y sums over the 3x3 neighbourhood |
| Edges.FastEdgeDetection | src/utils/imageProcessing.ts:126-154 | the loop fills a fresh width*height map equal to `EdgeMap` |
| Edges.EdgeMapBorder | src/utils/imageProcessing.ts:127-133 | every pixel on the 1-pixel border has edge value 0 |
| Edges.Gray3Uniform | src/utils/imageProcessing.ts:140 | on a single-colour image every tap has the same grey (in thirds) |
| Edges.GradientUniform | src/utils/imageProcessing.ts:137-146 | on a single-colour image each gradient is the grey times the kernel's sum |
| Edges.EdgeMapUniform | src/utils/imageProcessing.ts:126-154 | a single-colour image has an all-zero edge map |
| Edges.Shade | src/utils/imageProcessing.ts:117 | the darken amount edgeValue * strength * 0.5 is non-negative for a non-negative strength |
| Edges.CleanEdges | src/utils/imageProcessing.ts:112-122 | edge darkening keeps the buffer's length |
| Edges.CleanPixel | src/utils/imageProcessing.ts:112-122 | a pixel whose edge value exceeds 30 has its three colour bytes darkened, any other keeps them, and alpha is kept |
| Edges.Darken | src/utils/imageProcessing.ts:117-120 | the darkened byte; an edge value of 0 or a strength of 0 leaves the byte as it was |
| Edges.CleanEdgesPixel | src/utils/imageProcessing.ts:112-122 | every pixel of the darkened buffer is the darkened or kept pixel of the input, by its edge value |
| Edges.AddCleanEdges | src/utils/imageProcessing.ts:108-123 | the in-place pass leaves exactly `CleanEdges` of the buffer it was handed, with edges taken from that same buffer |
| Edges.DarkenEdges | src/utils/imageProcessing.ts:112-122 | the pixel loop reaches any target that darkens exactly the pixels with edge value above 30 |
| Edges.CleanEdgesChangesOnlyEdges | src/utils/imageProcessing.ts:116 | a byte that changes is a colour byte of an interior pixel with Sx^2 + Sy^2 >= 9 * 31^2 |
| Edges.DarkenAtMost | src/utils/imageProcessing.ts:118-120 | `Math.max(0, v - amount)` stored never exceeds v when the strength is non-negative |
| Edges.CleanEdgesDarkens | src/utils/imageProcessing.ts:116-121 | with a non-negative strength no byte grows |
| Edges.CleanEdgesUniform | src/utils/imageProcessing.ts:108-123 | a single-colour image comes back unchanged |
| PointFilters.Quantized | src/utils/imageProcessing.ts:83-87 | quantization keeps the buffer's length |
| PointFilters.Quantize | src/utils/imageProcessing.ts:84-86 | one quantized byte; black stays 0 and white stays 255 at every level count |
| PointFilters.FastColorQuantization | src/utils/imageProcessing.ts:79-88 | the in-place loop leaves exactly `Quantized` of the old buffer |
| PointFilters.StepInverse | src/utils/imageProcessing.ts:80-81 | step is positive and step * invStep = 1, with invStep = (levels-1)/255 |
| PointFilters.QuantizeLevels | src/utils/imageProcessing.ts:84 | every byte snaps to a level index in [0, levels) |
| PointFilters.LevelInRange | src/utils/imageProcessing.ts:84-86 | every level k * step lies in [0, 255] |
| PointFilters.StoredLevelNear | src/utils/imageProcessing.ts:84 | the stored byte of level k is within 0.5 of k * step |
| PointFilters.RoundNear | src/utils/imageProcessing.ts:84 | `Math.round` of a value strictly within 0.5 of k is k |
| PointFilters.LevelRoundTrip | src/utils/imageProcessing.ts:84 | for 2..255 levels, a byte within 0.5 of level k snaps back to level k |
| PointFilters.QuantizeIdempotent | src/utils/imageProcessing.ts:84-86 | quantizing a quantized byte again gives the same byte (levels 2..255) |
| PointFilters.QuantizeColorIdempotent | src/utils/imageProcessing.ts:84-86 | the same for a colour's three channels |
| PointFilters.QuantizedIdempotent | src/utils/imageProcessing.ts:79-88 | quantizing a quantized buffer again changes nothing (levels 2..255) |
| PointFilters.Saturated | src/utils/imageProcessing.ts:92-104 | the saturation boost keeps the buffer's length |
| PointFilters.SaturateColor | src/utils/imageProcessing.ts:93-103 | the boosted colour; a grey pixel (r = g = b) and the factor 1 leave the colour as it was |
| PointFilters.FastSaturationBoost | src/utils/imageProcessing.ts:91-105 | the in-place loop leaves exactly `Saturated` of the old buffer |
| PointFilters.SaturateGrey | src/utils/imageProcessing.ts:98-103 | a grey pixel (r = g = b) is left as it is, whatever the factor |
| PointFilters.SaturateOne | src/utils/imageProcessing.ts:101-103 | factor 1 is the identity on every colour |
| PointFilters.SatChannelMonotone | src/utils/imageProcessing.ts:101-103 | with a non-negative factor the boost keeps the order of two channel values |
| PointFilters.SaturatedOne | src/utils/imageProcessing.ts:91-105 | factor 1 leaves the whole buffer unchanged |
| PointFilters.SaturatedGrey | src/utils/imageProcessing.ts:91-105 | a buffer of grey pixels is left unchanged by the boost, whatever the factor |
| Cartoon.Stylized | src/utils/imageProcessing.ts:13-21 | quantize, boost by 1.3, then darken edges when edgeStrength > 0, keeping the length |
| Cartoon.Cartoonified | src/utils/imageProcessing.ts:4-24 | the cartoon of a valid image is a valid image of the same size |
| Cartoon.Cartoonify | src/utils/imageProcessing.ts:4-24 | the pipeline on a copy returns exactly `Cartoonified` (bilateral with d = 9, then the stylizing stages) |
| Cartoon.Stylize | src/utils/imageProcessing.ts:13-21 | the three in-place stages leave exactly `Stylized` of the smoothed buffer |
| Cartoon.Stages | src/utils/imageProcessing.ts:13-21 | the stylized buffer, stage by stage: the quantized then boosted buffer, darkened when edgeStrength > 0 |
| Cartoon.CartoonifyKeepsAlpha | src/utils/imageProcessing.ts:4-24 | no stage touches an alpha byte |
| Cartoon.StylizedUniform | src/utils/imageProcessing.ts:13-21 | a single-colour buffer becomes the single colour boost(quantize(c)) |
| Cartoon.CartoonifyUniform | src/utils/imageProcessing.ts:4-24 | with non-negative weights, a single-colour image becomes a single-colour image of boost(quantize(c)) |
| Background.RemovedPixel | src/utils/imageProcessing.ts:166-184 | a matching pixel gets the replacement bytes and the keyed alpha; any other keeps its four bytes |
| Background.Matches | src/utils/imageProcessing.ts:164-177 | the chroma-key test; the key colour itself matches at every tolerance |
| Background.KeyedAlpha | src/utils/imageProcessing.ts:182 | the alpha of a keyed pixel is 0 exactly for a pure white replacement and 255 for any other |
| Background.BackgroundRemoved | src/utils/imageProcessing.ts:157-187 | the keyed image is a whole ImageData of the input's width and height |
| Background.RemoveBackground | src/utils/imageProcessing.ts:157-187 | the copy-and-key loop returns exactly `BackgroundRemoved`, of the same size, without changing the input |
| Background.RemovedAt | src/utils/imageProcessing.ts:177-183 | the pixel at offset p takes the replacement and alpha 0 (white) or 255 when it matches, and is unchanged otherwise |
| Background.RemoveBackgroundPixel | src/utils/imageProcessing.ts:163-186 | the same pixel by pixel at (x, y), with the alpha rule written out |
| Background.MatchesZeroTolerance | src/utils/imageProcessing.ts:164-177 | with tolerance 0 a pixel matches exactly when it is the key colour |
| Background.MatchesMonotone | src/utils/imageProcessing.ts:164-177 | raising a non-negative tolerance never un-matches a pixel |
| Background.RemoveBackgroundIdempotent | src/utils/imageProcessing.ts:157-187 | keying twice with the same settings is the same as keying once |
| SmartBackground.TopBottomSamples | src/utils/imageProcessing.ts:199-204 | samples 2j and 2j+1 are the top and bottom pixels of column 10j |
| SmartBackground.TopBottomOnBorder | src/utils/imageProcessing.ts:199-204 | every top/bottom sample is the colour of a pixel in the first or last row at a column that is a multiple of 10 |
| SmartBackground.LeftRightSamples | src/utils/imageProcessing.ts:206-211 | samples 2j and 2j+1 of the second loop are the left and right pixels of row 10j |
| SmartBackground.SampleBorder | src/utils/imageProcessing.ts:196-211 | the two push loops build exactly the top/bottom samples followed by the left/right samples |
| SmartBackground.SampleTopBottom | src/utils/imageProcessing.ts:199-204 | the first loop builds the top/bottom samples for x = 0, 10, … < width |
| SmartBackground.SampleLeftRight | src/utils/imageProcessing.ts:206-211 | the second loop appends the left/right samples for y = 0, 10, … < height |
| SmartBackground.EdgeSamples | src/utils/imageProcessing.ts:196-211 | the border samples number two per tenth column plus two per tenth row, so never fewer than four |
| SmartBackground.BucketOfValid | src/utils/imageProcessing.ts:216 | each bucket component floor(c/10) lies in [0, 25] |
| SmartBackground.Assign | src/utils/imageProcessing.ts:217 | `Map.set` either updates an entry in place or appends one |
| SmartBackground.CountBuckets | src/utils/imageProcessing.ts:214-218 | the forEach over the samples builds exactly the insertion-ordered tally |
| SmartBackground.Tally | src/utils/imageProcessing.ts:214-218 | the counts Map after the forEach has at most one entry per sample |
| SmartBackground.LookupAssign | src/utils/imageProcessing.ts:217 | after `set(k, n)`, `get(k)` is n and every other key is unchanged |
| SmartBackground.TallyCounts | src/utils/imageProcessing.ts:214-218 | each bucket's count is its number of occurrences among the samples |
| SmartBackground.AssignKeys | src/utils/imageProcessing.ts:217 | `set` keeps the existing key order, appends only a new key, and adds exactly k to the keys |
| SmartBackground.AssignDistinct | src/utils/imageProcessing.ts:217 | `set` keeps keys distinct |
| SmartBackground.TallyWellFormed | src/utils/imageProcessing.ts:214-218 | the tally has distinct keys and positive counts, and is non-empty for non-empty samples |
| SmartBackground.AssignEntries | src/utils/imageProcessing.ts:217 | after `set`, each entry is an old entry or the new one |
| SmartBackground.TallyInsertionOrder | src/utils/imageProcessing.ts:214-218 | the tally of a prefix of the samples is a prefix of the tally, so buckets appear in first-seen order |
| SmartBackground.ModalBucket | src/utils/imageProcessing.ts:220-228 | the forEach with the strict `>` returns exactly `Modal` of the tally, starting from 0 and white |
| SmartBackground.Modal | src/utils/imageProcessing.ts:220-228 | the colour the walk keeps is the starting colour or the colour of some entry, and the latter whenever some count beats the starting best |
| SmartBackground.BucketColor | src/utils/imageProcessing.ts:225-226 | a key scaled back by 10 has channels that are multiples of 10 up to 250 |
| SmartBackground.ModalFirstMax | src/utils/imageProcessing.ts:220-228 | the result is the colour of the first entry of greatest count, or the initial colour if no count beats the start |
| SmartBackground.DetectedBackgroundIsModal | src/utils/imageProcessing.ts:196-228 | the detected colour is that of a bucket whose count is the maximum, no earlier bucket has that count, and each channel is a multiple of 10 in [0, 250] |
| SmartBackground.BucketColorRange | src/utils/imageProcessing.ts:225-226 | each channel of a bucket's colour is a multiple of 10 in [0, 250] |
| SmartBackground.DetectedCounts | src/utils/imageProcessing.ts:213-218 | the counts the detection compares are the samples' occurrence counts |
| SmartBackground.DetectedBackground | src/utils/imageProcessing.ts:190-228 | the detected background is a bucket colour, never the initial white: each channel a multiple of 10 up to 250 |
| SmartBackground.SmartBackgroundRemoval | src/utils/imageProcessing.ts:190-232 | the result is exactly removeBackground with the detected colour and a white replacement |
| SmartBackground.SmartRemovalPixel | src/utils/imageProcessing.ts:231 | a pixel matching the detected background becomes white and fully transparent; any other keeps its colour |
| Enhance.EnhancedPixels | src/utils/imageProcessing.ts:248-275 | the per-pixel pass keeps the buffer's length |
| Enhance.ContrastFactor | src/utils/imageProcessing.ts:245 | the contrast factor is exactly 1 at contrast 0, and positive exactly for contrast in (-255, 259) |
| Enhance.EnhanceColor | src/utils/imageProcessing.ts:253-274 | the stored colour of one pixel; brightness, contrast and saturation all 0 keep the colour |
| Enhance.Enhanced | src/utils/imageProcessing.ts:235-283 | the enhanced image is a whole ImageData of the input's width and height |
| Enhance.EnhanceImage | src/utils/imageProcessing.ts:235-283 | the copy-and-adjust loop, then sharpen when sharpness > 0, returns exactly `Enhanced` |
| Enhance.EnhanceColorNeutral | src/utils/imageProcessing.ts:245-275 | zero brightness, contrast and saturation give back the colour (contrast factor exactly 1) |
| Enhance.EnhanceNeutral | src/utils/imageProcessing.ts:235-283 | all four settings at 0 give back the input image |
| Enhance.StoreInt | src/utils/imageProcessing.ts:272-274 | the clamp-then-store of a whole number is that number clamped to [0, 255] |
| Enhance.AdjustedBrightnessOnly | src/utils/imageProcessing.ts:254-269 | with contrast and saturation 0 only the brightness is added |
| Enhance.EnhanceColorBrightness | src/utils/imageProcessing.ts:254-274 | with only brightness set, each colour channel becomes clamp(v + brightness) |
| Enhance.EnhanceKeepsAlpha | src/utils/imageProcessing.ts:248-282 | every alpha byte survives, with or without sharpening |
| Enhance.ContrastFactorPositive | src/utils/imageProcessing.ts:245 | for contrast in (-255, 259) the contrast factor is positive |
| Enhance.EnhanceChannelMonotone | src/utils/imageProcessing.ts:259-274 | without saturation, enhance keeps the order of two red values |
| Sharpen.SharpenAtInterior | src/utils/imageProcessing.ts:297-309 | an interior colour byte becomes the clamped centre + strength/100 * (centre - mean of 4 neighbours), from the input |
| Sharpen.Mask | src/utils/imageProcessing.ts:298-309 | the unsharp mask of one byte; strength 0, or a centre equal to its four cross neighbours, keeps the centre |
| Sharpen.SharpenAt | src/utils/imageProcessing.ts:294-312 | the byte at one offset after sharpening: border pixels and alpha bytes keep the input byte |
| Sharpen.Sharpened | src/utils/imageProcessing.ts:286-310 | the sharpened image is a whole ImageData of the input's width and height |
| Sharpen.Restored | src/utils/imageProcessing.ts:425-429 | the restored image is a whole ImageData of the input's width and height |
| Sharpen.SharpenKeepsBorder | src/utils/imageProcessing.ts:294-312 | border pixels and every alpha byte are unchanged |
| Sharpen.FastSharpen | src/utils/imageProcessing.ts:286-315 | the copy-and-write loops return exactly `Sharpened` |
| Sharpen.SharpenZero | src/utils/imageProcessing.ts:292-309 | strength 0 gives back the input image |
| Sharpen.MaskFlat | src/utils/imageProcessing.ts:301-309 | a centre equal to its four neighbours is kept |
| Sharpen.NothingToSharpen | src/utils/imageProcessing.ts:308 | a centre equal to the blur is left as it is |
| Sharpen.SharpenUniform | src/utils/imageProcessing.ts:286-315 | a single-colour image is a fixed point |
| Sharpen.Restore | src/utils/imageProcessing.ts:425-429 | restore returns exactly sharpen(denoise(img), 25) |
| Sharpen.RestoreUniform | src/utils/imageProcessing.ts:425-429 | restoring a single-colour image gives back the same image |
| Sharpen.RestoreKeepsBorder | src/utils/imageProcessing.ts:425-429 | restore keeps border pixels and every alpha byte |
| Denoise.DenoiseAtInterior | src/utils/imageProcessing.ts:442-453 | an interior colour byte becomes the stored weighted 3x3 sum / 16 of the input |
| Denoise.DenoiseAt | src/utils/imageProcessing.ts:439-456 | the byte at one offset after the blur: border pixels and alpha bytes keep the input byte |
| Denoise.Denoised | src/utils/imageProcessing.ts:432-459 | the blurred image is a whole ImageData of the input's width and height |
| Denoise.DenoiseKeepsBorder | src/utils/imageProcessing.ts:439-456 | border pixels and every alpha byte are unchanged |
| Denoise.FastDenoise | src/utils/imageProcessing.ts:432-459 | the copy-and-write loops return exactly `Denoised` |
| Denoise.DenoiseSumUniform | src/utils/imageProcessing.ts:442-451 | on a single-colour image the weighted sum is 16 times the channel |
| Denoise.DenoiseUniform | src/utils/imageProcessing.ts:432-459 | a single-colour image is a fixed point |
| Denoise.DenoiseSmall | src/utils/imageProcessing.ts:439-440 | an image narrower or lower than 3 pixels comes back unchanged |
| Hex.DigitValue | src/utils/imageProcessing.ts:418-420 | a hex digit's value is below 16 |
| Hex.HexDigit | src/components/ProcessingStudio.tsx:369 | `toString(16)` writes a lower-case hex digit |
| Hex.ParseHex | src/utils/imageProcessing.ts:416 | the regex matches exactly an optional '#' followed by six hex digits of either case, spanning the string |
| Hex.HexToRgb | src/utils/imageProcessing.ts:415-422 | any string the regex rejects yields black |
| Hex.ToRadix16 | src/components/ProcessingStudio.tsx:369 | `toString(16)` writes at least one digit |
| Hex.ChannelHexDigits | src/components/ProcessingStudio.tsx:369 | each channel is written as exactly two lower-case digits that parse back to its value |
| Hex.ChannelHex | src/components/ProcessingStudio.tsx:369 | `toString(16).padStart(2, '0')` of a channel is always two characters |
| Hex.FormatHex | src/components/ProcessingStudio.tsx:369 | the picker's key string is seven characters starting with '#' |
| Hex.DigitRoundTrip | src/components/ProcessingStudio.tsx:369 | `parseInt` inverts `toString(16)` on one digit |
| Hex.ValueRoundTrip | src/utils/imageProcessing.ts:418-420 | `toString(16)` inverts `parseInt` on one lower-case digit |
| Hex.FormatHexWellFormed | src/components/ProcessingStudio.tsx:369 | the picker's string is '#' and six lower-case hex digits, which the regex accepts |
| Hex.FormatThenParse | src/components/ProcessingStudio.tsx:369 | `hexToRgb` of the picker's string is the picked colour |
| Hex.ParseThenFormat | src/utils/imageProcessing.ts:415-422 | a '#' and six lower-case digits is the picker's string for its parsed colour |
| Hex.PairDigits | src/utils/imageProcessing.ts:418-420 | the two digits of a parsed pair are recovered by dividing by 16 |
| Hex.HashOptional | src/utils/imageProcessing.ts:416 | dropping a leading '#' does not change the colour |
| Hex.UpperCaseDigits | src/utils/imageProcessing.ts:416 | with the case-insensitive flag, upper-case digits parse like lower-case ones |
| Hex.PickThenRemove | src/components/ProcessingStudio.tsx:368-375 | keying with the hex of a picked pixel's colour replaces that pixel with the replacement colour |
| Studio.ZoomOutStep | src/components/ProcessingStudio.tsx:460 | zoom-out gives zoom - 25, floored at 25, and stays on the grid |
| Studio.ZoomInStep | src/components/ProcessingStudio.tsx:469 | zoom-in gives zoom + 25, capped at 200, and stays on the grid |
| Studio.ZoomAfterOnGrid | src/components/ProcessingStudio.tsx:460-469 | any sequence of presses keeps a zoom on the grid of multiples of 25 in [25, 200] |
| Studio.ZoomFromStart | src/components/ProcessingStudio.tsx:42 | every zoom reachable from 100 is a multiple of 25 in [25, 200] |
| Studio.ZoomInverse | src/components/ProcessingStudio.tsx:460-469 | one zoom-out undoes a zoom-in below the maximum, and the other way round |
| Studio.ZoomInRepeated | src/components/ProcessingStudio.tsx:469 | k zoom-ins add 25k while that stays within 200 |
| Studio.ZoomOutRepeated | src/components/ProcessingStudio.tsx:460 | k zoom-outs subtract 25k while that stays at least 25 |
| Studio.ZoomReachable | src/components/ProcessingStudio.tsx:460-469 | every level of the grid can be reached from 100 |
| Studio.ToleranceFraction | src/components/ProcessingStudio.tsx:189 | the slider's percent becomes a fraction, in (0, 1] for every slider value 1..100 |
| Studio.EngineCallFor | src/components/ProcessingStudio.tsx:174-244 | each mode selects exactly its own engine call; meme mode without a canvas selects none |
| Studio.ConsistentCallsRun | src/components/ProcessingStudio.tsx:176-211 | in a consistent state every selected call has its arguments in range (levels >= 2, contrast != 259) |
| Studio.BackgroundCallArguments | src/components/ProcessingStudio.tsx:184-190 | background mode passes both colours through `hexToRgb` and a tolerance in (0, 1] |
| Studio.Run | src/components/ProcessingStudio.tsx:174-244 | engine results have the original's size; passport and meme give the canvas result; no call gives the original |
| Studio.NeutralEnhanceShowsOriginal | src/components/ProcessingStudio.tsx:203-211 | enhance mode with its initial all-zero settings shows the original |
| Studio.PickColorInside | src/components/ProcessingStudio.tsx:368 | a click inside the image picks the colour of the pixel under it |
| Studio.PickColor | src/components/ProcessingStudio.tsx:368 | the unchecked read of `getColorAtPoint` (src/utils/imageProcessing.ts:405-412): a click inside the image reads the colour of the pixel under it |
| Studio.PickedKeyIsRemoved | src/components/ProcessingStudio.tsx:361-377 | after picking a key, background mode turns the picked pixel into the replacement colour |
| Studio.MimeType | src/components/ProcessingStudio.tsx:320-330 | jpg maps to image/jpeg, webp to image/webp, and anything else to image/png |
| Studio.ExportQuality | src/components/ProcessingStudio.tsx:318 | the quality is the slider's percent as a fraction, in [0.1, 1] for slider values 10..100 |
| Studio.DownloadRefused | src/components/ProcessingStudio.tsx:311 | the credit gate never refuses a missing user, an admin, or a user with at least 4 credits |
| Studio.Studio.constructor | src/components/ProcessingStudio.tsx:37-83 | the initial state of every hook: cartoon mode, zoom 100, posterize 8 and edge 50, tolerance 30, key #00ff00, replacement #ffffff, all enhance settings 0, png at quality 90 |
| Studio.Studio.LoadImage | src/components/ProcessingStudio.tsx:137-163 | the decoded image becomes both the original and the processed image |
| Studio.Studio.SetMode | src/components/ProcessingStudio.tsx:405 | a mode button sets the mode and nothing else |
| Studio.Studio.ZoomOut | src/components/ProcessingStudio.tsx:460 | the zoom-out button applies the zoom-out step and changes nothing else |
| Studio.Studio.ZoomIn | src/components/ProcessingStudio.tsx:469 | the zoom-in button applies the zoom-in step and changes nothing else |
| Studio.Studio.SetPosterizeLevels | src/components/ProcessingStudio.tsx:625-630 | the slider sets the posterize levels only |
| Studio.Studio.SetEdgeStrength | src/components/ProcessingStudio.tsx:642-647 | the slider sets the edge strength only |
| Studio.Studio.SetKeyColor | src/components/ProcessingStudio.tsx:684-688 | the colour input sets the key colour only |
| Studio.Studio.TogglePicker | src/components/ProcessingStudio.tsx:691 | the picker button flips the picker flag only |
| Studio.Studio.SetTolerance | src/components/ProcessingStudio.tsx:719-724 | the slider sets the tolerance only |
| Studio.Studio.SetReplacementColor | src/components/ProcessingStudio.tsx:735-757 | a preset button or the colour input sets the replacement colour only |
| Studio.Studio.SetBrightness | src/components/ProcessingStudio.tsx:891 | the brightness slider sets the brightness only |
| Studio.Studio.SetContrast | src/components/ProcessingStudio.tsx:905 | the contrast slider sets the contrast only |
| Studio.Studio.SetSaturation | src/components/ProcessingStudio.tsx:919 | the saturation slider sets the saturation only |
| Studio.Studio.SetSharpness | src/components/ProcessingStudio.tsx:933 | the sharpness slider sets the sharpness only |
| Studio.Studio.SetFormat | src/components/ProcessingStudio.tsx:523 | the select sets the export format only |
| Studio.Studio.SetQuality | src/components/ProcessingStudio.tsx:534-539 | the slider sets the export quality only |
| Studio.Studio.ProcessImage | src/components/ProcessingStudio.tsx:166-260 | with no original, nothing changes; otherwise the processed image becomes the mode's single engine call run on the original |
| Studio.Studio.HandleDownload | src/components/ProcessingStudio.tsx:307-347 | an export happens exactly when there is a canvas and the user is not a non-admin with fewer than 4 credits; an admin is never refused; the export has the format's MIME type and quality/100 in [0.1, 1] |
| Studio.Studio.HandleReset | src/components/ProcessingStudio.tsx:350-358 | with an original and a canvas context, the processed image becomes the original again; otherwise nothing changes |
| Studio.Studio.HandleCanvasClick | src/components/ProcessingStudio.tsx:361-377 | only a click in background mode, with the picker on and an original, changes anything: it sets the key to the picked colour's hex and turns the picker off |

## Left out

- Floating point: every JavaScript number is an exact real. The model does not
  claim agreement with IEEE-754 rounding. This covers the luma weights, 255/(levels-1),
  strength/100, the division by 3 in the grey level and the weighted means. A store that
  rounds differently at a tie boundary in doubles is not captured.
- `Math.exp`: the bilateral filter's spatial and colour weights are function
  parameters. The model does not compute exp(-d/(2σ²)) or exp(-d/σ). The
  weight-dependent properties assume non-negative weights, as exp values are.
- `Math.sqrt` in edge detection is replaced by the integer square root of the
  squared gradient (in thirds). `Edges.EdgeValueIsStoredMagnitude` relates the
  two for any exact root.
- `cropToPassport` (src/utils/imageProcessing.ts:362-402) and `addText`
  (src/utils/imageProcessing.ts:318-359) draw on a browser canvas. They are
  foreign calls, and their results enter `Studio.Studio.ProcessImage` as parameters.
- Enhance.EnhanceImage: requires contrast != 259, where the source divides by zero.
  The sliders only produce -100..100.
- PointFilters.FastColorQuantization: requires levels >= 2, where the source
  divides by zero. The slider only produces 3..12.
- PointFilters.QuantizedIdempotent: proved for 2..255 levels. Above 255 levels
  the step is below 1, and the model does not state what happens.
- Raster.ColorAtPoint: requires (x, y) inside the image, since the source reads
  without a bounds check. `Studio.PickColor` models the unchecked read the click
  handler makes: an offset outside the buffer yields undefined and the hex
  formatting throws, so the handler then changes nothing.
- Studio.Studio.SetPosterizeLevels, SetEdgeStrength, SetTolerance, SetBrightness,
  SetContrast, SetSaturation, SetSharpness and SetQuality require their sliders'
  ranges. `parseInt` of a range input's value
  always lies in that range.
- SmartBackground.SmartBackgroundRemoval: requires a width and a height of at
  least 1, as do the sampling functions it uses. Its one caller passes the
  original `ImageData` (src/components/ProcessingStudio.tsx:664), and an
  `ImageData` always has both dimensions at least 1.
- The `default` branch of the mode switch (src/components/ProcessingStudio.tsx:242-243)
  cannot be reached, because `Studio.Mode` has exactly the six modes.
- The three point-filter loops (quantization, saturation boost and enhance's
  per-pixel pass) share one loop, `Scan.MapColorsInPlace`. It applies the filter's
  colour map to each pixel in turn.
- The rest of the component:
  - `isProcessing`;
  - the display canvas's `putImageData`;
  - `requestAnimationFrame` scheduling;
  - file upload and drag-and-drop;
  - the passport and meme settings;
  - the download anchor, its `Date.now()` file name, `toBlob` encoding and the
    credit deduction callback;
  - all rendering.

  These are browser I/O or rendering. `Studio.Studio.HandleDownload` returns the
  export request that would be passed to `toBlob`.
- The other source files (authentication, billing, navigation, settings and type
  declarations) are not part of this model.
