# Tattoo stencil pipeline in Dafny

This project models the core of a browser tool that turns a photo into a
tattoo stencil. The main function is `processStencil`. It turns the photo's
RGBA pixels into opaque pixels, each either the chosen line colour or white.
It runs in five stages:

1. A tone pass. It applies the contrast stretch (factor
   259·(c+255) / (255·(259−c)), pivot 128) and the brightness, clamps each
   channel to [0, 255], and reduces the pixel to a luma value with weights
   0.299 / 0.587 / 0.114.
2. An optional box blur of radius ⌊smoothing⌋. Each pixel becomes the mean
   of the in-bounds cells of its window.
3. One of two line extractors:
   - Edge and mixed modes take the Sobel gradient magnitude, scaled by
     edgeIntensity / 20 and computed on interior pixels only. Then, when
     thickness > 1, they apply a grayscale dilation of radius
     ⌊thickness / 2⌋.
   - Threshold mode compares the blurred gray value with the cut-off.
4. A line/background decision against the cut-off detail · 2.55.
   - Mixed mode also marks every pixel whose gray value is at most 128.
   - `invert` negates the decision.
5. A write-back pass that mirrors the columns when `flipX` is set.

Around the pipeline, the model covers the settings record and its defaults,
and the application's pure state transitions:

- the single-key settings update;
- the reset button and the reset on loading a new photo;
- the settings applied to an AI-generated picture;
- the three sidebar presets;
- the slider ranges;
- the near-white-to-transparent filter used on download.

The model works on these terms:

- Images are row-major grids (`seq<seq<T>>`) of pixel records. The module
  `Layout` shows that this view and the flat `ImageData` byte layout hold
  the same information.
- All floating-point arithmetic is exact real arithmetic: the Float32
  buffers and the double-precision formulas alike (see "## Left out").
- `Math.sqrt` is a parameter. Lemmas that need it to behave like a square
  root say so with `RootLike` or `sqrt(0.0) == 0.0`.
- The line colour goes through the same hex parser as the code. A string
  that does not match `#?` followed by six hex digits gives black.

Some consequences of the code worth knowing:

- The contrast factor is 259·(contrast + 255) / (255·(259 − contrast)).
  Its denominator is zero at contrast 259.
- Mixed mode marks a pixel whose gray value is at most 128, because the
  code tests `gray > 128` and marks the pixel when that is false.
- In a 3×3 image holding one dark centre dot, the centre is the only
  interior pixel. The Sobel kernels never read the centre cell, so every
  magnitude is 0 and no edge is drawn. Under the defaults the radius-2 blur
  also makes such an image uniform (`Stencil.DefaultsSmallPhotoIsBlank`).
- The ranges written beside the settings fields differ from the slider
  ranges:
  - beside the fields, line intensity is 0 to 100 and contrast −100 to 100;
  - on the sliders, line intensity goes up to 200 and contrast goes down
    to −50.

  Both sets are modelled: `Types.InDocumentedRanges` and
  `Presets.InSliderRanges`.
- The portrait preset's thickness of 1.5 gives dilation radius 0, so it
  draws exactly what thickness 1 draws (`Presets.RealisticThicknessHasNoEffect`).

Modules, one per file:

| module | file | covers |
|---|---|---|
| `Grid` | grid.dfy | 2-D grids, bounds, write-back and mirror |
| `Raster` | raster.dfy | bytes, pixels, images |
| `Types` | types.dfy | settings record, defaults |
| `Hex` | hex.dfy | line-colour parsing |
| `Tone` | tone.dfy | tone pass |
| `Blur` | blur.dfy | smoothing |
| `Sobel` | sobel.dfy | gradient magnitudes |
| `Dilate` | dilate.dfy | thickness |
| `Classify` | classify.dfy | decisions, masks, colouring |
| `Stencil` | stencil.dfy | the whole pipeline |
| `Layout` | layout.dfy | flat byte layout |
| `SettingsUpdate` | updates.dfy | single-key updates |
| `App` | app.dfy | application transitions |
| `Presets` | presets.dfy | sidebar presets and slider ranges |

## Model

| member | source | states |
|---|---|---|
| Types.DefaultsInDocumentedRanges | types.ts:2-34 | The default settings lie inside every range documented beside the record's fields. |
| Types.DefaultSettingsValues | types.ts:20-34 | The default record holds each of the thirteen values the code lists for `DEFAULT_SETTINGS`. |
| Types.DefaultsPlainEdge | types.ts:20-34 | The defaults are edge mode, not inverted, not mirrored, with thickness at most 1, so no dilation happens. |
| Grid.ReadColumn | utils/imageProcessing.ts:203 | The column read for output column x is in range: it is x without flip and mirrors x (c + x = width − 1) with flip. |
| Grid.WriteBack | utils/imageProcessing.ts:198-212 | Every output cell is copied from the same row at the column `ReadColumn` names. |
| Grid.WriteBackIdentity | utils/imageProcessing.ts:198-212 | Without flip the write-back pass copies the buffer unchanged. |
| Grid.Mirror | utils/imageProcessing.ts:203-210 | With flip, output column x holds input column width−1−x. |
| Grid.MirrorInvolution | utils/imageProcessing.ts:203-210 | Mirroring twice gives the original grid back. |
| Grid.MirrorInjective | utils/imageProcessing.ts:203-210 | Two grids with the same mirror image are equal. |
| Grid.WriteBackMirror | utils/imageProcessing.ts:198-212 | The write-back commutes with the mirror, whichever way flip is set. |
| Grid.MapGrid | utils/imageProcessing.ts:38-55 | A per-pixel pass produces the same-shaped grid with `f` applied to each cell. The gray pass, the threshold mask, the colouring and the download filter are all defined as this map. |
| Grid.MapMirror | utils/imageProcessing.ts:38-55 | A per-pixel pass commutes with the mirror. `Tone.GrayMirror`, `Classify.ThresholdMaskMirror` and `Classify.ColorizeMirror` are instances of it. |
| Raster.Opaque | utils/imageProcessing.ts:160-170 | The pixel written for a colour has alpha 255 and that colour. |
| Raster.MirrorImage | utils/imageProcessing.ts:203-210 | The mirror of an input photo: same size, and pixel (x, y) comes from (width−1−x, y). The code only mirrors the colour buffer on write-back; this operation on photos exists to state `Stencil.ProcessMirror` and `Stencil.FlipMirrors`. |
| Raster.MirrorImageInvolution | utils/imageProcessing.ts:203-210 | Mirroring an image twice gives it back. |
| Hex.Digits | utils/imageProcessing.ts:17 | A matching colour string is six hex digits, with or without a leading `#`. |
| Hex.DigitValue | utils/imageProcessing.ts:19-21 | A hex digit's value, in either letter case, is below 16. |
| Hex.PairValue | utils/imageProcessing.ts:19-21 | Two digits give the byte whose high nibble is the first digit and whose low nibble is the second. |
| Hex.ParseHexColor | utils/imageProcessing.ts:16-23 | A colour comes back exactly when the string matches `^#?` followed by six hex digits, case-insensitive. |
| Hex.HexToRgb | utils/imageProcessing.ts:16-25 | A string that does not match gives black; a string that matches gives its parsed colour. |
| Hex.ToHex | utils/imageProcessing.ts:16-23 | The printed form of any colour is a 7-character string that matches the colour pattern. |
| Hex.ParseToHex | utils/imageProcessing.ts:16-23 | Parsing the printed form of a colour gives that colour back. |
| Hex.ToHexParse | utils/imageProcessing.ts:16-23 | Printing a parsed colour gives `#` followed by the original digits in lower case. |
| Hex.CaseInsensitive | utils/imageProcessing.ts:17 | Upper- and lower-case spellings of a colour parse to the same colour. |
| Hex.DefaultLineColorIsBlack | types.ts:30 | The default line colour `#000000` parses to black. |
| Hex.ShorthandIsBlack | utils/imageProcessing.ts:17-22 | Three-digit shorthand does not match, so `#FFF` gives black, not white. |
| Tone.ContrastFactor | utils/imageProcessing.ts:28 | At contrast 0 the factor is 1. It is positive for contrast in (−255, 259) and 0 at −255. |
| Tone.Clamp | utils/imageProcessing.ts:49-51 | The clamped value lies in [0, 255], equals the input inside that range, and saturates at the nearer end outside it. |
| Tone.ToneChannel | utils/imageProcessing.ts:44-51 | A remapped channel always lies in [0, 255]. |
| Tone.Luma | utils/imageProcessing.ts:31 | Luma of in-range channels is in range, and a neutral gray keeps its level because the weights sum to 1. |
| Tone.PixelGray | utils/imageProcessing.ts:38-55 | A pixel's gray value lies in [0, 255]. |
| Tone.GrayPass | utils/imageProcessing.ts:35-55 | The gray buffer has one value in [0, 255] per pixel. |
| Tone.NeutralTone | utils/imageProcessing.ts:28-54 | At contrast 0 and brightness 0 the gray value is the plain luma of the pixel. |
| Tone.GrayPixelLevel | utils/imageProcessing.ts:44-54 | A neutral gray pixel's gray value is its single remapped channel. |
| Tone.MidGrayPixel | utils/imageProcessing.ts:44-54 | A 128/128/128 pixel maps to 128 + brightness at any contrast, while that stays inside the clamp. |
| Tone.GrayIgnoresAlpha | utils/imageProcessing.ts:38-55 | Images that agree on colour have the same gray buffer, because alpha is never read. |
| Tone.GrayMirror | utils/imageProcessing.ts:38-55 | The tone pass commutes with the horizontal mirror. |
| Blur.RowCountOverlap | utils/imageProcessing.ts:66-73 | The counter of one window row counts exactly that row's in-bounds columns. |
| Blur.RectCountOverlap | utils/imageProcessing.ts:64-75 | The window's counter is the product of its clipped width and clipped height. |
| Blur.WindowCount | utils/imageProcessing.ts:65-76 | The window of an in-bounds pixel counts at least one cell, so the division is defined. |
| Blur.BlurRadiusZero | utils/imageProcessing.ts:58-80 | At radius 0 the blur is the identity. |
| Blur.BoxBlur | utils/imageProcessing.ts:60-79 | The blurred buffer has the input's shape; its values are stated by the lemmas below. |
| Blur.Smooth | utils/imageProcessing.ts:58-80 | The smoothing stage keeps the buffer's shape and is the identity when smoothing < 1. |
| Blur.WindowMeanBounds | utils/imageProcessing.ts:64-76 | Each blurred value lies between the least and the greatest in-bounds value of its window. |
| Blur.BlurBounds | utils/imageProcessing.ts:58-80 | The blur keeps every value inside any range that holds all the input values. |
| Blur.SmoothBounds | utils/imageProcessing.ts:58-80 | The smoothing stage, at any setting, keeps values inside any range that holds the input. |
| Blur.SmoothUniform | utils/imageProcessing.ts:58-80 | A uniform buffer is unchanged by smoothing. |
| Blur.RowSumMirror | utils/imageProcessing.ts:66-73 | A row sum over the mirror image is the row sum over the reflected column range. |
| Blur.RectSumMirror | utils/imageProcessing.ts:66-75 | A window sum over the mirror image is the sum over the reflected window. |
| Blur.OverlapReflect | utils/imageProcessing.ts:70 | Reflecting a column range keeps the number of its columns that are in bounds. |
| Blur.WindowMeanMirror | utils/imageProcessing.ts:64-76 | The window mean at column x of the mirror image is the mean at column width−1−x of the original. |
| Blur.BlurMirror | utils/imageProcessing.ts:58-80 | Blurring the mirror image is mirroring the blurred image. |
| Blur.SmoothMirror | utils/imageProcessing.ts:58-80 | The smoothing stage commutes with the mirror. |
| Blur.WindowSumCover | utils/imageProcessing.ts:64-76 | When a window covers the whole image, it sums every cell and counts width × height. |
| Blur.BlurWideRadius | utils/imageProcessing.ts:58-80 | A radius at least as large as the image makes every value the global mean. |
| Blur.BoxBlurLoop | utils/imageProcessing.ts:58-80 | The four nested loops with bounds checks compute exactly `BoxBlur`. |
| Sobel.SquaredGradient | utils/imageProcessing.ts:92-109 | gx² + gy² is never negative, so the square root is taken of a non-negative number. |
| Sobel.Magnitudes | utils/imageProcessing.ts:87-116 | The magnitude buffer has the image's shape, and every first/last row and column pixel keeps 0. |
| Sobel.ThinImageHasNoEdges | utils/imageProcessing.ts:89-90 | An image under 3 pixels wide or high has no interior, so every magnitude is 0. |
| Sobel.MagnitudesNonNegative | utils/imageProcessing.ts:109-114 | With a real square root and non-negative intensity, no magnitude is negative. |
| Sobel.SymmetricNeighbourhood | utils/imageProcessing.ts:92-107 | A neighbourhood that is symmetric left-right and top-bottom has zero gradient, whatever the centre value. |
| Sobel.UniformHasNoEdges | utils/imageProcessing.ts:89-116 | A uniform buffer has magnitude 0 everywhere when sqrt(0) = 0. |
| Sobel.GradientMirror | utils/imageProcessing.ts:92-107 | Mirroring negates the horizontal gradient and keeps the vertical one. |
| Sobel.SquaredGradientMirror | utils/imageProcessing.ts:92-109 | Mirroring keeps the squared gradient, read at the mirrored column. |
| Sobel.MagnitudesMirror | utils/imageProcessing.ts:87-116 | Edge detection commutes with the horizontal mirror. |
| Dilate.MaxOf | utils/imageProcessing.ts:131 | `Math.max` returns one of its arguments and is at least both. |
| Dilate.RowMaxIsMax | utils/imageProcessing.ts:127-133 | A row's running maximum is at least its start and every in-bounds cell, and equals the start or one of those cells. |
| Dilate.WindowMaxIsMax | utils/imageProcessing.ts:125-134 | A window's running maximum from 0 is at least 0 and every in-bounds cell, and equals 0 or one of those cells. |
| Dilate.Radius | utils/imageProcessing.ts:122 | The radius is the floor of thickness / 2. |
| Dilate.Dilate | utils/imageProcessing.ts:118-138 | Thickness ≤ 1 leaves the buffer as it is. Otherwise every value rises to at least itself and at least 0. |
| Dilate.DilatedAtIsWindowMax | utils/imageProcessing.ts:120-137 | Each dilated value is max(0, the largest in-bounds value in its square window). |
| Dilate.ThinThicknessIsIdentity | utils/imageProcessing.ts:120-122 | A thickness below 2 gives radius 0, so a non-negative buffer is unchanged. |
| Dilate.MirrorCellInWindow | utils/imageProcessing.ts:126-133 | A cell in the window of column width−1−x, seen through the mirror, is bounded by the mirror image's window maximum at x. |
| Dilate.MirrorWindowAtLeast | utils/imageProcessing.ts:125-135 | The mirror image's window maximum at x is at least the original's at width−1−x. |
| Dilate.WindowMaxMirror | utils/imageProcessing.ts:125-135 | The two window maxima are equal. |
| Dilate.DilateMirror | utils/imageProcessing.ts:118-138 | Dilating the mirror image is mirroring the dilated image. |
| Dilate.DilateMonotone | utils/imageProcessing.ts:118-138 | Raising input values never lowers a dilated value. |
| Dilate.DilateZero | utils/imageProcessing.ts:118-138 | An all-zero buffer stays all zero. |
| Dilate.WindowMaxLoop | utils/imageProcessing.ts:125-135 | The two inner loops compute exactly the window's running maximum. |
| Dilate.DilateLoop | utils/imageProcessing.ts:118-138 | The nested loops of the dilation compute exactly `Dilate`. |
| Classify.Cut | utils/imageProcessing.ts:141 | The cut-off is non-negative for non-negative detail, at most 255 up to detail 100, and above 255 beyond. |
| Classify.CutMonotone | utils/imageProcessing.ts:141 | Higher detail never lowers the cut-off. |
| Classify.EdgeDecision | utils/imageProcessing.ts:143-157 | Edge mode marks magnitude > cut. Mixed mode also marks gray ≤ 128. `invert` flips the outcome. |
| Classify.ThresholdDecision | utils/imageProcessing.ts:176-182 | Threshold mode marks gray < cut; inverted, it marks gray ≥ cut. |
| Classify.EdgeMask | utils/imageProcessing.ts:143-157 | The edge-mode mask holds `EdgeDecision` at every pixel. |
| Classify.ThresholdMask | utils/imageProcessing.ts:178-182 | The threshold-mode mask holds `ThresholdDecision` at every pixel. |
| Classify.Paint | utils/imageProcessing.ts:159-171 | A line pixel is the opaque line colour, and a background pixel is opaque white. |
| Classify.Colorize | utils/imageProcessing.ts:159-171 | The colour buffer is opaque, with the line colour where the mask is set and white elsewhere. |
| Classify.InvertFlipsDecisions | utils/imageProcessing.ts:155-157 | Inversion swaps the outcome of every decision, in every mode. |
| Classify.MixedExtendsEdge | utils/imageProcessing.ts:148-153 | Without inversion, mixed marks exactly what edge marks plus every pixel with gray ≤ 128. |
| Classify.CountLinesMonotone | utils/imageProcessing.ts:143-195 | A mask that marks a superset of another's pixels counts at least as many line pixels. |
| Classify.ThresholdDetailMonotone | utils/imageProcessing.ts:176-180 | In threshold mode without inversion, raising detail only adds line pixels, and the line count does not drop. With inversion it is the reverse: raising detail only removes line pixels. |
| Classify.EdgeDetailAntitone | utils/imageProcessing.ts:141-153 | In edge and mixed modes without inversion, raising detail only removes line pixels, and the line count does not grow. With inversion it is the reverse: raising detail only adds line pixels. |
| Classify.EdgeMaskMirror | utils/imageProcessing.ts:143-157 | The edge mask commutes with mirroring its two inputs. |
| Classify.ThresholdMaskMirror | utils/imageProcessing.ts:178-182 | The threshold mask commutes with the mirror. |
| Classify.ColorizeMirror | utils/imageProcessing.ts:159-171 | Colouring commutes with the mirror. |
| Classify.ColorizeLoop | utils/imageProcessing.ts:143-172 | The per-pixel writing loop computes exactly `Colorize`. |
| Stencil.SmoothedGray | utils/imageProcessing.ts:37-80 | The buffer after tone and smoothing has the image's shape, with values in [0, 255]. |
| Stencil.EdgeStrength | utils/imageProcessing.ts:87-138 | The dilated magnitude buffer has the image's shape. |
| Stencil.LineMask | utils/imageProcessing.ts:85-196 | The line mask has the image's shape. In threshold mode it is the threshold mask at cut-off `Cut(detail)`. In edge and mixed modes it is the edge mask of the dilated magnitudes at that cut-off. |
| Stencil.ImageMask | utils/imageProcessing.ts:37-196 | The mask computed from a photo has the photo's shape. |
| Stencil.ProcessStencil | utils/imageProcessing.ts:6-215 | Same size. Every pixel is opaque. Pixel (x, y) is the line colour when the mask at (ReadColumn(x), y) is set and white otherwise. |
| Stencil.ProcessMirror | utils/imageProcessing.ts:6-215 | Processing a mirrored photo gives the mirrored stencil, in every mode. |
| Stencil.FlipMirrors | utils/imageProcessing.ts:198-212 | `flipX` mirrors the unflipped stencil, which is also the stencil of the mirrored photo. |
| Stencil.MaskInvert | utils/imageProcessing.ts:155-157 | `invert` negates the line mask at every pixel and changes nothing else. |
| Stencil.InvertSwapsColors | utils/imageProcessing.ts:155-194 | For a non-white line colour, inversion swaps line-coloured and white pixels. |
| Stencil.ThresholdIgnoresEdgeSettings | utils/imageProcessing.ts:174-195 | Threshold mode ignores thickness, intensity and the square root. |
| Stencil.ProcessIgnoresDisplayFields | utils/imageProcessing.ts:6-215 | The overlay fields and the active-preset name do not affect the stencil. |
| Stencil.OutputOfExtremeMask | utils/imageProcessing.ts:159-212 | An empty mask gives an all-white stencil, and a full mask gives an all-line one. |
| Stencil.ThresholdNoDetailIsBlank | utils/imageProcessing.ts:176-194 | Threshold mode at detail ≤ 0, not inverted, draws nothing. |
| Stencil.ThresholdFullDetailIsSolid | utils/imageProcessing.ts:176-194 | Threshold mode at detail > 100, not inverted, draws every pixel. |
| Stencil.MidGrayThreshold | utils/imageProcessing.ts:38-195 | A mid-gray photo in threshold mode is blank whenever the cut-off is at most 128 + brightness. |
| Stencil.MidGrayAtHalfDetail | utils/imageProcessing.ts:38-195 | The concrete case: a mid-gray photo at detail 50 and brightness 0 gives a blank stencil. |
| Stencil.FlatEdgesAreBlank | utils/imageProcessing.ts:118-172 | Edge mode with all-zero magnitudes, non-negative detail and no inversion draws nothing. |
| Stencil.ThinImageIsBlank | utils/imageProcessing.ts:85-172 | In edge mode an image under 3 pixels wide or high gives a blank stencil. |
| Stencil.WideBlurIsBlank | utils/imageProcessing.ts:58-172 | When the blur window covers the whole photo, edge mode draws nothing. |
| Stencil.DefaultsSmallPhotoIsBlank | utils/imageProcessing.ts:58-172 | Under the defaults a photo of at most 3×3 pixels gives an all-white stencil. |
| Stencil.DefaultsAreSobelThreshold | types.ts:20-34 | Under the defaults a pixel is black exactly when the Sobel magnitude of the smoothed gray buffer exceeds 76.5, and white otherwise. |
| Stencil.MixedAddsToEdge | utils/imageProcessing.ts:148-153 | Without inversion, switching edge mode to mixed only adds line pixels to the stencil. |
| Layout.OffsetInRange | utils/imageProcessing.ts:204-205 | Every byte of an in-bounds pixel lies inside the 4 · width · height buffer. |
| Layout.SplitIndex | utils/imageProcessing.ts:38-54 | A flat byte index splits into column, row and channel, and recombines to itself. |
| Layout.OffsetSplits | utils/imageProcessing.ts:204-205 | The pixel, column, row and channel are recovered exactly from an offset. |
| Layout.Flatten | utils/imageProcessing.ts:12-13 | The byte buffer of a width × height image has 4 · width · height entries. |
| Layout.FlattenAt | utils/imageProcessing.ts:204-210 | Channel c of pixel (x, y) sits at 4 · (y · width + x) + c. |
| Layout.Unflatten | utils/imageProcessing.ts:12-13 | Reading a buffer of the right length gives a valid image of that size. |
| Layout.UnflattenFlatten | utils/imageProcessing.ts:12-13 | Reading back the bytes of an image gives the image. |
| Layout.FlattenUnflatten | utils/imageProcessing.ts:12-13 | Writing out an image read from a buffer gives the buffer back. |
| Layout.WriteBackBytes | utils/imageProcessing.ts:198-212 | In byte form, the four bytes at output pixel (x, y) are the bytes of the colour buffer at (readX, y). |
| SettingsUpdate.Extensionality | App.tsx:56-58 | Two settings records agree on every key exactly when they are equal. |
| SettingsUpdate.UpdateSetting | App.tsx:56-58 | After an update the named key holds the new value, and every other key keeps its value. |
| SettingsUpdate.UpdatesCommute | App.tsx:56-58 | Updates of two different keys commute. |
| SettingsUpdate.LastWriteWins | App.tsx:56-58 | Of two updates of the same key, the later one wins. |
| SettingsUpdate.UpdateWithCurrentValue | App.tsx:56-58 | Writing back the value a key already holds changes nothing. |
| SettingsUpdate.ApplyUpdatesGet | components/Sidebar.tsx:122-124 | After a sequence of updates, each key holds its last written value, or its old value if no update names it. |
| App.ResetSettings | App.tsx:60-66 | The reset keeps mode and line colour, and every other key takes its default. |
| App.ResetIdempotent | App.tsx:60-66 | Resetting twice is resetting once, and the result depends only on the kept mode and line colour. |
| App.HandleReset | App.tsx:60-66 | On the stencil tab the settings are reset. On the plane-art tab only the generated result is cleared. |
| App.LoadNewImage | App.tsx:79-84 | A new photo marks the image loaded, resets the settings like the reset button, and drops the plane-art result. |
| App.LoadAgreesWithReset | App.tsx:60-83 | On the stencil tab, loading a photo and pressing reset leave the same settings. |
| App.AiResultSettings | App.tsx:174-180 | AI results use threshold mode, detail 50, smoothing 0 and the previous line colour, with every other key at its default. |
| App.PlaneArtToStencil | App.tsx:260-276 | Without a plane-art result (none, or the empty string) nothing changes. With one, the tab switches to the stencil tab, an image counts as loaded, and the AI-result settings apply. |
| App.ApplyAiResult | App.tsx:169-182 | Without a picture from the AI dialog the settings stay. With one they become the AI-result settings. |
| App.AiResultIdempotent | App.tsx:169-182 | The AI-result settings are a fixed point: applying an AI picture twice, or sending the plane-art result twice, is the same as doing it once. Sending the plane-art result applies the same settings as the dialogs. |
| App.AiResultIsPlainThreshold | App.tsx:377-383 | Under the AI-result settings a pixel is line-coloured exactly when its gray value at contrast 10 and brightness 0 is below 127.5. |
| App.ExportPixel | App.tsx:354-361 | A near-white pixel (all channels > 250) becomes fully transparent with its colour kept. Any other pixel is unchanged. |
| App.ExportTransparent | App.tsx:354-361 | The download pass applies that rule to every pixel and keeps every colour. |
| App.ExportIdempotent | App.tsx:354-361 | Exporting an exported image changes nothing. |
| App.ExportedStencil | App.tsx:354-361 | For a line colour that is not near white, the exported stencil has alpha 0 exactly on white pixels and 255 exactly on line pixels. |
| Presets.PresetValues | components/Sidebar.tsx:83-119 | The values a preset writes never touch the active preset, line colour, flip or overlay keys. An unknown name writes nothing. |
| Presets.PresetUpdates | components/Sidebar.tsx:79-81 | The first update records the preset name, and no later update touches the active preset. |
| Presets.ApplyPreset | components/Sidebar.tsx:79-125 | Choosing a preset records its name as the active preset, and every key the preset does not list keeps its value. |
| Presets.UnknownPresetOnlyRecords | components/Sidebar.tsx:79-125 | An unknown preset name records itself and changes nothing else. |
| Presets.LineartPreset | components/Sidebar.tsx:83-95 | The line-art preset gives edge mode, smoothing 1, detail 100, thickness 1, contrast 0, brightness 0, intensity 50 and no inversion. |
| Presets.RealisticPreset | components/Sidebar.tsx:96-107 | The portrait preset gives mixed mode, smoothing 5, detail 30, thickness 1.5, contrast 25, intensity 90 and no inversion, and keeps brightness. |
| Presets.TraditionalPreset | components/Sidebar.tsx:108-119 | The bold preset gives threshold mode, smoothing 1, detail 60, thickness 4, contrast 40, intensity 100 and no inversion. |
| Presets.PresetRecordsName | components/Sidebar.tsx:79-125 | Every preset records its name and keeps line colour, flip and overlay settings. |
| Presets.PresetIdempotent | components/Sidebar.tsx:79-125 | Choosing the same preset twice is choosing it once. |
| Presets.DefaultsInSliderRanges | components/Sidebar.tsx:359-364 | The defaults lie inside the six slider ranges. |
| Presets.SliderContrastIsSafe | components/Sidebar.tsx:363 | Inside the slider range the contrast is never 259, where the factor is undefined, and stays above −255. |
| Presets.PresetsStayInSliderRanges | components/Sidebar.tsx:79-125 | Applying a preset to settings inside the slider ranges keeps them inside. |
| Presets.TraditionalIgnoresThickness | components/Sidebar.tsx:108-119 | The bold preset's thickness and intensity have no effect, because threshold mode ignores them. |
| Presets.RealisticThicknessHasNoEffect | components/Sidebar.tsx:96-107 | The portrait preset's thickness 1.5 gives radius 0, so it draws exactly what thickness 1 draws. |

## Left out

- App.PlaneArtToStencil and App.ApplyAiResult: the code applies the new state once the picture has loaded; a picture that fails to load, and the new original image itself, are not modelled.
- Canvas and DOM I/O are not modelled: reading the photo, drawing previews, and the download link. The pipeline takes and returns image values.
- The downscale to a maximum dimension before processing is not modelled; the pipeline gets the already-sized image.
- The debounce and the React effects that decide when the pipeline runs are not modelled; only the state each transition produces.
- The AI calls (the Gemini client), the preview area and the rest of the sidebar's UI are not part of this model. For an AI result, only the settings it applies are modelled.
- All floating-point arithmetic is idealised to exact reals. This covers the Float32 rounding of the gray, magnitude and blur buffers. It also covers the double-precision formulas: the contrast factor, the luma weights, `edgeIntensity / 20` and the cut-off `detail * 2.55`. `Math.sqrt` is a caller-supplied function.
- Classify.Cut: the model's cut-off is exactly detail·2.55. In doubles, `100 * 2.55` is 254.99999999999997 and `50 * 2.55` is 127.49999999999999, while detail 30 and 60 give exactly 76.5 and 153. So at detail 100 in edge or mixed mode (the line-art preset), a dilated magnitude of exactly 255 is a line pixel in the code and background in the model. At detail 50 the same holds for a magnitude of exactly 127.5. Threshold mode is not affected at these values: no Float32 gray value lies between the double cut-off and the exact one.
- Tone.ContrastFactor requires contrast ≠ 259. At 259 the code divides by zero and carries IEEE infinities and NaN through the remap; the model does not describe that. The sliders keep contrast in [−50, 100] (`Presets.SliderContrastIsSafe`).
- Stencil.ProcessStencil and every stencil lemma inherit the contrast ≠ 259 requirement for the same reason.
- The branch where the mode is none of edge, threshold or mixed is not modelled. There the colour buffer stays all zero. `Mode` is a closed type, so that branch cannot be reached.
- Blur.BoxBlur: its ensures states only the shape. Its values are specified through `Blur.BoxBlurLoop`, `Blur.WindowMeanBounds`, `Blur.BlurMirror` and `Blur.BlurWideRadius`.
- Stencil.EdgeStrength: its ensures states only the shape; `Dilate.Dilate` and `Sobel.Magnitudes` carry the content.
- Stencil.ImageMask: its ensures states only the shape; the mode dispatch is stated by `Stencil.LineMask`, and the decisions by `Classify.EdgeMask` and `Classify.ThresholdMask`.
- Types.InDocumentedRanges: the ranges written beside the record's fields are not enforced anywhere in the code. The model only checks that the defaults meet them.
