/**
  The whole stencil pipeline: line colour parsing, tone and gray pass,
  smoothing, then either Sobel edges with dilation (edge and mixed modes) or
  a plain gray threshold (threshold mode), colouring, and the final
  write-back that mirrors the picture when `flipX` is set.
 */
module Stencil {
  import opened Grid
  import opened Raster
  import opened Types
  import opened Hex
  import opened Tone
  import opened Blur
  import opened Sobel
  import opened Dilate
  import opened Classify

  /** The gray buffer after the tone pass and the optional smoothing pass; it stays within [0, 255]. */
  function SmoothedGray(img: Image, contrast: real, brightness: real, smoothing: real): (g: Grid<real>)
    requires img.Valid() && contrast != 259.0
    ensures IsGrid(g, img.width, img.height)
    ensures forall y, x :: 0 <= y < img.height && 0 <= x < img.width ==> 0.0 <= g[y][x] <= 255.0
  {
    var gray := GrayPass(img, contrast, brightness);
    SmoothBounds(gray, img.width, img.height, smoothing, 0.0, 255.0);
    Smooth(gray, img.width, img.height, smoothing)
  }

  /** The buffer edge and mixed modes compare against the cut-off: dilated Sobel magnitudes. */
  function EdgeStrength(gray: Grid<real>, w: nat, h: nat, s: Settings, sqrt: Root): (d: Grid<real>)
    requires IsGrid(gray, w, h)
    ensures IsGrid(d, w, h)
  {
    Dilate.Dilate(Magnitudes(gray, w, h, s.edgeIntensity, sqrt), w, h, s.thickness)
  }

  /** Which pixels become line pixels, before the write-back. */
  function LineMask(gray: Grid<real>, w: nat, h: nat, s: Settings, sqrt: Root): (m: Grid<bool>)
    requires IsGrid(gray, w, h)
    ensures IsGrid(m, w, h)
    ensures s.mode == Threshold ==> m == ThresholdMask(gray, w, h, Cut(s.detail), s.invert)
    ensures s.mode != Threshold ==>
      m == EdgeMask(EdgeStrength(gray, w, h, s, sqrt), gray, w, h, s.mode, Cut(s.detail), s.invert)
  {
    match s.mode
    case Threshold => ThresholdMask(gray, w, h, Cut(s.detail), s.invert)
    case _ => EdgeMask(EdgeStrength(gray, w, h, s, sqrt), gray, w, h, s.mode, Cut(s.detail), s.invert)
  }

  /** The mask of an image under a settings record. */
  function ImageMask(img: Image, s: Settings, sqrt: Root): (m: Grid<bool>)
    requires img.Valid() && s.contrast != 259.0
    ensures IsGrid(m, img.width, img.height)
  {
    LineMask(SmoothedGray(img, s.contrast, s.brightness, s.smoothing), img.width, img.height, s, sqrt)
  }

  /**
    The stencil of an image: same size, every pixel opaque, and each pixel
    either the parsed line colour or white. Output column x is read from
    mask column x, or from column width-1-x when `flipX` is set.
   */
  function ProcessStencil(img: Image, s: Settings, sqrt: Root): (out: Image)
    requires img.Valid() && s.contrast != 259.0
    ensures out.Valid() && out.width == img.width && out.height == img.height
    ensures forall y, x :: 0 <= y < img.height && 0 <= x < img.width ==>
      var p := out.pixels[y][x];
      var c := ReadColumn(img.width, s.flipX, x);
      && p.a == 255
      && (ImageMask(img, s, sqrt)[y][c] ==> p.Color() == HexToRgb(s.lineColor))
      && (!ImageMask(img, s, sqrt)[y][c] ==> p.Color() == White)
  {
    var w := img.width;
    var h := img.height;
    var colors := Colorize(ImageMask(img, s, sqrt), w, h, HexToRgb(s.lineColor));
    Image(w, h, WriteBack(colors, w, h, s.flipX))
  }

  /** Processing a mirrored photo gives the mirrored stencil, in every mode. */
  lemma ProcessMirror(img: Image, s: Settings, sqrt: Root)
    requires img.Valid() && s.contrast != 259.0
    ensures ProcessStencil(MirrorImage(img), s, sqrt) == MirrorImage(ProcessStencil(img, s, sqrt))
  {
    var w := img.width;
    var h := img.height;
    var g0 := GrayPass(img, s.contrast, s.brightness);
    GrayMirror(img, s.contrast, s.brightness);
    SmoothMirror(g0, w, h, s.smoothing);
    var g := SmoothedGray(img, s.contrast, s.brightness, s.smoothing);
    assert SmoothedGray(MirrorImage(img), s.contrast, s.brightness, s.smoothing) == Mirror(g, w, h);
    var cut := Cut(s.detail);
    if s.mode == Threshold {
      ThresholdMaskMirror(g, w, h, cut, s.invert);
    } else {
      var mags := Magnitudes(g, w, h, s.edgeIntensity, sqrt);
      MagnitudesMirror(g, w, h, s.edgeIntensity, sqrt);
      DilateMirror(mags, w, h, s.thickness);
      EdgeMaskMirror(EdgeStrength(g, w, h, s, sqrt), g, w, h, s.mode, cut, s.invert);
    }
    var mask := ImageMask(img, s, sqrt);
    assert ImageMask(MirrorImage(img), s, sqrt) == Mirror(mask, w, h);
    var line := HexToRgb(s.lineColor);
    ColorizeMirror(mask, w, h, line);
    WriteBackMirror(Colorize(mask, w, h, line), w, h, s.flipX);
  }

  /** Setting `flipX` mirrors the stencil, which is also the stencil of the mirrored photo. */
  lemma FlipMirrors(img: Image, s: Settings, sqrt: Root)
    requires img.Valid() && s.contrast != 259.0
    ensures ProcessStencil(img, s.(flipX := true), sqrt) == MirrorImage(ProcessStencil(img, s.(flipX := false), sqrt))
    ensures ProcessStencil(img, s.(flipX := true), sqrt) == ProcessStencil(MirrorImage(img), s.(flipX := false), sqrt)
  {
    var w := img.width;
    var h := img.height;
    var colors := Colorize(ImageMask(img, s, sqrt), w, h, HexToRgb(s.lineColor));
    assert ImageMask(img, s.(flipX := true), sqrt) == ImageMask(img, s, sqrt);
    assert ImageMask(img, s.(flipX := false), sqrt) == ImageMask(img, s, sqrt);
    WriteBackIdentity(colors, w, h);
    ProcessMirror(img, s.(flipX := false), sqrt);
  }

  /** `invert` negates the mask and nothing else. */
  lemma MaskInvert(img: Image, s: Settings, sqrt: Root)
    requires img.Valid() && s.contrast != 259.0
    ensures forall y, x :: 0 <= y < img.height && 0 <= x < img.width ==>
      ImageMask(img, s.(invert := true), sqrt)[y][x] == !ImageMask(img, s.(invert := false), sqrt)[y][x]
  {
    var g := SmoothedGray(img, s.contrast, s.brightness, s.smoothing);
    assert EdgeStrength(g, img.width, img.height, s.(invert := true), sqrt) ==
      EdgeStrength(g, img.width, img.height, s.(invert := false), sqrt);
  }

  /**
    With a line colour other than white, inverting swaps the two colours:
    a pixel is drawn in the line colour exactly when it is white without inversion.
   */
  lemma InvertSwapsColors(img: Image, s: Settings, sqrt: Root)
    requires img.Valid() && s.contrast != 259.0
    requires HexToRgb(s.lineColor) != White
    ensures forall y, x :: 0 <= y < img.height && 0 <= x < img.width ==>
      (ProcessStencil(img, s.(invert := true), sqrt).pixels[y][x].Color() == HexToRgb(s.lineColor) <==>
       ProcessStencil(img, s.(invert := false), sqrt).pixels[y][x].Color() == White)
  {
    MaskInvert(img, s, sqrt);
  }

  /** Threshold mode does not depend on the edge settings or on the square root. */
  lemma ThresholdIgnoresEdgeSettings(img: Image, s: Settings, sqrt: Root, sqrt': Root, thickness: real, edgeIntensity: real)
    requires img.Valid() && s.contrast != 259.0 && s.mode == Threshold
    ensures ProcessStencil(img, s.(thickness := thickness, edgeIntensity := edgeIntensity), sqrt') == ProcessStencil(img, s, sqrt)
  {
    assert ImageMask(img, s.(thickness := thickness, edgeIntensity := edgeIntensity), sqrt') == ImageMask(img, s, sqrt);
  }

  /** The overlay and preset fields are display state only: the stencil ignores them. */
  lemma ProcessIgnoresDisplayFields(img: Image, s: Settings, sqrt: Root, overlay: bool, opacity: real, preset: Option<string>)
    requires img.Valid() && s.contrast != 259.0
    ensures ProcessStencil(img, s.(overlayMode := overlay, overlayOpacity := opacity, activePreset := preset), sqrt) == ProcessStencil(img, s, sqrt)
  {
    var s' := s.(overlayMode := overlay, overlayOpacity := opacity, activePreset := preset);
    var g := SmoothedGray(img, s.contrast, s.brightness, s.smoothing);
    assert EdgeStrength(g, img.width, img.height, s', sqrt) == EdgeStrength(g, img.width, img.height, s, sqrt);
    assert ImageMask(img, s', sqrt) == ImageMask(img, s, sqrt);
  }

  /** Every pixel of the output is opaque white. */
  ghost predicate AllWhite(out: Image)
    requires out.Valid()
  {
    forall y, x :: 0 <= y < out.height && 0 <= x < out.width ==> out.pixels[y][x] == Opaque(White)
  }

  /** Every pixel of the output is the opaque line colour. */
  ghost predicate AllLine(out: Image, line: Rgb)
    requires out.Valid()
  {
    forall y, x :: 0 <= y < out.height && 0 <= x < out.width ==> out.pixels[y][x] == Opaque(line)
  }

  /** An empty mask gives an all-white stencil, and a full mask the all-line one. */
  lemma OutputOfExtremeMask(img: Image, s: Settings, sqrt: Root)
    requires img.Valid() && s.contrast != 259.0
    ensures (forall y, x :: 0 <= y < img.height && 0 <= x < img.width ==> !ImageMask(img, s, sqrt)[y][x]) ==>
      AllWhite(ProcessStencil(img, s, sqrt))
    ensures (forall y, x :: 0 <= y < img.height && 0 <= x < img.width ==> ImageMask(img, s, sqrt)[y][x]) ==>
      AllLine(ProcessStencil(img, s, sqrt), HexToRgb(s.lineColor))
  {
  }

  /** Threshold mode without inversion: detail 0 or less draws nothing, since no gray value is negative. */
  lemma ThresholdNoDetailIsBlank(img: Image, s: Settings, sqrt: Root)
    requires img.Valid() && s.contrast != 259.0
    requires s.mode == Threshold && !s.invert && s.detail <= 0.0
    ensures AllWhite(ProcessStencil(img, s, sqrt))
  {
    OutputOfExtremeMask(img, s, sqrt);
  }

  /** Threshold mode without inversion: detail above 100 puts the cut-off above 255, so everything is line. */
  lemma ThresholdFullDetailIsSolid(img: Image, s: Settings, sqrt: Root)
    requires img.Valid() && s.contrast != 259.0
    requires s.mode == Threshold && !s.invert && s.detail > 100.0
    ensures AllLine(ProcessStencil(img, s, sqrt), HexToRgb(s.lineColor))
  {
    OutputOfExtremeMask(img, s, sqrt);
  }

  /** A photo whose pixels are all mid-gray 128 (any alpha). */
  ghost predicate MidGrayPhoto(img: Image)
    requires img.Valid()
  {
    forall y, x :: 0 <= y < img.height && 0 <= x < img.width ==>
      img.pixels[y][x].r == 128 && img.pixels[y][x].g == 128 && img.pixels[y][x].b == 128
  }

  /**
    A mid-gray photo in threshold mode: every gray value is 128 + brightness,
    whatever the contrast and smoothing, so a cut-off at or below that level
    leaves the stencil blank.
   */
  lemma MidGrayThreshold(img: Image, s: Settings, sqrt: Root)
    requires img.Valid() && s.contrast != 259.0 && MidGrayPhoto(img)
    requires s.mode == Threshold && !s.invert
    requires -128.0 <= s.brightness <= 127.0
    requires Cut(s.detail) <= 128.0 + s.brightness
    ensures AllWhite(ProcessStencil(img, s, sqrt))
  {
    var w := img.width;
    var h := img.height;
    var level := 128.0 + s.brightness;
    var g0 := GrayPass(img, s.contrast, s.brightness);
    forall y, x | 0 <= y < h && 0 <= x < w
      ensures g0[y][x] == level
    {
      MidGrayPixel(img.pixels[y][x], s.contrast, s.brightness);
    }
    SmoothUniform(g0, w, h, s.smoothing, level);
    OutputOfExtremeMask(img, s, sqrt);
  }

  /** The concrete case: mid-gray photo, threshold mode, detail 50, brightness 0 gives a blank stencil. */
  lemma MidGrayAtHalfDetail(img: Image, s: Settings, sqrt: Root)
    requires img.Valid() && s.contrast != 259.0 && MidGrayPhoto(img)
    requires s.mode == Threshold && !s.invert && s.detail == 50.0 && s.brightness == 0.0
    ensures AllWhite(ProcessStencil(img, s, sqrt))
  {
    MidGrayThreshold(img, s, sqrt);
  }

  /** Edge mode without inversion draws nothing when every magnitude is 0 and the cut-off is not negative. */
  lemma FlatEdgesAreBlank(img: Image, s: Settings, sqrt: Root)
    requires img.Valid() && s.contrast != 259.0
    requires s.mode == Edge && !s.invert && s.detail >= 0.0
    requires Uniform(Magnitudes(SmoothedGray(img, s.contrast, s.brightness, s.smoothing), img.width, img.height, s.edgeIntensity, sqrt), img.width, img.height, 0.0)
    ensures AllWhite(ProcessStencil(img, s, sqrt))
  {
    var g := SmoothedGray(img, s.contrast, s.brightness, s.smoothing);
    DilateZero(Magnitudes(g, img.width, img.height, s.edgeIntensity, sqrt), img.width, img.height, s.thickness);
    OutputOfExtremeMask(img, s, sqrt);
  }

  /** An image less than three pixels wide or high gives a blank stencil in edge mode. */
  lemma ThinImageIsBlank(img: Image, s: Settings, sqrt: Root)
    requires img.Valid() && s.contrast != 259.0
    requires img.width < 3 || img.height < 3
    requires s.mode == Edge && !s.invert && s.detail >= 0.0
    ensures AllWhite(ProcessStencil(img, s, sqrt))
  {
    var g := SmoothedGray(img, s.contrast, s.brightness, s.smoothing);
    ThinImageHasNoEdges(g, img.width, img.height, s.edgeIntensity, sqrt);
    FlatEdgesAreBlank(img, s, sqrt);
  }

  /**
    When the blur window covers the whole photo, smoothing flattens it to its
    mean, so edge mode finds no edge and the stencil is blank.
   */
  lemma WideBlurIsBlank(img: Image, s: Settings, sqrt: Root)
    requires img.Valid() && s.contrast != 259.0
    requires s.mode == Edge && !s.invert && s.detail >= 0.0
    requires s.smoothing > 0.0 && img.width <= s.smoothing.Floor + 1 && img.height <= s.smoothing.Floor + 1
    requires sqrt(0.0) == 0.0
    ensures AllWhite(ProcessStencil(img, s, sqrt))
  {
    var w := img.width;
    var h := img.height;
    if w > 0 && h > 0 {
      var g0 := GrayPass(img, s.contrast, s.brightness);
      var g := SmoothedGray(img, s.contrast, s.brightness, s.smoothing);
      assert g == BoxBlur(g0, w, h, s.smoothing.Floor);
      var c := Total(g0, w, h) / ((w * h) as real);
      BlurWideRadius(g0, w, h, s.smoothing.Floor);
      UniformHasNoEdges(g, w, h, c, s.edgeIntensity, sqrt);
      FlatEdgesAreBlank(img, s, sqrt);
    }
  }

  /**
    Under the default settings any photo at most 3 x 3 pixels, a single dark
    dot on white included, gives a blank stencil: the radius-2 blur makes it
    uniform before edge detection.
   */
  lemma DefaultsSmallPhotoIsBlank(img: Image, sqrt: Root)
    requires img.Valid() && img.width <= 3 && img.height <= 3
    requires sqrt(0.0) == 0.0
    ensures AllWhite(ProcessStencil(img, DefaultSettings, sqrt))
  {
    assert DefaultSettings.smoothing.Floor == 2;
    WideBlurIsBlank(img, DefaultSettings, sqrt);
  }

  /**
    Under the default settings (edge mode, thickness 1, detail 30, no flip, black
    lines) a pixel is black exactly when the Sobel magnitude of the smoothed
    gray image there exceeds 76.5, and white otherwise.
   */
  lemma DefaultsAreSobelThreshold(img: Image, sqrt: Root, y: nat, x: nat)
    requires img.Valid() && y < img.height && x < img.width
    ensures var s := DefaultSettings;
      var g := SmoothedGray(img, s.contrast, s.brightness, s.smoothing);
      var mag := Magnitudes(g, img.width, img.height, s.edgeIntensity, sqrt)[y][x];
      ProcessStencil(img, s, sqrt).pixels[y][x] == (if mag > 76.5 then Opaque(Black) else Opaque(White))
  {
    DefaultLineColorIsBlack();
  }

  /** Without inversion, switching edge mode to mixed mode only adds line pixels. */
  lemma MixedAddsToEdge(img: Image, s: Settings, sqrt: Root)
    requires img.Valid() && s.contrast != 259.0 && !s.invert
    requires HexToRgb(s.lineColor) != White
    ensures forall y, x :: 0 <= y < img.height && 0 <= x < img.width ==>
      ProcessStencil(img, s.(mode := Edge), sqrt).pixels[y][x].Color() == HexToRgb(s.lineColor) ==>
      ProcessStencil(img, s.(mode := Mixed), sqrt).pixels[y][x].Color() == HexToRgb(s.lineColor)
  {
    var g := SmoothedGray(img, s.contrast, s.brightness, s.smoothing);
    assert EdgeStrength(g, img.width, img.height, s.(mode := Edge), sqrt) ==
      EdgeStrength(g, img.width, img.height, s.(mode := Mixed), sqrt);
  }
}
