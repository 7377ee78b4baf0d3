/**
  Pass 1 of the pipeline: the contrast/brightness remap of each colour
  channel, the clamp to [0, 255] and the reduction to luma. Alpha is not read.
 */
module Tone {
  import opened Grid
  import opened Raster

  /** The contrast stretch factor; its denominator vanishes at contrast 259. */
  function ContrastFactor(contrast: real): (f: real)
    requires contrast != 259.0
    ensures contrast == 0.0 ==> f == 1.0
    ensures -255.0 < contrast < 259.0 ==> f > 0.0
    ensures contrast == -255.0 ==> f == 0.0
  {
    var num := 259.0 * (contrast + 255.0);
    var den := 255.0 * (259.0 - contrast);
    assert -255.0 < contrast < 259.0 ==> num / den > 0.0 by {
      if -255.0 < contrast < 259.0 {
        PositiveQuotient(num, den);
      }
    }
    num / den
  }

  lemma PositiveQuotient(a: real, b: real)
    requires a > 0.0 && b > 0.0
    ensures a / b > 0.0
  {
    assert (a / b) * b == a;
  }

  /** `max(0, min(255, v))`. */
  function Clamp(v: real): (r: real)
    ensures 0.0 <= r <= 255.0
    ensures 0.0 <= v <= 255.0 ==> r == v
    ensures v < 0.0 ==> r == 0.0
    ensures v > 255.0 ==> r == 255.0
  {
    if v > 255.0 then 255.0 else if v < 0.0 then 0.0 else v
  }

  /** One channel after the tone remap and the clamp. */
  function ToneChannel(v: Byte, factor: real, brightness: real): (t: real)
    ensures 0.0 <= t <= 255.0
  {
    Clamp(factor * (v as real - 128.0) + 128.0 + brightness)
  }

  /** Weighted luma with weights 0.299, 0.587 and 0.114. */
  function Luma(r: real, g: real, b: real): (l: real)
    ensures 0.0 <= r <= 255.0 && 0.0 <= g <= 255.0 && 0.0 <= b <= 255.0 ==> 0.0 <= l <= 255.0
    ensures r == g == b ==> l == r
  {
    0.299 * r + 0.587 * g + 0.114 * b
  }

  /** Gray value of one pixel after the tone remap. */
  function PixelGray(p: Pixel, contrast: real, brightness: real): (l: real)
    requires contrast != 259.0
    ensures 0.0 <= l <= 255.0
  {
    var f := ContrastFactor(contrast);
    Luma(ToneChannel(p.r, f, brightness), ToneChannel(p.g, f, brightness), ToneChannel(p.b, f, brightness))
  }

  /** The gray rule for fixed contrast and brightness, as a cell-wise map. */
  function GrayOf(contrast: real, brightness: real): Pixel -> real
    requires contrast != 259.0
  {
    p => PixelGray(p, contrast, brightness)
  }

  /** The gray buffer of an image: one value in [0, 255] per pixel. */
  function GrayPass(img: Image, contrast: real, brightness: real): (gray: Grid<real>)
    requires img.Valid() && contrast != 259.0
    ensures IsGrid(gray, img.width, img.height)
    ensures forall y, x :: 0 <= y < img.height && 0 <= x < img.width ==>
      0.0 <= gray[y][x] <= 255.0
  {
    MapGrid(img.pixels, img.width, img.height, GrayOf(contrast, brightness))
  }

  /** At contrast 0 and brightness 0 the remap is the identity, so the gray value is the plain luma. */
  lemma NeutralTone(p: Pixel)
    ensures PixelGray(p, 0.0, 0.0) == Luma(p.r as real, p.g as real, p.b as real)
  {
  }

  /**
    A neutral gray pixel stays at its level whenever the remap keeps it inside
    [0, 255]: the stretch pivots on 128 and the luma weights sum to 1.
   */
  lemma GrayPixelLevel(p: Pixel, contrast: real, brightness: real)
    requires contrast != 259.0
    requires p.r == p.g == p.b
    ensures PixelGray(p, contrast, brightness) == ToneChannel(p.r, ContrastFactor(contrast), brightness)
  {
  }

  /** A pixel at exactly 128 on every channel maps to gray 128 + brightness (inside the clamp). */
  lemma MidGrayPixel(p: Pixel, contrast: real, brightness: real)
    requires contrast != 259.0
    requires p.r == 128 && p.g == 128 && p.b == 128
    requires -128.0 <= brightness <= 127.0
    ensures PixelGray(p, contrast, brightness) == 128.0 + brightness
  {
    GrayPixelLevel(p, contrast, brightness);
  }

  /** The gray pass ignores alpha: images that agree on colour have the same gray buffer. */
  lemma GrayIgnoresAlpha(a: Image, b: Image, contrast: real, brightness: real)
    requires a.Valid() && b.Valid() && a.width == b.width && a.height == b.height
    requires contrast != 259.0
    requires forall y, x :: 0 <= y < a.height && 0 <= x < a.width ==>
      a.pixels[y][x].Color() == b.pixels[y][x].Color()
    ensures GrayPass(a, contrast, brightness) == GrayPass(b, contrast, brightness)
  {
    var ga := GrayPass(a, contrast, brightness);
    var gb := GrayPass(b, contrast, brightness);
    forall y | 0 <= y < a.height
      ensures ga[y] == gb[y]
    {
      forall x | 0 <= x < a.width
        ensures ga[y][x] == gb[y][x]
      {
        assert a.pixels[y][x].Color() == b.pixels[y][x].Color();
      }
    }
  }

  /** The gray pass commutes with the horizontal mirror. */
  lemma GrayMirror(img: Image, contrast: real, brightness: real)
    requires img.Valid() && contrast != 259.0
    ensures GrayPass(MirrorImage(img), contrast, brightness) ==
      Mirror(GrayPass(img, contrast, brightness), img.width, img.height)
  {
    MapMirror(img.pixels, img.width, img.height, GrayOf(contrast, brightness));
  }
}
