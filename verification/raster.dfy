/**
  RGBA rasters: the `ImageData` the pipeline reads and writes, with one
  record per pixel and 8-bit channels.
 */
module Raster {
  import opened Grid

  /** One 8-bit channel value. */
  type Byte = x: int | 0 <= x < 256

  datatype Rgb = Rgb(r: Byte, g: Byte, b: Byte)

  datatype Pixel = Pixel(r: Byte, g: Byte, b: Byte, a: Byte) {
    function Color(): Rgb {
      Rgb(r, g, b)
    }
  }

  /** `width` x `height` pixels, row-major. */
  datatype Image = Image(width: nat, height: nat, pixels: Grid<Pixel>) {
    predicate Valid() {
      IsGrid(pixels, width, height)
    }
  }

  const White: Rgb := Rgb(255, 255, 255)
  const Black: Rgb := Rgb(0, 0, 0)

  /** A fully opaque pixel of colour `c`. */
  function Opaque(c: Rgb): (p: Pixel)
    ensures p.a == 255 && p.Color() == c
  {
    Pixel(c.r, c.g, c.b, 255)
  }

  /** The image mirrored left to right. */
  function MirrorImage(img: Image): (m: Image)
    requires img.Valid()
    ensures m.Valid() && m.width == img.width && m.height == img.height
    ensures forall y, x :: 0 <= y < img.height && 0 <= x < img.width ==>
      m.pixels[y][x] == img.pixels[y][img.width - 1 - x]
  {
    Image(img.width, img.height, Mirror(img.pixels, img.width, img.height))
  }

  lemma MirrorImageInvolution(img: Image)
    requires img.Valid()
    ensures MirrorImage(MirrorImage(img)) == img
  {
    MirrorInvolution(img.pixels, img.width, img.height);
  }
}
