/**
  The flat RGBA byte layout of `ImageData`: pixel (x, y) occupies the four
  bytes starting at 4 * (y * width + x), in the order red, green, blue,
  alpha. The rest of the model works on rows of pixel records; this module
  shows the two views hold the same information.
 */
module Layout {
  import opened Grid
  import opened Raster

  /** Channel `c` (0 red, 1 green, 2 blue, 3 alpha) of a pixel. */
  function Channel(p: Pixel, c: nat): Byte
    requires c < 4
  {
    if c == 0 then p.r else if c == 1 then p.g else if c == 2 then p.b else p.a
  }

  /** The flat index of the first byte of pixel (x, y). */
  function Offset(w: nat, x: nat, y: nat): nat {
    4 * (y * w + x)
  }

  /** The sign facts about `k * d` the index arithmetic needs. */
  lemma {:induction false} MulSign(k: int, d: nat)
    ensures k >= 0 ==> k * d >= 0
    ensures k >= 1 ==> k * d >= d
    ensures k <= -1 ==> k * d <= -(d as int)
    decreases if k < 0 then -k else k
  {
    if k > 0 {
      MulSign(k - 1, d);
      assert k * d == (k - 1) * d + d;
    } else if k < 0 {
      MulSign(k + 1, d);
      assert k * d == (k + 1) * d - d;
    }
  }

  /** Every byte of a pixel in a `w` x `h` image lies inside the `4 * w * h` buffer. */
  lemma OffsetInRange(w: nat, h: nat, x: nat, y: nat, c: nat)
    requires x < w && y < h && c < 4
    ensures Offset(w, x, y) + c < 4 * w * h
  {
    MulSign(h - y - 1, w);
    assert (h - y - 1) * w == h * w - y * w - w;
    assert y * w + x < h * w;
    assert 4 * w * h == 4 * (h * w);
  }

  /** A flat index splits back into its pixel column, row and channel. */
  lemma SplitIndex(w: nat, h: nat, i: nat)
    requires w > 0 && i < 4 * w * h
    ensures (i / 4) / w < h && (i / 4) % w < w && i % 4 < 4
    ensures i == Offset(w, (i / 4) % w, (i / 4) / w) + i % 4
  {
    var p := i / 4;
    var q := p / w;
    assert i == 4 * p + i % 4;
    assert p == q * w + p % w;
    assert 4 * w * h == 4 * (h * w);
    assert p < h * w;
    MulSign(q - h, w);
    assert (q - h) * w == q * w - h * w;
    MulSign(q, w);
  }

  /** The pixel, column, row and channel a flat index names are recovered exactly. */
  lemma OffsetSplits(w: nat, x: nat, y: nat, c: nat)
    requires x < w && c < 4
    ensures (Offset(w, x, y) + c) / 4 == y * w + x
    ensures (Offset(w, x, y) + c) % 4 == c
    ensures (y * w + x) / w == y && (y * w + x) % w == x
  {
    var p := y * w + x;
    MulSign(y, w);
    assert Offset(w, x, y) + c == p * 4 + c;
    DivModUnique(p * 4 + c, 4, p, c);
    DivModUnique(p, w, y, x);
  }

  /** Quotient and remainder are the only pair with `a == q * d + r` and `0 <= r < d`. */
  lemma DivModUnique(a: int, d: nat, q: int, r: int)
    requires d > 0 && 0 <= r < d && a == q * d + r
    ensures a / d == q && a % d == r
  {
    var q' := a / d;
    var r' := a % d;
    assert a == q' * d + r';
    assert (q' - q) * d == q' * d - q * d;
    assert (q' - q) * d == r - r';
    MulSign(q' - q, d);
  }

  /** The `ImageData` bytes of an image. */
  function Flatten(img: Image): (data: seq<Byte>)
    requires img.Valid()
    ensures |data| == 4 * img.width * img.height
  {
    var w := img.width;
    var h := img.height;
    seq(4 * w * h, (i: int) requires 0 <= i < 4 * w * h =>
      SplitIndex(w, h, i);
      Channel(img.pixels[(i / 4) / w][(i / 4) % w], i % 4))
  }

  /** Byte `c` of pixel (x, y) sits at offset 4 * (y * width + x) + c of the flat buffer. */
  lemma FlattenAt(img: Image, x: nat, y: nat, c: nat)
    requires img.Valid() && x < img.width && y < img.height && c < 4
    ensures Offset(img.width, x, y) + c < |Flatten(img)|
    ensures Flatten(img)[Offset(img.width, x, y) + c] == Channel(img.pixels[y][x], c)
  {
    OffsetInRange(img.width, img.height, x, y, c);
    OffsetSplits(img.width, x, y, c);
  }

  /** The pixel at (x, y) read from a flat buffer. */
  function PixelAt(data: seq<Byte>, w: nat, h: nat, x: nat, y: nat): Pixel
    requires |data| == 4 * w * h && x < w && y < h
  {
    OffsetInRange(w, h, x, y, 3);
    var o := Offset(w, x, y);
    Pixel(data[o], data[o + 1], data[o + 2], data[o + 3])
  }

  /** A flat buffer read back as an image. */
  function Unflatten(data: seq<Byte>, w: nat, h: nat): (img: Image)
    requires |data| == 4 * w * h
    ensures img.Valid() && img.width == w && img.height == h
  {
    Image(w, h, seq(h, (y: int) requires 0 <= y < h =>
      seq(w, (x: int) requires 0 <= x < w => PixelAt(data, w, h, x, y))))
  }

  /** Reading back the bytes of an image gives the image. */
  lemma UnflattenFlatten(img: Image)
    requires img.Valid()
    ensures Unflatten(Flatten(img), img.width, img.height) == img
  {
    var u := Unflatten(Flatten(img), img.width, img.height);
    forall y | 0 <= y < img.height
      ensures u.pixels[y] == img.pixels[y]
    {
      forall x | 0 <= x < img.width
        ensures u.pixels[y][x] == img.pixels[y][x]
      {
        FlattenAt(img, x, y, 0);
        FlattenAt(img, x, y, 1);
        FlattenAt(img, x, y, 2);
        FlattenAt(img, x, y, 3);
      }
    }
  }

  /** Writing out the image read from a buffer gives the buffer back. */
  lemma FlattenUnflatten(data: seq<Byte>, w: nat, h: nat)
    requires |data| == 4 * w * h
    ensures Flatten(Unflatten(data, w, h)) == data
  {
    var f := Flatten(Unflatten(data, w, h));
    forall i | 0 <= i < |data|
      ensures f[i] == data[i]
    {
      SplitIndex(w, h, i);
      var x := (i / 4) % w;
      var y := (i / 4) / w;
      var c := i % 4;
      var img := Unflatten(data, w, h);
      FlattenAt(img, x, y, c);
      OffsetInRange(w, h, x, y, 3);
    }
  }

  /**
    The final pass in flat form: the four bytes at pixel (x, y) of the
    output are the four bytes of the colour buffer at (readX, y), with
    readX = width-1-x when mirroring and x otherwise.
   */
  lemma WriteBackBytes(img: Image, flip: bool, x: nat, y: nat, c: nat)
    requires img.Valid() && x < img.width && y < img.height && c < 4
    ensures var w := img.width;
      var out := Flatten(Image(w, img.height, WriteBack(img.pixels, w, img.height, flip)));
      var src := Flatten(img);
      var readX := if flip then w - 1 - x else x;
      Offset(w, x, y) + c < |out| && Offset(w, readX, y) + c < |src| &&
      out[Offset(w, x, y) + c] == src[Offset(w, readX, y) + c]
  {
    var w := img.width;
    var readX := if flip then w - 1 - x else x;
    var moved := Image(w, img.height, WriteBack(img.pixels, w, img.height, flip));
    FlattenAt(moved, x, y, c);
    FlattenAt(img, readX, y, c);
  }
}
