/**
  The line/background decision and the colouring pass. The cut-off is
  detail * 2.55, which maps the 0..100 detail slider onto the 0..255 gray
  scale. A line pixel takes the line colour, a background pixel is white;
  both are fully opaque.
 */
module Classify {
  import opened Grid
  import opened Raster
  import opened Types

  /** The cut-off on the gray scale for a detail setting. */
  function Cut(detail: real): (c: real)
    ensures 0.0 <= detail ==> 0.0 <= c
    ensures detail <= 0.0 ==> c <= 0.0
    ensures detail <= 100.0 ==> c <= 255.0
    ensures detail > 100.0 ==> c > 255.0
  {
    detail * 2.55
  }

  /** A higher detail never lowers the cut-off. */
  lemma CutMonotone(d: real, d': real)
    requires d <= d'
    ensures Cut(d) <= Cut(d')
  {
  }

  /**
    Edge and mixed modes: a pixel is a line when its (dilated) magnitude
    exceeds the cut-off; mixed mode also takes every pixel whose gray value
    is not above 128; `invert` then flips the answer.
   */
  function EdgeDecision(mode: Mode, mag: real, gray: real, cut: real, invert: bool): (isLine: bool)
    ensures mode != Mixed ==> (isLine <==> (mag > cut) != invert)
    ensures mode == Mixed ==> (isLine <==> (mag > cut || gray <= 128.0) != invert)
  {
    var edge := mag > cut;
    var line := if mode == Mixed then edge || !(gray > 128.0) else edge;
    if invert then !line else line
  }

  /** Threshold mode: a pixel is a line when its gray value is below the cut-off, flipped by `invert`. */
  function ThresholdDecision(gray: real, cut: real, invert: bool): (isLine: bool)
    ensures !invert ==> (isLine <==> gray < cut)
    ensures invert ==> (isLine <==> cut <= gray)
  {
    var line := gray < cut;
    if invert then !line else line
  }

  /** The line mask of edge and mixed modes. */
  function EdgeMask(mags: Grid<real>, gray: Grid<real>, w: nat, h: nat, mode: Mode, cut: real, invert: bool): (m: Grid<bool>)
    requires IsGrid(mags, w, h) && IsGrid(gray, w, h)
    ensures IsGrid(m, w, h)
    ensures forall y, x :: 0 <= y < h && 0 <= x < w ==>
      m[y][x] == EdgeDecision(mode, mags[y][x], gray[y][x], cut, invert)
  {
    seq(h, (y: int) requires 0 <= y < h =>
      seq(w, (x: int) requires 0 <= x < w => EdgeDecision(mode, mags[y][x], gray[y][x], cut, invert)))
  }

  /** The threshold rule for a fixed cut-off and inversion, as a cell-wise map. */
  function ThresholdWith(cut: real, invert: bool): real -> bool {
    gray => ThresholdDecision(gray, cut, invert)
  }

  /** The line mask of threshold mode. */
  function ThresholdMask(gray: Grid<real>, w: nat, h: nat, cut: real, invert: bool): (m: Grid<bool>)
    requires IsGrid(gray, w, h)
    ensures IsGrid(m, w, h)
    ensures forall y, x :: 0 <= y < h && 0 <= x < w ==>
      m[y][x] == ThresholdDecision(gray[y][x], cut, invert)
  {
    MapGrid(gray, w, h, ThresholdWith(cut, invert))
  }

  /** The output pixel for one decision. */
  function Paint(isLine: bool, line: Rgb): (p: Pixel)
    ensures p.a == 255
    ensures isLine ==> p.Color() == line
    ensures !isLine ==> p.Color() == White
  {
    if isLine then Opaque(line) else Opaque(White)
  }

  /** The painting rule for a fixed line colour, as a cell-wise map. */
  function PaintWith(line: Rgb): bool -> Pixel {
    isLine => Paint(isLine, line)
  }

  /** The colour buffer: the line colour on the mask, white elsewhere, everything opaque. */
  function Colorize(mask: Grid<bool>, w: nat, h: nat, line: Rgb): (c: Grid<Pixel>)
    requires IsGrid(mask, w, h)
    ensures IsGrid(c, w, h)
    ensures forall y, x :: 0 <= y < h && 0 <= x < w ==>
      && c[y][x].a == 255
      && (mask[y][x] ==> c[y][x].Color() == line)
      && (!mask[y][x] ==> c[y][x].Color() == White)
  {
    MapGrid(mask, w, h, PaintWith(line))
  }

  /** Inverting swaps the two outcomes of every decision. */
  lemma InvertFlipsDecisions(mode: Mode, mag: real, gray: real, cut: real)
    ensures EdgeDecision(mode, mag, gray, cut, true) == !EdgeDecision(mode, mag, gray, cut, false)
    ensures ThresholdDecision(gray, cut, true) == !ThresholdDecision(gray, cut, false)
  {
  }

  /** Without inversion, mixed mode marks every pixel edge mode marks, and every dark one besides. */
  lemma MixedExtendsEdge(mag: real, gray: real, cut: real)
    ensures EdgeDecision(Edge, mag, gray, cut, false) ==> EdgeDecision(Mixed, mag, gray, cut, false)
    ensures gray <= 128.0 ==> EdgeDecision(Mixed, mag, gray, cut, false)
    ensures EdgeDecision(Mixed, mag, gray, cut, false) ==> EdgeDecision(Edge, mag, gray, cut, false) || gray <= 128.0
  {
  }

  /** Number of line pixels in a row. */
  function CountRow(row: seq<bool>): nat
  {
    if |row| == 0 then 0 else CountRow(row[..|row| - 1]) + (if row[|row| - 1] then 1 else 0)
  }

  /** Number of line pixels in a mask. */
  function CountLines(m: Grid<bool>): nat
  {
    if |m| == 0 then 0 else CountLines(m[..|m| - 1]) + CountRow(m[|m| - 1])
  }

  /** A row that marks a superset of another's pixels has at least as many marks. */
  lemma {:induction false} CountRowMonotone(a: seq<bool>, b: seq<bool>)
    requires |a| == |b|
    requires forall i :: 0 <= i < |a| && a[i] ==> b[i]
    ensures CountRow(a) <= CountRow(b)
  {
    if |a| > 0 {
      var n := |a| - 1;
      CountRowMonotone(a[..n], b[..n]);
    }
  }

  /** A mask that marks a superset of another's pixels counts at least as many lines. */
  lemma {:induction false} CountLinesMonotone(a: Grid<bool>, b: Grid<bool>, w: nat, h: nat)
    requires IsGrid(a, w, h) && IsGrid(b, w, h)
    requires forall y, x :: 0 <= y < h && 0 <= x < w && a[y][x] ==> b[y][x]
    ensures CountLines(a) <= CountLines(b)
  {
    if h > 0 {
      CountLinesMonotone(a[..h - 1], b[..h - 1], w, h - 1);
      CountRowMonotone(a[h - 1], b[h - 1]);
    }
  }

  /**
    In threshold mode a higher detail, without inversion, marks every pixel a
    lower one marks, so it never counts fewer lines; with inversion it is the
    other way round.
   */
  lemma ThresholdDetailMonotone(gray: Grid<real>, w: nat, h: nat, d: real, d': real, invert: bool)
    requires IsGrid(gray, w, h) && d <= d'
    ensures var lo := ThresholdMask(gray, w, h, Cut(d), invert);
      var hi := ThresholdMask(gray, w, h, Cut(d'), invert);
      && (!invert ==> (forall y, x :: 0 <= y < h && 0 <= x < w ==> lo[y][x] ==> hi[y][x]) && CountLines(lo) <= CountLines(hi))
      && (invert ==> (forall y, x :: 0 <= y < h && 0 <= x < w ==> hi[y][x] ==> lo[y][x]) && CountLines(hi) <= CountLines(lo))
  {
    CutMonotone(d, d');
    var lo := ThresholdMask(gray, w, h, Cut(d), invert);
    var hi := ThresholdMask(gray, w, h, Cut(d'), invert);
    if invert {
      CountLinesMonotone(hi, lo, w, h);
    } else {
      CountLinesMonotone(lo, hi, w, h);
    }
  }

  /**
    In edge and mixed modes a higher detail, without inversion, keeps only
    pixels a lower one keeps, so it never counts more lines; with inversion it
    is the other way round.
   */
  lemma EdgeDetailAntitone(mags: Grid<real>, gray: Grid<real>, w: nat, h: nat, mode: Mode, d: real, d': real, invert: bool)
    requires IsGrid(mags, w, h) && IsGrid(gray, w, h) && d <= d'
    ensures var lo := EdgeMask(mags, gray, w, h, mode, Cut(d), invert);
      var hi := EdgeMask(mags, gray, w, h, mode, Cut(d'), invert);
      && (!invert ==> (forall y, x :: 0 <= y < h && 0 <= x < w ==> hi[y][x] ==> lo[y][x]) && CountLines(hi) <= CountLines(lo))
      && (invert ==> (forall y, x :: 0 <= y < h && 0 <= x < w ==> lo[y][x] ==> hi[y][x]) && CountLines(lo) <= CountLines(hi))
  {
    CutMonotone(d, d');
    var lo := EdgeMask(mags, gray, w, h, mode, Cut(d), invert);
    var hi := EdgeMask(mags, gray, w, h, mode, Cut(d'), invert);
    if invert {
      CountLinesMonotone(lo, hi, w, h);
    } else {
      CountLinesMonotone(hi, lo, w, h);
    }
  }

  /** The edge mask commutes with the mirror of both of its inputs. */
  lemma EdgeMaskMirror(mags: Grid<real>, gray: Grid<real>, w: nat, h: nat, mode: Mode, cut: real, invert: bool)
    requires IsGrid(mags, w, h) && IsGrid(gray, w, h)
    ensures EdgeMask(Mirror(mags, w, h), Mirror(gray, w, h), w, h, mode, cut, invert) ==
      Mirror(EdgeMask(mags, gray, w, h, mode, cut, invert), w, h)
  {
    var l := EdgeMask(Mirror(mags, w, h), Mirror(gray, w, h), w, h, mode, cut, invert);
    var r := Mirror(EdgeMask(mags, gray, w, h, mode, cut, invert), w, h);
    forall y | 0 <= y < h
      ensures l[y] == r[y]
    {
    }
  }

  /** The threshold mask commutes with the mirror. */
  lemma ThresholdMaskMirror(gray: Grid<real>, w: nat, h: nat, cut: real, invert: bool)
    requires IsGrid(gray, w, h)
    ensures ThresholdMask(Mirror(gray, w, h), w, h, cut, invert) == Mirror(ThresholdMask(gray, w, h, cut, invert), w, h)
  {
    MapMirror(gray, w, h, ThresholdWith(cut, invert));
  }

  /** Colouring commutes with the mirror. */
  lemma ColorizeMirror(mask: Grid<bool>, w: nat, h: nat, line: Rgb)
    requires IsGrid(mask, w, h)
    ensures Colorize(Mirror(mask, w, h), w, h, line) == Mirror(Colorize(mask, w, h, line), w, h)
  {
    MapMirror(mask, w, h, PaintWith(line));
  }

  /** The colouring loop: one pass over the mask, row by row. */
  method ColorizeLoop(mask: Grid<bool>, w: nat, h: nat, line: Rgb) returns (out: Grid<Pixel>)
    requires IsGrid(mask, w, h)
    ensures out == Colorize(mask, w, h, line)
  {
    ghost var c := Colorize(mask, w, h, line);
    out := [];
    var y := 0;
    while y < h
      invariant 0 <= y <= h
      invariant |out| == y
      invariant forall yy :: 0 <= yy < y ==> out[yy] == c[yy]
    {
      var row: seq<Pixel> := [];
      var x := 0;
      while x < w
        invariant 0 <= x <= w
        invariant |row| == x
        invariant forall xx :: 0 <= xx < x ==> row[xx] == c[y][xx]
      {
        row := row + [Paint(mask[y][x], line)];
        x := x + 1;
      }
      assert row == c[y];
      out := out + [row];
      y := y + 1;
    }
  }
}
