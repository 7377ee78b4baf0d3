/**
  Pass 3 in edge and mixed modes: the Sobel gradient magnitude, scaled by
  edgeIntensity / 20. Only pixels with a full 3x3 neighbourhood are
  computed; the first and last row and column keep magnitude 0.

  The square root is a parameter: the model holds for whatever function is
  supplied, and the lemmas that need it to behave like a square root say so.
 */
module Sobel {
  import opened Grid

  /** A square-root function supplied by the caller. */
  type Root = real -> real

  /** The properties of a square root the lemmas rely on. */
  ghost predicate RootLike(sqrt: Root) {
    sqrt(0.0) == 0.0 && forall v :: 0.0 <= v ==> 0.0 <= sqrt(v)
  }

  /** The pixels the Sobel loop visits: rows 1 .. h-2 and columns 1 .. w-2. */
  predicate Interior(w: nat, h: nat, x: int, y: int) {
    1 <= x < w - 1 && 1 <= y < h - 1
  }

  /** Horizontal gradient: right column minus left column, centre row weighted 2. */
  function Gx(g: Grid<real>, w: nat, h: nat, x: int, y: int): real
    requires IsGrid(g, w, h) && Interior(w, h, x, y)
  {
    - g[y - 1][x - 1] + g[y - 1][x + 1]
    - 2.0 * g[y][x - 1] + 2.0 * g[y][x + 1]
    - g[y + 1][x - 1] + g[y + 1][x + 1]
  }

  /** Vertical gradient: bottom row minus top row, centre column weighted 2. */
  function Gy(g: Grid<real>, w: nat, h: nat, x: int, y: int): real
    requires IsGrid(g, w, h) && Interior(w, h, x, y)
  {
    - g[y - 1][x - 1] - 2.0 * g[y - 1][x] - g[y - 1][x + 1]
    + g[y + 1][x - 1] + 2.0 * g[y + 1][x] + g[y + 1][x + 1]
  }

  function SquaredGradient(g: Grid<real>, w: nat, h: nat, x: int, y: int): (s: real)
    requires IsGrid(g, w, h) && Interior(w, h, x, y)
    ensures s >= 0.0
  {
    var gx := Gx(g, w, h, x, y);
    var gy := Gy(g, w, h, x, y);
    SquareNonNegative(gx);
    SquareNonNegative(gy);
    gx * gx + gy * gy
  }

  lemma SquareNonNegative(a: real)
    ensures a * a >= 0.0
  {
    if a < 0.0 {
      assert a * a == (-a) * (-a);
    }
  }

  /** Magnitude written at pixel (x, y). */
  function MagnitudeAt(g: Grid<real>, w: nat, h: nat, x: int, y: int, edgeIntensity: real, sqrt: Root): real
    requires IsGrid(g, w, h) && InBounds(w, h, x, y)
  {
    if Interior(w, h, x, y) then sqrt(SquaredGradient(g, w, h, x, y)) * (edgeIntensity / 20.0) else 0.0
  }

  /** The magnitude buffer; every border pixel keeps the initial 0. */
  function Magnitudes(g: Grid<real>, w: nat, h: nat, edgeIntensity: real, sqrt: Root): (m: Grid<real>)
    requires IsGrid(g, w, h)
    ensures IsGrid(m, w, h)
    ensures forall y, x :: InBounds(w, h, x, y) && !Interior(w, h, x, y) ==> m[y][x] == 0.0
  {
    seq(h, (y: int) requires 0 <= y < h =>
      seq(w, (x: int) requires 0 <= x < w => MagnitudeAt(g, w, h, x, y, edgeIntensity, sqrt)))
  }

  /** An image less than three pixels wide or high has no interior, so all magnitudes are 0. */
  lemma ThinImageHasNoEdges(g: Grid<real>, w: nat, h: nat, edgeIntensity: real, sqrt: Root)
    requires IsGrid(g, w, h) && (w < 3 || h < 3)
    ensures Uniform(Magnitudes(g, w, h, edgeIntensity, sqrt), w, h, 0.0)
  {
  }

  /** With a genuine square root and a non-negative intensity, no magnitude is negative. */
  lemma MagnitudesNonNegative(g: Grid<real>, w: nat, h: nat, edgeIntensity: real, sqrt: Root)
    requires IsGrid(g, w, h) && RootLike(sqrt) && edgeIntensity >= 0.0
    ensures forall y, x :: InBounds(w, h, x, y) ==> Magnitudes(g, w, h, edgeIntensity, sqrt)[y][x] >= 0.0
  {
    forall y, x | InBounds(w, h, x, y)
      ensures Magnitudes(g, w, h, edgeIntensity, sqrt)[y][x] >= 0.0
    {
      if Interior(w, h, x, y) {
        var s := sqrt(SquaredGradient(g, w, h, x, y));
        assert s >= 0.0;
        ProductNonNegative(s, edgeIntensity / 20.0);
      }
    }
  }

  lemma ProductNonNegative(a: real, b: real)
    requires a >= 0.0 && b >= 0.0
    ensures a * b >= 0.0
  {
  }

  /**
    A pixel whose eight neighbours are symmetric left-to-right and
    top-to-bottom has no gradient. The centre value never enters the kernels.
   */
  lemma SymmetricNeighbourhood(g: Grid<real>, w: nat, h: nat, x: int, y: int)
    requires IsGrid(g, w, h) && Interior(w, h, x, y)
    requires g[y - 1][x - 1] == g[y - 1][x + 1] && g[y][x - 1] == g[y][x + 1] && g[y + 1][x - 1] == g[y + 1][x + 1]
    requires g[y - 1][x - 1] == g[y + 1][x - 1] && g[y - 1][x] == g[y + 1][x] && g[y - 1][x + 1] == g[y + 1][x + 1]
    ensures Gx(g, w, h, x, y) == 0.0 && Gy(g, w, h, x, y) == 0.0
  {
  }

  /** A uniform buffer has no edges anywhere. */
  lemma UniformHasNoEdges(g: Grid<real>, w: nat, h: nat, c: real, edgeIntensity: real, sqrt: Root)
    requires IsGrid(g, w, h) && Uniform(g, w, h, c) && sqrt(0.0) == 0.0
    ensures Uniform(Magnitudes(g, w, h, edgeIntensity, sqrt), w, h, 0.0)
  {
    forall y, x | InBounds(w, h, x, y) && Interior(w, h, x, y)
      ensures Magnitudes(g, w, h, edgeIntensity, sqrt)[y][x] == 0.0
    {
      SymmetricNeighbourhood(g, w, h, x, y);
      assert SquaredGradient(g, w, h, x, y) == 0.0;
    }
  }

  /** Mirroring negates the horizontal gradient and keeps the vertical one. */
  lemma GradientMirror(g: Grid<real>, w: nat, h: nat, x: int, y: int)
    requires IsGrid(g, w, h) && Interior(w, h, x, y)
    ensures Interior(w, h, w - 1 - x, y)
    ensures Gx(Mirror(g, w, h), w, h, x, y) == - Gx(g, w, h, w - 1 - x, y)
    ensures Gy(Mirror(g, w, h), w, h, x, y) == Gy(g, w, h, w - 1 - x, y)
  {
    var m := Mirror(g, w, h);
    var x' := w - 1 - x;
    forall ny | y - 1 <= ny <= y + 1
      ensures m[ny][x - 1] == g[ny][x' + 1]
      ensures m[ny][x] == g[ny][x']
      ensures m[ny][x + 1] == g[ny][x' - 1]
    {
    }
  }

  /** Mirroring keeps the squared gradient, read at the mirrored column. */
  lemma SquaredGradientMirror(g: Grid<real>, w: nat, h: nat, x: int, y: int)
    requires IsGrid(g, w, h) && Interior(w, h, x, y)
    ensures Interior(w, h, w - 1 - x, y)
    ensures SquaredGradient(Mirror(g, w, h), w, h, x, y) == SquaredGradient(g, w, h, w - 1 - x, y)
  {
    GradientMirror(g, w, h, x, y);
    var a := Gx(g, w, h, w - 1 - x, y);
    assert (-a) * (-a) == a * a;
  }

  /** Edge detection commutes with the horizontal mirror. */
  lemma MagnitudesMirror(g: Grid<real>, w: nat, h: nat, edgeIntensity: real, sqrt: Root)
    requires IsGrid(g, w, h)
    ensures Magnitudes(Mirror(g, w, h), w, h, edgeIntensity, sqrt) ==
      Mirror(Magnitudes(g, w, h, edgeIntensity, sqrt), w, h)
  {
    var lhs := Magnitudes(Mirror(g, w, h), w, h, edgeIntensity, sqrt);
    var rhs := Mirror(Magnitudes(g, w, h, edgeIntensity, sqrt), w, h);
    forall y | 0 <= y < h
      ensures lhs[y] == rhs[y]
    {
      forall x | 0 <= x < w
        ensures lhs[y][x] == rhs[y][x]
      {
        if Interior(w, h, x, y) {
          SquaredGradientMirror(g, w, h, x, y);
        }
      }
    }
  }
}
