/**
  Row-major grids of cells, the shape shared by every buffer of the stencil
  pipeline (gray values, edge magnitudes, line masks, RGBA pixels), and the
  horizontal mirror used by the write-back pass.
 */
module Grid {

  /** A grid is a sequence of rows; cell (x, y) is `g[y][x]`. */
  type Grid<T> = seq<seq<T>>

  /** `g` has `h` rows of `w` cells each. */
  predicate IsGrid<T>(g: Grid<T>, w: nat, h: nat) {
    |g| == h && forall y :: 0 <= y < h ==> |g[y]| == w
  }

  /** The explicit bounds check every neighbourhood loop of the pipeline performs. */
  predicate InBounds(w: nat, h: nat, x: int, y: int) {
    0 <= x < w && 0 <= y < h
  }

  /** The column the write-back pass reads when it writes column `x`. */
  function ReadColumn(w: nat, flip: bool, x: nat): (c: nat)
    requires x < w
    ensures c < w
    ensures flip ==> c + x == w - 1
    ensures !flip ==> c == x
  {
    if flip then w - 1 - x else x
  }

  /** The write-back pass: every output cell is copied from the cell its `ReadColumn` names. */
  function WriteBack<T>(g: Grid<T>, w: nat, h: nat, flip: bool): (r: Grid<T>)
    requires IsGrid(g, w, h)
    ensures IsGrid(r, w, h)
    ensures forall y, x :: 0 <= y < h && 0 <= x < w ==> r[y][x] == g[y][ReadColumn(w, flip, x)]
  {
    seq(h, (y: int) requires 0 <= y < h =>
      seq(w, (x: int) requires 0 <= x < w => g[y][ReadColumn(w, flip, x)]))
  }

  /** The horizontal mirror: column `x` of the result is column `w - 1 - x` of `g`. */
  function Mirror<T>(g: Grid<T>, w: nat, h: nat): (r: Grid<T>)
    requires IsGrid(g, w, h)
    ensures IsGrid(r, w, h)
    ensures forall y, x :: 0 <= y < h && 0 <= x < w ==> r[y][x] == g[y][w - 1 - x]
  {
    WriteBack(g, w, h, true)
  }

  /** Without `flip`, write-back copies the grid unchanged. */
  lemma WriteBackIdentity<T>(g: Grid<T>, w: nat, h: nat)
    requires IsGrid(g, w, h)
    ensures WriteBack(g, w, h, false) == g
  {
    var r := WriteBack(g, w, h, false);
    forall y | 0 <= y < h
      ensures r[y] == g[y]
    {
    }
  }

  /** Mirroring twice restores the original column order. */
  lemma MirrorInvolution<T>(g: Grid<T>, w: nat, h: nat)
    requires IsGrid(g, w, h)
    ensures Mirror(Mirror(g, w, h), w, h) == g
  {
    var m := Mirror(g, w, h);
    var r := Mirror(m, w, h);
    forall y | 0 <= y < h
      ensures r[y] == g[y]
    {
      forall x | 0 <= x < w
        ensures r[y][x] == g[y][x]
      {
        assert r[y][x] == m[y][w - 1 - x];
      }
    }
  }

  /** Mirroring is injective: two grids with the same mirror image are equal. */
  lemma MirrorInjective<T>(a: Grid<T>, b: Grid<T>, w: nat, h: nat)
    requires IsGrid(a, w, h) && IsGrid(b, w, h)
    requires Mirror(a, w, h) == Mirror(b, w, h)
    ensures a == b
  {
    MirrorInvolution(a, w, h);
    MirrorInvolution(b, w, h);
  }

  /** The write-back commutes with the mirror, whichever way `flip` is set. */
  lemma WriteBackMirror<T>(g: Grid<T>, w: nat, h: nat, flip: bool)
    requires IsGrid(g, w, h)
    ensures WriteBack(Mirror(g, w, h), w, h, flip) == Mirror(WriteBack(g, w, h, flip), w, h)
  {
    var l := WriteBack(Mirror(g, w, h), w, h, flip);
    var r := Mirror(WriteBack(g, w, h, flip), w, h);
    forall y | 0 <= y < h
      ensures l[y] == r[y]
    {
      forall x | 0 <= x < w
        ensures l[y][x] == r[y][x]
      {
        var c := ReadColumn(w, flip, w - 1 - x);
        assert r[y][x] == g[y][c];
      }
    }
  }

  /** Applies `f` to every cell. */
  function MapGrid<A, B>(g: Grid<A>, w: nat, h: nat, f: A -> B): (r: Grid<B>)
    requires IsGrid(g, w, h)
    ensures IsGrid(r, w, h)
    ensures forall y, x :: 0 <= y < h && 0 <= x < w ==> r[y][x] == f(g[y][x])
  {
    seq(h, (y: int) requires 0 <= y < h =>
      seq(w, (x: int) requires 0 <= x < w => f(g[y][x])))
  }

  /** A cell-wise map commutes with the mirror. */
  lemma MapMirror<A, B>(g: Grid<A>, w: nat, h: nat, f: A -> B)
    requires IsGrid(g, w, h)
    ensures MapGrid(Mirror(g, w, h), w, h, f) == Mirror(MapGrid(g, w, h, f), w, h)
  {
    var l := MapGrid(Mirror(g, w, h), w, h, f);
    var r := Mirror(MapGrid(g, w, h, f), w, h);
    forall y | 0 <= y < h
      ensures l[y] == r[y]
    {
    }
  }

  /** Every cell of `g` equals `c`. */
  ghost predicate Uniform<T>(g: Grid<T>, w: nat, h: nat, c: T)
    requires IsGrid(g, w, h)
  {
    forall y, x :: 0 <= y < h && 0 <= x < w ==> g[y][x] == c
  }
}
