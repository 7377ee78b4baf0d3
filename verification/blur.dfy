/**
  Pass 2 of the pipeline: the box blur. Each output value is the mean of
  the in-bounds cells of the (2r+1) x (2r+1) window centred on it, with
  r = floor(smoothing). Out-of-bounds neighbours are skipped, not padded.
  The stage is skipped when smoothing is not positive.
 */
module Blur {
  import opened Grid

  function Max(a: int, b: int): int { if a < b then b else a }
  function Min(a: int, b: int): int { if a < b then a else b }

  /** How many of the integers in [lo, hi) lie in [0, n). */
  function Overlap(lo: int, hi: int, n: nat): nat {
    var a := Max(lo, 0);
    var b := Min(hi, n);
    if b <= a then 0 else b - a
  }

  /** What the loop adds for neighbour (nx, ny): the cell when it is in bounds, nothing otherwise. */
  function Cell(g: Grid<real>, w: nat, h: nat, nx: int, ny: int): real
    requires IsGrid(g, w, h)
  {
    if InBounds(w, h, nx, ny) then g[ny][nx] else 0.0
  }

  /** What the loop adds to its counter for neighbour (nx, ny). */
  function Hit(w: nat, h: nat, nx: int, ny: int): nat {
    if InBounds(w, h, nx, ny) then 1 else 0
  }

  /** Sum of the in-bounds cells of row `ny` at columns lo .. hi-1, in loop order. */
  function RowSum(g: Grid<real>, w: nat, h: nat, ny: int, lo: int, hi: int): real
    requires IsGrid(g, w, h)
    decreases hi - lo
  {
    if hi <= lo then 0.0 else RowSum(g, w, h, ny, lo, hi - 1) + Cell(g, w, h, hi - 1, ny)
  }

  /** Number of in-bounds cells of row `ny` at columns lo .. hi-1. */
  function RowCount(w: nat, h: nat, ny: int, lo: int, hi: int): nat
    decreases hi - lo
  {
    if hi <= lo then 0 else RowCount(w, h, ny, lo, hi - 1) + Hit(w, h, hi - 1, ny)
  }

  /** Sum of the in-bounds cells of the rectangle [xlo, xhi) x [ylo, yhi), row by row. */
  function RectSum(g: Grid<real>, w: nat, h: nat, xlo: int, xhi: int, ylo: int, yhi: int): real
    requires IsGrid(g, w, h)
    decreases yhi - ylo
  {
    if yhi <= ylo then 0.0
    else RectSum(g, w, h, xlo, xhi, ylo, yhi - 1) + RowSum(g, w, h, yhi - 1, xlo, xhi)
  }

  /** Number of in-bounds cells of the rectangle [xlo, xhi) x [ylo, yhi). */
  function RectCount(w: nat, h: nat, xlo: int, xhi: int, ylo: int, yhi: int): nat
    decreases yhi - ylo
  {
    if yhi <= ylo then 0
    else RectCount(w, h, xlo, xhi, ylo, yhi - 1) + RowCount(w, h, yhi - 1, xlo, xhi)
  }

  /** A row counts exactly the columns of [lo, hi) that lie inside the image. */
  lemma {:induction false} RowCountOverlap(w: nat, h: nat, ny: int, lo: int, hi: int)
    ensures RowCount(w, h, ny, lo, hi) == if 0 <= ny < h then Overlap(lo, hi, w) else 0
    decreases hi - lo
  {
    if hi > lo {
      RowCountOverlap(w, h, ny, lo, hi - 1);
    }
  }

  /** The rectangle counts the product of its clipped extents. */
  lemma {:induction false} RectCountOverlap(w: nat, h: nat, xlo: int, xhi: int, ylo: int, yhi: int)
    ensures RectCount(w, h, xlo, xhi, ylo, yhi) == Overlap(xlo, xhi, w) * Overlap(ylo, yhi, h)
    decreases yhi - ylo
  {
    if yhi > ylo {
      RectCountOverlap(w, h, xlo, xhi, ylo, yhi - 1);
      RowCountOverlap(w, h, yhi - 1, xlo, xhi);
      var ox := Overlap(xlo, xhi, w);
      if 0 <= yhi - 1 < h {
        assert Overlap(ylo, yhi, h) == Overlap(ylo, yhi - 1, h) + 1;
        assert ox * (Overlap(ylo, yhi - 1, h) + 1) == ox * Overlap(ylo, yhi - 1, h) + ox;
      } else {
        assert Overlap(ylo, yhi, h) == Overlap(ylo, yhi - 1, h);
      }
    }
  }

  function WindowSum(g: Grid<real>, w: nat, h: nat, x: int, y: int, r: nat): real
    requires IsGrid(g, w, h)
  {
    RectSum(g, w, h, x - r, x + r + 1, y - r, y + r + 1)
  }

  /** The window of an in-bounds pixel always contains the pixel itself. */
  function WindowCount(w: nat, h: nat, x: int, y: int, r: nat): (n: nat)
    requires InBounds(w, h, x, y)
    ensures n >= 1
  {
    RectCountOverlap(w, h, x - r, x + r + 1, y - r, y + r + 1);
    assert Overlap(x - r, x + r + 1, w) >= 1 && Overlap(y - r, y + r + 1, h) >= 1;
    RectCount(w, h, x - r, x + r + 1, y - r, y + r + 1)
  }

  function WindowMean(g: Grid<real>, w: nat, h: nat, x: int, y: int, r: nat): real
    requires IsGrid(g, w, h) && InBounds(w, h, x, y)
  {
    WindowSum(g, w, h, x, y, r) / (WindowCount(w, h, x, y, r) as real)
  }

  /** The blurred buffer at radius `r`. */
  function BoxBlur(g: Grid<real>, w: nat, h: nat, r: nat): (b: Grid<real>)
    requires IsGrid(g, w, h)
    ensures IsGrid(b, w, h)
  {
    seq(h, (y: int) requires 0 <= y < h =>
      seq(w, (x: int) requires 0 <= x < w => WindowMean(g, w, h, x, y, r)))
  }

  /** The smoothing stage: blur at radius floor(smoothing) when smoothing is positive, else skip. */
  function Smooth(g: Grid<real>, w: nat, h: nat, smoothing: real): (s: Grid<real>)
    requires IsGrid(g, w, h)
    ensures IsGrid(s, w, h)
    ensures smoothing < 1.0 ==> s == g
  {
    if smoothing > 0.0 then
      BlurRadiusZero(g, w, h);
      BoxBlur(g, w, h, smoothing.Floor)
    else
      g
  }

  /** At radius 0 every window is the pixel alone, so the blur is the identity. */
  lemma BlurRadiusZero(g: Grid<real>, w: nat, h: nat)
    requires IsGrid(g, w, h)
    ensures BoxBlur(g, w, h, 0) == g
  {
    var b := BoxBlur(g, w, h, 0);
    forall y | 0 <= y < h
      ensures b[y] == g[y]
    {
      forall x | 0 <= x < w
        ensures b[y][x] == g[y][x]
      {
        assert RowSum(g, w, h, y, x, x) == 0.0;
        assert RowSum(g, w, h, y, x, x + 1) == g[y][x];
        assert RectSum(g, w, h, x, x + 1, y, y) == 0.0;
        assert WindowSum(g, w, h, x, y, 0) == g[y][x];
        assert RowCount(w, h, y, x, x + 1) == 1;
        assert RectCount(w, h, x, x + 1, y, y) == 0;
        assert WindowCount(w, h, x, y, 0) == 1;
      }
    }
  }

  // ---------------------------------------------------------------------------
  // The mean lies between the window's extremes
  // ---------------------------------------------------------------------------

  /** `a` added up `n` times: the least (greatest) sum of `n` terms that are each at least (most) `a`. */
  function Times(n: nat, a: real): real {
    if n == 0 then 0.0 else Times(n - 1, a) + a
  }

  lemma {:induction false} TimesAdd(n: nat, k: nat, a: real)
    ensures Times(n + k, a) == Times(n, a) + Times(k, a)
    decreases k
  {
    if k > 0 {
      TimesAdd(n, k - 1, a);
    }
  }

  lemma {:induction false} TimesIsProduct(n: nat, a: real)
    ensures Times(n, a) == (n as real) * a
  {
    if n > 0 {
      TimesIsProduct(n - 1, a);
    }
  }

  lemma {:induction false} RowSumBounds(g: Grid<real>, w: nat, h: nat, ny: int, xlo: int, xhi: int, lo: real, hi: real)
    requires IsGrid(g, w, h)
    requires forall nx :: xlo <= nx < xhi && InBounds(w, h, nx, ny) ==> lo <= g[ny][nx] <= hi
    ensures Times(RowCount(w, h, ny, xlo, xhi), lo) <= RowSum(g, w, h, ny, xlo, xhi)
    ensures RowSum(g, w, h, ny, xlo, xhi) <= Times(RowCount(w, h, ny, xlo, xhi), hi)
    decreases xhi - xlo
  {
    if xhi > xlo {
      RowSumBounds(g, w, h, ny, xlo, xhi - 1, lo, hi);
    }
  }

  lemma {:induction false} RectSumBounds(g: Grid<real>, w: nat, h: nat, xlo: int, xhi: int, ylo: int, yhi: int, lo: real, hi: real)
    requires IsGrid(g, w, h)
    requires forall ny, nx :: ylo <= ny < yhi && xlo <= nx < xhi && InBounds(w, h, nx, ny) ==> lo <= g[ny][nx] <= hi
    ensures Times(RectCount(w, h, xlo, xhi, ylo, yhi), lo) <= RectSum(g, w, h, xlo, xhi, ylo, yhi)
    ensures RectSum(g, w, h, xlo, xhi, ylo, yhi) <= Times(RectCount(w, h, xlo, xhi, ylo, yhi), hi)
    decreases yhi - ylo
  {
    if yhi > ylo {
      RectSumBounds(g, w, h, xlo, xhi, ylo, yhi - 1, lo, hi);
      RowSumBounds(g, w, h, yhi - 1, xlo, xhi, lo, hi);
      var n := RectCount(w, h, xlo, xhi, ylo, yhi - 1);
      var k := RowCount(w, h, yhi - 1, xlo, xhi);
      TimesAdd(n, k, lo);
      TimesAdd(n, k, hi);
    }
  }

  lemma QuotientBounds(s: real, n: nat, lo: real, hi: real)
    requires n > 0 && Times(n, lo) <= s <= Times(n, hi)
    ensures lo <= s / (n as real) <= hi
  {
    TimesIsProduct(n, lo);
    TimesIsProduct(n, hi);
    var m := n as real;
    assert (s / m) * m == s;
  }

  /** Each blurred value lies between the least and the greatest in-bounds value of its window. */
  lemma WindowMeanBounds(g: Grid<real>, w: nat, h: nat, x: int, y: int, r: nat, lo: real, hi: real)
    requires IsGrid(g, w, h) && InBounds(w, h, x, y)
    requires forall ny, nx :: y - r <= ny <= y + r && x - r <= nx <= x + r && InBounds(w, h, nx, ny) ==>
      lo <= g[ny][nx] <= hi
    ensures lo <= WindowMean(g, w, h, x, y, r) <= hi
  {
    RectSumBounds(g, w, h, x - r, x + r + 1, y - r, y + r + 1, lo, hi);
    QuotientBounds(WindowSum(g, w, h, x, y, r), WindowCount(w, h, x, y, r), lo, hi);
  }

  /** The blur keeps every value inside any range that holds all the input values. */
  lemma BlurBounds(g: Grid<real>, w: nat, h: nat, r: nat, lo: real, hi: real)
    requires IsGrid(g, w, h)
    requires forall y, x :: 0 <= y < h && 0 <= x < w ==> lo <= g[y][x] <= hi
    ensures forall y, x :: 0 <= y < h && 0 <= x < w ==> lo <= BoxBlur(g, w, h, r)[y][x] <= hi
  {
    forall y, x | 0 <= y < h && 0 <= x < w
      ensures lo <= BoxBlur(g, w, h, r)[y][x] <= hi
    {
      WindowMeanBounds(g, w, h, x, y, r, lo, hi);
    }
  }

  /** The smoothing stage keeps every value inside any range that holds all the input values. */
  lemma SmoothBounds(g: Grid<real>, w: nat, h: nat, smoothing: real, lo: real, hi: real)
    requires IsGrid(g, w, h)
    requires forall y, x :: 0 <= y < h && 0 <= x < w ==> lo <= g[y][x] <= hi
    ensures forall y, x :: 0 <= y < h && 0 <= x < w ==> lo <= Smooth(g, w, h, smoothing)[y][x] <= hi
  {
    if smoothing > 0.0 {
      BlurBounds(g, w, h, smoothing.Floor, lo, hi);
    }
  }

  /** A uniform buffer is left unchanged by the smoothing stage. */
  lemma SmoothUniform(g: Grid<real>, w: nat, h: nat, smoothing: real, c: real)
    requires IsGrid(g, w, h) && Uniform(g, w, h, c)
    ensures Uniform(Smooth(g, w, h, smoothing), w, h, c)
  {
    SmoothBounds(g, w, h, smoothing, c, c);
  }

  // ---------------------------------------------------------------------------
  // The blur commutes with the horizontal mirror
  // ---------------------------------------------------------------------------

  /** Row sums can also be taken from the left end. */
  lemma {:induction false} RowSumPeelLeft(g: Grid<real>, w: nat, h: nat, ny: int, lo: int, hi: int)
    requires IsGrid(g, w, h) && lo < hi
    ensures RowSum(g, w, h, ny, lo, hi) == Cell(g, w, h, lo, ny) + RowSum(g, w, h, ny, lo + 1, hi)
    decreases hi - lo
  {
    if lo + 1 < hi {
      RowSumPeelLeft(g, w, h, ny, lo, hi - 1);
    }
  }

  lemma {:induction false} RowSumMirror(g: Grid<real>, w: nat, h: nat, ny: int, lo: int, hi: int)
    requires IsGrid(g, w, h)
    ensures RowSum(Mirror(g, w, h), w, h, ny, lo, hi) == RowSum(g, w, h, ny, w - hi, w - lo)
    decreases hi - lo
  {
    var m := Mirror(g, w, h);
    if hi > lo {
      RowSumMirror(g, w, h, ny, lo, hi - 1);
      RowSumPeelLeft(g, w, h, ny, w - hi, w - lo);
      assert Cell(m, w, h, hi - 1, ny) == Cell(g, w, h, w - hi, ny);
    }
  }

  lemma {:induction false} RectSumMirror(g: Grid<real>, w: nat, h: nat, xlo: int, xhi: int, ylo: int, yhi: int)
    requires IsGrid(g, w, h)
    ensures RectSum(Mirror(g, w, h), w, h, xlo, xhi, ylo, yhi) == RectSum(g, w, h, w - xhi, w - xlo, ylo, yhi)
    decreases yhi - ylo
  {
    if yhi > ylo {
      RectSumMirror(g, w, h, xlo, xhi, ylo, yhi - 1);
      RowSumMirror(g, w, h, yhi - 1, xlo, xhi);
    }
  }

  /** Reflecting a range of columns keeps the number of them inside the image. */
  lemma OverlapReflect(lo: int, hi: int, n: nat)
    ensures Overlap(lo, hi, n) == Overlap(n - hi, n - lo, n)
  {
  }

  /** The window of column x in the mirror image is the reflected window of column w-1-x. */
  lemma WindowMeanMirror(g: Grid<real>, w: nat, h: nat, x: int, y: int, r: nat)
    requires IsGrid(g, w, h) && InBounds(w, h, x, y)
    ensures WindowMean(Mirror(g, w, h), w, h, x, y, r) == WindowMean(g, w, h, w - 1 - x, y, r)
  {
    var x' := w - 1 - x;
    RectSumMirror(g, w, h, x - r, x + r + 1, y - r, y + r + 1);
    assert w - (x + r + 1) == x' - r && w - (x - r) == x' + r + 1;
    RectCountOverlap(w, h, x - r, x + r + 1, y - r, y + r + 1);
    RectCountOverlap(w, h, x' - r, x' + r + 1, y - r, y + r + 1);
    OverlapReflect(x - r, x + r + 1, w);
  }

  /** Blurring the mirror image is mirroring the blurred image. */
  lemma BlurMirror(g: Grid<real>, w: nat, h: nat, r: nat)
    requires IsGrid(g, w, h)
    ensures BoxBlur(Mirror(g, w, h), w, h, r) == Mirror(BoxBlur(g, w, h, r), w, h)
  {
    var lhs := BoxBlur(Mirror(g, w, h), w, h, r);
    var rhs := Mirror(BoxBlur(g, w, h, r), w, h);
    forall y | 0 <= y < h
      ensures lhs[y] == rhs[y]
    {
      forall x | 0 <= x < w
        ensures lhs[y][x] == rhs[y][x]
      {
        WindowMeanMirror(g, w, h, x, y, r);
      }
    }
  }

  lemma SmoothMirror(g: Grid<real>, w: nat, h: nat, smoothing: real)
    requires IsGrid(g, w, h)
    ensures Smooth(Mirror(g, w, h), w, h, smoothing) == Mirror(Smooth(g, w, h, smoothing), w, h)
  {
    if smoothing > 0.0 {
      BlurMirror(g, w, h, smoothing.Floor);
    }
  }

  // ---------------------------------------------------------------------------
  // A radius that covers the whole image gives one global mean
  // ---------------------------------------------------------------------------

  lemma {:induction false} RowSumSplit(g: Grid<real>, w: nat, h: nat, ny: int, lo: int, mid: int, hi: int)
    requires IsGrid(g, w, h) && lo <= mid <= hi
    ensures RowSum(g, w, h, ny, lo, hi) == RowSum(g, w, h, ny, lo, mid) + RowSum(g, w, h, ny, mid, hi)
    decreases hi - mid
  {
    if hi > mid {
      RowSumSplit(g, w, h, ny, lo, mid, hi - 1);
    }
  }

  /** Columns that are all out of bounds contribute nothing. */
  lemma {:induction false} RowSumOutside(g: Grid<real>, w: nat, h: nat, ny: int, lo: int, hi: int)
    requires IsGrid(g, w, h)
    requires hi <= 0 || w <= lo || !(0 <= ny < h)
    ensures RowSum(g, w, h, ny, lo, hi) == 0.0
    decreases hi - lo
  {
    if hi > lo {
      RowSumOutside(g, w, h, ny, lo, hi - 1);
    }
  }

  lemma RowSumCover(g: Grid<real>, w: nat, h: nat, ny: int, lo: int, hi: int)
    requires IsGrid(g, w, h) && lo <= 0 && w <= hi
    ensures RowSum(g, w, h, ny, lo, hi) == RowSum(g, w, h, ny, 0, w)
  {
    RowSumSplit(g, w, h, ny, lo, 0, hi);
    RowSumSplit(g, w, h, ny, 0, w, hi);
    RowSumOutside(g, w, h, ny, lo, 0);
    RowSumOutside(g, w, h, ny, w, hi);
  }

  /** The sum over rows [ylo, yhi) of a window whose columns cover the image. */
  lemma {:induction false} RectSumCoverColumns(g: Grid<real>, w: nat, h: nat, xlo: int, xhi: int, ylo: int, yhi: int)
    requires IsGrid(g, w, h) && xlo <= 0 && w <= xhi
    ensures RectSum(g, w, h, xlo, xhi, ylo, yhi) == RectSum(g, w, h, 0, w, ylo, yhi)
    decreases yhi - ylo
  {
    if yhi > ylo {
      RectSumCoverColumns(g, w, h, xlo, xhi, ylo, yhi - 1);
      RowSumCover(g, w, h, yhi - 1, xlo, xhi);
    }
  }

  lemma {:induction false} RectSumSplitRows(g: Grid<real>, w: nat, h: nat, xlo: int, xhi: int, ylo: int, ymid: int, yhi: int)
    requires IsGrid(g, w, h) && ylo <= ymid <= yhi
    ensures RectSum(g, w, h, xlo, xhi, ylo, yhi) ==
      RectSum(g, w, h, xlo, xhi, ylo, ymid) + RectSum(g, w, h, xlo, xhi, ymid, yhi)
    decreases yhi - ymid
  {
    if yhi > ymid {
      RectSumSplitRows(g, w, h, xlo, xhi, ylo, ymid, yhi - 1);
    }
  }

  lemma {:induction false} RectSumOutsideRows(g: Grid<real>, w: nat, h: nat, xlo: int, xhi: int, ylo: int, yhi: int)
    requires IsGrid(g, w, h) && (yhi <= 0 || h <= ylo)
    ensures RectSum(g, w, h, xlo, xhi, ylo, yhi) == 0.0
    decreases yhi - ylo
  {
    if yhi > ylo {
      RectSumOutsideRows(g, w, h, xlo, xhi, ylo, yhi - 1);
      RowSumOutside(g, w, h, yhi - 1, xlo, xhi);
    }
  }

  /** The total of all cells of the buffer. */
  function Total(g: Grid<real>, w: nat, h: nat): real
    requires IsGrid(g, w, h)
  {
    RectSum(g, w, h, 0, w, 0, h)
  }

  /** When the window of every pixel covers the whole buffer, every window sums to the total. */
  lemma WindowSumCover(g: Grid<real>, w: nat, h: nat, x: int, y: int, r: nat)
    requires IsGrid(g, w, h) && InBounds(w, h, x, y)
    requires w <= r + 1 && h <= r + 1
    ensures WindowSum(g, w, h, x, y, r) == Total(g, w, h)
    ensures WindowCount(w, h, x, y, r) == w * h
  {
    RectCountOverlap(w, h, x - r, x + r + 1, y - r, y + r + 1);
    assert Overlap(x - r, x + r + 1, w) == w && Overlap(y - r, y + r + 1, h) == h;
    RectSumCoverColumns(g, w, h, x - r, x + r + 1, y - r, y + r + 1);
    RectSumSplitRows(g, w, h, 0, w, y - r, 0, y + r + 1);
    RectSumSplitRows(g, w, h, 0, w, 0, h, y + r + 1);
    RectSumOutsideRows(g, w, h, 0, w, y - r, 0);
    RectSumOutsideRows(g, w, h, 0, w, h, y + r + 1);
  }

  /** A blur radius at least as large as the image makes every value the global mean. */
  lemma BlurWideRadius(g: Grid<real>, w: nat, h: nat, r: nat)
    requires IsGrid(g, w, h) && w > 0 && h > 0
    requires w <= r + 1 && h <= r + 1
    ensures Uniform(BoxBlur(g, w, h, r), w, h, Total(g, w, h) / ((w * h) as real))
  {
    forall y, x | 0 <= y < h && 0 <= x < w
      ensures BoxBlur(g, w, h, r)[y][x] == Total(g, w, h) / ((w * h) as real)
    {
      WindowSumCover(g, w, h, x, y, r);
    }
  }

  // ---------------------------------------------------------------------------
  // The nested loops of `processStencil` compute the same buffer
  // ---------------------------------------------------------------------------

  /** The blur as four nested loops with explicit bounds checks. */
  method BoxBlurLoop(g: Grid<real>, w: nat, h: nat, r: nat) returns (out: Grid<real>)
    requires IsGrid(g, w, h)
    ensures out == BoxBlur(g, w, h, r)
  {
    out := [];
    var y := 0;
    while y < h
      invariant 0 <= y <= h
      invariant |out| == y
      invariant forall yy :: 0 <= yy < y ==> out[yy] == BoxBlur(g, w, h, r)[yy]
    {
      var row: seq<real> := [];
      var x := 0;
      while x < w
        invariant 0 <= x <= w
        invariant |row| == x
        invariant forall xx :: 0 <= xx < x ==> row[xx] == WindowMean(g, w, h, xx, y, r)
      {
        var sum := 0.0;
        var count := 0;
        var dy: int := -(r as int);
        while dy <= r
          invariant -(r as int) <= dy <= r + 1
          invariant sum == RectSum(g, w, h, x - r, x + r + 1, y - r, y + dy)
          invariant count == RectCount(w, h, x - r, x + r + 1, y - r, y + dy)
        {
          var dx: int := -(r as int);
          while dx <= r
            invariant -(r as int) <= dx <= r + 1
            invariant sum == RectSum(g, w, h, x - r, x + r + 1, y - r, y + dy) + RowSum(g, w, h, y + dy, x - r, x + dx)
            invariant count == RectCount(w, h, x - r, x + r + 1, y - r, y + dy) + RowCount(w, h, y + dy, x - r, x + dx)
          {
            var ny := y + dy;
            var nx := x + dx;
            if ny >= 0 && ny < h && nx >= 0 && nx < w {
              sum := sum + g[ny][nx];
              count := count + 1;
            }
            dx := dx + 1;
          }
          dy := dy + 1;
        }
        assert count == WindowCount(w, h, x, y, r);
        row := row + [sum / count as real];
        x := x + 1;
      }
      out := out + [row];
      y := y + 1;
    }
  }
}
