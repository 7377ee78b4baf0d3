/**
  Line thickening: grayscale dilation of the edge magnitudes. When
  thickness > 1, each output value is the running maximum, started at 0,
  of the in-bounds cells of the square window of radius floor(thickness / 2).
  Otherwise the stage is the identity.
 */
module Dilate {
  import opened Grid

  /** `Math.max` on two ordinary numbers. */
  function MaxOf(a: real, b: real): (m: real)
    ensures m >= a && m >= b && (m == a || m == b)
  {
    if a < b then b else a
  }

  /** The running maximum after visiting columns lo .. hi-1 of row `ny`, started at `acc`. */
  function RowMax(g: Grid<real>, w: nat, h: nat, acc: real, ny: int, lo: int, hi: int): real
    requires IsGrid(g, w, h)
    decreases hi - lo
  {
    if hi <= lo then acc
    else
      var prev := RowMax(g, w, h, acc, ny, lo, hi - 1);
      if InBounds(w, h, hi - 1, ny) then MaxOf(prev, g[ny][hi - 1]) else prev
  }

  /** The running maximum, started at 0, after visiting rows ylo .. yhi-1 of the window. */
  function WindowMax(g: Grid<real>, w: nat, h: nat, xlo: int, xhi: int, ylo: int, yhi: int): real
    requires IsGrid(g, w, h)
    decreases yhi - ylo
  {
    if yhi <= ylo then 0.0
    else RowMax(g, w, h, WindowMax(g, w, h, xlo, xhi, ylo, yhi - 1), yhi - 1, xlo, xhi)
  }

  /** A row's running maximum is the start value or an in-bounds cell, and is at least all of them. */
  lemma {:induction false} RowMaxIsMax(g: Grid<real>, w: nat, h: nat, acc: real, ny: int, lo: int, hi: int)
    requires IsGrid(g, w, h)
    ensures var m := RowMax(g, w, h, acc, ny, lo, hi);
      && m >= acc
      && (forall nx :: lo <= nx < hi && InBounds(w, h, nx, ny) ==> m >= g[ny][nx])
      && (m == acc || exists nx :: lo <= nx < hi && InBounds(w, h, nx, ny) && m == g[ny][nx])
    decreases hi - lo
  {
    if hi > lo {
      RowMaxIsMax(g, w, h, acc, ny, lo, hi - 1);
    }
  }

  /** The window's running maximum is 0 or an in-bounds cell of the window, and is at least 0 and all of them. */
  lemma {:induction false} WindowMaxIsMax(g: Grid<real>, w: nat, h: nat, xlo: int, xhi: int, ylo: int, yhi: int)
    requires IsGrid(g, w, h)
    ensures var m := WindowMax(g, w, h, xlo, xhi, ylo, yhi);
      && m >= 0.0
      && (forall ny, nx :: ylo <= ny < yhi && xlo <= nx < xhi && InBounds(w, h, nx, ny) ==> m >= g[ny][nx])
      && (m == 0.0 || exists ny, nx :: ylo <= ny < yhi && xlo <= nx < xhi && InBounds(w, h, nx, ny) && m == g[ny][nx])
    decreases yhi - ylo
  {
    if yhi > ylo {
      var prev := WindowMax(g, w, h, xlo, xhi, ylo, yhi - 1);
      WindowMaxIsMax(g, w, h, xlo, xhi, ylo, yhi - 1);
      RowMaxIsMax(g, w, h, prev, yhi - 1, xlo, xhi);
      var m := WindowMax(g, w, h, xlo, xhi, ylo, yhi);
      if m != 0.0 && m == prev {
        var ny, nx :| ylo <= ny < yhi - 1 && xlo <= nx < xhi && InBounds(w, h, nx, ny) && prev == g[ny][nx];
      }
    }
  }

  /** The dilated value at (x, y) for window radius `r`. */
  function DilatedAt(g: Grid<real>, w: nat, h: nat, x: int, y: int, r: nat): real
    requires IsGrid(g, w, h)
  {
    WindowMax(g, w, h, x - r, x + r + 1, y - r, y + r + 1)
  }

  /** The window radius for a thickness above 1. */
  function Radius(thickness: real): (r: nat)
    requires thickness > 1.0
    ensures (r as real) <= thickness / 2.0 < (r as real) + 1.0
  {
    (thickness / 2.0).Floor
  }

  /** The dilation stage. */
  function Dilate(g: Grid<real>, w: nat, h: nat, thickness: real): (d: Grid<real>)
    requires IsGrid(g, w, h)
    ensures IsGrid(d, w, h)
    ensures thickness <= 1.0 ==> d == g
    ensures forall y, x :: 0 <= y < h && 0 <= x < w ==> d[y][x] >= g[y][x]
    ensures thickness > 1.0 ==> forall y, x :: 0 <= y < h && 0 <= x < w ==> d[y][x] >= 0.0
  {
    if thickness > 1.0 then
      var r := Radius(thickness);
      var d := seq(h, (y: int) requires 0 <= y < h =>
        seq(w, (x: int) requires 0 <= x < w => DilatedAt(g, w, h, x, y, r)));
      assert forall y, x :: 0 <= y < h && 0 <= x < w ==> d[y][x] >= g[y][x] && d[y][x] >= 0.0 by {
        forall y, x | 0 <= y < h && 0 <= x < w
          ensures d[y][x] >= g[y][x] && d[y][x] >= 0.0
        {
          WindowMaxIsMax(g, w, h, x - r, x + r + 1, y - r, y + r + 1);
        }
      }
      d
    else
      g
  }

  /** The running maximum is exactly max(0, largest in-bounds value of the window). */
  lemma DilatedAtIsWindowMax(g: Grid<real>, w: nat, h: nat, thickness: real, x: int, y: int)
    requires IsGrid(g, w, h) && thickness > 1.0 && InBounds(w, h, x, y)
    ensures var r := Radius(thickness); var m := Dilate(g, w, h, thickness)[y][x];
      && m >= 0.0
      && (forall ny, nx :: y - r <= ny <= y + r && x - r <= nx <= x + r && InBounds(w, h, nx, ny) ==> m >= g[ny][nx])
      && (m == 0.0 || exists ny, nx :: y - r <= ny <= y + r && x - r <= nx <= x + r && InBounds(w, h, nx, ny) && m == g[ny][nx])
  {
    var r := Radius(thickness);
    WindowMaxIsMax(g, w, h, x - r, x + r + 1, y - r, y + r + 1);
  }

  /**
    A thickness below 2 gives radius 0: on a non-negative buffer the stage
    copies its input, so such a thickness draws no thicker lines than 1.
   */
  lemma ThinThicknessIsIdentity(g: Grid<real>, w: nat, h: nat, thickness: real)
    requires IsGrid(g, w, h) && thickness < 2.0
    requires forall y, x :: 0 <= y < h && 0 <= x < w ==> g[y][x] >= 0.0
    ensures Dilate(g, w, h, thickness) == g
  {
    if thickness > 1.0 {
      var d := Dilate(g, w, h, thickness);
      assert Radius(thickness) == 0;
      forall y | 0 <= y < h
        ensures d[y] == g[y]
      {
        forall x | 0 <= x < w
          ensures d[y][x] == g[y][x]
        {
          DilatedAtIsWindowMax(g, w, h, thickness, x, y);
        }
      }
    }
  }

  /** A cell of the window of column w-1-x, seen through the mirror, lies in the window of column x. */
  lemma MirrorCellInWindow(g: Grid<real>, w: nat, h: nat, x: int, y: int, r: nat, nx: int, ny: int)
    requires IsGrid(g, w, h) && InBounds(w, h, x, y)
    requires y - r <= ny < y + r + 1 && (w - 1 - x) - r <= nx < (w - 1 - x) + r + 1 && InBounds(w, h, nx, ny)
    ensures DilatedAt(Mirror(g, w, h), w, h, x, y, r) >= g[ny][nx]
  {
    var m := Mirror(g, w, h);
    var mx := w - 1 - nx;
    assert m[ny][mx] == g[ny][nx];
    WindowMaxIsMax(m, w, h, x - r, x + r + 1, y - r, y + r + 1);
  }

  /** Every value of the window of column w-1-x appears in the mirror image's window of column x. */
  lemma MirrorWindowAtLeast(g: Grid<real>, w: nat, h: nat, x: int, y: int, r: nat)
    requires IsGrid(g, w, h) && InBounds(w, h, x, y)
    ensures DilatedAt(Mirror(g, w, h), w, h, x, y, r) >= DilatedAt(g, w, h, w - 1 - x, y, r)
  {
    var x' := w - 1 - x;
    var b := DilatedAt(g, w, h, x', y, r);
    WindowMaxIsMax(g, w, h, x' - r, x' + r + 1, y - r, y + r + 1);
    if b == 0.0 {
      WindowMaxIsMax(Mirror(g, w, h), w, h, x - r, x + r + 1, y - r, y + r + 1);
    } else {
      var ny, nx :| y - r <= ny < y + r + 1 && x' - r <= nx < x' + r + 1 && InBounds(w, h, nx, ny) && b == g[ny][nx];
      MirrorCellInWindow(g, w, h, x, y, r, nx, ny);
    }
  }

  /**
    The window of column x in the mirror image holds the values of the window
    of column w-1-x in the original, so both running maxima are the same number.
   */
  lemma WindowMaxMirror(g: Grid<real>, w: nat, h: nat, x: int, y: int, r: nat)
    requires IsGrid(g, w, h) && InBounds(w, h, x, y)
    ensures DilatedAt(Mirror(g, w, h), w, h, x, y, r) == DilatedAt(g, w, h, w - 1 - x, y, r)
  {
    var m := Mirror(g, w, h);
    MirrorWindowAtLeast(g, w, h, x, y, r);
    MirrorWindowAtLeast(m, w, h, w - 1 - x, y, r);
    MirrorInvolution(g, w, h);
  }

  /** Dilating the mirror image is mirroring the dilated image. */
  lemma DilateMirror(g: Grid<real>, w: nat, h: nat, thickness: real)
    requires IsGrid(g, w, h)
    ensures Dilate(Mirror(g, w, h), w, h, thickness) == Mirror(Dilate(g, w, h, thickness), w, h)
  {
    if thickness > 1.0 {
      var lhs := Dilate(Mirror(g, w, h), w, h, thickness);
      var rhs := Mirror(Dilate(g, w, h, thickness), w, h);
      forall y | 0 <= y < h
        ensures lhs[y] == rhs[y]
      {
        forall x | 0 <= x < w
          ensures lhs[y][x] == rhs[y][x]
        {
          WindowMaxMirror(g, w, h, x, y, Radius(thickness));
        }
      }
    }
  }

  /** Dilation is monotone: raising input values never lowers an output value. */
  lemma DilateMonotone(g: Grid<real>, g': Grid<real>, w: nat, h: nat, thickness: real)
    requires IsGrid(g, w, h) && IsGrid(g', w, h)
    requires forall y, x :: 0 <= y < h && 0 <= x < w ==> g[y][x] <= g'[y][x]
    ensures forall y, x :: 0 <= y < h && 0 <= x < w ==>
      Dilate(g, w, h, thickness)[y][x] <= Dilate(g', w, h, thickness)[y][x]
  {
    if thickness > 1.0 {
      var r := Radius(thickness);
      forall y, x | 0 <= y < h && 0 <= x < w
        ensures DilatedAt(g, w, h, x, y, r) <= DilatedAt(g', w, h, x, y, r)
      {
        var a := DilatedAt(g, w, h, x, y, r);
        WindowMaxIsMax(g, w, h, x - r, x + r + 1, y - r, y + r + 1);
        WindowMaxIsMax(g', w, h, x - r, x + r + 1, y - r, y + r + 1);
        if a != 0.0 {
          var ny, nx :| y - r <= ny < y + r + 1 && x - r <= nx < x + r + 1 && InBounds(w, h, nx, ny) && a == g[ny][nx];
          assert g[ny][nx] <= g'[ny][nx];
        }
      }
    }
  }

  /** An all-zero buffer stays all zero. */
  lemma DilateZero(g: Grid<real>, w: nat, h: nat, thickness: real)
    requires IsGrid(g, w, h) && Uniform(g, w, h, 0.0)
    ensures Uniform(Dilate(g, w, h, thickness), w, h, 0.0)
  {
    if thickness > 1.0 {
      var r := Radius(thickness);
      forall y, x | 0 <= y < h && 0 <= x < w
        ensures DilatedAt(g, w, h, x, y, r) == 0.0
      {
        WindowMaxIsMax(g, w, h, x - r, x + r + 1, y - r, y + r + 1);
      }
    }
  }

  // ---------------------------------------------------------------------------
  // The nested loops of `processStencil` compute the same buffer
  // ---------------------------------------------------------------------------

  /** The running maximum of one window, as the two inner loops of `processStencil`. */
  method WindowMaxLoop(g: Grid<real>, w: nat, h: nat, x: int, y: int, r: nat) returns (maxVal: real)
    requires IsGrid(g, w, h)
    ensures maxVal == DilatedAt(g, w, h, x, y, r)
  {
    maxVal := 0.0;
    var dy: int := -(r as int);
    while dy <= r
      invariant -(r as int) <= dy <= r + 1
      invariant maxVal == WindowMax(g, w, h, x - r, x + r + 1, y - r, y + dy)
    {
      ghost var start := maxVal;
      var dx: int := -(r as int);
      while dx <= r
        invariant -(r as int) <= dx <= r + 1
        invariant maxVal == RowMax(g, w, h, start, y + dy, x - r, x + dx)
      {
        var ny := y + dy;
        var nx := x + dx;
        if ny >= 0 && ny < h && nx >= 0 && nx < w {
          maxVal := MaxOf(maxVal, g[ny][nx]);
        }
        dx := dx + 1;
      }
      assert maxVal == WindowMax(g, w, h, x - r, x + r + 1, y - r, y + dy + 1);
      dy := dy + 1;
    }
  }

  /** The dilation stage as the nested loops of `processStencil`. */
  method DilateLoop(g: Grid<real>, w: nat, h: nat, thickness: real) returns (out: Grid<real>)
    requires IsGrid(g, w, h)
    ensures out == Dilate(g, w, h, thickness)
  {
    if thickness <= 1.0 {
      return g;
    }
    var r := Radius(thickness);
    ghost var d := Dilate(g, w, h, thickness);
    assert forall yy, xx :: 0 <= yy < h && 0 <= xx < w ==> d[yy][xx] == DilatedAt(g, w, h, xx, yy, r);
    out := [];
    var y := 0;
    while y < h
      invariant 0 <= y <= h
      invariant |out| == y
      invariant forall yy :: 0 <= yy < y ==> out[yy] == d[yy]
    {
      var row: seq<real> := [];
      var x := 0;
      while x < w
        invariant 0 <= x <= w
        invariant |row| == x
        invariant forall xx :: 0 <= xx < x ==> row[xx] == d[y][xx]
      {
        var m := WindowMaxLoop(g, w, h, x, y, r);
        row := row + [m];
        x := x + 1;
      }
      assert row == d[y];
      out := out + [row];
      y := y + 1;
    }
    assert out == d;
  }
}
