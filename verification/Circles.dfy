/** The midpoint circle algorithm and the circle outline, `drawCircle`. */
module Circles {
  import opened Machine
  import opened Raster

  // ---- The circle on the grid ----

  /** b is the square root of n rounded to the nearest integer. */
  predicate Nearest(n: int, b: int) {
    (b == 0 || b * b - b < n) && n <= b * b + b
  }

  /** Pixel (i, j), relative to the centre, is on the circle of radius r: the larger coordinate is the nearest
      one to the circle for the smaller coordinate. */
  predicate Plotted(r: nat, i: int, j: int) {
    var a, b := Min(Abs(i), Abs(j)), Max(Abs(i), Abs(j));
    Nearest(r * r - a * a, b)
  }

  lemma NearestUnique(n: int, b: nat, b': nat)
    requires Nearest(n, b) && Nearest(n, b')
    ensures b == b'
  {
    if b < b' {
      MulStep(b, b', b' - 1);
      MulStep(b + 1, b', b);
    } else if b' < b {
      MulStep(b' + 1, b, b');
    }
  }

  /** An outline pixel is within its larger coordinate of the circle, measured on squares; and inside the square. */
  lemma PlottedAccuracy(r: nat, i: int, j: int)
    requires Plotted(r, i, j)
    ensures Abs(i * i + j * j - r * r) <= Max(Abs(i), Abs(j)) <= r
  {
    var a, b := Min(Abs(i), Abs(j)), Max(Abs(i), Abs(j));
    assert a * a + b * b == i * i + j * j by {
      AbsSquare(i);
      AbsSquare(j);
    }
    NearestBound(r, a, b);
  }

  lemma AbsSquare(i: int)
    ensures Abs(i) * Abs(i) == i * i
  {
  }

  lemma NearestBound(r: nat, a: nat, b: nat)
    requires Nearest(r * r - a * a, b) && a <= b
    ensures b <= r
  {
    MulPositive(a, a);
    if b > r {
      SquaresBeyond(r, b);
    }
  }

  // ---- The midpoint iteration ----

  /** The state at the head of the loop: the point (x, y) of the second octant, the decision variable for the
      midpoint (x + 1, y - 1/2) and its two differences.  After the diagonal is crossed, (x, y) mirrors (y, x). */
  predicate Midpoint(r: nat, x: int, y: int, f: int, ddF_x: int, ddF_y: int) {
    && 0 <= x && 0 <= y <= r && x <= y + 1 && (x > y ==> y < r)
    && f == (x + 1) * (x + 1) + y * y - y - r * r
    && ddF_x == 2 * x + 1 && ddF_y == -2 * y
    && -y <= x * x + y * y - r * r <= y
    && (x <= y ==> Nearest(r * r - x * x, y))
    && (x > y ==> Nearest(r * r - y * y, x))
  }

  lemma MidpointStart(r: nat)
    ensures Midpoint(r, 0, r, 1 - r, 1, -2 * r)
  {
  }

  /** One iteration; no value leaves the range that a radius of at most 16383 keeps within int16. */
  lemma MidpointStep(r: nat, x: int, y: int, f: int, ddF_x: int, ddF_y: int)
    requires Midpoint(r, x, y, f, ddF_x, ddF_y) && x < y
    ensures var d := if f >= 0 then 1 else 0;
            var f' := f + (if f >= 0 then ddF_y + 2 else 0) + ddF_x + 2;
            Midpoint(r, x + 1, y - d, f', ddF_x + 2, ddF_y + 2 * d)
  {
    assert (x + 1) * (x + 1) == x * x + 2 * x + 1;
    assert (y - 1) * (y - 1) == y * y - 2 * y + 1;
    assert (x + 2) * (x + 2) == x * x + 4 * x + 4;
  }

  lemma MidpointRange(r: nat, x: int, y: int, f: int, ddF_x: int, ddF_y: int)
    requires Midpoint(r, x, y, f, ddF_x, ddF_y)
    ensures -2 * r <= f <= 2 * r + 1
  {
    assert (x + 1) * (x + 1) == x * x + 2 * x + 1;
  }

  /** When the loop ends every outline pixel has been reached. */
  lemma MidpointEnd(r: nat, x: int, y: int, f: int, ddF_x: int, ddF_y: int, i: int, j: int)
    requires Midpoint(r, x, y, f, ddF_x, ddF_y) && x >= y && Plotted(r, i, j)
    ensures Min(Abs(i), Abs(j)) <= Min(x, y)
  {
    var a, b := Min(Abs(i), Abs(j)), Max(Abs(i), Abs(j));
    if a > y {
      SquaresBeyond(y, a);
      SquaresBeyond(y, b);
    }
    SquareNext(x, y);
  }

  lemma SquareNext(x: int, y: int)
    ensures x == y + 1 ==> x * x == y * y + 2 * y + 1
  {
  }

  lemma SquaresBeyond(y: nat, a: nat)
    requires a > y
    ensures a * a >= y * y + 2 * y + 1 && a * a - a >= y * y + y
  {
    MulStep(y, a, a);
    MulStep(y, a, y);
  }

  /** The head of the loop body, the same in all four circle routines. */
  method Iterate(ghost r: nat, x: int16, y: int16, f: int16, ddF_x: int16, ddF_y: int16)
    returns (x': int16, y': int16, f': int16, ddF_x': int16, ddF_y': int16)
    requires Midpoint(r, x, y, f, ddF_x, ddF_y) && x < y && r <= 0x3FFF
    ensures Midpoint(r, x', y', f', ddF_x', ddF_y')
    ensures x' == x + 1 && y' == if f >= 0 then y - 1 else y
  {
    MidpointStep(r, x, y, f, ddF_x, ddF_y);
    x', y', f', ddF_x', ddF_y' := x, y, f, ddF_x, ddF_y;
    if f' >= 0 {
      y' := y' - 1;
      ddF_y' := ddF_y' + 2;
      f' := f' + ddF_y';
    }
    x' := x' + 1;
    ddF_x' := ddF_x' + 2;
    MidpointRange(r, x', y', f' + ddF_x', ddF_x', ddF_y');
    f' := f' + ddF_x';
  }

  // ---- drawCircle ----

  predicate CircleFits(x0: int, y0: int, r: int) {
    && -0x3FFF <= r <= 0x3FFF
    && -0x8000 <= x0 - Abs(r) && x0 + Abs(r) < 0x8000
    && -0x8000 <= y0 - Abs(r) && y0 + Abs(r) < 0x8000
  }

  /** The four points on the axes. */
  function Cardinals(x0: int16, y0: int16, r: int16, color: uint16): seq<Call>
    requires CircleFits(x0, y0, r)
  {
    [Pixel(x0, y0 + r, color), Pixel(x0, y0 - r, color), Pixel(x0 + r, y0, color), Pixel(x0 - r, y0, color)]
  }

  /** The eight images of octant point (x, y). */
  function Octants(x0: int16, y0: int16, x: nat, y: nat, color: uint16): seq<Call>
    requires CircleFits(x0, y0, Max(x, y))
  {
    [Pixel(x0 + x, y0 + y, color), Pixel(x0 - x, y0 + y, color),
     Pixel(x0 + x, y0 - y, color), Pixel(x0 - x, y0 - y, color),
     Pixel(x0 + y, y0 + x, color), Pixel(x0 - y, y0 + x, color),
     Pixel(x0 + y, y0 - x, color), Pixel(x0 - y, y0 - x, color)]
  }

  lemma OctantsCover(x0: int16, y0: int16, x: nat, y: nat, color: uint16, px: int, py: int)
    requires CircleFits(x0, y0, Max(x, y))
    ensures Hits(Octants(x0, y0, x, y, color), px, py) > 0 <==>
            (Abs(px - x0), Abs(py - y0)) == (x, y) || (Abs(px - x0), Abs(py - y0)) == (y, x)
  {
    var calls := Octants(x0, y0, x, y, color);
    HitsWitness(calls, px, py);
    if (Abs(px - x0), Abs(py - y0)) == (x, y) {
      var k := if px >= x0 && py >= y0 then 0 else if py >= y0 then 1 else if px >= x0 then 2 else 3;
      assert Covers(calls[k], px, py);
    } else if (Abs(px - x0), Abs(py - y0)) == (y, x) {
      var k := if px >= x0 && py >= y0 then 4 else if py >= y0 then 5 else if px >= x0 then 6 else 7;
      assert Covers(calls[k], px, py);
    }
  }

  /** The outline pixels whose smaller coordinate is at most `reach`. */
  predicate PlottedTo(r: nat, reach: int, i: int, j: int) {
    Plotted(r, i, j) && Min(Abs(i), Abs(j)) <= reach
  }

  lemma OctantsExtend(r: nat, x: int, y: int, f: int, ddF_x: int, ddF_y: int, i: int, j: int)
    requires Midpoint(r, x, y, f, ddF_x, ddF_y) && x > 0
    ensures PlottedTo(r, x, i, j) <==>
            PlottedTo(r, x - 1, i, j) || (Abs(i), Abs(j)) == (x, y) || (Abs(i), Abs(j)) == (y, x)
  {
    var a, b := Min(Abs(i), Abs(j)), Max(Abs(i), Abs(j));
    if x <= y {
      if Plotted(r, i, j) && a == x {
        NearestUnique(r * r - x * x, b, y);
      }
    } else if Plotted(r, i, j) && a == x {
      MidpointEnd(r, x, y, f, ddF_x, ddF_y, i, j);
    }
  }

  lemma OutlineStep(calls: seq<Call>, x0: int16, y0: int16, r: nat, x: nat, y: nat, f: int, ddF_x: int,
                    ddF_y: int, color: uint16)
    requires CircleFits(x0, y0, r) && CircleFits(x0, y0, Max(x, y))
    requires Midpoint(r, x, y, f, ddF_x, ddF_y) && x > 0
    requires forall px, py :: Hits(calls, px, py) > 0 <==> PlottedTo(r, x - 1, px - x0, py - y0)
    ensures var calls' := calls + Octants(x0, y0, x, y, color);
            forall px, py :: Hits(calls', px, py) > 0 <==> PlottedTo(r, x, px - x0, py - y0)
  {
    var eight := Octants(x0, y0, x, y, color);
    forall px, py
      ensures Hits(calls + eight, px, py) > 0 <==> PlottedTo(r, x, px - x0, py - y0)
    {
      HitsConcat(calls, eight, px, py);
      OctantsCover(x0, y0, x, y, color, px, py);
      OctantsExtend(r, x, y, f, ddF_x, ddF_y, px - x0, py - y0);
    }
  }

  method DrawCircle(x0: int16, y0: int16, r: int16, color: uint16) returns (calls: seq<Call>)
    requires CircleFits(x0, y0, r)
    ensures Monochrome(calls, color) && AllPlayable(calls)
    ensures r >= 0 ==> forall px, py :: Hits(calls, px, py) > 0 <==> Plotted(r, px - x0, py - y0)
    ensures r < 0 ==> calls == Cardinals(x0, y0, r, color)
  {
    var f: int16 := 1 - r;
    var ddF_x: int16 := 1;
    var ddF_y: int16 := -2 * r;
    var x: int16 := 0;
    var y: int16 := r;
    calls := Cardinals(x0, y0, r, color);
    if r >= 0 {
      MidpointStart(r);
      forall px, py ensures Hits(calls, px, py) > 0 <==> PlottedTo(r, 0, px - x0, py - y0) {
        FirstFour(x0, y0, r, color, px, py);
      }
    }
    while x < y
      invariant r < 0 ==> y < 0 <= x && calls == Cardinals(x0, y0, r, color)
      invariant r >= 0 ==> Midpoint(r, x, y, f, ddF_x, ddF_y)
      invariant Monochrome(calls, color) && AllPlayable(calls)
      invariant r >= 0 ==> forall px, py :: Hits(calls, px, py) > 0 <==> PlottedTo(r, x, px - x0, py - y0)
      decreases y - x
    {
      x, y, f, ddF_x, ddF_y := Iterate(r, x, y, f, ddF_x, ddF_y);
      OutlineStep(calls, x0, y0, r, x, y, f, ddF_x, ddF_y, color);
      calls := calls + Octants(x0, y0, x, y, color);
    }
    if r >= 0 {
      forall px, py ensures Hits(calls, px, py) > 0 <==> Plotted(r, px - x0, py - y0) {
        if Plotted(r, px - x0, py - y0) {
          MidpointEnd(r, x, y, f, ddF_x, ddF_y, px - x0, py - y0);
        }
      }
    }
  }

  lemma FirstFour(x0: int16, y0: int16, r: nat, color: uint16, px: int, py: int)
    requires CircleFits(x0, y0, r)
    ensures var calls := Cardinals(x0, y0, r, color);
            Hits(calls, px, py) > 0 <==> PlottedTo(r, 0, px - x0, py - y0)
  {
    var calls := Cardinals(x0, y0, r, color);
    HitsWitness(calls, px, py);
    OnAxes(r, px - x0, py - y0);
    if OnAxis(r, px - x0, py - y0) {
      var k := if py == y0 + r then 0 else if py == y0 - r then 1 else if px == x0 + r then 2 else 3;
      assert Covers(calls[k], px, py);
    }
  }

  predicate OnAxis(r: nat, i: int, j: int) {
    (i == 0 && Abs(j) == r) || (j == 0 && Abs(i) == r)
  }

  lemma OnAxes(r: nat, i: int, j: int)
    ensures PlottedTo(r, 0, i, j) <==> OnAxis(r, i, j)
  {
    if PlottedTo(r, 0, i, j) {
      NearestUnique(r * r, Max(Abs(i), Abs(j)), r);
    }
  }
}
