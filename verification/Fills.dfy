/** Filled shapes made of vertical runs: `fillCircleHelper`, `fillCircle` and `fillRoundRect`. */
module Fills {
  import opened Machine
  import opened Raster
  import opened Circles
  import opened Lines

  // ---- The hull of the outline ----

  /** (i, j), relative to the centre, lies between two outline pixels of its column, the lower one moved
      down by `delta`. */
  ghost predicate InHull(r: nat, i: int, j: int, delta: int) {
    exists h: nat :: Plotted(r, i, h) && 0 <= j + h && j <= h + delta
  }

  /** The outermost outline pixels of column c are at heights h and -h. */
  ghost predicate ColumnHeight(r: nat, c: nat, h: nat) {
    Plotted(r, c, h) && forall h': nat :: Plotted(r, c, h') ==> h' <= h
  }

  lemma HullColumn(r: nat, c: nat, h: nat, i: int, j: int, delta: int)
    requires ColumnHeight(r, c, h) && Abs(i) == c
    ensures InHull(r, i, j, delta) <==> 0 <= j + h && j <= h + delta
  {
    assert Plotted(r, i, h);
    if InHull(r, i, j, delta) {
      var h': nat :| Plotted(r, i, h') && 0 <= j + h' && j <= h' + delta;
      assert Plotted(r, c, h');
    }
  }

  lemma HullInside(r: nat, i: int, j: int, delta: int)
    requires InHull(r, i, j, delta)
    ensures Abs(i) <= r && 0 <= j + r && j <= r + delta
  {
    var h: nat :| Plotted(r, i, h) && 0 <= j + h && j <= h + delta;
    PlottedAccuracy(r, i, h);
  }

  /** Before the diagonal, the point just computed is the top of its own column. */
  lemma NearColumn(r: nat, x: nat, y: nat, f: int, ddF_x: int, ddF_y: int)
    requires Midpoint(r, x, y, f, ddF_x, ddF_y) && x <= y
    ensures ColumnHeight(r, x, y)
  {
    forall h: nat | Plotted(r, x, h) ensures h <= y {
      if h >= x {
        NearestUnique(r * r - x * x, h, y);
      }
    }
  }

  /** When the iteration is about to decrease y, column y has its top at the present x. */
  lemma FarColumn(r: nat, x: nat, y: nat, f: int, ddF_x: int, ddF_y: int)
    requires Midpoint(r, x, y, f, ddF_x, ddF_y) && x < y && f >= 0
    ensures ColumnHeight(r, y, x)
  {
    forall h: nat | Plotted(r, y, h) ensures h <= x {
      if h > x {
        SquaresBeyond(x, h);
        SquareNext(x + 1, x);
        if h >= y {
          MulStep(y - 1, h - 1, y);
          MulStep(y, h, h - 1);
          MulStep(x + 1, y, y);
          MulStep(x + 1, y, x + 1);
        }
      }
    }
  }

  // ---- fillCircleHelper ----

  /** The columns drawn once the iteration has reached (x, y): those up to x and those beyond y. */
  predicate Drawn(x: int, y: int, c: int) {
    c <= Min(x, y) || c > y
  }

  /** Bit 0 of `corners` asks for the right half, bit 1 for the left half. */
  predicate Wanted(corners: uint8, i: int) {
    (i > 0 && corners % 2 == 1) || (i < 0 && corners / 2 % 2 == 1)
  }

  /** What has been painted when the iteration has reached (x, y). */
  ghost predicate Filled(r: nat, x: int, y: int, corners: uint8, delta: int, i: int, j: int) {
    Wanted(corners, i) && Drawn(x, y, Abs(i)) && InHull(r, i, j, delta)
  }

  ghost predicate InColumns(r: nat, c: nat, corners: uint8, delta: int, i: int, j: int) {
    Wanted(corners, i) && Abs(i) == c && InHull(r, i, j, delta)
  }

  /** The error terms stay within int16, and so do the coordinates and lengths of the wanted halves, if there
      are any columns to paint. */
  predicate FillFits(x0: int, y0: int, r: int, corners: uint8, delta: int) {
    && -0x3FFF <= r <= 0x3FFF && delta < 0x7FFF
    && (r > 0 ==>
          && -1 <= delta && 2 * r + delta + 1 < 0x8000 && y0 - r >= -0x8000
          && (corners % 2 == 1 ==> x0 + r < 0x8000)
          && (corners / 2 % 2 == 1 ==> x0 - r >= -0x8000))
  }

  /** The pair of writes for column c with height h; `delta` is already one more than the caller's. */
  method WriteColumns(calls: seq<Call>, x0: int16, y0: int16, ghost r: nat, c: int16, h: int16, delta: int16,
                      corners: uint8, color: uint16) returns (calls': seq<Call>)
    requires FillFits(x0, y0, r, corners, delta - 1) && 0 < c <= r && 0 <= h <= r && ColumnHeight(r, c, h)
    requires Monochrome(calls, color) && AllPlayable(calls)
    ensures Monochrome(calls', color) && AllPlayable(calls')
    ensures forall px, py :: Hits(calls', px, py) ==
                             Hits(calls, px, py) + Once(InColumns(r, c, corners, delta - 1, px - x0, py - y0))
  {
    calls' := calls;
    if corners % 2 == 1 {
      var v := VLine(x0 + c, y0 - h, 2 * h + delta, color);
      HitsSnocAll(calls', v);
      calls' := calls' + [v];
    }
    if corners / 2 % 2 == 1 {
      var v := VLine(x0 - c, y0 - h, 2 * h + delta, color);
      HitsSnocAll(calls', v);
      calls' := calls' + [v];
    }
    forall px, py
      ensures Hits(calls', px, py) ==
              Hits(calls, px, py) + Once(InColumns(r, c, corners, delta - 1, px - x0, py - y0))
    {
      if Abs(px - x0) == c {
        HullColumn(r, c, h, px - x0, py - y0, delta - 1);
      }
    }
  }

  /** Every column of the wanted halves is painted once, from its top outline pixel to its bottom one. */
  method FillCircleHelper(x0: int16, y0: int16, r: int16, corners: uint8, delta: int16, color: uint16)
    returns (calls: seq<Call>)
    requires FillFits(x0, y0, r, corners, delta)
    ensures Monochrome(calls, color) && AllPlayable(calls)
    ensures r <= 0 ==> calls == []
    ensures r >= 0 ==>
      forall px, py :: Hits(calls, px, py) == Once(Wanted(corners, px - x0) && InHull(r, px - x0, py - y0, delta))
  {
    var f: int16 := 1 - r;
    var ddF_x: int16 := 1;
    var ddF_y: int16 := -2 * r;
    var x: int16 := 0;
    var y: int16 := r;
    var px: int16 := x;
    var py: int16 := y;
    var delta: int16 := delta + 1;
    calls := [];
    if r >= 0 {
      MidpointStart(r);
      NothingFilled(r, corners, delta - 1);
    }
    while x < y
      invariant r <= 0 ==> y <= 0 <= x && calls == []
      invariant r >= 0 ==> Midpoint(r, x, y, f, ddF_x, ddF_y)
      invariant px == x && py == y
      invariant Monochrome(calls, color) && AllPlayable(calls)
      invariant r >= 0 ==>
        forall i, j :: Hits(calls, i, j) == Once(Filled(r, x, y, corners, delta - 1, i - x0, j - y0))
      decreases y - x
    {
      ghost var f0, ddF_x0, ddF_y0 := f, ddF_x, ddF_y;
      x, y, f, ddF_x, ddF_y := Iterate(r, x, y, f, ddF_x, ddF_y);
      if x < y + 1 {
        NearColumn(r, x, y, f, ddF_x, ddF_y);
        calls := WriteColumns(calls, x0, y0, r, x, y, delta, corners, color);
      }
      if y != py {
        FarColumn(r, px, py, f0, ddF_x0, ddF_y0);
        calls := WriteColumns(calls, x0, y0, r, py, px, delta, corners, color);
        py := y;
      }
      px := x;
    }
  }

  lemma NothingFilled(r: nat, corners: uint8, delta: int)
    ensures forall i, j :: !Filled(r, 0, r, corners, delta, i, j)
  {
    forall i, j ensures !Filled(r, 0, r, corners, delta, i, j) {
      if InHull(r, i, j, delta) {
        HullInside(r, i, j, delta);
      }
    }
  }

  // ---- fillCircle ----

  /** The filled circle is the hull of the outline: each pixel of it is painted exactly once. */
  method FillCircle(x0: int16, y0: int16, r: int16, color: uint16) returns (calls: seq<Call>)
    requires CircleFits(x0, y0, r)
    ensures Monochrome(calls, color) && AllPlayable(calls)
    ensures r >= 0 ==> forall px, py :: Hits(calls, px, py) == Once(InHull(r, px - x0, py - y0, 0))
    ensures r < 0 ==> calls == [VLine(x0, y0 - r, 2 * r + 1, color)]
  {
    var centre := VLine(x0, y0 - r, 2 * r + 1, color);
    var rest := FillCircleHelper(x0, y0, r, 3, 0, color);
    calls := [centre] + rest;
    if r >= 0 {
      MiddleColumn(r);
      forall px, py ensures Hits(calls, px, py) == Once(InHull(r, px - x0, py - y0, 0)) {
        HitsSnoc([], centre, px, py);
        assert [] + [centre] == [centre];
        HitsConcat([centre], rest, px, py);
        if px == x0 {
          HullColumn(r, 0, r, 0, py - y0, 0);
        }
      }
    }
  }

  lemma MiddleColumn(r: nat)
    ensures ColumnHeight(r, 0, r)
  {
    MidpointStart(r);
    NearColumn(r, 0, r, 1 - r, 1, -2 * r);
  }

  /** Some outline pixel of column px is at least as far from the centre row y0 as (px, py). */
  ghost predicate UnderOutline(outline: seq<Call>, y0: int, px: int, py: int) {
    exists py' :: Hits(outline, px, py') > 0 && Abs(py - y0) <= Abs(py' - y0)
  }

  /** `fillCircle` paints, once each, exactly the pixels that `drawCircle` encloses in their column. */
  lemma FillIsHullOfOutline(x0: int, y0: int, r: nat, outline: seq<Call>, fill: seq<Call>, px: int, py: int)
    requires forall i, j :: Hits(outline, i, j) > 0 <==> Plotted(r, i - x0, j - y0)
    requires forall i, j :: Hits(fill, i, j) == Once(InHull(r, i - x0, j - y0, 0))
    ensures Hits(fill, px, py) == Once(UnderOutline(outline, y0, px, py))
  {
    if InHull(r, px - x0, py - y0, 0) {
      var h: nat :| Plotted(r, px - x0, h) && 0 <= py - y0 + h && py - y0 <= h + 0;
      assert y0 + h - y0 == h;
      assert Hits(outline, px, y0 + h) > 0;
    }
    if UnderOutline(outline, y0, px, py) {
      var py' :| Hits(outline, px, py') > 0 && Abs(py - y0) <= Abs(py' - y0);
      assert Plotted(r, px - x0, Abs(py' - y0));
    }
  }

  /** Draws both and compares them. */
  method FillAgainstOutline(x0: int16, y0: int16, r: int16, color: uint16) returns (outline: seq<Call>, fill: seq<Call>)
    requires CircleFits(x0, y0, r) && r >= 0
    ensures forall px, py :: Hits(fill, px, py) == Once(UnderOutline(outline, y0, px, py))
  {
    outline := DrawCircle(x0, y0, r, color);
    fill := FillCircle(x0, y0, r, color);
    forall px, py ensures Hits(fill, px, py) == Once(UnderOutline(outline, y0, px, py)) {
      FillIsHullOfOutline(x0, y0, r, outline, fill, px, py);
    }
  }

  /** No column of the disc is missed. */
  lemma FillCircleColumns(r: nat, i: int)
    requires Abs(i) <= r
    ensures InHull(r, i, 0, 0)
  {
    var h := ColumnExists(r, Abs(i));
    HullColumn(r, Abs(i), h, i, 0, 0);
  }

  /** The fill covers the whole disc ... */
  lemma FillCoversDisc(r: nat, i: int, j: int)
    requires i * i + j * j <= r * r
    ensures InHull(r, i, j, 0)
  {
    var c, t := Abs(i), Abs(j);
    AbsSquare(i);
    AbsSquare(j);
    MulPositive(t, t);
    if c > r {
      SquaresBeyond(r, c);
    }
    var h := ColumnExists(r, c);
    DiscBelowColumn(r, c, h, t);
    HullColumn(r, c, h, i, j, 0);
  }

  /** ... and goes beyond it by no more than r, measured on squares. */
  lemma FillNearDisc(r: nat, i: int, j: int)
    requires InHull(r, i, j, 0)
    ensures i * i + j * j <= r * r + r
  {
    var h: nat :| Plotted(r, i, h) && 0 <= j + h && j <= h + 0;
    PlottedAccuracy(r, i, h);
    SquareBelow(j, h);
  }

  lemma SquareBelow(j: int, h: nat)
    requires Abs(j) <= h
    ensures j * j <= h * h
  {
    AbsSquare(j);
    MulStep(Abs(j), h, h);
    MulStep(Abs(j), h, Abs(j));
  }

  lemma DiscBelowColumn(r: nat, c: nat, h: nat, t: nat)
    requires ColumnHeight(r, c, h) && c * c + t * t <= r * r
    ensures t <= h
  {
    if h < t {
      SquaresBeyond(h, t);
      if h < c {
        PlottedBetween(r, c, h, t);
      }
    }
  }

  lemma PlottedBetween(r: nat, c: nat, h: nat, t: nat)
    requires Plotted(r, c, h) && h < c && h < t && c * c + t * t <= r * r
    ensures Plotted(r, c, t)
  {
    SquaresBeyond(h, t);
    SquaresBeyond(h, c);
    if t > c {
      SquaresBeyond(c, t);
    }
  }

  // ---- fillRoundRect ----

  /** The radius that `fillRoundRect` uses: at most half the shorter side, in C's division. */
  function ClampedRadius(w: int, h: int, r: int): (clamped: int)
    ensures clamped > 0 ==> 2 * clamped <= w && 2 * clamped <= h
  {
    Min(r, TruncDiv(Min(w, h), 2))
  }

  /** It is the radius asked for if that fits twice into both sides, and else the greatest that does. */
  lemma ClampedRadiusIs(w: nat, h: nat, r: nat)
    ensures 2 * r <= w && 2 * r <= h ==> ClampedRadius(w, h, r) == r
    ensures !(2 * r <= w && 2 * r <= h) ==>
      var c := ClampedRadius(w, h, r);
      0 <= c < r && 2 * c <= w && 2 * c <= h && (2 * (c + 1) > w || 2 * (c + 1) > h)
  {
  }

  /** Pixel (i, j) relative to the upper left corner of a w x h rectangle with corner radius r: a full column in
      the middle, a stretched circle column in the two ends. */
  ghost predicate InRoundRect(w: nat, h: nat, r: nat, i: int, j: int) {
    if r <= i < w - r then 0 <= j < h
    else if i < r then InHull(r, i - r, j - r, h - 2 * r - 1)
    else InHull(r, i - (w - r - 1), j - r, h - 2 * r - 1)
  }

  /** With a radius of 0 it is the rectangle; a negative one makes that wider. */
  ghost predicate RoundRectPixel(w: int, h: int, r: int, i: int, j: int)
    requires r > 0 ==> 2 * r <= w && 2 * r <= h
  {
    if r > 0 then InRoundRect(w, h, r, i, j) else InRect(r, 0, w - 2 * r, h, i, j)
  }

  /** The middle rectangle can be stepped past, the columns on its right exist, and the arguments fit in int16. */
  predicate RoundRectFits(x: int16, y: int16, w: int16, h: int16, r: int) {
    && r >= -0x3FFF && x + r >= -0x8000 && w - 2 * r < 0x8000 && -0x7FFF <= x + w - r < 0x8000
    && -0x8000 <= y + r < 0x8000 && -0x7FFF <= h - 2 * r < 0x8000
    && RunFits(y, h) && (r > 0 ==> x + w <= 0x8000)
  }

  /** Each pixel of the rounded rectangle is painted exactly once and nothing else is. */
  method FillRoundRect(x: int16, y: int16, w: int16, h: int16, r: int16, color: uint16) returns (calls: seq<Call>)
    requires RoundRectFits(x, y, w, h, ClampedRadius(w, h, r))
    ensures Monochrome(calls, color) && AllPlayable(calls)
    ensures forall px, py ::
      Hits(calls, px, py) == Once(RoundRectPixel(w, h, ClampedRadius(w, h, r), px - x, py - y))
  {
    var maxRadius: int16 := TruncDiv(if w < h then w else h, 2);
    var r: int16 := r;
    if r > maxRadius {
      r := maxRadius;
    }
    var middle := FillRect(x + r, y, w - 2 * r, h, color);
    var right := FillCircleHelper(x + w - r - 1, y + r, r, 1, h - 2 * r - 1, color);
    var left := FillCircleHelper(x + r, y + r, r, 2, h - 2 * r - 1, color);
    calls := middle + right + left;
    if r > 0 {
      RoundRectAll(middle, right, left, x, y, w, h, r);
    } else {
      NothingBeside(middle, right, left, x, y, w, h, r);
    }
  }

  /** Without corners only the middle rectangle is painted. */
  lemma NothingBeside(middle: seq<Call>, right: seq<Call>, left: seq<Call>, x: int, y: int, w: int, h: int, r: int)
    requires r <= 0 && right == [] && left == []
    requires forall px, py :: Hits(middle, px, py) == Once(InRect(x + r, y, w - 2 * r, h, px, py))
    ensures forall px, py :: Hits(middle + right + left, px, py) == Once(RoundRectPixel(w, h, r, px - x, py - y))
  {
    assert middle + right + left == middle;
  }

  lemma RoundRectAll(middle: seq<Call>, right: seq<Call>, left: seq<Call>, x: int, y: int, w: nat, h: nat, r: nat)
    requires 2 * r <= w && 2 * r <= h
    requires forall px, py :: Hits(middle, px, py) == Once(InRect(x + r, y, w - 2 * r, h, px, py))
    requires forall px, py ::
      Hits(right, px, py) ==
      Once(Wanted(1, px - (x + w - r - 1)) && InHull(r, px - (x + w - r - 1), py - (y + r), h - 2 * r - 1))
    requires forall px, py ::
      Hits(left, px, py) ==
      Once(Wanted(2, px - (x + r)) && InHull(r, px - (x + r), py - (y + r), h - 2 * r - 1))
    ensures forall px, py :: Hits(middle + right + left, px, py) == Once(InRoundRect(w, h, r, px - x, py - y))
  {
    forall px, py ensures Hits(middle + right + left, px, py) == Once(InRoundRect(w, h, r, px - x, py - y)) {
      RoundRectHits(middle, right, left, x, y, w, h, r, px, py);
    }
  }

  lemma RoundRectHits(middle: seq<Call>, right: seq<Call>, left: seq<Call>, x: int, y: int,
                      w: nat, h: nat, r: nat, px: int, py: int)
    requires 2 * r <= w && 2 * r <= h
    requires Hits(middle, px, py) == Once(InRect(x + r, y, w - 2 * r, h, px, py))
    requires var (i, j) := (px - (x + w - r - 1), py - (y + r));
             Hits(right, px, py) == Once(Wanted(1, i) && InHull(r, i, j, h - 2 * r - 1))
    requires var (i, j) := (px - (x + r), py - (y + r));
             Hits(left, px, py) == Once(Wanted(2, i) && InHull(r, i, j, h - 2 * r - 1))
    ensures Hits(middle + right + left, px, py) == Once(InRoundRect(w, h, r, px - x, py - y))
  {
    HitsConcat(middle + right, left, px, py);
    HitsConcat(middle, right, px, py);
    RoundRectParts(w, h, r, px - x, py - y);
    assert px - (x + w - r - 1) == px - x - (w - r - 1) && px - (x + r) == px - x - r && py - (y + r) == py - y - r;
  }

  lemma RoundRectParts(w: nat, h: nat, r: nat, i: int, j: int)
    requires 2 * r <= w && 2 * r <= h
    ensures Once(InRoundRect(w, h, r, i, j)) ==
            Once(InRect(r, 0, w - 2 * r, h, i, j))
            + Once(Wanted(1, i - (w - r - 1)) && InHull(r, i - (w - r - 1), j - r, h - 2 * r - 1))
            + Once(Wanted(2, i - r) && InHull(r, i - r, j - r, h - 2 * r - 1))
  {
  }

  lemma RoundRectInside(w: nat, h: nat, r: nat, i: int, j: int)
    requires 2 * r <= w && 2 * r <= h && InRoundRect(w, h, r, i, j)
    ensures 0 <= i < w && 0 <= j < h
  {
    if i < r {
      HullInside(r, i - r, j - r, h - 2 * r - 1);
    } else if i >= w - r {
      HullInside(r, i - (w - r - 1), j - r, h - 2 * r - 1);
    }
  }

  lemma HullSymmetric(r: nat, i: int, j: int, delta: int)
    ensures InHull(r, i, j, delta) <==> InHull(r, -i, j, delta)
    ensures InHull(r, i, j, delta) <==> InHull(r, i, delta - j, delta)
  {
    if InHull(r, i, j, delta) {
      HullMirrored(r, i, j, delta);
    }
    if InHull(r, -i, j, delta) {
      HullMirrored(r, -i, j, delta);
    }
    if InHull(r, i, delta - j, delta) {
      HullMirrored(r, i, delta - j, delta);
    }
  }

  lemma HullMirrored(r: nat, i: int, j: int, delta: int)
    requires InHull(r, i, j, delta)
    ensures InHull(r, -i, j, delta) && InHull(r, i, delta - j, delta)
  {
    var h: nat :| Plotted(r, i, h) && 0 <= j + h && j <= h + delta;
    assert Plotted(r, -i, h);
  }

  /** The rounded rectangle is the same seen in either mirror. */
  lemma RoundRectSymmetric(w: nat, h: nat, r: nat, i: int, j: int)
    requires 2 * r <= w && 2 * r <= h
    ensures InRoundRect(w, h, r, i, j) <==> InRoundRect(w, h, r, w - 1 - i, j)
    ensures InRoundRect(w, h, r, i, j) <==> InRoundRect(w, h, r, i, h - 1 - j)
  {
    HullSymmetric(r, i - r, j - r, h - 2 * r - 1);
    HullSymmetric(r, i - (w - r - 1), j - r, h - 2 * r - 1);
  }

  /** The iteration reaches every column. */
  lemma FindColumn(r: nat, c: nat, x: int, y: int, f: int, ddF_x: int, ddF_y: int) returns (h: nat)
    requires Midpoint(r, x, y, f, ddF_x, ddF_y) && c <= r && !Drawn(x, y, c)
    ensures ColumnHeight(r, c, h)
    decreases y - x
  {
    MidpointStep(r, x, y, f, ddF_x, ddF_y);
    var d := if f >= 0 then 1 else 0;
    var f' := f + (if f >= 0 then ddF_y + 2 else 0) + ddF_x + 2;
    if c == x + 1 && x + 1 <= y - d {
      NearColumn(r, x + 1, y - d, f', ddF_x + 2, ddF_y + 2 * d);
      h := y - d;
    } else if c == y && f >= 0 {
      FarColumn(r, x, y, f, ddF_x, ddF_y);
      h := x;
    } else {
      h := FindColumn(r, c, x + 1, y - d, f', ddF_x + 2, ddF_y + 2 * d);
    }
  }

  lemma ColumnExists(r: nat, c: nat) returns (h: nat)
    requires c <= r
    ensures ColumnHeight(r, c, h)
    ensures h == 0 <==> c == r && r <= 1
  {
    if c == 0 {
      MiddleColumn(r);
      h := r;
    } else {
      MidpointStart(r);
      h := FindColumn(r, c, 0, r, 1 - r, 1, -2 * r);
      if h == 0 {
        NearestUnique(r * r, c, r);
        if r > 1 {
          MulStep(1, r, 1);
          assert Plotted(r, r, 1);
        }
      } else if c == 1 {
        assert Plotted(1, 1, h) ==> h == 0;
      }
    }
  }

  ghost predicate ColumnPainted(w: nat, h: nat, r: nat, i: int) {
    exists j :: InRoundRect(w, h, r, i, j)
  }

  /** Every column of the rectangle is painted, except in one case: radius 1 on a height of 2, where the end
      columns come out with length 0. */
  lemma RoundRectTiles(w: nat, h: nat, r: nat)
    requires w >= 1 && h >= 1 && 2 * r <= w && 2 * r <= h
    ensures (forall i :: 0 <= i < w ==> ColumnPainted(w, h, r, i)) <==> !(h == 2 && r == 1)
  {
    if h == 2 && r == 1 {
      forall j ensures !InRoundRect(w, h, r, 0, j) {
        var t := ColumnExists(1, 1);
        HullColumn(1, 1, t, -1, j - 1, -1);
      }
      assert !ColumnPainted(w, h, r, 0);
    } else {
      forall i | 0 <= i < w ensures ColumnPainted(w, h, r, i) {
        if r <= i < w - r {
          assert InRoundRect(w, h, r, i, 0);
        } else {
          var c := if i < r then r - i else i - (w - r - 1);
          var t := ColumnExists(r, c);
          HullColumn(r, c, t, if i < r then i - r else c, -(t as int), h - 2 * r - 1);
          assert InRoundRect(w, h, r, i, r - t);
        }
      }
    }
  }
}
