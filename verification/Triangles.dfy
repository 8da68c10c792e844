/** `fillTriangle`: scan conversion with incremental edge numerators. */
module Triangles {
  import opened Machine
  import opened Raster

  datatype Vertex = Vertex(x: int16, y: int16)

  datatype Span = Span(lo: int, hi: int)

  /** Where the edge from p to q crosses scanline y: the longhand formula of the source's comments, with C's
      truncating division. */
  function EdgeX(p: Vertex, q: Vertex, y: int): int
    requires p.y < q.y
  {
    p.x + TruncDiv((q.x - p.x) * (y - p.y), q.y - p.y)
  }

  function SpanOf(a: int, b: int): Span {
    Span(Min(a, b), Max(a, b))
  }

  function Swapped(p: Vertex, q: Vertex): (Vertex, Vertex) {
    if p.y > q.y then (q, p) else (p, q)
  }

  /** The three compare-and-exchange steps that order the vertices by y. */
  function SortByY(p: Vertex, q: Vertex, r: Vertex): ((Vertex, Vertex, Vertex)) {
    var (p1, q1) := Swapped(p, q);
    var (q2, r2) := Swapped(q1, r);
    var (p3, q3) := Swapped(p1, q2);
    (p3, q3, r2)
  }

  /** The span of scanline y, for vertices ordered by y. */
  function SortedSpan(p: Vertex, q: Vertex, r: Vertex, y: int): Span
    requires p.y <= q.y <= r.y && p.y <= y <= r.y
  {
    if p.y == r.y then Span(Min(p.x, Min(q.x, r.x)), Max(p.x, Max(q.x, r.x)))
    else if y < q.y || q.y == r.y then SpanOf(EdgeX(p, q, y), EdgeX(p, r, y))
    else SpanOf(EdgeX(q, r, y), EdgeX(p, r, y))
  }

  function Top(p: Vertex, q: Vertex, r: Vertex): int16 {
    SortByY(p, q, r).0.y
  }

  function Bottom(p: Vertex, q: Vertex, r: Vertex): int16 {
    SortByY(p, q, r).2.y
  }

  function RowSpan(p: Vertex, q: Vertex, r: Vertex, y: int): Span
    requires Top(p, q, r) <= y <= Bottom(p, q, r)
  {
    var (a, b, c) := SortByY(p, q, r);
    SortedSpan(a, b, c, y)
  }

  predicate InFill(p: Vertex, q: Vertex, r: Vertex, px: int, py: int) {
    Top(p, q, r) <= py <= Bottom(p, q, r) && RowSpan(p, q, r, py).lo <= px <= RowSpan(p, q, r, py).hi
  }

  // ---- The edges ----

  /** The crossing is exact at both ends of the edge. */
  lemma EdgeEnds(p: Vertex, q: Vertex)
    requires p.y < q.y
    ensures EdgeX(p, q, p.y) == p.x && EdgeX(p, q, q.y) == q.x
  {
    var d := q.y - p.y;
    TruncExact(q.x - p.x, d);
  }

  lemma TruncExact(n: int, d: int)
    requires d > 0
    ensures TruncDiv(n * d, d) == n && TruncDiv(n * 0, d) == 0
  {
    var q := TruncDiv(n * d, d);
    MulStep(q, n, d);
    MulStep(n, q, d);
    MulPositive(d, if n >= 0 then n else -n);
  }

  /** The crossing is less than a pixel away from the exact one, and between the ends of the edge. */
  lemma EdgeAccuracy(p: Vertex, q: Vertex, y: int)
    requires p.y < q.y && p.y <= y <= q.y
    ensures Abs((EdgeX(p, q, y) - p.x) * (q.y - p.y) - (q.x - p.x) * (y - p.y)) < q.y - p.y
    ensures Min(p.x, q.x) <= EdgeX(p, q, y) <= Max(p.x, q.x)
  {
    TruncBetween(q.x - p.x, y - p.y, q.y - p.y);
  }

  lemma TruncBetween(n: int, t: nat, d: int)
    requires 0 <= t <= d && d > 0
    ensures Min(0, n) <= TruncDiv(n * t, d) <= Max(0, n)
    ensures Abs(TruncDiv(n * t, d) * d - n * t) < d
  {
    if n >= 0 {
      TruncBelow(n, t, d);
    } else {
      TruncBelow(-n, t, d);
      assert n * t == -(-n * t);
    }
  }

  lemma TruncBelow(n: nat, t: nat, d: int)
    requires 0 <= t <= d && d > 0
    ensures 0 <= n * t && 0 <= (n * t) / d <= n
  {
    MulPositive(n, t);
    MulStep(t, d, n);
    assert t * n == n * t && d * n == n * d;
    MulStep(n, n * t / d, d);
  }

  lemma SpanInside(p: Vertex, q: Vertex, r: Vertex, y: int)
    requires p.y <= q.y <= r.y && p.y <= y <= r.y
    ensures var s := SortedSpan(p, q, r, y);
            Min(p.x, Min(q.x, r.x)) <= s.lo <= s.hi <= Max(p.x, Max(q.x, r.x))
  {
    if p.y < r.y {
      EdgeAccuracy(p, r, y);
      if y < q.y || q.y == r.y {
        EdgeAccuracy(p, q, y);
      } else {
        EdgeAccuracy(q, r, y);
      }
    }
  }

  // ---- fillTriangle ----

  /** The differences and the middle vertex's span fit in int16, the last scanline can be stepped past, and the
      scanline above the middle vertex exists; for vertices ordered by y. */
  predicate SortedFits(p: Vertex, q: Vertex, r: Vertex)
    requires p.y <= q.y <= r.y
  {
    if p.y == r.y then Max(p.x, Max(q.x, r.x)) - Min(p.x, Min(q.x, r.x)) < 0x7FFF
    else
      && Abs(p.x - q.x) < 0x8000 && Abs(q.x - r.x) < 0x8000 && Abs(p.x - r.x) < 0x8000 && r.y - p.y < 0x8000
      && r.y < 0x7FFF && -0x8000 < q.y && Abs(q.x - EdgeX(p, r, q.y)) < 0x7FFF
  }

  predicate TriangleFits(p: Vertex, q: Vertex, r: Vertex) {
    var (a, b, c) := SortByY(p, q, r);
    SortedFits(a, b, c)
  }

  /** Before its end an edge is either still at its start or strictly between its ends. */
  lemma EdgeStrict(p: Vertex, q: Vertex, y: int)
    requires p.y < q.y && p.y <= y < q.y
    ensures EdgeX(p, q, y) == p.x || Min(p.x, q.x) < EdgeX(p, q, y) < Max(p.x, q.x)
  {
    EdgeAccuracy(p, q, y);
    if q.x != p.x {
      TruncStrict(q.x - p.x, y - p.y, q.y - p.y);
    }
  }

  lemma TruncStrict(n: int, t: nat, d: int)
    requires t < d && n != 0
    ensures TruncDiv(n * t, d) != n
  {
    MulStep(t, d, Abs(n));
    assert t * Abs(n) == Abs(n) * t && d * Abs(n) == Abs(n) * d;
    assert n < 0 ==> n * t == -(Abs(n) * t) && n * d == -(Abs(n) * d);
  }

  /** An edge that is still at its start was there on the scanlines before. */
  lemma EdgeStart(p: Vertex, q: Vertex, y: int, y': int)
    requires p.y < q.y && p.y <= y' <= y <= q.y && EdgeX(p, q, y) == p.x
    ensures EdgeX(p, q, y') == p.x
  {
    var n, t, t', d := q.x - p.x, y - p.y, y' - p.y, q.y - p.y;
    MulStep(t', t, Abs(n));
    assert t * n == n * t && t' * n == n * t';
    MulPositive(Abs(n), t');
    assert Abs(n) == n || Abs(n) == -n;
    if n >= 0 {
      DivUnique(n * t', d, 0);
    } else {
      assert t' * -n == -(n * t') && t * -n == -(n * t);
      DivUnique(-(n * t'), d, 0);
    }
  }

  ghost predicate SpansFit(p: Vertex, q: Vertex, r: Vertex)
    requires p.y <= q.y <= r.y
  {
    forall y :: p.y <= y <= r.y ==> SortedSpan(p, q, r, y).hi - SortedSpan(p, q, r, y).lo < 0x7FFF
  }

  /** The length of every span fits in int16 exactly if that of the middle vertex's does. */
  lemma MiddleSpanDecides(p: Vertex, q: Vertex, r: Vertex)
    requires p.y <= q.y <= r.y && p.y < r.y
    requires Abs(p.x - q.x) < 0x8000 && Abs(q.x - r.x) < 0x8000 && Abs(p.x - r.x) < 0x8000
    ensures SpansFit(p, q, r) <==> Abs(q.x - EdgeX(p, r, q.y)) < 0x7FFF
  {
    MiddleSpan(p, q, r);
    if Abs(q.x - EdgeX(p, r, q.y)) < 0x7FFF {
      forall y | p.y <= y <= r.y ensures SortedSpan(p, q, r, y).hi - SortedSpan(p, q, r, y).lo < 0x7FFF {
        SpanFits(p, q, r, y);
      }
    }
  }

  lemma MiddleSpan(p: Vertex, q: Vertex, r: Vertex)
    requires p.y <= q.y <= r.y && p.y < r.y
    ensures SortedSpan(p, q, r, q.y) == SpanOf(q.x, EdgeX(p, r, q.y))
  {
    if q.y == r.y {
      EdgeEnds(p, q);
    } else {
      EdgeEnds(q, r);
    }
  }

  lemma SpanFits(p: Vertex, q: Vertex, r: Vertex, y: int)
    requires p.y <= q.y <= r.y && p.y < r.y && p.y <= y <= r.y
    requires Abs(p.x - q.x) < 0x8000 && Abs(q.x - r.x) < 0x8000 && Abs(p.x - r.x) < 0x8000
    requires Abs(q.x - EdgeX(p, r, q.y)) < 0x7FFF
    ensures SortedSpan(p, q, r, y).hi - SortedSpan(p, q, r, y).lo < 0x7FFF
  {
    SpanInside(p, q, r, y);
    if y == r.y {
      EdgeEnds(p, r);
      if q.y < r.y {
        EdgeEnds(q, r);
      } else {
        EdgeEnds(p, q);
      }
    } else {
      EdgeStrict(p, r, y);
      if y < q.y {
        EdgeStrict(p, q, y);
      } else {
        EdgeStrict(q, r, y);
        if EdgeX(p, r, y) == p.x {
          EdgeStart(p, r, y, q.y);
        }
      }
    }
  }

  /** One horizontal run for each scanline from top to bottom. */
  predicate Rows(calls: seq<Call>, p: Vertex, q: Vertex, r: Vertex, color: uint16)
    requires p.y <= q.y <= r.y
  {
    && |calls| <= r.y - p.y + 1
    && forall k :: 0 <= k < |calls| ==>
         var s := SortedSpan(p, q, r, p.y + k);
         calls[k].HLine? && calls[k].y == p.y + k && calls[k].color == color &&
         calls[k].x == s.lo && calls[k].len == s.hi - s.lo + 1
  }

  /** An edge being followed down the scanlines: its numerator is the slope's numerator times the rows walked. */
  predicate Following(p: Vertex, q: Vertex, y: int, s: int) {
    s == (q.x - p.x) * (y - p.y)
  }

  lemma FollowStep(p: Vertex, q: Vertex, y: int, s: int)
    requires Following(p, q, y, s)
    ensures Following(p, q, y + 1, s + (q.x - p.x))
  {
  }

  lemma FollowRange(p: Vertex, q: Vertex, y: int, s: int)
    requires Following(p, q, y, s) && 0 <= y - p.y <= 0x8000 && Abs(q.x - p.x) < 0x8000
    ensures -0x4000_0000 <= s <= 0x4000_0000
  {
    var n, t := q.x - p.x, y - p.y;
    MulStep(n, 0x8000, t);
    MulStep(-n, 0x8000, t);
  }

  /** The crossing of one edge with scanline y, and the edge's numerator for the next scanline. */
  method Follow(x: int16, s: int32, dx: int16, dy: int16, ghost p: Vertex, ghost q: Vertex, ghost y: int)
    returns (crossing: int16, s': int32)
    requires p.y < q.y && p.y <= y <= q.y && Abs(q.x - p.x) < 0x8000 && q.y - p.y < 0x8000
    requires x == p.x && dx == q.x - p.x && dy == q.y - p.y && Following(p, q, y, s)
    ensures crossing == EdgeX(p, q, y) && Following(p, q, y + 1, s')
  {
    EdgeAccuracy(p, q, y);
    FollowStep(p, q, y, s);
    FollowRange(p, q, y, s);
    crossing := x + TruncDiv(s, dy);
    s' := s + dx;
  }

  /** The run that the loop body writes for its two crossings. */
  method WriteSpan(calls: seq<Call>, a: int16, b: int16, y: int16, color: uint16,
                   ghost p: Vertex, ghost q: Vertex, ghost r: Vertex) returns (calls': seq<Call>)
    requires p.y <= q.y <= r.y && p.y < r.y && SortedFits(p, q, r) && p.y <= y <= r.y
    requires Rows(calls, p, q, r, color) && |calls| == y - p.y
    requires SpanOf(a, b) == SortedSpan(p, q, r, y)
    ensures Rows(calls', p, q, r, color) && |calls'| == |calls| + 1
  {
    SpanFits(p, q, r, y);
    var a: int16, b: int16 := a, b;
    if a > b {
      a, b := b, a;
    }
    calls' := calls + [HLine(a, y, b - a + 1, color)];
  }

  /** One run per scanline, top to bottom; each pixel of the fill is painted once and nothing else. */
  method FillTriangle(p: Vertex, q: Vertex, r: Vertex, color: uint16) returns (calls: seq<Call>)
    requires TriangleFits(p, q, r)
    ensures var (a, b, c) := SortByY(p, q, r);
            Rows(calls, a, b, c, color) && |calls| == c.y - a.y + 1
    ensures Monochrome(calls, color) && AllPlayable(calls)
    ensures forall px, py :: Hits(calls, px, py) == Once(InFill(p, q, r, px, py))
  {
    ghost var sorted := SortByY(p, q, r);
    var x0: int16, y0: int16, x1: int16, y1: int16, x2: int16, y2: int16 := p.x, p.y, q.x, q.y, r.x, r.y;
    if y0 > y1 {
      y0, y1 := y1, y0;
      x0, x1 := x1, x0;
    }
    if y1 > y2 {
      y2, y1 := y1, y2;
      x2, x1 := x1, x2;
    }
    if y0 > y1 {
      y0, y1 := y1, y0;
      x0, x1 := x1, x0;
    }
    assert (Vertex(x0, y0), Vertex(x1, y1), Vertex(x2, y2)) == sorted;
    if y0 == y2 {
      calls := FillFlat(x0, x1, x2, y0, color);
    } else {
      calls := FillSorted(x0, y0, x1, y1, x2, y2, color);
    }
    RowsPaint(calls, p, q, r, color);
  }

  lemma RowsPaint(calls: seq<Call>, p: Vertex, q: Vertex, r: Vertex, color: uint16)
    requires var (a, b, c) := SortByY(p, q, r);
             Rows(calls, a, b, c, color) && |calls| == c.y - a.y + 1
    ensures Monochrome(calls, color) && AllPlayable(calls)
    ensures forall px, py :: Hits(calls, px, py) == Once(InFill(p, q, r, px, py))
  {
    var (a, b, c) := SortByY(p, q, r);
    forall k | 0 <= k < |calls| ensures Playable(calls[k]) {
      SpanInside(a, b, c, a.y + k);
    }
    forall px, py ensures Hits(calls, px, py) == Once(InFill(p, q, r, px, py)) {
      RowsHit(calls, p, q, r, color, px, py);
    }
  }

  lemma RowsHit(calls: seq<Call>, p: Vertex, q: Vertex, r: Vertex, color: uint16, px: int, py: int)
    requires var (a, b, c) := SortByY(p, q, r);
             Rows(calls, a, b, c, color) && |calls| == c.y - a.y + 1
    ensures Hits(calls, px, py) == Once(InFill(p, q, r, px, py))
  {
    var (a, b, c) := SortByY(p, q, r);
    SortedRowsHit(calls, a, b, c, color, px, py);
  }

  lemma SortedRowsHit(calls: seq<Call>, p: Vertex, q: Vertex, r: Vertex, color: uint16, px: int, py: int)
    requires p.y <= q.y <= r.y && Rows(calls, p, q, r, color) && |calls| == r.y - p.y + 1
    ensures Hits(calls, px, py) ==
            Once(p.y <= py <= r.y && SortedSpan(p, q, r, py).lo <= px <= SortedSpan(p, q, r, py).hi)
  {
    var spans := RowSpans(p, q, r);
    RowsAreSpans(calls, p, q, r, color);
    SpansHit(calls, spans, p.y, px, py);
    if 0 <= py - p.y < |calls| {
      assert spans[py - p.y] == SortedSpan(p, q, r, p.y + (py - p.y));
    }
  }

  /** The spans from top to bottom. */
  function RowSpans(p: Vertex, q: Vertex, r: Vertex): (spans: seq<Span>)
    requires p.y <= q.y <= r.y
    ensures |spans| == r.y - p.y + 1
    ensures forall k :: 0 <= k < |spans| ==> spans[k] == SortedSpan(p, q, r, p.y + k)
  {
    seq(r.y - p.y + 1, k requires 0 <= k < r.y - p.y + 1 => SortedSpan(p, q, r, p.y + k))
  }

  lemma RowsAreSpans(calls: seq<Call>, p: Vertex, q: Vertex, r: Vertex, color: uint16)
    requires p.y <= q.y <= r.y && Rows(calls, p, q, r, color) && |calls| == r.y - p.y + 1
    ensures SpanCalls(calls, RowSpans(p, q, r), p.y)
  {
    var spans := RowSpans(p, q, r);
    forall k | 0 <= k < |calls| ensures SpanCall(calls[k], spans[k], p.y + k) {
      SpanOrdered(p, q, r, p.y + k);
    }
  }

  lemma SpanOrdered(p: Vertex, q: Vertex, r: Vertex, y: int)
    requires p.y <= q.y <= r.y && p.y <= y <= r.y
    ensures SortedSpan(p, q, r, y).lo <= SortedSpan(p, q, r, y).hi
  {
  }

  predicate SpanCall(c: Call, s: Span, y: int) {
    c.HLine? && c.y == y && c.x == s.lo && c.len == s.hi - s.lo + 1 && s.lo <= s.hi
  }

  predicate SpanCalls(calls: seq<Call>, spans: seq<Span>, top: int) {
    |spans| == |calls| && forall k :: 0 <= k < |calls| ==> SpanCall(calls[k], spans[k], top + k)
  }

  /** One run per scanline from `top` down. */
  lemma SpansHit(calls: seq<Call>, spans: seq<Span>, top: int, px: int, py: int)
    requires SpanCalls(calls, spans, top)
    ensures Hits(calls, px, py) ==
            Once(0 <= py - top < |calls| && spans[py - top].lo <= px <= spans[py - top].hi)
  {
    if 0 <= py - top < |calls| && spans[py - top].lo <= px <= spans[py - top].hi {
      HitsOnce(calls, py - top, px, py);
    } else {
      HitsNone(calls, px, py);
    }
  }

  /** All vertices on scanline y. */
  method FillFlat(x0: int16, x1: int16, x2: int16, y: int16, color: uint16) returns (calls: seq<Call>)
    requires SortedFits(Vertex(x0, y), Vertex(x1, y), Vertex(x2, y))
    ensures Rows(calls, Vertex(x0, y), Vertex(x1, y), Vertex(x2, y), color) && |calls| == 1
  {
    var a: int16, b: int16 := x0, x0;
    if x1 < a {
      a := x1;
    } else if x1 > b {
      b := x1;
    }
    if x2 < a {
      a := x2;
    } else if x2 > b {
      b := x2;
    }
    calls := [HLine(a, y, b - a + 1, color)];
  }

  /** The upper and the lower part, for vertices ordered by y that are not all on one scanline.  The middle
      scanline belongs to the upper part only if there is no lower one. */
  method FillSorted(x0: int16, y0: int16, x1: int16, y1: int16, x2: int16, y2: int16, color: uint16)
    returns (calls: seq<Call>)
    requires y0 <= y1 <= y2 && y0 < y2 && SortedFits(Vertex(x0, y0), Vertex(x1, y1), Vertex(x2, y2))
    ensures Rows(calls, Vertex(x0, y0), Vertex(x1, y1), Vertex(x2, y2), color) && |calls| == y2 - y0 + 1
  {
    ghost var p, q, r := Vertex(x0, y0), Vertex(x1, y1), Vertex(x2, y2);
    var dx01: int16 := x1 - x0;
    var dy01: int16 := y1 - y0;
    var dx02: int16 := x2 - x0;
    var dy02: int16 := y2 - y0;
    var dx12: int16 := x2 - x1;
    var dy12: int16 := y2 - y1;
    var last: int16 := if y1 == y2 then y1 else y1 - 1;
    calls := [];
    if y0 <= last {
      calls := Scan(calls, x0, dx01, dy01, 0, x0, dx02, dy02, 0, y0, last, color, true, p, q, r);
    }
    var y: int16 := last + 1;
    if y <= y2 {
      calls := Scan(calls, x1, dx12, dy12, dx12 * (y - y1), x0, dx02, dy02, dx02 * (y - y0), y, y2, color, false, p, q, r);
    }
  }

  function SideEdge(upper: bool, p: Vertex, q: Vertex, r: Vertex): (Vertex, Vertex) {
    if upper then (p, q) else (q, r)
  }

  /** A scan loop: scanlines y to last between the edge from (xa, ..) with numerator sa, and the edge from (xb, ..)
      with numerator sb.  The first is the upper or the lower short edge, the second the long one from p to r. */
  method Scan(calls: seq<Call>, xa: int16, dxa: int16, dya: int16, sa: int, xb: int16, dxb: int16, dyb: int16, sb: int,
              y: int16, last: int16, color: uint16,
              ghost upper: bool, ghost p: Vertex, ghost q: Vertex, ghost r: Vertex)
    returns (calls': seq<Call>)
    requires p.y <= q.y <= r.y && p.y < r.y && SortedFits(p, q, r)
    requires if upper then p.y < q.y && (last < q.y || q.y == r.y) else q.y < r.y
    requires var (e, e') := SideEdge(upper, p, q, r);
             && xa == e.x && dxa == e'.x - e.x && dya == e'.y - e.y
             && e.y <= y <= last <= e'.y && Following(e, e', y, sa)
    requires xb == p.x && dxb == r.x - p.x && dyb == r.y - p.y && Following(p, r, y, sb)
    requires Rows(calls, p, q, r, color) && |calls| == y - p.y
    ensures Rows(calls', p, q, r, color) && |calls'| == last + 1 - p.y
  {
    ghost var (e, e') := SideEdge(upper, p, q, r);
    FollowRange(e, e', y, sa);
    FollowRange(p, r, y, sb);
    var y: int16, sa: int32, sb: int32 := y, sa, sb;
    calls' := calls;
    while y <= last
      invariant e.y <= y <= last + 1
      invariant Following(e, e', y, sa) && Following(p, r, y, sb)
      invariant Rows(calls', p, q, r, color) && |calls'| == y - p.y
      decreases last - y
    {
      var a, b;
      a, sa := Follow(xa, sa, dxa, dya, e, e', y);
      b, sb := Follow(xb, sb, dxb, dyb, p, r, y);
      calls' := WriteSpan(calls', a, b, y, color, p, q, r);
      y := y + 1;
    }
  }

  // ---- What the fill is ----

  /** The order in which the vertices are given does not matter: two exchanges generate all six orders. */
  lemma VertexOrder(p: Vertex, q: Vertex, r: Vertex, px: int, py: int)
    ensures InFill(p, q, r, px, py) == InFill(q, p, r, px, py) == InFill(p, r, q, px, py)
         == InFill(q, r, p, px, py) == InFill(r, p, q, px, py) == InFill(r, q, p, px, py)
  {
    FirstTwoExchanged(p, q, r, px, py);
    LastTwoExchanged(p, q, r, px, py);
    LastTwoExchanged(q, p, r, px, py);
    FirstTwoExchanged(p, r, q, px, py);
    FirstTwoExchanged(q, r, p, px, py);
  }

  lemma FirstTwoExchanged(p: Vertex, q: Vertex, r: Vertex, px: int, py: int)
    ensures InFill(p, q, r, px, py) == InFill(q, p, r, px, py)
  {
  }

  lemma LastTwoExchanged(p: Vertex, q: Vertex, r: Vertex, px: int, py: int)
    ensures InFill(p, q, r, px, py) == InFill(p, r, q, px, py)
  {
  }

  /** Nor does it matter for what `fillTriangle` can take. */
  lemma FitsInAnyOrder(p: Vertex, q: Vertex, r: Vertex)
    ensures TriangleFits(p, q, r) == TriangleFits(q, p, r) == TriangleFits(p, r, q)
         == TriangleFits(q, r, p) == TriangleFits(r, p, q) == TriangleFits(r, q, p)
  {
    FirstTwoFit(p, q, r);
    LastTwoFit(p, q, r);
    LastTwoFit(q, p, r);
    FirstTwoFit(p, r, q);
    FirstTwoFit(q, r, p);
  }

  lemma FirstTwoFit(p: Vertex, q: Vertex, r: Vertex)
    ensures TriangleFits(p, q, r) == TriangleFits(q, p, r)
  {
    if p.y == q.y {
      TieFits(p, q, r);
    }
  }

  lemma LastTwoFit(p: Vertex, q: Vertex, r: Vertex)
    ensures TriangleFits(p, q, r) == TriangleFits(p, r, q)
  {
    if q.y == r.y {
      TieFits(q, r, p);
    }
  }

  /** Two vertices on the upper scanline, or both on the lower one, can be exchanged. */
  lemma TieFits(p: Vertex, q: Vertex, r: Vertex)
    requires p.y == q.y
    ensures p.y <= r.y ==> SortedFits(p, q, r) == SortedFits(q, p, r)
    ensures r.y <= p.y ==> SortedFits(r, p, q) == SortedFits(r, q, p)
  {
    if p.y < r.y {
      EdgeEnds(p, r);
      EdgeEnds(q, r);
    } else if r.y < p.y {
      EdgeEnds(r, p);
      EdgeEnds(r, q);
    }
  }

  /** Which side of the line through p and q the point (x, y) is on. */
  function Side(p: Vertex, q: Vertex, x: int, y: int): int {
    (q.x - p.x) * (y - p.y) - (q.y - p.y) * (x - p.x)
  }

  predicate InBox(p: Vertex, q: Vertex, r: Vertex, x: int, y: int) {
    && Min(p.x, Min(q.x, r.x)) <= x <= Max(p.x, Max(q.x, r.x))
    && Min(p.y, Min(q.y, r.y)) <= y <= Max(p.y, Max(q.y, r.y))
  }

  /** The closed triangle, degenerate ones included: in the bounding box, and on one side of all three edges. */
  predicate InTriangle(p: Vertex, q: Vertex, r: Vertex, x: int, y: int) {
    && InBox(p, q, r, x, y)
    && ((Side(p, q, x, y) >= 0 && Side(q, r, x, y) >= 0 && Side(r, p, x, y) >= 0)
        || (Side(p, q, x, y) <= 0 && Side(q, r, x, y) <= 0 && Side(r, p, x, y) <= 0))
  }

  /** An integer point on one side of the exact edge is on that side of the truncated crossing. */
  lemma SideOfCrossing(p: Vertex, q: Vertex, x: int, y: int)
    requires p.y < q.y && p.y <= y <= q.y
    ensures Side(p, q, x, y) >= 0 ==> x <= EdgeX(p, q, y)
    ensures Side(p, q, x, y) <= 0 ==> x >= EdgeX(p, q, y)
  {
    TruncBound((q.x - p.x) * (y - p.y), q.y - p.y, x - p.x);
  }

  lemma TruncBound(n: int, d: int, u: int)
    requires d > 0
    ensures d * u <= n ==> u <= TruncDiv(n, d)
    ensures d * u >= n ==> u >= TruncDiv(n, d)
  {
    var c := TruncDiv(n, d);
    MulStep(c, u, d);
    MulStep(u, c, d);
    assert d * u == u * d;
  }

  lemma SideReversed(p: Vertex, q: Vertex, x: int, y: int)
    ensures Side(q, p, x, y) == -Side(p, q, x, y)
  {
  }

  lemma SortedFillsTriangle(p: Vertex, q: Vertex, r: Vertex, x: int, y: int)
    requires p.y <= q.y <= r.y && InTriangle(p, q, r, x, y)
    ensures SortedSpan(p, q, r, y).lo <= x <= SortedSpan(p, q, r, y).hi
  {
    SideReversed(p, r, x, y);
    if p.y < r.y {
      SideOfCrossing(p, r, x, y);
      if y < q.y || q.y == r.y {
        SideOfCrossing(p, q, x, y);
      } else {
        SideOfCrossing(q, r, x, y);
      }
    }
  }

  lemma InTriangleSorted(p: Vertex, q: Vertex, r: Vertex, x: int, y: int)
    ensures var (a, b, c) := SortByY(p, q, r);
            InTriangle(p, q, r, x, y) == InTriangle(a, b, c, x, y)
  {
    SideReversed(p, q, x, y);
    SideReversed(q, r, x, y);
    SideReversed(r, p, x, y);
  }

  /** Every lattice point of the closed triangle is painted. */
  lemma FillCoversTriangle(p: Vertex, q: Vertex, r: Vertex, x: int, y: int)
    requires InTriangle(p, q, r, x, y)
    ensures InFill(p, q, r, x, y)
  {
    InTriangleSorted(p, q, r, x, y);
    var (a, b, c) := SortByY(p, q, r);
    SortedFillsTriangle(a, b, c, x, y);
  }

  /** Nothing is painted a pixel or more away from the triangle's scanline: one step to the right of a painted
      pixel is past one of the two edges, and so is one step to the left. */
  lemma FillNearTriangle(upper: bool, p: Vertex, q: Vertex, r: Vertex, x: int, y: int)
    requires p.y <= q.y <= r.y && p.y <= y <= r.y && p.y < r.y
    requires upper <==> y < q.y || q.y == r.y
    requires SortedSpan(p, q, r, y).lo <= x <= SortedSpan(p, q, r, y).hi
    ensures var (e, e') := SideEdge(upper, p, q, r);
            && (Side(e, e', x + 1, y) < 0 || Side(p, r, x + 1, y) < 0)
            && (Side(e, e', x - 1, y) > 0 || Side(p, r, x - 1, y) > 0)
  {
    var (e, e') := SideEdge(upper, p, q, r);
    CrossingNeighbours(e, e', x, y);
    CrossingNeighbours(p, r, x, y);
  }

  lemma CrossingNeighbours(p: Vertex, q: Vertex, x: int, y: int)
    requires p.y < q.y && p.y <= y <= q.y
    ensures x <= EdgeX(p, q, y) ==> Side(p, q, x - 1, y) > 0
    ensures x >= EdgeX(p, q, y) ==> Side(p, q, x + 1, y) < 0
  {
    TruncNeighbours((q.x - p.x) * (y - p.y), q.y - p.y, x - p.x);
  }

  lemma TruncNeighbours(n: int, d: int, u: int)
    requires d > 0
    ensures u <= TruncDiv(n, d) ==> n - d * (u - 1) > 0
    ensures u >= TruncDiv(n, d) ==> n - d * (u + 1) < 0
  {
    var c := TruncDiv(n, d);
    MulStep(u - 1, c, d);
    MulStep(c, u + 1, d);
    assert d * (u - 1) == (u - 1) * d && d * (u + 1) == (u + 1) * d;
  }

  /** Nothing is painted outside the triangle's bounding box. */
  lemma FillInBox(p: Vertex, q: Vertex, r: Vertex, x: int, y: int)
    requires InFill(p, q, r, x, y)
    ensures InBox(p, q, r, x, y)
  {
    var (a, b, c) := SortByY(p, q, r);
    SpanInside(a, b, c, y);
  }

  /** The three vertices are painted. */
  lemma FillCoversVertices(p: Vertex, q: Vertex, r: Vertex)
    ensures InFill(p, q, r, p.x, p.y) && InFill(p, q, r, q.x, q.y) && InFill(p, q, r, r.x, r.y)
  {
    FirstVertex(p, q, r);
    FirstVertex(q, p, r);
    FirstVertex(r, p, q);
    VertexOrder(p, q, r, q.x, q.y);
    VertexOrder(p, q, r, r.x, r.y);
  }

  lemma FirstVertex(p: Vertex, q: Vertex, r: Vertex)
    ensures InFill(p, q, r, p.x, p.y)
  {
    assert Side(p, q, p.x, p.y) == 0 && Side(r, p, p.x, p.y) == 0;
    FillCoversTriangle(p, q, r, p.x, p.y);
  }
}
