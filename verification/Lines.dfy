/** Straight lines and rectangles of the base class: `writeLine` (Bresenham), `drawLine`, the base
    `drawFastVLine`/`drawFastHLine`, `fillRect`. */
module Lines {
  import opened Machine
  import opened Raster

  // ---- The ideal line ----

  /** A line walked along its major axis: du steps from (u, v), during which the minor coordinate moves dv <= du
      towards `step`.  A steep line has its axes exchanged. */
  datatype Walk = Walk(steep: bool, u: int, v: int, du: nat, dv: nat, step: int)

  /** The walk from the end with the smaller major coordinate. */
  function Normalize(x0: int, y0: int, x1: int, y1: int): Walk {
    var steep := Abs(y1 - y0) > Abs(x1 - x0);
    var (u0, v0, u1, v1) := if steep then (y0, x0, y1, x1) else (x0, y0, x1, y1);
    if u0 <= u1 then Walk(steep, u0, v0, u1 - u0, Abs(v1 - v0), if v0 < v1 then 1 else -1)
    else Walk(steep, u1, v1, u0 - u1, Abs(v1 - v0), if v1 < v0 then 1 else -1)
  }

  /** m is k * dv / du rounded to the nearest integer, halves down: the minor offset m after k major steps is
      within half a pixel of the exact line. */
  predicate NearestOffset(du: nat, dv: nat, k: nat, m: int) {
    if du == 0 then m == 0 else 0 <= 2 * (m * du - k * dv) + du < 2 * du
  }

  lemma OffsetExists(du: nat, dv: nat, k: nat)
    ensures exists m :: NearestOffset(du, dv, k, m)
  {
    MulPositive(k, dv);
    assert NearestOffset(du, dv, k, if du == 0 then 0 else (k * dv + (du - 1) / 2) / du);
  }

  lemma OffsetUnique(du: nat, dv: nat, k: nat, m: int, m': int)
    requires NearestOffset(du, dv, k, m) && NearestOffset(du, dv, k, m')
    ensures m == m'
  {
    if du > 0 {
      MulStep(m, m', du);
      MulStep(m', m, du);
    }
  }

  /** The minor offset after k of du steps. */
  ghost function Minor(du: nat, dv: nat, k: nat): (m: int)
    ensures NearestOffset(du, dv, k, m)
  {
    OffsetExists(du, dv, k);
    var m :| NearestOffset(du, dv, k, m);
    m
  }

  ghost function MinorAt(w: Walk, k: nat): int {
    if w.step > 0 then w.v + Minor(w.du, w.dv, k) else w.v - Minor(w.du, w.dv, k)
  }

  ghost function PointAt(w: Walk, k: nat): (int, int) {
    var u := w.u + k;
    var v := MinorAt(w, k);
    if w.steep then (v, u) else (u, v)
  }

  ghost predicate OnLine(w: Walk, px: int, py: int) {
    exists k: nat :: k <= w.du && PointAt(w, k) == (px, py)
  }

  lemma MinorIs(du: nat, dv: nat, k: nat, m: int)
    requires NearestOffset(du, dv, k, m)
    ensures Minor(du, dv, k) == m
  {
    OffsetUnique(du, dv, k, m, Minor(du, dv, k));
  }

  lemma MinorEnds(du: nat, dv: nat)
    requires dv <= du
    ensures Minor(du, dv, 0) == 0 && Minor(du, dv, du) == dv
  {
    MinorIs(du, dv, 0, 0);
    assert dv * du - du * dv == 0;
    MinorIs(du, dv, du, dv);
  }

  /** One step along the major axis moves the minor coordinate by nothing or by one. */
  lemma MinorStep(du: nat, dv: nat, k: nat)
    requires dv <= du
    ensures Minor(du, dv, k) <= Minor(du, dv, k + 1) <= Minor(du, dv, k) + 1
  {
    var m := Minor(du, dv, k);
    MulNext(k, dv);
    MulNext(m, du);
    MinorIs(du, dv, k + 1, if 2 * (m * du - (k + 1) * dv) + du >= 0 then m else m + 1);
  }

  lemma MinorRange(du: nat, dv: nat, k: nat)
    requires dv <= du && k <= du
    ensures 0 <= Minor(du, dv, k) <= dv
  {
    OffsetRange(du, dv, k, Minor(du, dv, k));
  }

  lemma OffsetRange(du: nat, dv: nat, k: nat, m: int)
    requires dv <= du && k <= du && NearestOffset(du, dv, k, m)
    ensures 0 <= m <= dv
  {
    MulPositive(k, dv);
    MulStep(k, du, dv);
    MulStep(dv, m, du);
    MulStep(m, -1, du);
    assert du * dv == dv * du;
  }

  /** The walk starts and ends on the two endpoints. */
  lemma LineEnds(x0: int, y0: int, x1: int, y1: int)
    ensures var w := Normalize(x0, y0, x1, y1);
            {PointAt(w, 0), PointAt(w, w.du)} == {(x0, y0), (x1, y1)}
  {
    var w := Normalize(x0, y0, x1, y1);
    MinorEnds(w.du, w.dv);
  }

  /** Every pixel of the line is within half a pixel of the exact line, measured along the minor axis: in any
      octant and either direction. */
  lemma LineAccuracy(x0: int, y0: int, x1: int, y1: int, k: nat)
    ensures var (px, py) := PointAt(Normalize(x0, y0, x1, y1), k);
            2 * Abs((py - y0) * (x1 - x0) - (px - x0) * (y1 - y0)) <= Max(Abs(x1 - x0), Abs(y1 - y0))
  {
    var w := Normalize(x0, y0, x1, y1);
    var m := Minor(w.du, w.dv, k);
    var (px, py) := PointAt(w, k);
    var (u0, v0, u1, v1) := if w.steep then (y0, x0, y1, x1) else (x0, y0, x1, y1);
    var (u, v) := if w.steep then (py, px) else (px, py);
    CrossAlongWalk(u0, v0, u1, v1, u, v, w.du, w.dv, k, m);
  }

  /** The cross product of a walked point with the line's direction is the rounding error of its minor offset. */
  lemma CrossAlongWalk(u0: int, v0: int, u1: int, v1: int, u: int, v: int, du: nat, dv: nat, k: nat, m: int)
    requires du == Abs(u1 - u0) && dv == Abs(v1 - v0) && NearestOffset(du, dv, k, m) && (du == 0 ==> dv == 0)
    requires if u0 <= u1 then u == u0 + k && v == if v0 < v1 then v0 + m else v0 - m
             else u == u1 + k && v == if v1 < v0 then v1 + m else v1 - m
    ensures 2 * Abs((v - v0) * (u1 - u0) - (u - u0) * (v1 - v0)) <= du
  {
    var e := m * du - k * dv;
    assert (v - v0) * (u1 - u0) - (u - u0) * (v1 - v0) == e || (v - v0) * (u1 - u0) - (u - u0) * (v1 - v0) == -e;
  }

  /** A line drawn backwards is the same line, pixel for pixel and in the same order. */
  lemma LineReversed(x0: int, y0: int, x1: int, y1: int)
    ensures Normalize(x1, y1, x0, y0) == Normalize(x0, y0, x1, y1)
  {
  }

  /** Consecutive pixels of a line touch, at least diagonally. */
  lemma LineConnected(x0: int, y0: int, x1: int, y1: int, k: nat)
    requires k < Normalize(x0, y0, x1, y1).du
    ensures var w := Normalize(x0, y0, x1, y1);
            var (px, py), (qx, qy) := PointAt(w, k), PointAt(w, k + 1);
            Max(Abs(qx - px), Abs(qy - py)) == 1
  {
    var w := Normalize(x0, y0, x1, y1);
    MinorStep(w.du, w.dv, k);
  }

  // ---- writeLine ----

  /** What keeps the int16 locals of `writeLine` exact and its loop finite: the differences fit, and the
      larger major coordinate can be stepped past. */
  predicate LineFits(x0: int16, y0: int16, x1: int16, y1: int16) {
    && Abs(x1 - x0) < 0x8000 && Abs(y1 - y0) < 0x8000
    && if Abs(y1 - y0) > Abs(x1 - x0) then Max(y0, y1) < 0x7FFF else Max(x0, x1) < 0x7FFF
  }

  /** The error term after k major steps: half of du, minus k * dv, plus du for every minor step. */
  ghost predicate ErrorTerm(du: nat, dv: nat, k: nat, err: int) {
    && err == du / 2 - k * dv + Minor(du, dv, k) * du
    && 0 <= err < Max(du, 1)
  }

  /** One iteration: subtracting dv and adding du on a borrow keeps the minor offset the nearest one. */
  lemma ErrorStep(du: nat, dv: nat, k: nat, err: int)
    requires dv <= du && ErrorTerm(du, dv, k, err)
    ensures ErrorTerm(du, dv, k + 1, if err - dv < 0 then err - dv + du else err - dv)
    ensures Minor(du, dv, k + 1) == Minor(du, dv, k) + if err - dv < 0 then 1 else 0
  {
    var m := Minor(du, dv, k);
    MulNext(k, dv);
    MulNext(m, du);
    MinorIs(du, dv, k + 1, if err - dv < 0 then m + 1 else m);
  }

  ghost predicate Traces(calls: seq<Call>, w: Walk, color: uint16) {
    && |calls| <= w.du + 1
    && forall k :: 0 <= k < |calls| ==>
         calls[k].Pixel? && (calls[k].x, calls[k].y) == PointAt(w, k) && calls[k].color == color
  }

  lemma TraceStep(calls: seq<Call>, w: Walk, color: uint16, c: Call)
    requires Traces(calls, w, color) && |calls| <= w.du
    requires c.Pixel? && (c.x, c.y) == PointAt(w, |calls|) && c.color == color
    ensures Traces(calls + [c], w, color)
  {
  }

  /** m is k * minor / major, rounded to the nearest integer with halves rounded down. */
  predicate RoundsTo(m: int, k: nat, major: nat, minor: nat) {
    if major == 0 then m == 0 else 0 - major <= 2 * (m * major - k * minor) < major
  }

  /** Pixel p is where the line from (u0, v0) to (u1, v1) is after k steps along u, the walk beginning at the end
      with the smaller u. */
  predicate RoundedPixel(u0: int, v0: int, u1: int, v1: int, k: nat, u: int, v: int) {
    var (us, vs, ve) := if u0 <= u1 then (u0, v0, v1) else (u1, v1, v0);
    u == us + k && RoundsTo(if vs < ve then v - vs else vs - v, k, Abs(u1 - u0), Abs(v1 - v0))
  }

  /** Each pixel is the exact line's, rounded along the minor axis; a half towards the end where the walk begins. */
  predicate RoundedLine(calls: seq<Call>, x0: int, y0: int, x1: int, y1: int) {
    forall k :: 0 <= k < |calls| ==>
      && calls[k].Pixel?
      && if Abs(y1 - y0) > Abs(x1 - x0) then RoundedPixel(y0, x0, y1, x1, k, calls[k].y, calls[k].x)
         else RoundedPixel(x0, y0, x1, y1, k, calls[k].x, calls[k].y)
  }

  lemma TracedIsRounded(calls: seq<Call>, x0: int, y0: int, x1: int, y1: int, color: uint16)
    requires Traces(calls, Normalize(x0, y0, x1, y1), color)
    ensures RoundedLine(calls, x0, y0, x1, y1)
  {
    var w := Normalize(x0, y0, x1, y1);
    forall k | 0 <= k < |calls|
      ensures RoundsTo(Minor(w.du, w.dv, k), k, w.du, w.dv) && (calls[k].x, calls[k].y) == PointAt(w, k)
    {
    }
  }

  method WriteLine(x0: int16, y0: int16, x1: int16, y1: int16, color: uint16) returns (calls: seq<Call>)
    requires LineFits(x0, y0, x1, y1)
    ensures |calls| == Max(Abs(x1 - x0), Abs(y1 - y0)) + 1
    ensures Traces(calls, Normalize(x0, y0, x1, y1), color)
    ensures RoundedLine(calls, x0, y0, x1, y1)
  {
    ghost var w := Normalize(x0, y0, x1, y1);
    ghost var from, to := (x0, y0), (x1, y1);
    var x0: int16, y0: int16, x1: int16, y1: int16 := x0, y0, x1, y1;
    var steep := Abs(y1 - y0) > Abs(x1 - x0);
    if steep {
      x0, y0 := y0, x0;
      x1, y1 := y1, x1;
    }
    if x0 > x1 {
      x0, x1 := x1, x0;
      y0, y1 := y1, y0;
    }
    calls := WriteWalk(steep, x0, y0, x1, y1, color, w);
    TracedIsRounded(calls, from.0, from.1, to.0, to.1, color);
  }

  /** The state of the loop after |calls| pixels. */
  ghost predicate WalkState(w: Walk, calls: seq<Call>, color: uint16, err: int, v: int) {
    && w.dv <= w.du && |calls| <= w.du + 1
    && ErrorTerm(w.du, w.dv, |calls|, err)
    && (|calls| <= w.du ==> v == MinorAt(w, |calls|))
    && Traces(calls, w, color)
  }

  /** The part of `writeLine` after its endpoints have been exchanged into walking order. */
  method WriteWalk(steep: bool, x0: int16, y0: int16, x1: int16, y1: int16, color: uint16, ghost w: Walk)
    returns (calls: seq<Call>)
    requires x0 <= x1 < 0x7FFF && Abs(y1 - y0) <= x1 - x0 < 0x8000
    requires w == Walk(steep, x0, y0, x1 - x0, Abs(y1 - y0), if y0 < y1 then 1 else -1)
    ensures |calls| == w.du + 1 && Traces(calls, w, color)
  {
    var x0: int16, y0: int16 := x0, y0;
    var dx: int16 := x1 - x0;
    var dy: int16 := Abs(y1 - y0);
    var err: int16 := dx / 2;
    var ystep: int := if y0 < y1 then 1 else -1;
    calls := [];
    MinorEnds(dx, dy);
    while x0 <= x1
      invariant x0 == w.u + |calls| && WalkState(w, calls, color, err, y0)
      decreases x1 - x0
    {
      calls, err, y0 := WritePoint(calls, steep, x0, y0, err, dx, dy, ystep, color, w);
      x0 := x0 + 1;
    }
  }

  /** The loop body: a pixel, then the error term. */
  method WritePoint(calls: seq<Call>, steep: bool, x0: int16, y0: int16, err: int16, dx: int16, dy: int16, ystep: int,
                    color: uint16, ghost w: Walk)
    returns (calls': seq<Call>, err': int16, y0': int16)
    requires x0 == w.u + |calls| && |calls| <= w.du && WalkState(w, calls, color, err, y0)
    requires w.steep == steep && w.du == dx && w.dv == dy && w.step == ystep && Abs(ystep) == 1
    requires -0x8000 <= w.v < 0x8000 && -0x8000 <= w.v + w.step * w.dv < 0x8000
    ensures |calls'| == |calls| + 1 && WalkState(w, calls', color, err', y0')
  {
    var c := if steep then Pixel(y0, x0, color) else Pixel(x0, y0, color);
    TraceStep(calls, w, color, c);
    calls' := calls + [c];
    err', y0' := NextError(err, y0, dx, dy, ystep, w, |calls|);
  }

  /** A borrow moves the minor coordinate one step, which on the line stays in int16. */
  lemma NextMinor(w: Walk, k: nat, err: int)
    requires w.dv <= w.du && Abs(w.step) == 1 && ErrorTerm(w.du, w.dv, k, err)
    requires -0x8000 <= w.v < 0x8000 && -0x8000 <= w.v + w.step * w.dv < 0x8000
    ensures MinorAt(w, k + 1) == MinorAt(w, k) + if err - w.dv < 0 then w.step else 0
    ensures k + 1 <= w.du ==> -0x8000 <= MinorAt(w, k + 1) < 0x8000
  {
    ErrorStep(w.du, w.dv, k, err);
    if k < w.du {
      MinorRange(w.du, w.dv, k + 1);
    }
  }

  /** The error term, and a minor step on a borrow.  The minor coordinate is stepped once more after the last
      pixel, where it may wrap. */
  method NextError(err: int16, y0: int16, dx: int16, dy: int16, ystep: int, ghost w: Walk, ghost k: nat)
    returns (err': int16, y0': int16)
    requires w.du == dx && w.dv == dy <= dx && w.step == ystep && Abs(ystep) == 1 && k <= dx
    requires -0x8000 <= w.v < 0x8000 && -0x8000 <= w.v + w.step * w.dv < 0x8000
    requires ErrorTerm(w.du, w.dv, k, err) && y0 == MinorAt(w, k)
    ensures ErrorTerm(w.du, w.dv, k + 1, err')
    ensures k + 1 <= w.du ==> y0' == MinorAt(w, k + 1)
  {
    ErrorStep(w.du, w.dv, k, err);
    NextMinor(w, k, err);
    err', y0' := err - dy, y0;
    if err' < 0 {
      y0' := ToInt16(y0' + ystep);
      err' := err' + dx;
    }
  }

  /** A traced line paints each of its pixels once and nothing else. */
  lemma LineHits(calls: seq<Call>, w: Walk, color: uint16, px: int, py: int)
    requires Traces(calls, w, color) && |calls| == w.du + 1
    ensures Hits(calls, px, py) == Once(OnLine(w, px, py))
  {
    if OnLine(w, px, py) {
      var k: nat :| k <= w.du && PointAt(w, k) == (px, py);
      HitsOnce(calls, k, px, py);
    } else {
      forall k | 0 <= k < |calls| ensures !Covers(calls[k], px, py) {
        assert PointAt(w, k) != (px, py);
      }
      HitsNone(calls, px, py);
    }
  }

  lemma LinePaint(calls: seq<Call>, w: Walk, color: uint16)
    requires Traces(calls, w, color) && |calls| == w.du + 1
    ensures Monochrome(calls, color)
    ensures forall px, py :: Hits(calls, px, py) == Once(OnLine(w, px, py))
  {
    forall px, py ensures Hits(calls, px, py) == Once(OnLine(w, px, py)) {
      LineHits(calls, w, color, px, py);
    }
  }

  /** A line along an axis is the run of pixels between its ends. */
  lemma AxisLine(x0: int, y0: int, x1: int, y1: int, px: int, py: int)
    requires x0 == x1 || y0 == y1
    ensures OnLine(Normalize(x0, y0, x1, y1), px, py) <==>
            Min(x0, x1) <= px <= Max(x0, x1) && Min(y0, y1) <= py <= Max(y0, y1)
  {
    var w := Normalize(x0, y0, x1, y1);
    forall k: nat | k <= w.du ensures Minor(w.du, w.dv, k) == 0 {
      MinorIs(w.du, 0, k, 0);
    }
    var k := if w.steep then py - w.u else px - w.u;
    if 0 <= k <= w.du {
      assert PointAt(w, k) == if w.steep then (w.v, py) else (px, w.v);
    }
  }

  /** One run call that covers the pixels between the ends of an axis-parallel line hits that line. */
  lemma AxisRun(x0: int, y0: int, x1: int, y1: int, c: Call)
    requires x0 == x1 || y0 == y1
    requires forall px, py :: Covers(c, px, py) <==> Min(x0, x1) <= px <= Max(x0, x1) && Min(y0, y1) <= py <= Max(y0, y1)
    ensures forall px, py :: Hits([c], px, py) == Once(OnLine(Normalize(x0, y0, x1, y1), px, py))
  {
    forall px, py ensures Hits([c], px, py) == Once(OnLine(Normalize(x0, y0, x1, y1), px, py)) {
      AxisLine(x0, y0, x1, y1, px, py);
      HitsSnoc([], c, px, py);
      assert [] + [c] == [c];
    }
  }

  // ---- drawLine ----

  /** A run drawn by a fast line has to have an int16 length; any other line goes to `writeLine`. */
  predicate DrawLineFits(x0: int16, y0: int16, x1: int16, y1: int16) {
    if x0 == x1 then Abs(y1 - y0) < 0x7FFF
    else if y0 == y1 then Abs(x1 - x0) < 0x7FFF
    else LineFits(x0, y0, x1, y1)
  }

  /** Vertical and horizontal lines go to the fast primitives, yet paint just what `WriteLine` would. */
  method DrawLine(x0: int16, y0: int16, x1: int16, y1: int16, color: uint16) returns (calls: seq<Call>)
    requires DrawLineFits(x0, y0, x1, y1)
    ensures Monochrome(calls, color) && AllPlayable(calls)
    ensures forall px, py :: Hits(calls, px, py) == Once(OnLine(Normalize(x0, y0, x1, y1), px, py))
    ensures (x0 == x1 || y0 == y1) <==> |calls| == 1 && !calls[0].Pixel?
  {
    if x0 == x1 {
      AxisRun(x0, y0, x1, y1, VLine(x0, Min(y0, y1), Abs(y1 - y0) + 1, color));
    } else if y0 == y1 {
      AxisRun(x0, y0, x1, y1, HLine(Min(x0, x1), y0, Abs(x1 - x0) + 1, color));
    }
    var x0: int16, y0: int16, x1: int16, y1: int16 := x0, y0, x1, y1;
    if x0 == x1 {
      if y0 > y1 {
        y0, y1 := y1, y0;
      }
      calls := [VLine(x0, y0, y1 - y0 + 1, color)];
    } else if y0 == y1 {
      if x0 > x1 {
        x0, x1 := x1, x0;
      }
      calls := [HLine(x0, y0, x1 - x0 + 1, color)];
    } else {
      calls := WriteLine(x0, y0, x1, y1, color);
      LinePaint(calls, Normalize(x0, y0, x1, y1), color);
    }
  }

  // ---- The base-class fast lines ----

  /** `Adafruit_GFX::drawFastVLine`: used by a display that overrides only `drawPixel`. */
  method BaseDrawFastVLine(x: int16, y: int16, h: int16, color: uint16) returns (calls: seq<Call>)
    requires -0x8000 <= y + h - 1 < 0x8000 && LineFits(x, y, x, y + h - 1)
    ensures forall k :: 0 <= k < |calls| ==> calls[k].Pixel?
    ensures Monochrome(calls, color)
    ensures forall px, py :: Hits(calls, px, py) == Once(BaseVLineCovers(x, y, h, px, py))
  {
    calls := WriteLine(x, y, x, y + h - 1, color);
    LinePaint(calls, Normalize(x, y, x, y + h - 1), color);
    forall px, py ensures OnLine(Normalize(x, y, x, y + h - 1), px, py) <==> BaseVLineCovers(x, y, h, px, py) {
      AxisLine(x, y, x, y + h - 1, px, py);
    }
  }

  method BaseDrawFastHLine(x: int16, y: int16, w: int16, color: uint16) returns (calls: seq<Call>)
    requires -0x8000 <= x + w - 1 < 0x8000 && LineFits(x, y, x + w - 1, y)
    ensures forall k :: 0 <= k < |calls| ==> calls[k].Pixel?
    ensures Monochrome(calls, color)
    ensures forall px, py :: Hits(calls, px, py) == Once(BaseVLineCovers(y, x, w, py, px))
  {
    calls := WriteLine(x, y, x + w - 1, y, color);
    LinePaint(calls, Normalize(x, y, x + w - 1, y), color);
    forall px, py ensures OnLine(Normalize(x, y, x + w - 1, y), px, py) <==> BaseVLineCovers(y, x, w, py, px) {
      AxisLine(x, y, x + w - 1, y, px, py);
    }
  }

  /** The pixels from y to y + h - 1, in whichever order. */
  predicate BaseVLineCovers(x: int, y: int, h: int, px: int, py: int) {
    px == x && Min(y, y + h - 1) <= py <= Max(y, y + h - 1)
  }

  /** The base fast line and the canvas override paint the same pixels exactly when the length is positive:
      for a length of 0 the base draws two pixels and the override none, for a negative one the base draws two more. */
  lemma BaseAgreesWithOverride(x: int16, y: int16, h: int16, color: uint16)
    ensures (forall px, py :: BaseVLineCovers(x, y, h, px, py) <==> Covers(VLine(x, y, h, color), px, py)) <==> h >= 1
  {
    if h < 1 {
      assert BaseVLineCovers(x, y, h, x, y + h - 1 + (if h < 0 then 1 else 0));
      assert !Covers(VLine(x, y, h, color), x, y + h - 1 + (if h < 0 then 1 else 0));
    }
  }

  lemma BaseHLineAgreesWithOverride(x: int16, y: int16, w: int16, color: uint16)
    ensures (forall px, py :: BaseVLineCovers(y, x, w, py, px) <==> Covers(HLine(x, y, w, color), px, py)) <==> w >= 1
  {
    if w < 1 {
      assert BaseVLineCovers(y, x, w, y, x + w - 1 + (if w < 0 then 1 else 0));
      assert !Covers(HLine(x, y, w, color), x + w - 1 + (if w < 0 then 1 else 0), y);
    }
  }

  // ---- fillRect ----

  predicate InRect(x: int, y: int, w: int, h: int, px: int, py: int) {
    x <= px < x + w && InRun(y, h, py)
  }

  method FillRect(x: int16, y: int16, w: int16, h: int16, color: uint16) returns (calls: seq<Call>)
    requires x + w < 0x8000
    ensures |calls| == Max(w, 0) && forall k :: 0 <= k < |calls| ==> calls[k] == VLine(x + k, y, h, color)
    ensures forall px, py :: Hits(calls, px, py) == Once(InRect(x, y, w, h, px, py))
  {
    calls := [];
    var i: int16 := x;
    while i < x + w
      invariant w > 0 ==> i == x + |calls| && |calls| <= w
      invariant w <= 0 ==> calls == []
      invariant forall k :: 0 <= k < |calls| ==> calls[k] == VLine(x + k, y, h, color)
      invariant forall px, py :: Hits(calls, px, py) == Once(InRect(x, y, |calls|, h, px, py))
      decreases x + w - i
    {
      var c := VLine(i, y, h, color);
      HitsSnocAll(calls, c);
      calls := calls + [c];
      i := i + 1;
    }
  }
}
