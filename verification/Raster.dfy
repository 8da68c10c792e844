/** What a drawing routine of the base class leaves behind: the sequence of virtual calls it made.

    `Adafruit_GFX` draws everything through three primitives that a display may override: `writePixel`,
    `writeFastVLine` and `writeFastHLine`.  The routines never read pixels back, so their effect on any
    display is a function of the calls they make.  `Hits` says how often a pixel is painted, `Paint` what a
    one-bit display shows afterwards. */
module Raster {
  import opened Machine

  datatype Call =
    | Pixel(x: int16, y: int16, color: uint16)
    | VLine(x: int16, y: int16, len: int16, color: uint16)
    | HLine(x: int16, y: int16, len: int16, color: uint16)

  /** The positions `p` of a run of `len` starting at `start`; a negative length runs backwards from `start`. */
  predicate InRun(start: int, len: int, p: int) {
    if len >= 0 then start <= p < start + len else start + len < p <= start
  }

  /** A backward run has its length and ends where it starts. */
  lemma BackwardRun(start: int, n: nat, p: int)
    requires n > 0
    ensures InRun(start, 0 - n, p) <==> InRun(start - n + 1, n, p)
  {
  }

  predicate Covers(c: Call, px: int, py: int) {
    match c
    case Pixel(x, y, _) => px == x && py == y
    case VLine(x, y, len, _) => px == x && InRun(y, len, py)
    case HLine(x, y, len, _) => py == y && InRun(x, len, px)
  }

  /** A backward run can be turned around within int16, as an overriding fast line does. */
  predicate RunFits(start: int16, len: int16) {
    len > -0x8000 && (len < 0 ==> start + len + 1 >= -0x8000)
  }

  predicate Playable(c: Call) {
    match c
    case Pixel(_, _, _) => true
    case VLine(_, y, len, _) => RunFits(y, len)
    case HLine(x, _, len, _) => RunFits(x, len)
  }

  predicate AllPlayable(calls: seq<Call>) {
    forall k :: 0 <= k < |calls| ==> Playable(calls[k])
  }

  function Once(b: bool): nat {
    if b then 1 else 0
  }

  /** How many of the calls paint pixel (px, py). */
  function Hits(calls: seq<Call>, px: int, py: int): nat {
    if calls == [] then 0
    else
      var n := |calls| - 1;
      Hits(calls[..n], px, py) + Once(Covers(calls[n], px, py))
  }

  /** What pixel (px, py) of a one-bit display shows after the calls: the last call to cover it wins. */
  function Paint(calls: seq<Call>, px: int, py: int, before: bool): bool {
    if calls == [] then before
    else
      var n := |calls| - 1;
      if Covers(calls[n], px, py) then calls[n].color != 0 else Paint(calls[..n], px, py, before)
  }

  predicate Monochrome(calls: seq<Call>, color: uint16) {
    forall k :: 0 <= k < |calls| ==> calls[k].color == color
  }

  // ---- Sequences of calls ----

  lemma HitsSnoc(calls: seq<Call>, c: Call, px: int, py: int)
    ensures Hits(calls + [c], px, py) == Hits(calls, px, py) + Once(Covers(c, px, py))
  {
    assert (calls + [c])[..|calls|] == calls;
  }

  lemma HitsSnocAll(calls: seq<Call>, c: Call)
    ensures forall px, py ::
      Hits(calls + [c], px, py) == Hits(calls, px, py) + Once(Covers(c, px, py))
  {
    forall px, py {
      HitsSnoc(calls, c, px, py);
    }
  }

  lemma {:induction false} HitsConcat(a: seq<Call>, b: seq<Call>, px: int, py: int)
    ensures Hits(a + b, px, py) == Hits(a, px, py) + Hits(b, px, py)
  {
    if b == [] {
      assert a + b == a;
    } else {
      var n := |b| - 1;
      assert (a + b)[..|a| + n] == a + b[..n];
      HitsConcat(a, b[..n], px, py);
    }
  }

  lemma HitsConcatAll(a: seq<Call>, b: seq<Call>)
    ensures forall px, py :: Hits(a + b, px, py) == Hits(a, px, py) + Hits(b, px, py)
  {
    forall px, py {
      HitsConcat(a, b, px, py);
    }
  }

  lemma PaintSingle(c: Call)
    ensures forall px, py, before ::
      Paint([c], px, py, before) == if Covers(c, px, py) then c.color != 0 else before
  {
    assert [c][..0] == [];
  }

  lemma {:induction false} PaintConcat(a: seq<Call>, b: seq<Call>, px: int, py: int, before: bool)
    ensures Paint(a + b, px, py, before) == Paint(b, px, py, Paint(a, px, py, before))
  {
    if b == [] {
      assert a + b == a;
    } else {
      var n := |b| - 1;
      assert (a + b)[..|a| + n] == a + b[..n];
      PaintConcat(a, b[..n], px, py, before);
    }
  }

  /** A pixel is hit exactly when some call covers it. */
  lemma {:induction false} HitsWitness(calls: seq<Call>, px: int, py: int)
    ensures Hits(calls, px, py) > 0 <==> exists k :: 0 <= k < |calls| && Covers(calls[k], px, py)
  {
    if calls != [] {
      var n := |calls| - 1;
      HitsWitness(calls[..n], px, py);
      assert forall k :: 0 <= k < n ==> calls[..n][k] == calls[k];
    }
  }

  lemma HitsNone(calls: seq<Call>, px: int, py: int)
    requires forall k :: 0 <= k < |calls| ==> !Covers(calls[k], px, py)
    ensures Hits(calls, px, py) == 0
  {
    HitsWitness(calls, px, py);
  }

  /** One covering call, one hit. */
  lemma HitsOnce(calls: seq<Call>, k: nat, px: int, py: int)
    requires k < |calls| && Covers(calls[k], px, py)
    requires forall j :: 0 <= j < |calls| && j != k ==> !Covers(calls[j], px, py)
    ensures Hits(calls, px, py) == 1
  {
    var head, tail := calls[..k], calls[k + 1..];
    assert calls == head + [calls[k]] + tail;
    HitsConcat(head + [calls[k]], tail, px, py);
    HitsSnoc(head, calls[k], px, py);
    HitsNone(head, px, py);
    HitsNone(tail, px, py);
  }

  /** A routine with one colour: what it paints is decided by which pixels it hits. */
  lemma {:induction false} PaintMonochrome(calls: seq<Call>, color: uint16, px: int, py: int, before: bool)
    requires Monochrome(calls, color)
    ensures Paint(calls, px, py, before) == if Hits(calls, px, py) > 0 then color != 0 else before
  {
    if calls != [] {
      PaintMonochrome(calls[..|calls| - 1], color, px, py, before);
    }
  }

  /** A pixel hit once shows the colour of the call that hit it. */
  lemma {:induction false} PaintOnce(calls: seq<Call>, k: nat, px: int, py: int, before: bool)
    requires k < |calls| && Covers(calls[k], px, py)
    requires Hits(calls, px, py) <= 1
    ensures Paint(calls, px, py, before) == (calls[k].color != 0)
  {
    var n := |calls| - 1;
    if k < n {
      HitsWitness(calls[..n], px, py);
      assert calls[..n][k] == calls[k];
      assert !Covers(calls[n], px, py);
      PaintOnce(calls[..n], k, px, py, before);
    }
  }
}
