/** `drawBitmap` with a background colour, and what a canvas shows of another canvas's buffer. */
module Bitmaps {
  import opened Machine
  import opened Raster
  import opened Bits
  import opened Canvas

  // ---- The shift register ----

  /** b is the byte `source` shifted left by n: its leading bits are those of `source` from n on. */
  predicate Shifted(b: byte, source: byte, n: nat) {
    forall m :: 0 <= m < 8 - n ==> BitOf(b, m) == BitOf(source, n + m)
  }

  lemma ShiftOnce(b: byte, source: byte, n: nat)
    requires n < 7 && Shifted(b, source, n)
    ensures Shifted(b << 1, source, n + 1)
  {
    var b' := b << 1;
    forall m | 0 <= m < 7 - n ensures BitOf(b', m) == BitOf(source, n + 1 + m) {
      ShiftLeft(b, m);
      assert BitOf(b, m + 1) == BitOf(source, n + (m + 1));
    }
  }

  /** Ready to decode bit i of a scanline whose bytes start at `row`: unless a byte is about to be fetched, b is
      the current byte with all but one of the bits before i shifted out. */
  predicate Primed(b: byte, bitmap: seq<byte>, row: int, i: nat) {
    i % 8 > 0 ==> Shifted(b, Byte(bitmap, row + i / 8), i % 8 - 1)
  }

  /** The decoder step: fetch the next byte on every eighth bit, otherwise shift. */
  method NextBits(b: byte, bitmap: seq<byte>, row: int, i: nat) returns (b': byte)
    requires 0 <= row + i / 8 < |bitmap| && Primed(b, bitmap, row, i)
    ensures Primed(b', bitmap, row, i + 1)
    ensures BitOf(b', 0) == BitOf(bitmap[row + i / 8], i % 8)
  {
    if i % 8 != 0 {
      ShiftOnce(b, bitmap[row + i / 8], i % 8 - 1);
      b' := b << 1;
    } else {
      b' := bitmap[row + i / 8];
    }
    assert Shifted(b', bitmap[row + i / 8], i % 8);
    if (i + 1) % 8 > 0 {
      assert (i + 1) / 8 == i / 8;
    }
  }

  // ---- drawBitmap ----

  /** The part of the w-wide bitmap that has been written after j scanlines and i columns of the next. */
  predicate Written(w: int, i: int, j: int, i': int, j': int) {
    0 <= i' < w && 0 <= j' && (j' < j || (j' == j && i' < i))
  }

  /** Each call writes a pixel of the w x h bitmap in the colour that its bit selects. */
  predicate ShowsBits(calls: seq<Call>, bitmap: seq<byte>, x: int, y: int, w: int, h: int, color: uint16, bg: uint16) {
    forall k :: 0 <= k < |calls| ==> ShowsBit(calls[k], bitmap, x, y, w, h, color, bg)
  }

  predicate ShowsBit(c: Call, bitmap: seq<byte>, x: int, y: int, w: int, h: int, color: uint16, bg: uint16) {
    && c.Pixel? && 0 <= c.x - x < w && 0 <= c.y - y < h
    && c.color == if RawBit(bitmap, (w + 7) / 8, c.x - x, c.y - y) then color else bg
  }

  /** Every pixel of the bitmap's rectangle is written once, in the colour its bit selects. */
  method DrawBitmap(x: int16, y: int16, bitmap: seq<byte>, w: int16, h: int16, color: uint16, bg: uint16)
    returns (calls: seq<Call>)
    requires w >= 0 && h >= 0 ==> |bitmap| >= (w + 7) / 8 * h
    requires x + Max(w, 0) <= 0x8000 && y + Max(h, 0) <= 0x8000
    ensures AllPlayable(calls)
    ensures ShowsBits(calls, bitmap, x, y, w, h, color, bg)
    ensures forall px, py :: Hits(calls, px, py) == Once(0 <= px - x < w && 0 <= py - y < h)
  {
    var byteWidth: int16 := TruncDiv(w + 7, 8);
    var b: byte := 0;
    ghost var y0 := y;
    var y: int16 := y;
    calls := [];
    var j: int16 := 0;
    while j < h
      invariant 0 <= j <= Max(h, 0) && (j < h ==> y == y0 + j)
      invariant BlitState(calls, bitmap, x, y0, w, h, color, bg, 0, j)
      decreases h - j
    {
      if w > 0 {
        MulStep(j, h, byteWidth);
        MulPositive(j, byteWidth);
        calls, b := DrawScanline(calls, b, x, y, bitmap, w, h, j, j * byteWidth, color, bg);
      }
      j := j + 1;
      y := ToInt16(y + 1);
    }
  }

  /** What has been written after j scanlines and i columns of the next. */
  ghost predicate BlitState(calls: seq<Call>, bitmap: seq<byte>, x: int, y: int, w: int, h: int, color: uint16, bg: uint16,
                            i: int, j: int)
  {
    && AllPlayable(calls) && ShowsBits(calls, bitmap, x, y, w, h, color, bg)
    && forall px, py :: Hits(calls, px, py) == Once(Written(w, i, j, px - x, py - y))
  }

  /** The inner loop: scanline j of the bitmap, at height y, with its bytes from `row` on. */
  method DrawScanline(calls: seq<Call>, b: byte, x: int16, y: int16, bitmap: seq<byte>, w: int16, h: int16, j: int16,
                      row: nat, color: uint16, bg: uint16) returns (calls': seq<Call>, b': byte)
    requires w > 0 && 0 <= j < h && x + w <= 0x8000
    requires row == j * ((w + 7) / 8) && row + (w + 7) / 8 <= |bitmap|
    requires BlitState(calls, bitmap, x, y - j, w, h, color, bg, 0, j)
    ensures BlitState(calls', bitmap, x, y - j, w, h, color, bg, 0, j + 1)
  {
    calls', b' := calls, b;
    var i: int16 := 0;
    while i < w
      invariant 0 <= i <= w && Primed(b', bitmap, row, i)
      invariant BlitState(calls', bitmap, x, y - j, w, h, color, bg, i, j)
    {
      calls', b' := DrawBit(calls', b', x, y, bitmap, w, h, i, j, row, color, bg);
      i := i + 1;
    }
  }

  method DrawBit(calls: seq<Call>, b: byte, x: int16, y: int16, bitmap: seq<byte>, w: int16, h: int16, i: int16, j: int16,
                 row: nat, color: uint16, bg: uint16) returns (calls': seq<Call>, b': byte)
    requires 0 <= i < w && 0 <= j < h && x + w <= 0x8000
    requires row == j * ((w + 7) / 8) && row + (w + 7) / 8 <= |bitmap|
    requires Primed(b, bitmap, row, i) && BlitState(calls, bitmap, x, y - j, w, h, color, bg, i, j)
    ensures Primed(b', bitmap, row, i + 1) && BlitState(calls', bitmap, x, y - j, w, h, color, bg, i + 1, j)
  {
    b' := NextBits(b, bitmap, row, i);
    var c := Pixel(x + i, y, if BitOf(b', 0) then color else bg);
    PixelShowsBit(c, bitmap, x, y - j, w, h, i, j, row, color, bg);
    WrittenOne(calls, c, x, y - j, w, i, j);
    calls' := calls + [c];
  }

  lemma WrittenOne(calls: seq<Call>, c: Call, x: int, y0: int, w: int, i: int, j: int)
    requires 0 <= i < w && 0 <= j && c.Pixel? && (c.x, c.y) == (x + i, y0 + j)
    requires forall px, py :: Hits(calls, px, py) == Once(Written(w, i, j, px - x, py - y0))
    ensures forall px, py :: Hits(calls + [c], px, py) == Once(Written(w, i + 1, j, px - x, py - y0))
  {
    HitsSnocAll(calls, c);
  }

  lemma PixelShowsBit(c: Call, bitmap: seq<byte>, x: int, y0: int, w: int, h: int, i: nat, j: nat, row: nat,
                      color: uint16, bg: uint16)
    requires c.Pixel? && (c.x, c.y) == (x + i, y0 + j) && i < w && j < h
    requires row == j * ((w + 7) / 8) && row + i / 8 < |bitmap|
    requires c.color == if BitOf(bitmap[row + i / 8], i % 8) then color else bg
    ensures ShowsBit(c, bitmap, x, y0, w, h, color, bg)
  {
  }

  // ---- From canvas to canvas ----

  /** What a one-bit display shows where the bitmap was drawn, and elsewhere. */
  lemma BitmapPaint(calls: seq<Call>, bitmap: seq<byte>, x: int, y: int, w: int, h: int, color: uint16, bg: uint16,
                    px: int, py: int, before: bool)
    requires ShowsBits(calls, bitmap, x, y, w, h, color, bg)
    requires Hits(calls, px, py) == Once(0 <= px - x < w && 0 <= py - y < h)
    ensures Paint(calls, px, py, before) ==
            if 0 <= px - x < w && 0 <= py - y < h
            then (if RawBit(bitmap, (w + 7) / 8, px - x, py - y) then color else bg) != 0
            else before
  {
    if 0 <= px - x < w && 0 <= py - y < h {
      HitsWitness(calls, px, py);
      var k :| 0 <= k < |calls| && Covers(calls[k], px, py);
      assert ShowsBit(calls[k], bitmap, x, y, w, h, color, bg);
      PaintOnce(calls, k, px, py, before);
    } else {
      NothingHit(calls, px, py, before);
    }
  }

  lemma {:induction false} NothingHit(calls: seq<Call>, px: int, py: int, before: bool)
    requires Hits(calls, px, py) == 0
    ensures Paint(calls, px, py, before) == before
  {
    if calls != [] {
      NothingHit(calls[..|calls| - 1], px, py, before);
    }
  }

  lemma ClearedDark(g: Geometry, buf: seq<byte>, x: int, y: int)
    requires g.Valid()
    requires forall X: nat, Y: nat :: X < 8 * g.RowBytes() && Y < g.H ==> RawBit(buf, g.RowBytes(), X, Y) == false
    ensures !Lit(g, buf, x, y)
  {
    RotationBijective(g, x, y);
  }

  /** Clearing a canvas and drawing another canvas's buffer s rows higher shows that canvas's pixels, s rows up,
      and nothing where it has none: decoding with the shift register undoes the packing, for every width. */
  method ShowScrolled(dst: GFXcanvas1, src: GFXcanvas1, s: int16, color: uint16)
    requires dst.Valid() && src.Valid() && dst.buffer != src.buffer
    requires src.rotation == 0 && color != 0 && -0x8000 < s && src.HEIGHT - s <= 0x8000
    modifies dst.buffer
    ensures forall i, j :: Lit(dst.Geo(), dst.buffer[..], i, j) <==>
                           dst.Geo().OnCanvas(i, j) && Lit(src.Geo(), src.buffer[..], i, j + s)
  {
    dst.FillScreen(0);
    ghost var cleared := dst.buffer[..];
    var calls := DrawBitmap(0, -s, src.buffer[..], src.width, src.height, color, 0);
    dst.Play(calls);
    forall i, j
      ensures Lit(dst.Geo(), dst.buffer[..], i, j) <==>
              dst.Geo().OnCanvas(i, j) && Lit(src.Geo(), src.buffer[..], i, j + s)
    {
      PaintedLit(dst.Geo(), cleared, dst.buffer[..], calls, i, j);
      ClearedDark(dst.Geo(), cleared, i, j);
      BitmapPaint(calls, src.buffer[..], 0, -s, src.width, src.height, color, 0, i, j, false);
    }
  }
}
