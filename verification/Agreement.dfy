/** Where the library has two ways to draw the same thing, they leave the same canvas. */
module Agreement {
  import opened Machine
  import opened Raster
  import opened Bits
  import opened Canvas
  import opened Lines

  /** One-colour routines that cover the same pixels of a canvas leave the same bytes, padding included. */
  lemma SameCoverSameBuffer(g: Geometry, before: seq<byte>, calls: seq<Call>, after: seq<byte>,
                            calls': seq<Call>, after': seq<byte>, color: uint16)
    requires g.Valid() && |before| == g.RowBytes() * g.H
    requires Painted(g, before, after, calls) && Painted(g, before, after', calls')
    requires Monochrome(calls, color) && Monochrome(calls', color)
    requires forall px, py :: g.OnCanvas(px, py) ==> (Hits(calls, px, py) > 0 <==> Hits(calls', px, py) > 0)
    ensures after == after'
  {
    forall px, py, b | g.OnCanvas(px, py) ensures Paint(calls, px, py, b) == Paint(calls', px, py, b) {
      PaintMonochrome(calls, color, px, py, b);
      PaintMonochrome(calls', color, px, py, b);
    }
    SamePaintSameBuffer(g, before, calls, after, calls', after');
  }

  /** What a one-colour routine leaves on a canvas: its pixels lit or cleared, all others as they were. */
  lemma MonochromeOnCanvas(g: Geometry, before: seq<byte>, after: seq<byte>, calls: seq<Call>, color: uint16,
                           x: int, y: int)
    requires g.Valid() && Painted(g, before, after, calls) && Monochrome(calls, color)
    ensures Lit(g, after, x, y) ==
            if g.OnCanvas(x, y) && Hits(calls, x, y) > 0 then color != 0 else Lit(g, before, x, y)
  {
    PaintedLit(g, before, after, calls, x, y);
    PaintMonochrome(calls, color, x, y, Lit(g, before, x, y));
  }

  /** A fast line of any signed length, under any rotation, changes the buffer as a pixel loop over its run does. */
  lemma FastLineIsPixelLoop(g: Geometry, before: seq<byte>, line: Call, after: seq<byte>,
                            pixels: seq<Call>, after': seq<byte>)
    requires g.Valid() && |before| == g.RowBytes() * g.H
    requires Painted(g, before, after, [line]) && Painted(g, before, after', pixels)
    requires forall k :: 0 <= k < |pixels| ==>
      pixels[k].Pixel? && pixels[k].color == line.color && Covers(line, pixels[k].x, pixels[k].y)
    requires forall px, py :: g.OnCanvas(px, py) && Covers(line, px, py) ==> Hits(pixels, px, py) > 0
    ensures after == after'
  {
    forall px, py | g.OnCanvas(px, py) ensures Hits([line], px, py) > 0 <==> Hits(pixels, px, py) > 0 {
      HitsWitness([line], px, py);
      HitsWitness(pixels, px, py);
      assert Covers([line][0], px, py) <==> Covers(line, px, py);
    }
    SameCoverSameBuffer(g, before, [line], after, pixels, after', line.color);
  }

  /** `drawLine`, which uses the canvas's fast lines, against `writeLine` pixel by pixel. */
  method LinePathsAgree(a: GFXcanvas1, b: GFXcanvas1, x0: int16, y0: int16, x1: int16, y1: int16, color: uint16)
    requires a.Valid() && b.Valid() && a.Geo() == b.Geo() && a.buffer != b.buffer && a.buffer[..] == b.buffer[..]
    requires LineFits(x0, y0, x1, y1) && DrawLineFits(x0, y0, x1, y1)
    modifies a.buffer, b.buffer
    ensures a.buffer[..] == b.buffer[..]
  {
    ghost var before := a.buffer[..];
    var calls := DrawLine(x0, y0, x1, y1, color);
    a.Play(calls);
    var pixels := WriteLine(x0, y0, x1, y1, color);
    LinePaint(pixels, Normalize(x0, y0, x1, y1), color);
    b.Play(pixels);
    SameCoverSameBuffer(a.Geo(), before, calls, a.buffer[..], pixels, b.buffer[..], color);
  }

  /** The base `drawFastVLine` against the override, for the lengths on which they agree. */
  method FastVLinePathsAgree(a: GFXcanvas1, b: GFXcanvas1, x: int16, y: int16, h: int16, color: uint16)
    requires a.Valid() && b.Valid() && a.Geo() == b.Geo() && a.buffer != b.buffer && a.buffer[..] == b.buffer[..]
    requires h >= 1 && y + h - 1 < 0x8000 && LineFits(x, y, x, y + h - 1)
    modifies a.buffer, b.buffer
    ensures a.buffer[..] == b.buffer[..]
  {
    ghost var before := a.buffer[..];
    a.DrawFastVLine(x, y, h, color);
    var pixels := BaseDrawFastVLine(x, y, h, color);
    b.Play(pixels);
    HitsSnocAll([], VLine(x, y, h, color));
    assert [] + [VLine(x, y, h, color)] == [VLine(x, y, h, color)];
    BaseAgreesWithOverride(x, y, h, color);
    SameCoverSameBuffer(a.Geo(), before, [VLine(x, y, h, color)], a.buffer[..], pixels, b.buffer[..], color);
  }

  /** The same for `drawFastHLine`. */
  method FastHLinePathsAgree(a: GFXcanvas1, b: GFXcanvas1, x: int16, y: int16, w: int16, color: uint16)
    requires a.Valid() && b.Valid() && a.Geo() == b.Geo() && a.buffer != b.buffer && a.buffer[..] == b.buffer[..]
    requires w >= 1 && x + w - 1 < 0x8000 && LineFits(x, y, x + w - 1, y)
    modifies a.buffer, b.buffer
    ensures a.buffer[..] == b.buffer[..]
  {
    ghost var before := a.buffer[..];
    a.DrawFastHLine(x, y, w, color);
    var pixels := BaseDrawFastHLine(x, y, w, color);
    b.Play(pixels);
    HitsSnocAll([], HLine(x, y, w, color));
    assert [] + [HLine(x, y, w, color)] == [HLine(x, y, w, color)];
    BaseHLineAgreesWithOverride(x, y, w, color);
    SameCoverSameBuffer(a.Geo(), before, [HLine(x, y, w, color)], a.buffer[..], pixels, b.buffer[..], color);
  }

  /** The canvas's `fillScreen` against the base one, `fillRect` over the whole canvas: the same picture, though
      only the first touches the padding bits. */
  method FillScreenPathsAgree(a: GFXcanvas1, b: GFXcanvas1, color: uint16)
    requires a.Valid() && b.Valid() && a.Geo() == b.Geo() && a.buffer != b.buffer
    modifies a.buffer, b.buffer
    ensures forall x, y :: Lit(a.Geo(), a.buffer[..], x, y) == Lit(b.Geo(), b.buffer[..], x, y)
  {
    a.FillScreen(color);
    var calls := FillRect(0, 0, b.width, b.height, color);
    ghost var before := b.buffer[..];
    b.Play(calls);
    forall x, y ensures Lit(a.Geo(), a.buffer[..], x, y) == Lit(b.Geo(), b.buffer[..], x, y) {
      RotationBijective(a.Geo(), x, y);
      PaintedLit(b.Geo(), before, b.buffer[..], calls, x, y);
      PaintMonochrome(calls, color, x, y, Lit(b.Geo(), before, x, y));
    }
  }
}
