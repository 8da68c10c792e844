/** `drawChar`: the classic 5 x 8 font and packed custom fonts, at any magnification. */
module Glyphs {
  import opened Machine
  import opened Raster
  import opened Bits
  import opened Lines
  import Canvas
  import opened Bitmaps

  // ---- Fonts ----

  datatype Glyph =
    Glyph(bitmapOffset: uint16, width: uint8, height: uint8, xAdvance: uint8, xOffset: int8, yOffset: int8)

  /** A custom font; `first` and `last` are the low bytes that the code reads of the 16-bit fields. */
  datatype Font = Font(bitmap: seq<byte>, glyphs: seq<Glyph>, first: uint8, last: uint8, yAdvance: uint8) {
    /** Every character of the font has a glyph, and every glyph its bits. */
    predicate Valid() {
      && |glyphs| > last - first
      && forall k :: 0 <= k < |glyphs| ==>
           glyphs[k].bitmapOffset + (glyphs[k].width * glyphs[k].height + 7) / 8 <= Min(|bitmap|, 0x1_0000)
    }
  }

  // ---- Magnified pixels ----

  /** Which magnified pixel of size s the offset d falls in; -1 before the first. */
  function BlockOf(d: int, s: int): int
    requires s > 0
  {
    if d < 0 then -1 else d / s
  }

  lemma BlockIff(d: int, s: int, i: nat)
    requires s > 0
    ensures BlockOf(d, s) == i <==> i * s <= d < i * s + s
  {
    MulPositive(i, s);
    if i * s <= d < i * s + s {
      DivUnique(d, s, i);
    }
  }

  /** Block column i runs from i * s, and a row of n blocks ends at n * s. */
  lemma BlockRange(d: int, s: int, n: nat)
    requires s > 0
    ensures 0 <= BlockOf(d, s) < n <==> 0 <= d < n * s
  {
    if d >= 0 {
      MulStep(d / s, n, s);
      MulStep(n, d / s, s);
    }
  }

  /** Blocks that end before column `right` and scanline `bottom` stay in int16; a rectangle is drawn by a loop that
      steps past its last column, a single pixel is not. */
  predicate EndsFit(right: int, bottom: int, sizeX: uint8, sizeY: uint8) {
    (if sizeX == 1 && sizeY == 1 then right <= 0x8000 else right < 0x8000) && bottom <= 0x8000
  }

  predicate BlockFits(x: int, y: int, i: nat, j: nat, sizeX: uint8, sizeY: uint8) {
    && -0x8000 <= x + i * sizeX && -0x8000 <= y + j * sizeY
    && EndsFit(x + i * sizeX + sizeX, y + j * sizeY + sizeY, sizeX, sizeY)
  }

  /** Magnified pixel (i, j): one pixel at size 1, else a filled rectangle. */
  method WriteBlock(x: int, y: int, i: nat, j: nat, sizeX: uint8, sizeY: uint8, color: uint16)
    returns (calls: seq<Call>)
    requires sizeX > 0 && sizeY > 0 && BlockFits(x, y, i, j, sizeX, sizeY)
    ensures Monochrome(calls, color) && AllPlayable(calls)
    ensures forall px, py :: Hits(calls, px, py) == Once(BlockOf(px - x, sizeX) == i && BlockOf(py - y, sizeY) == j)
  {
    MulPositive(i, sizeX);
    MulPositive(j, sizeY);
    if sizeX == 1 && sizeY == 1 {
      calls := [Pixel(x + i, y + j, color)];
      HitsSnocAll([], Pixel(x + i, y + j, color));
      assert [] + [Pixel(x + i, y + j, color)] == calls;
    } else {
      calls := FillRect(x + i * sizeX, y + j * sizeY, sizeX, sizeY, color);
    }
    forall px, py ensures Hits(calls, px, py) == Once(BlockOf(px - x, sizeX) == i && BlockOf(py - y, sizeY) == j) {
      BlockIff(px - x, sizeX, i);
      BlockIff(py - y, sizeY, j);
    }
  }

  /** The colour a call must have to paint pixel (px, py), as a function of the magnified pixel it falls in. */
  ghost predicate Coloured(calls: seq<Call>, x: int, y: int, sizeX: uint8, sizeY: uint8, ink: (int, int) -> uint16)
    requires sizeX > 0 && sizeY > 0
  {
    forall k, px, py {:trigger Covers(calls[k], px, py)} :: 0 <= k < |calls| && Covers(calls[k], px, py) ==>
      calls[k].color == ink(BlockOf(px - x, sizeX), BlockOf(py - y, sizeY))
  }

  /** Exactly the magnified pixels in `drawn` have been painted, once each. */
  ghost predicate Drawn(calls: seq<Call>, x: int, y: int, sizeX: uint8, sizeY: uint8, drawn: (int, int) -> bool)
    requires sizeX > 0 && sizeY > 0
  {
    forall px, py :: Hits(calls, px, py) == Once(drawn(BlockOf(px - x, sizeX), BlockOf(py - y, sizeY)))
  }

  /** Drawing more magnified pixels, all in one colour, none of them twice. */
  lemma DrawnMore(calls: seq<Call>, more: seq<Call>, color: uint16, x: int, y: int, sizeX: uint8, sizeY: uint8,
                  drawn: (int, int) -> bool, extra: (int, int) -> bool, all: (int, int) -> bool, ink: (int, int) -> uint16)
    requires sizeX > 0 && sizeY > 0
    requires Drawn(calls, x, y, sizeX, sizeY, drawn) && Coloured(calls, x, y, sizeX, sizeY, ink)
    requires Drawn(more, x, y, sizeX, sizeY, extra) && Monochrome(more, color)
    requires forall i, j :: extra(i, j) ==> !drawn(i, j) && ink(i, j) == color
    requires forall i, j :: all(i, j) <==> drawn(i, j) || extra(i, j)
    ensures Drawn(calls + more, x, y, sizeX, sizeY, all) && Coloured(calls + more, x, y, sizeX, sizeY, ink)
  {
    HitsConcatAll(calls, more);
    forall k, px, py | 0 <= k < |calls + more| && Covers((calls + more)[k], px, py)
      ensures (calls + more)[k].color == ink(BlockOf(px - x, sizeX), BlockOf(py - y, sizeY))
    {
      if k >= |calls| {
        assert Covers(more[k - |calls|], px, py);
        HitsWitness(more, px, py);
      } else {
        assert Covers(calls[k], px, py);
      }
    }
  }

  // ---- The classic font ----

  /** Is pixel (i, j) of classic character c on?  Five columns, least significant bit on top. */
  predicate ClassicOn(table: seq<byte>, c: uint8, i: int, j: int) {
    0 <= i < 5 && 0 <= j < 8 && BitOf(Canvas.Byte(table, c * 5 + i), 7 - j)
  }

  /** b is `source` shifted right by n. */
  predicate ShiftedRight(b: byte, source: byte, n: nat) {
    forall t :: n <= t < 8 ==> BitOf(b, t) == BitOf(source, t - n)
  }

  lemma ShiftRightOnce(b: byte, source: byte, n: nat)
    requires n < 8 && ShiftedRight(b, source, n)
    ensures ShiftedRight(b >> 1, source, n + 1)
  {
    var b' := b >> 1;
    forall t | n + 1 <= t < 8 ensures BitOf(b', t) == BitOf(source, t - (n + 1)) {
      ShiftRight(b, t - 1);
      assert BitOf(b, t - 1) == BitOf(source, t - 1 - n);
    }
  }

  method NextRow(line: byte, ghost source: byte, ghost n: nat) returns (line': byte)
    requires n < 8 && ShiftedRight(line, source, n)
    ensures ShiftedRight(line', source, n + 1)
  {
    ShiftRightOnce(line, source, n);
    line' := line >> 1;
  }

  /** The magnified pixels of a classic character written before bit j of column i. */
  ghost function ClassicDone(table: seq<byte>, c: uint8, solid: bool, i: int, j: int): (int, int) -> bool {
    (i', j') => 0 <= j' < 8 && 0 <= i' && (i' < i || (i' == i && j' < j)) && (solid || ClassicOn(table, c, i', j'))
  }

  ghost function ClassicInk(table: seq<byte>, c: uint8, color: uint16, bg: uint16): (int, int) -> uint16 {
    (i', j') => if ClassicOn(table, c, i', j') then color else bg
  }

  ghost predicate ClassicState(calls: seq<Call>, x: int, y: int, sizeX: uint8, sizeY: uint8, table: seq<byte>, c: uint8,
                               color: uint16, bg: uint16, i: int, j: int)
    requires sizeX > 0 && sizeY > 0
  {
    && AllPlayable(calls)
    && Drawn(calls, x, y, sizeX, sizeY, ClassicDone(table, c, bg != color, i, j))
    && Coloured(calls, x, y, sizeX, sizeY, ClassicInk(table, c, color, bg))
  }

  predicate CellFits(x: int, y: int, sizeX: uint8, sizeY: uint8) {
    sizeX > 0 && sizeY > 0 && EndsFit(x + 6 * sizeX, y + 8 * sizeY, sizeX, sizeY)
  }

  /** One bit of a column: ink, background, or nothing. */
  method DrawClassicBit(calls: seq<Call>, x: int16, y: int16, i: nat, j: nat, on: bool, color: uint16, bg: uint16,
                        sizeX: uint8, sizeY: uint8, ghost table: seq<byte>, ghost c: uint8) returns (calls': seq<Call>)
    requires CellFits(x, y, sizeX, sizeY) && i < 5 && j < 8 && on == ClassicOn(table, c, i, j)
    requires ClassicState(calls, x, y, sizeX, sizeY, table, c, color, bg, i, j)
    ensures ClassicState(calls', x, y, sizeX, sizeY, table, c, color, bg, i, j + 1)
  {
    MulStep(i + 1, 6, sizeX);
    MulStep(j + 1, 8, sizeY);
    MulNext(i, sizeX);
    MulNext(j, sizeY);
    var block: seq<Call> := [];
    if on {
      block := WriteBlock(x, y, i, j, sizeX, sizeY, color);
    } else if bg != color {
      block := WriteBlock(x, y, i, j, sizeX, sizeY, bg);
    }
    calls' := calls + block;
    ghost var extra := (i', j') => i' == i && j' == j && (on || bg != color);
    DrawnMore(calls, block, if on then color else bg, x, y, sizeX, sizeY,
              ClassicDone(table, c, bg != color, i, j), extra, ClassicDone(table, c, bg != color, i, j + 1),
              ClassicInk(table, c, color, bg));
  }

  method DrawClassicColumn(calls: seq<Call>, x: int16, y: int16, i: nat, line: byte, color: uint16, bg: uint16,
                           sizeX: uint8, sizeY: uint8, ghost table: seq<byte>, ghost c: uint8) returns (calls': seq<Call>)
    requires CellFits(x, y, sizeX, sizeY) && i < 5 && line == Canvas.Byte(table, c * 5 + i)
    requires ClassicState(calls, x, y, sizeX, sizeY, table, c, color, bg, i, 0)
    ensures ClassicState(calls', x, y, sizeX, sizeY, table, c, color, bg, i + 1, 0)
  {
    calls' := calls;
    var bits := line;
    for j := 0 to 8
      invariant ShiftedRight(bits, line, j)
      invariant ClassicState(calls', x, y, sizeX, sizeY, table, c, color, bg, i, j)
    {
      assert BitOf(bits, 7) == BitOf(line, 7 - j);
      calls' := DrawClassicBit(calls', x, y, i, j, BitOf(bits, 7), color, bg, sizeX, sizeY, table, c);
      bits := NextRow(bits, line, j);
    }
  }

  /** The 'classic' charset skips one code unless corrected; the 8-bit code wraps. */
  function ClassicCode(c: uint8, cp437: bool): uint8 {
    if !cp437 && c >= 176 then ToUint8(c + 1) else c
  }

  /** The cell is entirely to one side of the screen. */
  predicate OffScreen(x: int, y: int, sizeX: uint8, sizeY: uint8, width: int, height: int) {
    x >= width || y >= height || x + 6 * sizeX - 1 < 0 || y + 8 * sizeY - 1 < 0
  }

  /** That is: no pixel of it is on a screen that has any. */
  lemma OffScreenIs(x: int, y: int, sizeX: uint8, sizeY: uint8, width: int, height: int)
    requires sizeX > 0 && sizeY > 0 && width > 0 && height > 0
    ensures OffScreen(x, y, sizeX, sizeY, width, height) <==>
            forall px, py :: 0 <= px - x < 6 * sizeX && 0 <= py - y < 8 * sizeY ==>
              !OnScreen(px, py, width, height)
  {
    if !OffScreen(x, y, sizeX, sizeY, width, height) {
      assert OnScreen(Max(x, 0), Max(y, 0), width, height);
    }
  }

  predicate OnScreen(px: int, py: int, width: int, height: int) {
    0 <= px < width && 0 <= py < height
  }

  /** Uncorrected, the codes keep their order and leave out just number 176, which pushes the last one to the start. */
  lemma ClassicCodeSkips(c: uint8, d: uint8)
    ensures ClassicCode(c, true) == c
    ensures ClassicCode(c, false) != 176
    ensures c < d < 255 ==> ClassicCode(c, false) < ClassicCode(d, false)
    ensures ClassicCode(254, false) == 255 && ClassicCode(255, false) == 0
  {
  }

  /** A column of eight rows as a number, the top row in the lowest place. */
  function ColumnValue(column: seq<bool>): nat
    requires |column| == 8
  {
    (if column[0] then 1 else 0) + (if column[1] then 2 else 0) + (if column[2] then 4 else 0)
    + (if column[3] then 8 else 0) + (if column[4] then 16 else 0) + (if column[5] then 32 else 0)
    + (if column[6] then 64 else 0) + (if column[7] then 128 else 0)
  }

  /** Round trip: a classic character whose column has been put into the table shows it. */
  lemma ClassicShowsColumn(table: seq<byte>, c: uint8, i: nat, column: seq<bool>, j: nat)
    requires |table| == 256 * 5 && i < 5 && |column| == 8 && j < 8
    requires table[c * 5 + i] as int == ColumnValue(column)
    ensures ClassicOn(table, c, i, j) <==> column[j]
  {
    PlacesUnique(table[c * 5 + i], column);
  }

  lemma PlacesUnique(b: byte, column: seq<bool>)
    requires |column| == 8 && b as int == ColumnValue(column)
    ensures forall j :: 0 <= j < 8 ==> BitOf(b, 7 - j) == column[j]
  {
    PlaceValues(b);
    assert BitOf(b, 0) == column[7] && BitOf(b, 1) == column[6] && BitOf(b, 2) == column[5];
    assert BitOf(b, 3) == column[4] && BitOf(b, 4) == column[3] && BitOf(b, 5) == column[2];
    assert BitOf(b, 6) == column[1] && BitOf(b, 7) == column[0];
  }

  /** Is pixel (px, py) written by the classic branch?  All of the 6 x 8 cell if solid, else the pixels that are on. */
  predicate ClassicPixel(table: seq<byte>, c: uint8, solid: bool, x: int, y: int, sizeX: uint8, sizeY: uint8,
                         px: int, py: int)
    requires sizeX > 0 && sizeY > 0
  {
    && 0 <= px - x < 6 * sizeX && 0 <= py - y < 8 * sizeY
    && (solid || ClassicOn(table, c, BlockOf(px - x, sizeX), BlockOf(py - y, sizeY)))
  }

  method DrawClassic(x: int16, y: int16, c: uint8, color: uint16, bg: uint16, sizeX: uint8, sizeY: uint8,
                     width: int16, height: int16, cp437: bool, table: seq<byte>) returns (calls: seq<Call>)
    requires CellFits(x, y, sizeX, sizeY) || (sizeX > 0 && sizeY > 0 && OffScreen(x, y, sizeX, sizeY, width, height))
    requires |table| == 256 * 5
    ensures AllPlayable(calls)
    ensures OffScreen(x, y, sizeX, sizeY, width, height) ==> calls == []
    ensures !OffScreen(x, y, sizeX, sizeY, width, height) ==>
      && (forall px, py :: Hits(calls, px, py) ==
                           Once(ClassicPixel(table, ClassicCode(c, cp437), bg != color, x, y, sizeX, sizeY, px, py)))
      && Coloured(calls, x, y, sizeX, sizeY, ClassicInk(table, ClassicCode(c, cp437), color, bg))
  {
    if x >= width || y >= height || x + 6 * sizeX - 1 < 0 || y + 8 * sizeY - 1 < 0 {
      return [];
    }
    var c: uint8 := c;
    if !cp437 && c >= 176 {
      c := ToUint8(c + 1);
    }
    calls := [];
    for i := 0 to 5
      invariant ClassicState(calls, x, y, sizeX, sizeY, table, c, color, bg, i, 0)
    {
      var line := table[c * 5 + i];
      calls := DrawClassicColumn(calls, x, y, i, line, color, bg, sizeX, sizeY, table, c);
    }
    if bg != color {
      calls := DrawLastColumn(calls, x, y, color, bg, sizeX, sizeY, table, c);
    }
    forall px, py
      ensures Hits(calls, px, py) == Once(ClassicPixel(table, c, bg != color, x, y, sizeX, sizeY, px, py))
    {
      BlockRange(px - x, sizeX, 6);
      BlockRange(py - y, sizeY, 8);
    }
  }

  /** The blank sixth column of a solid character. */
  method DrawLastColumn(calls: seq<Call>, x: int16, y: int16, color: uint16, bg: uint16, sizeX: uint8, sizeY: uint8,
                        ghost table: seq<byte>, ghost c: uint8) returns (calls': seq<Call>)
    requires CellFits(x, y, sizeX, sizeY) && bg != color
    requires ClassicState(calls, x, y, sizeX, sizeY, table, c, color, bg, 5, 0)
    ensures ClassicState(calls', x, y, sizeX, sizeY, table, c, color, bg, 6, 0)
  {
    var last: seq<Call>;
    if sizeX == 1 && sizeY == 1 {
      last := [VLine(x + 5, y, 8, bg)];
      HitsSnocAll([], VLine(x + 5, y, 8, bg));
      assert [] + [VLine(x + 5, y, 8, bg)] == last;
    } else {
      last := FillRect(x + 5 * sizeX, y, sizeX, 8 * sizeY, bg);
    }
    ghost var extra := (i', j') => i' == 5 && 0 <= j' < 8;
    forall px, py ensures Hits(last, px, py) == Once(extra(BlockOf(px - x, sizeX), BlockOf(py - y, sizeY))) {
      BlockIff(px - x, sizeX, 5);
      BlockRange(py - y, sizeY, 8);
    }
    calls' := calls + last;
    DrawnMore(calls, last, bg, x, y, sizeX, sizeY, ClassicDone(table, c, true, 5, 0), extra,
              ClassicDone(table, c, true, 6, 0), ClassicInk(table, c, color, bg));
  }

  // ---- Custom fonts ----

  /** Bit number yy * width + xx of the glyph, most significant bit first, decides pixel (xx, yy). */
  predicate GlyphOn(font: Font, g: Glyph, xx: int, yy: int) {
    && 0 <= xx < g.width && 0 <= yy < g.height
    && var n := yy * g.width + xx;
       n >= 0 && BitOf(Canvas.Byte(font.bitmap, g.bitmapOffset + n / 8), n % 8)
  }

  /** The magnified pixels of a glyph decided before pixel (xx, yy) is reached. */
  ghost function GlyphDone(font: Font, g: Glyph, xx: int, yy: int): (int, int) -> bool {
    (xx', yy') => GlyphOn(font, g, xx', yy') && (yy' < yy || (yy' == yy && xx' < xx))
  }

  ghost predicate GlyphState(calls: seq<Call>, x: int, y: int, sizeX: uint8, sizeY: uint8, font: Font, g: Glyph,
                             color: uint16, xx: int, yy: int)
    requires sizeX > 0 && sizeY > 0
  {
    && AllPlayable(calls) && Monochrome(calls, color)
    && Drawn(calls, x, y, sizeX, sizeY, GlyphDone(font, g, xx, yy))
  }

  function NextByte(g: Glyph, n: nat): int {
    var next := g.bitmapOffset + (n + 7) / 8;
    if next == 0x1_0000 then 0 else next
  }

  /** Ready for bit n of the glyph: the byte is about to be fetched, or `bits` holds it with the first n % 8 bits
      shifted out; `bit` counts modulo 256 and `bo` is the next byte to fetch, modulo 2^16. */
  predicate GlyphReady(font: Font, g: Glyph, n: nat, bits: byte, bit: uint8, bo: uint16) {
    && bit % 8 == n % 8
    && bo == NextByte(g, n)
    && (n % 8 > 0 ==> Shifted(bits, Canvas.Byte(font.bitmap, g.bitmapOffset + n / 8), n % 8))
  }

  lemma BitInside(g: Glyph, xx: nat, yy: nat)
    requires xx < g.width && yy < g.height
    ensures 0 <= yy * g.width + xx < g.width * g.height
  {
    MulStep(yy, g.height, g.width);
    MulPositive(yy, g.width);
    assert g.height * g.width == g.width * g.height;
  }

  lemma BytesNeeded(n: nat)
    ensures (n + 8) / 8 == (n + 7) / 8 + if n % 8 == 0 then 1 else 0
    ensures n % 8 == 0 ==> (n + 7) / 8 == n / 8
  {
  }

  lemma NextEighth(n: nat)
    ensures (n + 1) % 8 == if n % 8 == 7 then 0 else n % 8 + 1
    ensures n % 8 != 7 ==> (n + 1) / 8 == n / 8
  {
  }

  lemma ReadyForNext(font: Font, g: Glyph, n: nat, bits: byte, bit: uint8, bo: uint16)
    requires n % 8 < 7 ==> Shifted(bits, Canvas.Byte(font.bitmap, g.bitmapOffset + n / 8), n % 8 + 1)
    requires bit % 8 == (n + 1) % 8 && bo == NextByte(g, n + 1)
    ensures GlyphReady(font, g, n + 1, bits, bit, bo)
  {
    NextEighth(n);
  }

  /** Fetch a byte on every eighth bit. */
  method FetchGlyphByte(font: Font, g: Glyph, ghost n: nat, bits: byte, bit: uint8, bo: uint16)
    returns (bits': byte, bo': uint16)
    requires font.Valid() && g in font.glyphs && n < g.width * g.height
    requires GlyphReady(font, g, n, bits, bit, bo)
    ensures Shifted(bits', Canvas.Byte(font.bitmap, g.bitmapOffset + n / 8), n % 8) && bo' == NextByte(g, n + 1)
  {
    BytesNeeded(n);
    assert (n + 8) / 8 <= (g.width * g.height + 7) / 8;
    bits', bo' := bits, bo;
    if bit % 8 == 0 {
      bits' := font.bitmap[bo'];
      bo' := if bo' == 0xFFFF then 0 else bo' + 1;
    }
  }

  /** Fetch if needed, count, test the top bit, shift. */
  method NextGlyphBit(font: Font, g: Glyph, ghost n: nat, bits: byte, bit: uint8, bo: uint16)
    returns (on: bool, bits': byte, bit': uint8, bo': uint16)
    requires font.Valid() && g in font.glyphs && n < g.width * g.height
    requires GlyphReady(font, g, n, bits, bit, bo)
    ensures on == BitOf(Canvas.Byte(font.bitmap, g.bitmapOffset + n / 8), n % 8)
    ensures GlyphReady(font, g, n + 1, bits', bit', bo')
  {
    bits', bo' := FetchGlyphByte(font, g, n, bits, bit, bo);
    bit' := if bit == 0xFF then 0 else bit + 1;
    ghost var source := Canvas.Byte(font.bitmap, g.bitmapOffset + n / 8);
    on, bits' := TestAndShift(bits', source, n % 8);
    assert bit' % 8 == (n + 1) % 8 by {
      NextEighth(n);
      NextEighth(bit);
    }
    ReadyForNext(font, g, n, bits', bit', bo');
  }

  method TestAndShift(bits: byte, ghost source: byte, ghost k: nat) returns (on: bool, bits': byte)
    requires k < 8 && Shifted(bits, source, k)
    ensures on == BitOf(source, k)
    ensures k < 7 ==> Shifted(bits', source, k + 1)
  {
    on := BitOf(bits, 0);
    if k < 7 {
      ShiftOnce(bits, source, k);
    }
    bits' := bits << 1;
  }

  /** The glyph's pixel block; `xOffset` and `yOffset` are magnified with it. */
  function GlyphLeft(g: Glyph, x: int, sizeX: uint8): int {
    x + g.xOffset * sizeX
  }

  function GlyphTop(g: Glyph, y: int, sizeY: uint8): int {
    y + g.yOffset * sizeY
  }

  /** A magnified glyph is the glyph magnified about the cursor: pixel (px, py) is as the unmagnified one drawn at the
      origin has it, at the position divided by the size. */
  lemma MagnifiedGlyph(font: Font, g: Glyph, x: int, y: int, sizeX: uint8, sizeY: uint8, px: int, py: int)
    requires sizeX > 0 && sizeY > 0
    ensures GlyphOn(font, g, BlockOf(px - GlyphLeft(g, x, sizeX), sizeX), BlockOf(py - GlyphTop(g, y, sizeY), sizeY))
       <==> GlyphOn(font, g, (px - x) / sizeX - g.xOffset, (py - y) / sizeY - g.yOffset)
  {
    OffsetBlock(px - x, sizeX, g.xOffset);
    OffsetBlock(py - y, sizeY, g.yOffset);
  }

  lemma OffsetBlock(d: int, s: int, o: int)
    requires s > 0
    ensures BlockOf(d - o * s, s) == if d / s < o then -1 else d / s - o
  {
    var q := d / s;
    assert d == q * s + d % s;
    assert (q - o) * s == q * s - o * s;
    if q >= o {
      BlockIff(d - o * s, s, q - o);
    } else {
      MulStep(q, o, s);
    }
  }

  /** A picture, row after row. */
  function RowByRow(picture: seq<seq<bool>>): seq<bool> {
    if picture == [] then [] else RowByRow(picture[..|picture| - 1]) + picture[|picture| - 1]
  }

  lemma {:induction false} RowByRowAt(picture: seq<seq<bool>>, w: nat, xx: nat, yy: nat)
    requires (forall k :: 0 <= k < |picture| ==> |picture[k]| == w) && yy < |picture| && xx < w
    ensures |RowByRow(picture)| == |picture| * w && yy * w + xx < |picture| * w
    ensures RowByRow(picture)[yy * w + xx] == picture[yy][xx]
  {
    var n := |picture| - 1;
    MulNext(n, w);
    RowByRowLength(picture[..n], w);
    if yy < n {
      RowByRowAt(picture[..n], w, xx, yy);
    }
  }

  lemma {:induction false} RowByRowLength(picture: seq<seq<bool>>, w: nat)
    requires forall k :: 0 <= k < |picture| ==> |picture[k]| == w
    ensures |RowByRow(picture)| == |picture| * w
  {
    if picture != [] {
      RowByRowLength(picture[..|picture| - 1], w);
      MulNext(|picture| - 1, w);
    }
  }

  /** Round trip: a glyph whose picture has been packed row by row, bit by bit, into the font's bitmap from its offset
      on shows that picture. */
  lemma GlyphShowsPicture(font: Font, g: Glyph, picture: seq<seq<bool>>, xx: nat, yy: nat)
    requires |picture| == g.height && (forall k :: 0 <= k < |picture| ==> |picture[k]| == g.width)
    requires g.bitmapOffset <= |font.bitmap| && RowByRow(picture) <= Unpacked(font.bitmap[g.bitmapOffset..])
    requires xx < g.width && yy < g.height
    ensures GlyphOn(font, g, xx, yy) <==> picture[yy][xx]
  {
    RowByRowAt(picture, g.width, xx, yy);
    BitInside(g, xx, yy);
    var n := yy * g.width + xx;
    assert Unpacked(font.bitmap[g.bitmapOffset..])[n] == RowByRow(picture)[n];
  }

  /** Every set pixel of the glyph can be drawn. */
  ghost predicate GlyphFits(font: Font, g: Glyph, left: int, top: int, sizeX: uint8, sizeY: uint8) {
    forall xx: nat, yy: nat :: GlyphOn(font, g, xx, yy) ==> BlockFits(left, top, xx, yy, sizeX, sizeY)
  }

  /** It is enough that the glyph's box is. */
  lemma BoxedGlyphFits(font: Font, g: Glyph, left: int, top: int, sizeX: uint8, sizeY: uint8)
    requires -0x8000 <= left && -0x8000 <= top
    requires EndsFit(left + g.width * sizeX, top + g.height * sizeY, sizeX, sizeY)
    ensures GlyphFits(font, g, left, top, sizeX, sizeY)
  {
    forall xx: nat, yy: nat | GlyphOn(font, g, xx, yy) ensures BlockFits(left, top, xx, yy, sizeX, sizeY) {
      MulStep(xx, g.width, sizeX);
      MulStep(yy, g.height, sizeY);
      MulPositive(xx, sizeX);
      MulPositive(yy, sizeY);
    }
  }

  /** Each pixel of a custom glyph is painted, once, exactly if its bit in the packed bitmap is set. */
  method DrawCustom(x: int16, y: int16, c: uint8, color: uint16, sizeX: uint8, sizeY: uint8, font: Font)
    returns (calls: seq<Call>)
    requires font.Valid() && font.first <= c <= font.last && sizeX > 0 && sizeY > 0
    requires var g := font.glyphs[c - font.first];
             GlyphFits(font, g, GlyphLeft(g, x, sizeX), GlyphTop(g, y, sizeY), sizeX, sizeY)
    ensures AllPlayable(calls) && Monochrome(calls, color)
    ensures var g := font.glyphs[c - font.first];
            var left, top := GlyphLeft(g, x, sizeX), GlyphTop(g, y, sizeY);
            forall px, py :: Hits(calls, px, py) ==
                             Once(GlyphOn(font, g, BlockOf(px - left, sizeX), BlockOf(py - top, sizeY)))
  {
    var g := font.glyphs[c - font.first];
    calls := DrawGlyph(GlyphLeft(g, x, sizeX), GlyphTop(g, y, sizeY), color, sizeX, sizeY, font, g);
  }

  /** The two decoding loops, for a glyph with its upper left pixel at (left, top). */
  method DrawGlyph(left: int, top: int, color: uint16, sizeX: uint8, sizeY: uint8, font: Font, g: Glyph)
    returns (calls: seq<Call>)
    requires font.Valid() && g in font.glyphs && sizeX > 0 && sizeY > 0
    requires GlyphFits(font, g, left, top, sizeX, sizeY)
    ensures AllPlayable(calls) && Monochrome(calls, color)
    ensures forall px, py :: Hits(calls, px, py) ==
                             Once(GlyphOn(font, g, BlockOf(px - left, sizeX), BlockOf(py - top, sizeY)))
  {
    var bits: byte, bit: uint8, bo: uint16 := 0, 0, g.bitmapOffset;
    calls := [];
    for yy := 0 to g.height
      invariant GlyphReady(font, g, yy * g.width, bits, bit, bo)
      invariant GlyphState(calls, left, top, sizeX, sizeY, font, g, color, 0, yy)
    {
      MulPositive(yy, g.width);
      ghost var n := yy * g.width;
      calls, bits, bit, bo := DrawGlyphRow(calls, left, top, yy, bits, bit, bo, color, sizeX, sizeY, font, g, n);
      MulNext(yy, g.width);
    }
  }

  /** The inner loop: row yy, whose first bit is number n. */
  method DrawGlyphRow(calls: seq<Call>, left: int, top: int, yy: nat, bits: byte, bit: uint8, bo: uint16,
                      color: uint16, sizeX: uint8, sizeY: uint8, font: Font, g: Glyph, ghost n: nat)
    returns (calls': seq<Call>, bits': byte, bit': uint8, bo': uint16)
    requires font.Valid() && g in font.glyphs && yy < g.height && n == yy * g.width
    requires sizeX > 0 && sizeY > 0 && GlyphFits(font, g, left, top, sizeX, sizeY)
    requires GlyphReady(font, g, n, bits, bit, bo)
    requires GlyphState(calls, left, top, sizeX, sizeY, font, g, color, 0, yy)
    ensures GlyphReady(font, g, n + g.width, bits', bit', bo')
    ensures GlyphState(calls', left, top, sizeX, sizeY, font, g, color, 0, yy + 1)
  {
    calls', bits', bit', bo' := calls, bits, bit, bo;
    for xx := 0 to g.width
      invariant GlyphReady(font, g, n + xx, bits', bit', bo')
      invariant GlyphState(calls', left, top, sizeX, sizeY, font, g, color, xx, yy)
    {
      BitInside(g, xx, yy);
      var on;
      on, bits', bit', bo' := NextGlyphBit(font, g, n + xx, bits', bit', bo');
      calls' := DrawGlyphPixel(calls', left, top, xx, yy, on, color, sizeX, sizeY, font, g);
    }
  }

  method DrawGlyphPixel(calls: seq<Call>, left: int, top: int, xx: nat, yy: nat, on: bool, color: uint16,
                        sizeX: uint8, sizeY: uint8, ghost font: Font, ghost g: Glyph) returns (calls': seq<Call>)
    requires sizeX > 0 && sizeY > 0 && xx < g.width && yy < g.height && on == GlyphOn(font, g, xx, yy)
    requires on ==> BlockFits(left, top, xx, yy, sizeX, sizeY)
    requires GlyphState(calls, left, top, sizeX, sizeY, font, g, color, xx, yy)
    ensures GlyphState(calls', left, top, sizeX, sizeY, font, g, color, xx + 1, yy)
  {
    var block: seq<Call> := [];
    if on {
      block := WriteBlock(left, top, xx, yy, sizeX, sizeY, color);
    }
    calls' := calls + block;
    ghost var extra := (i', j') => i' == xx && j' == yy && on;
    ghost var ink := (i': int, j': int) => color;
    DrawnMore(calls, block, color, left, top, sizeX, sizeY, GlyphDone(font, g, xx, yy), extra,
              GlyphDone(font, g, xx + 1, yy), ink);
  }
}
