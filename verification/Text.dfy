/** Text layout: `write`, and `charBounds`/`getTextBounds`, which measure what `write` would print. */
module Text {
  import opened Machine
  import opened Raster
  import opened Bits
  import opened Glyphs

  datatype Option<+T> = None | Some(value: T)

  const NEWLINE: uint8 := 10
  const RETURN: uint8 := 13

  /** The text settings of a display; no font means the classic one. */
  datatype Style = Style(width: int16, sizeX: uint8, sizeY: uint8, wrap: bool, font: Option<Font>) {
    predicate Valid() {
      sizeX > 0 && sizeY > 0 && (font.Some? ==> font.value.Valid())
    }

    function LineHeight(): nat {
      if font.None? then sizeY * 8 else sizeY * font.value.yAdvance
    }

    /** Does the font have the character?  The classic one has all of them. */
    predicate Has(c: uint8) {
      font.Some? ==> font.value.first <= c <= font.value.last
    }

    /** Does the character print or advance at all, rather than being a control or missing from the font? */
    predicate Prints(c: uint8) {
      c != NEWLINE && c != RETURN && Has(c)
    }

    function GlyphOf(c: uint8): Glyph
      requires Valid() && font.Some? && Has(c)
    {
      font.value.glyphs[c - font.value.first]
    }

    function Advance(c: uint8): nat
      requires Valid() && Has(c)
    {
      if font.None? then sizeX * 6 else GlyphOf(c).xAdvance * sizeX
    }

    /** How far right of the cursor the character reaches. */
    function Reach(c: uint8): int
      requires Valid() && Has(c)
    {
      if font.None? then sizeX * 6 else sizeX * (GlyphOf(c).xOffset + GlyphOf(c).width)
    }

    predicate Empty(c: uint8)
      requires Valid() && Has(c)
    {
      font.Some? && (GlyphOf(c).width == 0 || GlyphOf(c).height == 0)
    }
  }

  datatype Cursor = Cursor(x: int16, y: int16)

  /** A character and the cursor position it is drawn, or measured, at. */
  datatype Placed = Placed(c: uint8, x: int16, y: int16)

  function NextLine(st: Style, cur: Cursor): Cursor {
    Cursor(0, ToInt16(cur.y + st.LineHeight()))
  }

  function Wrapped(st: Style, cur: Cursor, c: uint8): Cursor
    requires st.Valid() && st.Prints(c)
  {
    if st.wrap && cur.x + st.Reach(c) > st.width then NextLine(st, cur) else cur
  }

  function Advanced(st: Style, cur: Cursor, c: uint8): Cursor
    requires st.Valid() && st.Prints(c)
  {
    Cursor(ToInt16(cur.x + st.Advance(c)), cur.y)
  }

  /** What `write` does with one character: the new cursor, and where the character is drawn.  An empty glyph is
      neither wrapped nor drawn. */
  function WriteStep(st: Style, cur: Cursor, c: uint8): (Cursor, seq<Placed>)
    requires st.Valid()
  {
    if c == NEWLINE then (NextLine(st, cur), [])
    else if !st.Prints(c) then (cur, [])
    else if st.Empty(c) then (Advanced(st, cur, c), [])
    else var at := Wrapped(st, cur, c); (Advanced(st, at, c), [Placed(c, at.x, at.y)])
  }

  /** What `charBounds` does with one character: every glyph is wrapped and measured. */
  function MeasureStep(st: Style, cur: Cursor, c: uint8): (Cursor, seq<Placed>)
    requires st.Valid()
  {
    if c == NEWLINE then (NextLine(st, cur), [])
    else if !st.Prints(c) then (cur, [])
    else var at := Wrapped(st, cur, c); (Advanced(st, at, c), [Placed(c, at.x, at.y)])
  }

  function WriteRun(st: Style, cur: Cursor, text: seq<uint8>): (Cursor, seq<Placed>)
    requires st.Valid()
  {
    if text == [] then (cur, [])
    else
      var n := |text| - 1;
      var (mid, placed) := WriteRun(st, cur, text[..n]);
      var (end, last) := WriteStep(st, mid, text[n]);
      (end, placed + last)
  }

  function MeasureRun(st: Style, cur: Cursor, text: seq<uint8>): (Cursor, seq<Placed>)
    requires st.Valid()
  {
    if text == [] then (cur, [])
    else
      var n := |text| - 1;
      var (mid, placed) := MeasureRun(st, cur, text[..n]);
      var (end, last) := MeasureStep(st, mid, text[n]);
      (end, placed + last)
  }

  // ---- Measuring against printing ----

  /** An empty glyph that reaches past the right edge: measuring wraps it, printing does not. */
  predicate Strays(st: Style, cur: Cursor, c: uint8)
    requires st.Valid()
  {
    && st.Prints(c) && st.Empty(c) && st.wrap && cur.x + st.Reach(c) > st.width
    && (cur.x != 0 || st.LineHeight() != 0)
  }

  /** The two walk differently over a character exactly when it strays. */
  lemma StepsAgree(st: Style, cur: Cursor, c: uint8)
    requires st.Valid()
    ensures WriteStep(st, cur, c).0 == MeasureStep(st, cur, c).0 <==> !Strays(st, cur, c)
    ensures forall p :: p in WriteStep(st, cur, c).1 ==> p in MeasureStep(st, cur, c).1
  {
    if st.Prints(c) && st.Empty(c) && st.wrap && cur.x + st.Reach(c) > st.width {
      LineHeightBound(st);
      WrapMoves(cur, st.Advance(c), st.LineHeight());
    }
  }

  lemma LineHeightBound(st: Style)
    requires st.Valid()
    ensures st.LineHeight() < 0x1_0000
  {
    if st.font.Some? {
      MulStep(st.sizeY, 0xFF, st.font.value.yAdvance);
    }
  }

  /** Moving to the start of the next line makes a difference unless the cursor was at the start and lines have
      no height: adding in int16 loses nothing modulo 2^16. */
  lemma WrapMoves(cur: Cursor, advance: nat, height: nat)
    requires height < 0x1_0000
    ensures (ToInt16(cur.x + advance), cur.y) == (ToInt16(0 + advance), ToInt16(cur.y + height)) <==>
            cur.x == 0 && height == 0
  {
    var m, n := ToInt16(cur.x + advance), ToInt16(0 + advance);
    assert (cur.x + advance - m) % 0x1_0000 == 0 && (0 + advance - n) % 0x1_0000 == 0;
    assert (cur.y + height - ToInt16(cur.y + height)) % 0x1_0000 == 0;
  }

  predicate NeverStrays(st: Style, cur: Cursor, text: seq<uint8>)
    requires st.Valid()
  {
    forall n :: 0 <= n < |text| ==> !Strays(st, WriteRun(st, cur, text[..n]).0, text[n])
  }

  predicate Together(st: Style, cur: Cursor, text: seq<uint8>)
    requires st.Valid()
  {
    forall n :: 0 <= n <= |text| ==> MeasureRun(st, cur, text[..n]).0 == WriteRun(st, cur, text[..n]).0
  }

  lemma LastStep(st: Style, cur: Cursor, text: seq<uint8>)
    requires st.Valid() && text != []
    ensures var n := |text| - 1;
            NeverStrays(st, cur, text) <==>
            NeverStrays(st, cur, text[..n]) && !Strays(st, WriteRun(st, cur, text[..n]).0, text[n])
  {
    var n := |text| - 1;
    assert forall k :: 0 <= k <= n ==> text[..k] == text[..n][..k];
  }

  /** Measuring follows the printing cursor through a text exactly when no character strays, wrapping and int16
      wrap-around included. */
  lemma {:induction false} MeasuringFollowsPrinting(st: Style, cur: Cursor, text: seq<uint8>)
    requires st.Valid()
    ensures Together(st, cur, text) <==> NeverStrays(st, cur, text)
  {
    if text != [] {
      var n := |text| - 1;
      var prefix := text[..n];
      MeasuringFollowsPrinting(st, cur, prefix);
      LastStep(st, cur, text);
      StepsAgree(st, WriteRun(st, cur, prefix).0, text[n]);
      assert forall k :: 0 <= k <= n ==> text[..k] == prefix[..k];
      assert text[..|text|] == text && prefix[..n] == prefix;
    }
  }

  /** Then the cursors end together, and everything printed is among what is measured. */
  lemma {:induction false} PrintedIsMeasured(st: Style, cur: Cursor, text: seq<uint8>)
    requires st.Valid() && NeverStrays(st, cur, text)
    ensures MeasureRun(st, cur, text).0 == WriteRun(st, cur, text).0
    ensures forall p :: p in WriteRun(st, cur, text).1 ==> p in MeasureRun(st, cur, text).1
  {
    if text != [] {
      var n := |text| - 1;
      LastStep(st, cur, text);
      PrintedIsMeasured(st, cur, text[..n]);
      StepsAgree(st, WriteRun(st, cur, text[..n]).0, text[n]);
    }
  }

  /** The classic font, any font without empty glyphs, and any font without wrapping: nothing ever strays. */
  lemma NothingStrays(st: Style, cur: Cursor, text: seq<uint8>)
    requires st.Valid()
    requires st.font.None? || !st.wrap || forall c: uint8 :: st.Prints(c) ==> !st.Empty(c)
    ensures NeverStrays(st, cur, text)
  {
  }

  /** Nothing is printed any more once a character has strayed. */
  predicate PrintsBeforeStraying(st: Style, cur: Cursor, text: seq<uint8>)
    requires st.Valid()
  {
    forall n :: 0 <= n < |text| && Strays(st, WriteRun(st, cur, text[..n]).0, text[n]) ==>
      |WriteRun(st, cur, text[..n]).1| == |WriteRun(st, cur, text).1|
  }

  /** Then everything is printed by a part of the text that never strays. */
  lemma {:induction false} StraightPart(st: Style, cur: Cursor, text: seq<uint8>) returns (m: nat)
    requires st.Valid() && PrintsBeforeStraying(st, cur, text)
    ensures m <= |text| && NeverStrays(st, cur, text[..m])
    ensures WriteRun(st, cur, text[..m]).1 == WriteRun(st, cur, text).1
  {
    m := |text|;
    assert text[..m] == text;
    if !NeverStrays(st, cur, text) {
      var n := |text| - 1;
      var prefix := text[..n];
      LastStep(st, cur, text);
      if NeverStrays(st, cur, prefix) {
        m := n;
      } else {
        StraysEarlier(st, cur, text);
        m := StraightPart(st, cur, prefix);
        assert prefix[..m] == text[..m];
      }
    }
  }

  lemma StraysEarlier(st: Style, cur: Cursor, text: seq<uint8>)
    requires st.Valid() && text != [] && PrintsBeforeStraying(st, cur, text)
    requires !NeverStrays(st, cur, text[..|text| - 1])
    ensures PrintsBeforeStraying(st, cur, text[..|text| - 1])
    ensures WriteRun(st, cur, text[..|text| - 1]).1 == WriteRun(st, cur, text).1
  {
    var prefix := text[..|text| - 1];
    forall k | 0 <= k < |prefix| && Strays(st, WriteRun(st, cur, prefix[..k]).0, prefix[k])
      ensures |WriteRun(st, cur, prefix[..k]).1| == |WriteRun(st, cur, prefix).1|
      ensures WriteRun(st, cur, prefix).1 == WriteRun(st, cur, text).1
    {
      StraysAt(st, cur, text, k);
    }
  }

  lemma StraysAt(st: Style, cur: Cursor, text: seq<uint8>, k: nat)
    requires st.Valid() && k < |text| - 1 && PrintsBeforeStraying(st, cur, text)
    requires var prefix := text[..|text| - 1]; Strays(st, WriteRun(st, cur, prefix[..k]).0, prefix[k])
    ensures var prefix := text[..|text| - 1];
            && |WriteRun(st, cur, prefix[..k]).1| == |WriteRun(st, cur, prefix).1|
            && WriteRun(st, cur, prefix).1 == WriteRun(st, cur, text).1
  {
    var prefix := text[..|text| - 1];
    assert prefix[..k] == text[..k] && prefix[k] == text[k];
    NothingBetween(st, cur, text, k);
  }

  /** If nothing is printed from character n on, leaving out the last one makes no difference. */
  lemma NothingBetween(st: Style, cur: Cursor, text: seq<uint8>, n: nat)
    requires st.Valid() && n < |text| && |WriteRun(st, cur, text[..n]).1| == |WriteRun(st, cur, text).1|
    ensures WriteRun(st, cur, text[..n]).1 == WriteRun(st, cur, text[..|text| - 1]).1 == WriteRun(st, cur, text).1
  {
    var prefix := text[..|text| - 1];
    WrittenGrows(st, cur, text, |text| - 1);
    WrittenGrows(st, cur, prefix, n);
    assert prefix[..n] == text[..n];
  }

  const BLANKS := Style(10, 1, 1, true, Some(Font([], [Glyph(0, 0, 0, 4, 0, 0)], 32, 32, 8)))

  const BLANK_TEXT: seq<uint8> := [32, 32, 32, 32]

  /** Four blanks of a font whose blank is empty and 4 wide, on a display 10 wide: printing leaves the cursor past
      the right edge, measuring on the next line. */
  lemma BlanksStray()
    ensures BLANKS.Valid() && !NeverStrays(BLANKS, Cursor(0, 0), BLANK_TEXT)
    ensures WriteRun(BLANKS, Cursor(0, 0), BLANK_TEXT).0 == Cursor(16, 0)
    ensures MeasureRun(BLANKS, Cursor(0, 0), BLANK_TEXT).0 == Cursor(4, 8)
  {
    var start := Cursor(0, 0);
    BlanksTogether(3);
    WrittenNext(BLANKS, start, BLANK_TEXT, 3);
    MeasuredNext(BLANKS, start, BLANK_TEXT, 3);
    assert BLANK_TEXT[..4] == BLANK_TEXT;
    assert Strays(BLANKS, WriteRun(BLANKS, start, BLANK_TEXT[..3]).0, BLANK_TEXT[3]);
  }

  lemma BlankSteps(x: int16)
    requires 0 <= x <= 10
    ensures BLANKS.Valid()
    ensures WriteStep(BLANKS, Cursor(x, 0), 32).0 == MeasureStep(BLANKS, Cursor(x, 0), 32).0 == Cursor(x + 4, 0)
  {
  }

  lemma {:induction false} BlanksTogether(n: nat)
    requires n <= 3
    ensures BLANKS.Valid()
    ensures WriteRun(BLANKS, Cursor(0, 0), BLANK_TEXT[..n]).0 == Cursor(4 * n, 0)
    ensures MeasureRun(BLANKS, Cursor(0, 0), BLANK_TEXT[..n]).0 == Cursor(4 * n, 0)
  {
    if n > 0 {
      BlanksTogether(n - 1);
      BlankSteps(4 * (n - 1));
      assert BLANK_TEXT[n - 1] == 32;
      WrittenNext(BLANKS, Cursor(0, 0), BLANK_TEXT, n - 1);
      MeasuredNext(BLANKS, Cursor(0, 0), BLANK_TEXT, n - 1);
    }
  }

  const EXCLAIM := Style(10, 1, 1, true,
                         Some(Font([255], [Glyph(0, 0, 0, 4, 0, 0), Glyph(0, 1, 5, 2, 0, -5)], 32, 33, 8)))

  const EXCLAIM_TEXT: seq<uint8> := [32, NEWLINE, 33]

  /** A character that is printed after one has strayed may come to lie outside what is measured: here it ends on
      scanline 15, and the measured box starts on scanline 16. */
  lemma PrintedOutsideBounds()
    ensures EXCLAIM.Valid() && WriteRun(EXCLAIM, Cursor(12, 8), EXCLAIM_TEXT).1 == [Placed(33, 0, 16)]
    ensures BoxOf(EXCLAIM, Placed(33, 0, 16)).y2 == 15
    ensures ExtentOf(MeasuredBoxes(EXCLAIM, Cursor(12, 8), EXCLAIM_TEXT)).miny == 16
  {
    ExclaimValid();
    ExclaimWritten();
    ExclaimMeasured();
    var b, b' := BoxOf(EXCLAIM, Placed(32, 0, 16)), BoxOf(EXCLAIM, Placed(33, 0, 24));
    var boxes := MeasuredBoxes(EXCLAIM, Cursor(12, 8), EXCLAIM_TEXT);
    assert boxes == [b, b'] && b.y1 == 16 && b'.y1 == 19;
    assert boxes[..1] == [b] && [b][..0] == [];
    assert ExtentOf([b]) == Grown(NO_EXTENT, b);
  }

  lemma ExclaimValid()
    ensures EXCLAIM.Valid()
  {
  }

  lemma ExclaimWritten()
    requires EXCLAIM.Valid()
    ensures WriteRun(EXCLAIM, Cursor(12, 8), EXCLAIM_TEXT).1 == [Placed(33, 0, 16)]
  {
    var st, start, text := EXCLAIM, Cursor(12, 8), EXCLAIM_TEXT;
    assert text[..0] == [] && text[..3] == text;
    WrittenNext(st, start, text, 0);
    assert WriteRun(st, start, text[..1]) == (Cursor(16, 8), []);
    WrittenNext(st, start, text, 1);
    assert WriteRun(st, start, text[..2]) == (Cursor(0, 16), []);
    WrittenNext(st, start, text, 2);
  }

  lemma ExclaimMeasured()
    requires EXCLAIM.Valid()
    ensures MeasureRun(EXCLAIM, Cursor(12, 8), EXCLAIM_TEXT).1 == [Placed(32, 0, 16), Placed(33, 0, 24)]
  {
    var st, start, text := EXCLAIM, Cursor(12, 8), EXCLAIM_TEXT;
    assert text[..0] == [] && text[..3] == text;
    MeasuredNext(st, start, text, 0);
    var first: seq<Placed>, none: seq<Placed> := [Placed(32, 0, 16)], [];
    assert MeasureRun(st, start, text[..0]) == (start, none) && none + first == first && first + none == first;
    assert MeasureStep(st, start, 32) == (Cursor(4, 16), first);
    assert MeasureRun(st, start, text[..1]) == (Cursor(4, 16), first);
    MeasuredNext(st, start, text, 1);
    assert MeasureRun(st, start, text[..2]) == (Cursor(0, 24), first);
    MeasuredNext(st, start, text, 2);
  }

  // ---- Text on one line ----

  /** Printing the character neither ends the line nor wraps, and the cursor stays within int16. */
  predicate FitsOnLine(st: Style, cur: Cursor, c: uint8)
    requires st.Valid()
  {
    && c != NEWLINE
    && (st.Prints(c) ==>
          && cur.x + st.Advance(c) < 0x8000
          && (st.Empty(c) || cur.x + st.Reach(c) <= st.width))
  }

  predicate OneLine(st: Style, cur: Cursor, text: seq<uint8>)
    requires st.Valid()
  {
    forall n :: 0 <= n < |text| ==> FitsOnLine(st, WriteRun(st, cur, text[..n]).0, text[n])
  }

  /** All characters are placed at height y and end before the right edge. */
  predicate OnLineAt(st: Style, placed: seq<Placed>, y: int)
    requires st.Valid()
  {
    && AllPrint(st, placed)
    && forall k :: 0 <= k < |placed| ==>
         placed[k].y == y && 0 <= placed[k].x && placed[k].x + st.Reach(placed[k].c) <= st.width
  }

  lemma {:induction false} OneLineRun(st: Style, cur: Cursor, text: seq<uint8>)
    requires st.Valid() && cur.x >= 0 && OneLine(st, cur, text)
    ensures WriteRun(st, cur, text).0.y == cur.y && WriteRun(st, cur, text).0.x >= 0
    ensures OnLineAt(st, WriteRun(st, cur, text).1, cur.y)
  {
    if text != [] {
      var n := |text| - 1;
      assert forall k :: 0 <= k <= n ==> text[..n][..k] == text[..k];
      OneLineRun(st, cur, text[..n]);
      assert FitsOnLine(st, WriteRun(st, cur, text[..n]).0, text[n]);
    }
  }

  // ---- How far text goes ----

  /** The width of a character at size 1, by the font's table; the classic font has 6 columns for every code but the
      two controls. */
  function Column(font: Option<Font>, c: uint8): nat
    requires font.Some? ==> font.value.Valid()
  {
    if c == NEWLINE || c == RETURN then 0
    else if font.None? then 6
    else if c < font.value.first || c > font.value.last then 0
    else font.value.glyphs[c - font.value.first].xAdvance
  }

  function Columns(font: Option<Font>, text: seq<uint8>): nat
    requires font.Some? ==> font.value.Valid()
  {
    if text == [] then 0 else Columns(font, text[..|text| - 1]) + Column(font, text[|text| - 1])
  }

  lemma ColumnAdvances(st: Style, c: uint8)
    requires st.Valid() && c != NEWLINE
    ensures Column(st.font, c) * st.sizeX == if st.Prints(c) then st.Advance(c) else 0
  {
  }

  /** Text on one line ends its width, magnified, to the right of its start. */
  lemma {:induction false} LineEndsAt(st: Style, cur: Cursor, text: seq<uint8>)
    requires st.Valid() && OneLine(st, cur, text) && cur.x >= 0
    ensures WriteRun(st, cur, text).0 == Cursor(WriteRun(st, cur, text).0.x, cur.y)
    ensures WriteRun(st, cur, text).0.x == cur.x + Columns(st.font, text) * st.sizeX
  {
    OneLineRun(st, cur, text);
    if text != [] {
      var n := |text| - 1;
      OneLineBefore(st, cur, text, n);
      LineEndsAt(st, cur, text[..n]);
      OneLineRun(st, cur, text[..n]);
      LastColumn(st, cur, text);
    }
  }

  lemma LastColumn(st: Style, cur: Cursor, text: seq<uint8>)
    requires st.Valid() && text != []
    requires var mid := WriteRun(st, cur, text[..|text| - 1]).0;
             && mid.x == cur.x + Columns(st.font, text[..|text| - 1]) * st.sizeX && mid.x >= 0
             && FitsOnLine(st, mid, text[|text| - 1])
    ensures WriteRun(st, cur, text).0.x == cur.x + Columns(st.font, text) * st.sizeX
  {
    var n := |text| - 1;
    OneMoreColumn(st, WriteRun(st, cur, text[..n]).0, text[n]);
    AddTimes(Columns(st.font, text[..n]), Column(st.font, text[n]), st.sizeX);
  }

  lemma OneMoreColumn(st: Style, cur: Cursor, c: uint8)
    requires st.Valid() && cur.x >= 0 && FitsOnLine(st, cur, c)
    ensures WriteStep(st, cur, c).0.x == cur.x + Column(st.font, c) * st.sizeX
  {
    ColumnAdvances(st, c);
  }

  lemma AddTimes(a: int, b: int, s: int)
    ensures (a + b) * s == a * s + b * s
  {
  }

  lemma TimesAdd(s: int, a: int, b: int)
    ensures s * (a + b) == s * a + s * b
  {
  }

  lemma OneLineBefore(st: Style, cur: Cursor, text: seq<uint8>, n: nat)
    requires st.Valid() && OneLine(st, cur, text) && n < |text|
    ensures OneLine(st, cur, text[..n]) && FitsOnLine(st, WriteRun(st, cur, text[..n]).0, text[n])
  {
    forall k | 0 <= k < n ensures FitsOnLine(st, WriteRun(st, cur, text[..n][..k]).0, text[..n][k]) {
      assert text[..n][..k] == text[..k] && text[..n][k] == text[k];
    }
  }

  /** On one line, each character that has a picture stands the magnified width of those before it from the start. */
  lemma StandsAt(st: Style, cur: Cursor, text: seq<uint8>, n: nat)
    requires st.Valid() && OneLine(st, cur, text) && cur.x >= 0 && n < |text|
    requires st.Prints(text[n]) && (st.font.Some? ==> st.GlyphOf(text[n]).width > 0 && st.GlyphOf(text[n]).height > 0)
    ensures var placed := WriteRun(st, cur, text[..n + 1]).1;
            && placed != [] && placed <= WriteRun(st, cur, text).1
            && placed[|placed| - 1].c == text[n] && placed[|placed| - 1].y == cur.y
            && placed[|placed| - 1].x == cur.x + Columns(st.font, text[..n]) * st.sizeX
  {
    OneLineBefore(st, cur, text, n);
    LineEndsAt(st, cur, text[..n]);
    WrittenNext(st, cur, text, n);
    WrittenGrows(st, cur, text, n + 1);
  }

  /** How far right of the cursor the picture of a character reaches, and how high a line is, by the font's table. */
  function Extents(st: Style, c: uint8): (int, int)
    requires st.Valid() && st.Prints(c)
  {
    if st.font.None? then (6 * st.sizeX, 8 * st.sizeY)
    else
      var g := st.font.value.glyphs[c - st.font.value.first];
      (st.sizeX * g.xOffset + st.sizeX * g.width, st.sizeY * st.font.value.yAdvance)
  }

  /** A character that has a picture is printed at the cursor or, if it would reach past the right edge while wrapping
      is on, at the start of the next line. */
  lemma WrapsWhenNeeded(st: Style, cur: Cursor, c: uint8)
    requires st.Valid() && st.Prints(c)
    requires st.font.Some? ==> st.GlyphOf(c).width > 0 && st.GlyphOf(c).height > 0
    ensures var (right, height) := Extents(st, c);
            var (x, y) := if st.wrap && cur.x + right > st.width then (0, ToInt16(cur.y + height)) else (cur.x, cur.y);
            && WriteStep(st, cur, c).1 == [Placed(c, x, y)]
            && WriteStep(st, cur, c).0 == Cursor(ToInt16(x + Column(st.font, c) * st.sizeX), y)
    ensures WriteStep(st, cur, NEWLINE) == (Cursor(0, ToInt16(cur.y + Extents(st, c).1)), [])
  {
    ReachByTable(st, c);
    ColumnAdvances(st, c);
  }

  /** Measuring puts every character there, also an empty one. */
  lemma MeasuresWhereNeeded(st: Style, cur: Cursor, c: uint8)
    requires st.Valid() && st.Prints(c)
    ensures var (right, height) := Extents(st, c);
            var (x, y) := if st.wrap && cur.x + right > st.width then (0, ToInt16(cur.y + height)) else (cur.x, cur.y);
            && MeasureStep(st, cur, c).1 == [Placed(c, x, y)]
            && MeasureStep(st, cur, c).0 == Cursor(ToInt16(x + Column(st.font, c) * st.sizeX), y)
  {
    ReachByTable(st, c);
    ColumnAdvances(st, c);
  }

  lemma ReachByTable(st: Style, c: uint8)
    requires st.Valid() && st.Prints(c)
    ensures Extents(st, c) == (st.Reach(c), st.LineHeight())
  {
    if st.font.Some? {
      TimesAdd(st.sizeX, st.GlyphOf(c).xOffset, st.GlyphOf(c).width);
    }
  }

  /** Over whole texts: with wrapping on, every picture starts a line or ends before the right edge. */
  lemma {:induction false} WrappedTextFits(st: Style, cur: Cursor, text: seq<uint8>)
    requires st.Valid() && st.wrap
    ensures AllPrint(st, WriteRun(st, cur, text).1)
    ensures forall p :: p in WriteRun(st, cur, text).1 ==> p.x == 0 || p.x + Extents(st, p.c).0 <= st.width
  {
    RunsPrint(st, cur, text);
    if text != [] {
      var n := |text| - 1;
      WrappedTextFits(st, cur, text[..n]);
      forall p | p in WriteStep(st, WriteRun(st, cur, text[..n]).0, text[n]).1
        ensures p.x == 0 || p.x + Extents(st, p.c).0 <= st.width
      {
        ReachByTable(st, p.c);
      }
    }
  }

  // ---- The bounding box ----

  datatype Box = Box(x1: int, y1: int, x2: int, y2: int) {
    predicate Contains(px: int, py: int) {
      x1 <= px <= x2 && y1 <= py <= y2
    }

    predicate Fits() {
      && -0x8000 <= x1 < 0x8000 && -0x8000 <= x2 < 0x7FFF
      && -0x8000 <= y1 < 0x8000 && -0x8000 <= y2 < 0x7FFF
    }
  }

  /** The pixels that a character placed at the cursor may touch. */
  function BoxOf(st: Style, p: Placed): Box
    requires st.Valid() && st.Has(p.c)
  {
    if st.font.None? then Box(p.x, p.y, p.x + st.sizeX * 6 - 1, p.y + st.sizeY * 8 - 1)
    else GlyphBox(st, st.GlyphOf(p.c), p.x, p.y)
  }

  function GlyphBox(st: Style, g: Glyph, x: int, y: int): Box {
    var left, top := GlyphLeft(g, x, st.sizeX), GlyphTop(g, y, st.sizeY);
    Box(left, top, left + g.width * st.sizeX - 1, top + g.height * st.sizeY - 1)
  }

  /** The box of a character is exactly its magnified cells. */
  lemma BoxIsCells(st: Style, p: Placed, px: int, py: int)
    requires st.Valid() && st.Has(p.c)
    ensures BoxOf(st, p).Contains(px, py) <==>
            var (i, j) := ((px - p.x) / st.sizeX, (py - p.y) / st.sizeY);
            if st.font.None? then 0 <= i < 6 && 0 <= j < 8
            else var g := st.GlyphOf(p.c); 0 <= i - g.xOffset < g.width && 0 <= j - g.yOffset < g.height
  {
    if st.font.None? {
      CellSpan(px - p.x, st.sizeX, 0, 6);
      CellSpan(py - p.y, st.sizeY, 0, 8);
    } else {
      GlyphBoxIsCells(st, st.GlyphOf(p.c), p.x, p.y, px, py);
    }
  }

  lemma GlyphBoxIsCells(st: Style, g: Glyph, x: int, y: int, px: int, py: int)
    requires st.Valid()
    ensures GlyphBox(st, g, x, y).Contains(px, py) <==>
            && 0 <= (px - x) / st.sizeX - g.xOffset < g.width
            && 0 <= (py - y) / st.sizeY - g.yOffset < g.height
  {
    CellSpan(px - x, st.sizeX, g.xOffset, g.width);
    CellSpan(py - y, st.sizeY, g.yOffset, g.height);
  }

  lemma CellSpan(d: int, s: int, o: int, n: nat)
    requires s > 0
    ensures 0 <= d - o * s < n * s <==> 0 <= d / s - o < n
  {
    OffsetBlock(d, s, o);
    BlockRange(d - o * s, s, n);
  }

  /** The extremes so far; they start inverted so that the first character sets them. */
  datatype Extent = Extent(minx: int, miny: int, maxx: int, maxy: int)

  const NO_EXTENT := Extent(0x7FFF, 0x7FFF, -1, -1)

  function Grown(e: Extent, b: Box): Extent {
    Extent(Min(e.minx, b.x1), Min(e.miny, b.y1), Max(e.maxx, b.x2), Max(e.maxy, b.y2))
  }

  predicate AllPrint(st: Style, placed: seq<Placed>) {
    forall k :: 0 <= k < |placed| ==> st.Prints(placed[k].c)
  }

  function BoxesOf(st: Style, placed: seq<Placed>): (boxes: seq<Box>)
    requires st.Valid() && AllPrint(st, placed)
    ensures |boxes| == |placed| && forall k :: 0 <= k < |placed| ==> boxes[k] == BoxOf(st, placed[k])
  {
    seq(|placed|, k requires 0 <= k < |placed| => BoxOf(st, placed[k]))
  }

  predicate AllFit(boxes: seq<Box>) {
    forall k :: 0 <= k < |boxes| ==> boxes[k].Fits()
  }

  function ExtentOf(boxes: seq<Box>): Extent {
    if boxes == [] then NO_EXTENT
    else Grown(ExtentOf(boxes[..|boxes| - 1]), boxes[|boxes| - 1])
  }

  lemma {:induction false} ExtentEncloses(boxes: seq<Box>, k: nat)
    requires k < |boxes|
    ensures var e, b := ExtentOf(boxes), boxes[k];
            e.minx <= b.x1 && e.miny <= b.y1 && b.x2 <= e.maxx && b.y2 <= e.maxy
  {
    var n := |boxes| - 1;
    if k < n {
      ExtentEncloses(boxes[..n], k);
    }
  }

  /** Each side of the extent is the side of a box or, for the far sides, the initial -1. */
  ghost predicate Tight(boxes: seq<Box>, e: Extent) {
    && (exists k :: 0 <= k < |boxes| && boxes[k].x1 == e.minx)
    && (exists k :: 0 <= k < |boxes| && boxes[k].y1 == e.miny)
    && (e.maxx == -1 || exists k :: 0 <= k < |boxes| && boxes[k].x2 == e.maxx)
    && (e.maxy == -1 || exists k :: 0 <= k < |boxes| && boxes[k].y2 == e.maxy)
  }

  lemma {:induction false} ExtentTight(boxes: seq<Box>)
    requires boxes != [] && AllFit(boxes)
    ensures Tight(boxes, ExtentOf(boxes))
    ensures ExtentOf(boxes).minx >= -0x8000 && ExtentOf(boxes).miny >= -0x8000
    ensures -1 <= ExtentOf(boxes).maxx < 0x7FFF && -1 <= ExtentOf(boxes).maxy < 0x7FFF
  {
    var n := |boxes| - 1;
    var e, e', b := ExtentOf(boxes[..n]), ExtentOf(boxes), boxes[n];
    if n > 0 {
      ExtentTight(boxes[..n]);
      assert forall k :: 0 <= k < n ==> boxes[..n][k] == boxes[k];
    }
    assert e'.minx == b.x1 || e'.minx == e.minx;
    assert e'.maxx == b.x2 || e'.maxx == e.maxx;
  }

  /** What is reported is no larger than it has to be: each side is one of a character's box, if that is on the
      positive side of the screen. */
  lemma ReportedTight(boxes: seq<Box>, x: int, y: int, x1: int, y1: int, w: int, h: int)
    requires boxes != [] && AllFit(boxes) && Reported(ExtentOf(boxes), x, y, x1, y1, w, h)
    ensures w > 0 ==> exists k :: 0 <= k < |boxes| && boxes[k].x1 == x1
    ensures w > 0 && x1 + w > 0 ==> exists k :: 0 <= k < |boxes| && boxes[k].x2 == x1 + w - 1
    ensures h > 0 ==> exists k :: 0 <= k < |boxes| && boxes[k].y1 == y1
    ensures h > 0 && y1 + h > 0 ==> exists k :: 0 <= k < |boxes| && boxes[k].y2 == y1 + h - 1
  {
    ExtentTight(boxes);
  }

  lemma {:induction false} RunsPrint(st: Style, cur: Cursor, text: seq<uint8>)
    requires st.Valid()
    ensures AllPrint(st, WriteRun(st, cur, text).1) && AllPrint(st, MeasureRun(st, cur, text).1)
  {
    if text != [] {
      RunsPrint(st, cur, text[..|text| - 1]);
    }
  }

  function MeasuredBoxes(st: Style, cur: Cursor, text: seq<uint8>): seq<Box>
    requires st.Valid()
  {
    RunsPrint(st, cur, text);
    BoxesOf(st, MeasureRun(st, cur, text).1)
  }

  /** Everything printed is inside the extent of what is measured. */
  lemma PrintedInExtent(st: Style, cur: Cursor, text: seq<uint8>, k: nat)
    requires st.Valid() && PrintsBeforeStraying(st, cur, text) && k < |WriteRun(st, cur, text).1|
    ensures AllPrint(st, WriteRun(st, cur, text).1)
    ensures var e, b := ExtentOf(MeasuredBoxes(st, cur, text)), BoxOf(st, WriteRun(st, cur, text).1[k]);
            && e.minx <= b.x1 && e.miny <= b.y1 && b.x2 <= e.maxx && b.y2 <= e.maxy
            && b in MeasuredBoxes(st, cur, text)
  {
    RunsPrint(st, cur, text);
    var m := StraightPart(st, cur, text);
    PrintedIsMeasured(st, cur, text[..m]);
    MeasuredGrows(st, cur, text, m);
    var written, measured := WriteRun(st, cur, text).1, MeasureRun(st, cur, text).1;
    assert written[k] in MeasureRun(st, cur, text[..m]).1;
    var i :| 0 <= i < |measured| && measured[i] == written[k];
    assert MeasuredBoxes(st, cur, text)[i] == BoxOf(st, written[k]);
    ExtentEncloses(MeasuredBoxes(st, cur, text), i);
  }

  // ---- Drawing a character ----

  /** What a character's looks depend on besides its font and size. */
  datatype Ink = Ink(height: int16, cp437: bool, table: seq<byte>, color: uint16, bg: uint16)

  /** The painted pixels of one character are those its font says, in the colours it says. */
  ghost predicate CharDrawn(st: Style, ink: Ink, p: Placed, calls: seq<Call>)
    requires st.Valid() && st.Has(p.c)
  {
    if st.font.None? then
      var c := ClassicCode(p.c, ink.cp437);
      if OffScreen(p.x, p.y, st.sizeX, st.sizeY, st.width, ink.height) then calls == []
      else
        && (forall px, py :: Hits(calls, px, py) ==
             Once(ClassicPixel(ink.table, c, ink.bg != ink.color, p.x, p.y, st.sizeX, st.sizeY, px, py)))
        && Coloured(calls, p.x, p.y, st.sizeX, st.sizeY, ClassicInk(ink.table, c, ink.color, ink.bg))
    else
      var g := st.GlyphOf(p.c);
      var left, top := GlyphLeft(g, p.x, st.sizeX), GlyphTop(g, p.y, st.sizeY);
      && Monochrome(calls, ink.color)
      && forall px, py :: Hits(calls, px, py) ==
           Once(GlyphOn(st.font.value, g, BlockOf(px - left, st.sizeX), BlockOf(py - top, st.sizeY)))
  }

  /** Drawing the character keeps to int16: a custom one's set pixels do, a classic one's cell does or is off the
      screen. */
  ghost predicate Drawable(st: Style, height: int, p: Placed)
    requires st.Valid() && st.Has(p.c)
  {
    if st.font.None? then
      || CellFits(p.x, p.y, st.sizeX, st.sizeY)
      || OffScreen(p.x, p.y, st.sizeX, st.sizeY, st.width, height)
    else
      var g := st.GlyphOf(p.c);
      GlyphFits(st.font.value, g, GlyphLeft(g, p.x, st.sizeX), GlyphTop(g, p.y, st.sizeY), st.sizeX, st.sizeY)
  }

  /** It is enough that its box does. */
  lemma BoxedDrawable(st: Style, height: int, p: Placed)
    requires st.Valid() && st.Has(p.c) && BoxOf(st, p).Fits()
    ensures Drawable(st, height, p)
  {
    if st.font.Some? {
      var g := st.GlyphOf(p.c);
      BoxedGlyphFits(st.font.value, g, GlyphLeft(g, p.x, st.sizeX), GlyphTop(g, p.y, st.sizeY), st.sizeX, st.sizeY);
    }
  }

  ghost predicate AllDrawable(st: Style, height: int, placed: seq<Placed>)
    requires st.Valid()
  {
    AllPrint(st, placed) && forall k :: 0 <= k < |placed| ==> Drawable(st, height, placed[k])
  }

  lemma CharInBox(st: Style, ink: Ink, p: Placed, calls: seq<Call>, px: int, py: int)
    requires st.Valid() && st.Has(p.c) && CharDrawn(st, ink, p, calls)
    requires Hits(calls, px, py) > 0
    ensures BoxOf(st, p).Contains(px, py)
  {
    if st.font.Some? {
      var g := st.GlyphOf(p.c);
      var left, top := GlyphLeft(g, p.x, st.sizeX), GlyphTop(g, p.y, st.sizeY);
      BlockRange(px - left, st.sizeX, g.width);
      BlockRange(py - top, st.sizeY, g.height);
    }
  }

  // ---- The display's text state ----

  /** The four comparisons that end each branch of `charBounds`. */
  method GrowExtent(minx: int16, miny: int16, maxx: int16, maxy: int16, x1: int16, y1: int16, x2: int, y2: int)
    returns (minx': int16, miny': int16, maxx': int16, maxy': int16)
    ensures x2 < 0x8000 && y2 < 0x8000 ==>
      Extent(minx', miny', maxx', maxy') == Grown(Extent(minx, miny, maxx, maxy), Box(x1, y1, x2, y2))
  {
    minx', miny', maxx', maxy' := minx, miny, maxx, maxy;
    if x1 < minx' {
      minx' := x1;
    }
    if y1 < miny' {
      miny' := y1;
    }
    if x2 > maxx' {
      maxx' := ToInt16(x2);
    }
    if y2 > maxy' {
      maxy' := ToInt16(y2);
    }
  }

  /** One direction of the result: the least coordinate and the size, or the start and 0 if nothing was measured. */
  method ReportSide(low: int16, high: int16, start: int16) returns (first: int16, size: uint16)
    ensures (first, size) == if high >= low then (low, ToUint16(high - low + 1)) else (start, 0)
  {
    first, size := start, 0;
    if high >= low {
      first := low;
      size := ToUint16(high - low + 1);
    }
  }

  /** The extremes after one more character, if its box fits in int16. */
  predicate ExtentAfter(st: Style, e: Extent, placed: seq<Placed>, e': Extent)
    requires st.Valid() && AllPrint(st, placed)
  {
    if placed == [] then e' == e else BoxOf(st, placed[0]).Fits() ==> e' == Grown(e, BoxOf(st, placed[0]))
  }

  class TextDisplay {
    const fontTable: seq<byte>
    var width: int16
    var height: int16
    var cursorX: int16
    var cursorY: int16
    var textColor: uint16
    var textBgColor: uint16
    var textSizeX: uint8
    var textSizeY: uint8
    var wrap: bool
    var cp437: bool
    var gfxFont: Option<Font>

    predicate Valid()
      reads this
    {
      StyleNow().Valid() && |fontTable| == 256 * 5
    }

    function StyleNow(): Style
      reads this
    {
      Style(width, textSizeX, textSizeY, wrap, gfxFont)
    }

    function InkNow(): Ink
      reads this
    {
      Ink(height, cp437, fontTable, textColor, textBgColor)
    }

    function CursorNow(): Cursor
      reads this
    {
      Cursor(cursorX, cursorY)
    }

    constructor (w: int16, h: int16, table: seq<byte>)
      requires |table| == 256 * 5
      ensures Valid() && CursorNow() == Cursor(0, 0) && StyleNow() == Style(w, 1, 1, true, None)
      ensures InkNow() == Ink(h, false, table, 0xFFFF, 0xFFFF)
    {
      fontTable, width, height := table, w, h;
      cursorX, cursorY, textColor, textBgColor := 0, 0, 0xFFFF, 0xFFFF;
      textSizeX, textSizeY, wrap, cp437, gfxFont := 1, 1, true, false, None;
    }

    method SetCursor(x: int16, y: int16)
      modifies this`cursorX, this`cursorY
      ensures CursorNow() == Cursor(x, y)
    {
      cursorX, cursorY := x, y;
    }

    /** The cursor moves between the top of a classic character and the baseline of a custom one. */
    method SetFont(f: Option<Font>)
      requires Valid() && (f.Some? ==> f.value.Valid())
      modifies this`gfxFont, this`cursorY
      ensures Valid() && StyleNow() == old(StyleNow()).(font := f)
      ensures cursorY == ToInt16(old(cursorY) + if f.Some? == old(gfxFont.Some?) then 0 else if f.Some? then 6 else -6)
    {
      if f.Some? {
        if gfxFont.None? {
          cursorY := ToInt16(cursorY + 6);
        }
      } else if gfxFont.Some? {
        cursorY := ToInt16(cursorY - 6);
      }
      gfxFont := f;
    }

    /** A magnification of 0 is taken as 1. */
    method SetTextSize(sx: uint8, sy: uint8)
      requires Valid()
      modifies this`textSizeX, this`textSizeY
      ensures Valid() && textSizeX == Max(sx, 1) && textSizeY == Max(sy, 1)
    {
      textSizeX := if sx > 0 then sx else 1;
      textSizeY := if sy > 0 then sy else 1;
    }

    method DrawChar(x: int16, y: int16, c: uint8, color: uint16, bg: uint16) returns (calls: seq<Call>)
      requires Valid() && StyleNow().Has(c) && Drawable(StyleNow(), height, Placed(c, x, y))
      ensures AllPlayable(calls)
      ensures CharDrawn(StyleNow(), InkNow().(color := color, bg := bg), Placed(c, x, y), calls)
    {
      if gfxFont.None? {
        calls := DrawClassic(x, y, c, color, bg, textSizeX, textSizeY, width, height, cp437, fontTable);
      } else {
        calls := DrawCustom(x, y, c, color, textSizeX, textSizeY, gfxFont.value);
      }
    }

    method Write(c: uint8) returns (calls: seq<Call>)
      requires Valid() && AllDrawable(StyleNow(), height, WriteStep(StyleNow(), CursorNow(), c).1)
      modifies this`cursorX, this`cursorY
      ensures AllPlayable(calls)
      ensures CursorNow() == WriteStep(old(StyleNow()), old(CursorNow()), c).0
      ensures var placed := WriteStep(old(StyleNow()), old(CursorNow()), c).1;
              if placed == [] then calls == []
              else CharDrawn(StyleNow(), InkNow(), placed[0], calls)
    {
      if gfxFont.None? {
        calls := WriteClassic(c);
      } else {
        calls := WriteCustom(c, gfxFont.value);
      }
    }

    /** The classic-font branch of `write`. */
    method WriteClassic(c: uint8) returns (calls: seq<Call>)
      requires Valid() && gfxFont == None && AllDrawable(StyleNow(), height, WriteStep(StyleNow(), CursorNow(), c).1)
      modifies this`cursorX, this`cursorY
      ensures AllPlayable(calls)
      ensures CursorNow() == WriteStep(old(StyleNow()), old(CursorNow()), c).0
      ensures var placed := WriteStep(old(StyleNow()), old(CursorNow()), c).1;
              if placed == [] then calls == []
              else CharDrawn(StyleNow(), InkNow(), placed[0], calls)
    {
      ghost var placed := WriteStep(StyleNow(), CursorNow(), c).1;
      calls := [];
      if c == NEWLINE {
        cursorX := 0;
        cursorY := ToInt16(cursorY + textSizeY * 8);
      } else if c != RETURN {
        if wrap && cursorX + textSizeX * 6 > width {
          cursorX := 0;
          cursorY := ToInt16(cursorY + textSizeY * 8);
        }
        assert Drawable(StyleNow(), height, placed[0]);
        calls := DrawChar(cursorX, cursorY, c, textColor, textBgColor);
        cursorX := ToInt16(cursorX + textSizeX * 6);
      }
    }

    /** The custom-font branch. */
    method WriteCustom(c: uint8, font: Font) returns (calls: seq<Call>)
      requires Valid() && gfxFont == Some(font)
      requires AllDrawable(StyleNow(), height, WriteStep(StyleNow(), CursorNow(), c).1)
      modifies this`cursorX, this`cursorY
      ensures AllPlayable(calls)
      ensures CursorNow() == WriteStep(old(StyleNow()), old(CursorNow()), c).0
      ensures var placed := WriteStep(old(StyleNow()), old(CursorNow()), c).1;
              if placed == [] then calls == []
              else CharDrawn(StyleNow(), InkNow(), placed[0], calls)
    {
      ghost var placed := WriteStep(StyleNow(), CursorNow(), c).1;
      calls := [];
      if c == NEWLINE {
        cursorX := 0;
        cursorY := ToInt16(cursorY + textSizeY * font.yAdvance);
      } else if c != RETURN {
        if c >= font.first && c <= font.last {
          var glyph := font.glyphs[c - font.first];
          if glyph.width > 0 && glyph.height > 0 {
            var reach: int := textSizeX * (glyph.xOffset + glyph.width);
            assert reach == StyleNow().Reach(c);
            if wrap && cursorX + reach > width {
              cursorX := 0;
              cursorY := ToInt16(cursorY + textSizeY * font.yAdvance);
            }
            assert Drawable(StyleNow(), height, placed[0]);
            calls := DrawChar(cursorX, cursorY, c, textColor, textBgColor);
          }
          cursorX := ToInt16(cursorX + glyph.xAdvance * textSizeX);
        }
      }
    }

    /** Advances the measuring cursor over one character and grows the bounding box by it. */
    method CharBounds(c: uint8, x: int16, y: int16, minx: int16, miny: int16, maxx: int16, maxy: int16)
      returns (x': int16, y': int16, minx': int16, miny': int16, maxx': int16, maxy': int16)
      requires Valid()
      ensures Cursor(x', y') == MeasureStep(StyleNow(), Cursor(x, y), c).0
      ensures ExtentAfter(StyleNow(), Extent(minx, miny, maxx, maxy),
                          MeasureStep(StyleNow(), Cursor(x, y), c).1, Extent(minx', miny', maxx', maxy'))
    {
      if gfxFont.Some? {
        x', y', minx', miny', maxx', maxy' := CustomBounds(c, x, y, minx, miny, maxx, maxy, gfxFont.value);
      } else {
        x', y', minx', miny', maxx', maxy' := ClassicBounds(c, x, y, minx, miny, maxx, maxy);
      }
    }

    method GlyphBounds(glyph: Glyph, x: int16, y: int16, minx: int16, miny: int16, maxx: int16, maxy: int16)
      returns (minx': int16, miny': int16, maxx': int16, maxy': int16)
      ensures GlyphBox(StyleNow(), glyph, x, y).Fits() ==>
        Extent(minx', miny', maxx', maxy') ==
        Grown(Extent(minx, miny, maxx, maxy), GlyphBox(StyleNow(), glyph, x, y))
    {
      var x1 := ToInt16(x + glyph.xOffset * textSizeX);
      var y1 := ToInt16(y + glyph.yOffset * textSizeY);
      var x2 := ToInt16(x1 + glyph.width * textSizeX - 1);
      var y2 := ToInt16(y1 + glyph.height * textSizeY - 1);
      minx', miny', maxx', maxy' := GrowExtent(minx, miny, maxx, maxy, x1, y1, x2, y2);
    }

    /** The custom-font branch. */
    method CustomBounds(c: uint8, x: int16, y: int16, minx: int16, miny: int16, maxx: int16, maxy: int16, font: Font)
      returns (x': int16, y': int16, minx': int16, miny': int16, maxx': int16, maxy': int16)
      requires Valid() && gfxFont == Some(font)
      ensures Cursor(x', y') == MeasureStep(StyleNow(), Cursor(x, y), c).0
      ensures ExtentAfter(StyleNow(), Extent(minx, miny, maxx, maxy),
                          MeasureStep(StyleNow(), Cursor(x, y), c).1, Extent(minx', miny', maxx', maxy'))
    {
      minx', miny', maxx', maxy' := minx, miny, maxx, maxy;
      x', y' := x, y;
      var lineHeight := textSizeY * font.yAdvance;
      if c == NEWLINE {
        x' := 0;
        y' := ToInt16(y' + lineHeight);
      } else if c != RETURN {
        if c >= font.first && c <= font.last {
          var glyph := font.glyphs[c - font.first];
          var reach: int := (glyph.xOffset + glyph.width) * textSizeX;
          var advance := glyph.xAdvance * textSizeX;
          assert reach == StyleNow().Reach(c);
          if wrap && x' + reach > width {
            x' := 0;
            y' := ToInt16(y' + lineHeight);
          }
          minx', miny', maxx', maxy' := GlyphBounds(glyph, x', y', minx', miny', maxx', maxy');
          x' := ToInt16(x' + advance);
        }
      }
    }

    /** The classic-font branch. */
    method ClassicBounds(c: uint8, x: int16, y: int16, minx: int16, miny: int16, maxx: int16, maxy: int16)
      returns (x': int16, y': int16, minx': int16, miny': int16, maxx': int16, maxy': int16)
      requires Valid() && gfxFont == None
      ensures Cursor(x', y') == MeasureStep(StyleNow(), Cursor(x, y), c).0
      ensures ExtentAfter(StyleNow(), Extent(minx, miny, maxx, maxy),
                          MeasureStep(StyleNow(), Cursor(x, y), c).1, Extent(minx', miny', maxx', maxy'))
    {
      x', y', minx', miny', maxx', maxy' := x, y, minx, miny, maxx, maxy;
      if c == NEWLINE {
        x' := 0;
        y' := ToInt16(y' + textSizeY * 8);
      } else if c != RETURN {
        if wrap && x' + textSizeX * 6 > width {
          x' := 0;
          y' := ToInt16(y' + textSizeY * 8);
        }
        var x2 := x' + textSizeX * 6 - 1;
        var y2 := y' + textSizeY * 8 - 1;
        minx', miny', maxx', maxy' := GrowExtent(minx', miny', maxx', maxy', x', y', x2, y2);
        x' := ToInt16(x' + textSizeX * 6);
      }
    }

    /** The loop of `getTextBounds`: the extremes over the whole text. */
    method MeasureText(text: seq<uint8>, x: int16, y: int16)
      returns (minx: int16, miny: int16, maxx: int16, maxy: int16)
      requires Valid()
      ensures AllFit(MeasuredBoxes(StyleNow(), Cursor(x, y), text)) ==>
        Extent(minx, miny, maxx, maxy) == ExtentOf(MeasuredBoxes(StyleNow(), Cursor(x, y), text))
    {
      var cx: int16, cy: int16 := x, y;
      minx, miny, maxx, maxy := 0x7FFF, 0x7FFF, -1, -1;
      ghost var st, start := StyleNow(), Cursor(x, y);
      for n := 0 to |text|
        invariant Cursor(cx, cy) == MeasureRun(st, start, text[..n]).0
        invariant AllFit(MeasuredBoxes(st, start, text)) ==>
          Extent(minx, miny, maxx, maxy) == ExtentOf(MeasuredBoxes(st, start, text[..n]))
      {
        MeasuredPrefix(st, start, text, n);
        cx, cy, minx, miny, maxx, maxy := CharBounds(text[n], cx, cy, minx, miny, maxx, maxy);
      }
      assert text[..|text|] == text;
    }

    /** The upper left corner and the size of what the text, up to its terminator, measures. */
    method GetTextBounds(text: seq<uint8>, x: int16, y: int16) returns (x1: int16, y1: int16, w: uint16, h: uint16)
      requires Valid()
      ensures var boxes := MeasuredBoxes(StyleNow(), Cursor(x, y), text);
              AllFit(boxes) ==>
                if boxes == [] then (x1, y1, w, h) == (x, y, 0, 0)
                else Reported(ExtentOf(boxes), x, y, x1, y1, w, h)
    {
      var minx, miny, maxx, maxy := MeasureText(text, x, y);
      ghost var boxes := MeasuredBoxes(StyleNow(), Cursor(x, y), text);
      if boxes != [] && AllFit(boxes) {
        ExtentTight(boxes);
      }
      x1, w := ReportSide(minx, maxx, x);
      y1, h := ReportSide(miny, maxy, y);
    }

    /** `print`: one character after the other.  The calls are those of the characters, each drawn at its place. */
    method Print(text: seq<uint8>) returns (calls: seq<Call>, ghost parts: seq<seq<Call>>)
      requires Valid() && AllDrawable(StyleNow(), height, WriteRun(StyleNow(), CursorNow(), text).1)
      modifies this`cursorX, this`cursorY
      ensures AllPlayable(calls) && calls == Flattened(parts)
      ensures CursorNow() == WriteRun(old(StyleNow()), old(CursorNow()), text).0
      ensures TextDrawn(old(StyleNow()), InkNow(), WriteRun(old(StyleNow()), old(CursorNow()), text).1, parts)
    {
      ghost var st, ink, start := StyleNow(), InkNow(), CursorNow();
      calls, parts := [], [];
      for n := 0 to |text|
        invariant StyleNow() == st && InkNow() == ink && CursorNow() == WriteRun(st, start, text[..n]).0
        invariant Printed(st, ink, start, text[..n], calls, parts)
      {
        calls, parts := PrintNext(text, n, calls, start, parts);
      }
      assert text[..|text|] == text;
    }

    method PrintNext(text: seq<uint8>, n: nat, calls: seq<Call>, ghost start: Cursor, ghost parts: seq<seq<Call>>)
      returns (calls': seq<Call>, ghost parts': seq<seq<Call>>)
      requires Valid() && n < |text| && AllDrawable(StyleNow(), height, WriteRun(StyleNow(), start, text).1)
      requires CursorNow() == WriteRun(StyleNow(), start, text[..n]).0
      requires Printed(StyleNow(), InkNow(), start, text[..n], calls, parts)
      modifies this`cursorX, this`cursorY
      ensures CursorNow() == WriteRun(StyleNow(), start, text[..n + 1]).0
      ensures Printed(StyleNow(), InkNow(), start, text[..n + 1], calls', parts')
    {
      ghost var st, ink := StyleNow(), InkNow();
      WrittenPrefix(st, height, start, text, n);
      ghost var placed := WriteStep(st, CursorNow(), text[n]).1;
      var more := Write(text[n]);
      TextDrawnMore(st, ink, start, text, n, parts, more);
      calls' := calls + more;
      parts' := if placed == [] then parts else parts + [more];
    }

    /** Measure at the cursor, then print: the bounds enclose every painted pixel, if nothing is printed after a
        character has strayed; and the cursor ends where measuring left its own, if none strays. */
    method PrintInsideBounds(text: seq<uint8>) returns (calls: seq<Call>, x1: int16, y1: int16, w: uint16, h: uint16)
      requires Valid() && PrintsBeforeStraying(StyleNow(), CursorNow(), text)
      requires AllFit(MeasuredBoxes(StyleNow(), CursorNow(), text))
      modifies this`cursorX, this`cursorY
      ensures CursorNow() == WriteRun(old(StyleNow()), old(CursorNow()), text).0
      ensures old(NeverStrays(StyleNow(), CursorNow(), text)) ==>
        CursorNow() == MeasureRun(old(StyleNow()), old(CursorNow()), text).0
      ensures forall px, py :: Hits(calls, px, py) > 0 ==> x1 <= px < x1 + w && y1 <= py < y1 + h
    {
      ghost var st, start := StyleNow(), CursorNow();
      x1, y1, w, h := GetTextBounds(text, cursorX, cursorY);
      if NeverStrays(st, start, text) {
        PrintedIsMeasured(st, start, text);
      }
      WrittenFit(st, height, start, text);
      ghost var parts;
      calls, parts := Print(text);
      forall px, py | Hits(calls, px, py) > 0 ensures x1 <= px < x1 + w && y1 <= py < y1 + h {
        var n := DrawnInBoxes(st, InkNow(), WriteRun(st, start, text).1, parts, px, py);
        PrintedInExtent(st, start, text, n);
      }
    }
  }

  lemma WrittenFit(st: Style, height: int, cur: Cursor, text: seq<uint8>)
    requires st.Valid() && PrintsBeforeStraying(st, cur, text) && AllFit(MeasuredBoxes(st, cur, text))
    ensures AllDrawable(st, height, WriteRun(st, cur, text).1)
  {
    RunsPrint(st, cur, text);
    var written := WriteRun(st, cur, text).1;
    forall k | 0 <= k < |written| ensures Drawable(st, height, written[k]) {
      PrintedInExtent(st, cur, text, k);
      BoxedDrawable(st, height, written[k]);
    }
  }

  function Flattened(parts: seq<seq<Call>>): seq<Call> {
    if parts == [] then [] else Flattened(parts[..|parts| - 1]) + parts[|parts| - 1]
  }

  /** Part k of the calls draws character k where it was placed. */
  ghost predicate TextDrawn(st: Style, ink: Ink, placed: seq<Placed>, parts: seq<seq<Call>>)
    requires st.Valid()
  {
    && AllPrint(st, placed) && |parts| == |placed|
    && forall k :: 0 <= k < |placed| ==> CharDrawn(st, ink, placed[k], parts[k])
  }

  /** The calls so far are those of the characters of the text so far. */
  ghost predicate Printed(st: Style, ink: Ink, start: Cursor, text: seq<uint8>, calls: seq<Call>, parts: seq<seq<Call>>)
    requires st.Valid()
  {
    AllPlayable(calls) && calls == Flattened(parts) && TextDrawn(st, ink, WriteRun(st, start, text).1, parts)
  }

  lemma TextDrawnMore(st: Style, ink: Ink, cur: Cursor, text: seq<uint8>, n: nat, parts: seq<seq<Call>>,
                      more: seq<Call>)
    requires st.Valid() && n < |text|
    requires TextDrawn(st, ink, WriteRun(st, cur, text[..n]).1, parts)
    requires var placed := WriteStep(st, WriteRun(st, cur, text[..n]).0, text[n]).1;
             if placed == [] then more == []
             else st.Prints(placed[0].c) && CharDrawn(st, ink, placed[0], more)
    ensures var placed := WriteStep(st, WriteRun(st, cur, text[..n]).0, text[n]).1;
            var parts' := if placed == [] then parts else parts + [more];
            && TextDrawn(st, ink, WriteRun(st, cur, text[..n + 1]).1, parts')
            && Flattened(parts') == Flattened(parts) + more
  {
    WrittenNext(st, cur, text, n);
    var placed := WriteStep(st, WriteRun(st, cur, text[..n]).0, text[n]).1;
    if placed == [] {
      assert Flattened(parts) + more == Flattened(parts);
      assert WriteRun(st, cur, text[..n]).1 + placed == WriteRun(st, cur, text[..n]).1;
    } else {
      assert placed == [placed[0]];
      OneMoreChar(st, ink, WriteRun(st, cur, text[..n]).1, parts, placed[0], more);
    }
  }

  lemma OneMoreChar(st: Style, ink: Ink, placed: seq<Placed>, parts: seq<seq<Call>>, p: Placed, more: seq<Call>)
    requires st.Valid() && TextDrawn(st, ink, placed, parts) && st.Prints(p.c) && CharDrawn(st, ink, p, more)
    ensures TextDrawn(st, ink, placed + [p], parts + [more]) && Flattened(parts + [more]) == Flattened(parts) + more
  {
    assert (parts + [more])[..|parts|] == parts;
    forall k | 0 <= k < |placed + [p]|
      ensures st.Prints((placed + [p])[k].c) && CharDrawn(st, ink, (placed + [p])[k], (parts + [more])[k])
    {
      if k < |placed| {
        assert (placed + [p])[k] == placed[k] && (parts + [more])[k] == parts[k];
      }
    }
  }

  /** A pixel painted by the text is painted by one of its characters, inside that character's box. */
  lemma {:induction false} DrawnInBoxes(st: Style, ink: Ink, placed: seq<Placed>, parts: seq<seq<Call>>, px: int, py: int)
    returns (k: nat)
    requires st.Valid() && TextDrawn(st, ink, placed, parts)
    requires Hits(Flattened(parts), px, py) > 0
    ensures k < |placed| && BoxOf(st, placed[k]).Contains(px, py)
  {
    var n := |parts| - 1;
    HitsConcat(Flattened(parts[..n]), parts[n], px, py);
    if Hits(parts[n], px, py) > 0 {
      CharInBox(st, ink, placed[n], parts[n], px, py);
      k := n;
    } else {
      k := DrawnInBoxes(st, ink, placed[..n], parts[..n], px, py);
    }
  }

  lemma WrittenNext(st: Style, cur: Cursor, text: seq<uint8>, n: nat)
    requires st.Valid() && n < |text|
    ensures var (next, placed) := WriteStep(st, WriteRun(st, cur, text[..n]).0, text[n]);
            && WriteRun(st, cur, text[..n + 1]) == (next, WriteRun(st, cur, text[..n]).1 + placed)
            && |placed| <= 1 && AllPrint(st, placed)
  {
    assert text[..n + 1][..n] == text[..n];
  }

  /** One more character of a text is one of the text's. */
  lemma WrittenPrefix(st: Style, height: int, cur: Cursor, text: seq<uint8>, n: nat)
    requires st.Valid() && n < |text| && AllDrawable(st, height, WriteRun(st, cur, text).1)
    ensures var (next, placed) := WriteStep(st, WriteRun(st, cur, text[..n]).0, text[n]);
            && WriteRun(st, cur, text[..n + 1]) == (next, WriteRun(st, cur, text[..n]).1 + placed)
            && AllDrawable(st, height, placed)
  {
    var before, placed := WriteRun(st, cur, text[..n]).1, WriteStep(st, WriteRun(st, cur, text[..n]).0, text[n]).1;
    WrittenNext(st, cur, text, n);
    WrittenGrows(st, cur, text, n + 1);
    if placed != [] {
      assert WriteRun(st, cur, text).1[|before|] == placed[0];
    }
  }

  lemma {:induction false} WrittenGrows(st: Style, cur: Cursor, text: seq<uint8>, n: nat)
    requires st.Valid() && n <= |text|
    ensures WriteRun(st, cur, text[..n]).1 <= WriteRun(st, cur, text).1
    decreases |text|
  {
    if n < |text| {
      WrittenGrows(st, cur, text[..|text| - 1], n);
      assert text[..|text| - 1][..n] == text[..n];
    } else {
      assert text[..n] == text;
    }
  }

  /** What `getTextBounds` reports for an extent: the extent, or the start position and 0 where it is inverted. */
  predicate Reported(e: Extent, x: int, y: int, x1: int, y1: int, w: int, h: int) {
    && (x1, w) == (if e.maxx >= e.minx then (e.minx, e.maxx - e.minx + 1) else (x, 0))
    && (y1, h) == (if e.maxy >= e.miny then (e.miny, e.maxy - e.miny + 1) else (y, 0))
  }

  lemma MeasuredNext(st: Style, cur: Cursor, text: seq<uint8>, n: nat)
    requires st.Valid() && n < |text|
    ensures var (next, placed) := MeasureStep(st, MeasureRun(st, cur, text[..n]).0, text[n]);
            MeasureRun(st, cur, text[..n + 1]) == (next, MeasureRun(st, cur, text[..n]).1 + placed)
  {
    assert text[..n + 1][..n] == text[..n];
  }

  /** One more character of a text: its box is one of the text's, and the extent grows by it. */
  lemma MeasuredPrefix(st: Style, cur: Cursor, text: seq<uint8>, n: nat)
    requires st.Valid() && n < |text|
    ensures var mid := MeasureRun(st, cur, text[..n]).0;
            var (next, placed) := MeasureStep(st, mid, text[n]);
            var e, e' := ExtentOf(MeasuredBoxes(st, cur, text[..n])), ExtentOf(MeasuredBoxes(st, cur, text[..n + 1]));
            && MeasureRun(st, cur, text[..n + 1]).0 == next
            && (placed == [] ==> e' == e)
            && (placed != [] ==> e' == Grown(e, BoxOf(st, placed[0])))
            && (placed != [] && AllFit(MeasuredBoxes(st, cur, text)) ==> BoxOf(st, placed[0]).Fits())
  {
    var placed := MeasureStep(st, MeasureRun(st, cur, text[..n]).0, text[n]).1;
    MeasuredNext(st, cur, text, n);
    MeasuredGrows(st, cur, text, n + 1);
    var before, after := MeasureRun(st, cur, text[..n]).1, MeasureRun(st, cur, text[..n + 1]).1;
    RunsPrint(st, cur, text[..n]);
    RunsPrint(st, cur, text[..n + 1]);
    RunsPrint(st, cur, text);
    if placed == [] {
      assert after == before;
    } else {
      ExtentSnoc(st, before, after, placed[0]);
      assert after[|before|] == placed[0];
      assert MeasuredBoxes(st, cur, text)[|before|] == BoxOf(st, placed[0]);
    }
  }

  lemma ExtentSnoc(st: Style, before: seq<Placed>, after: seq<Placed>, p: Placed)
    requires st.Valid() && AllPrint(st, before) && AllPrint(st, after) && after == before + [p]
    ensures ExtentOf(BoxesOf(st, after)) == Grown(ExtentOf(BoxesOf(st, before)), BoxOf(st, p))
  {
    var n := |before|;
    assert after[n] == p && forall k :: 0 <= k < n ==> after[k] == before[k];
    assert BoxesOf(st, after)[..n] == BoxesOf(st, before);
  }

  lemma {:induction false} MeasuredGrows(st: Style, cur: Cursor, text: seq<uint8>, n: nat)
    requires st.Valid() && n <= |text|
    ensures MeasureRun(st, cur, text[..n]).1 <= MeasureRun(st, cur, text).1
    decreases |text|
  {
    if n < |text| {
      MeasuredGrows(st, cur, text[..|text| - 1], n);
      assert text[..|text| - 1][..n] == text[..n];
    } else {
      assert text[..n] == text;
    }
  }
}
