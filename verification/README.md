# Verification of the raster core, the audio jitter buffers and the menu window

This project models three parts of the M5StickC Bluetooth microphone firmware in Dafny and proves what they do:

- the two-dimensional raster core of `Adafruit_GFX.cpp`: Bresenham lines, rectangles, midpoint circles (outline and
  fill), rounded rectangles, scan-converted triangles, bitmaps, characters, text layout with its separate measurer,
  and the packed one-bit canvas `GFXcanvas1` in its four rotations;
- the two jitter buffers of `sco_demo_util.c` on BTstack's ring buffer, driven by four interleaved callbacks;
- the scrolling window of `Menu.h`, which blits one canvas into another.

`dafny verify dfyconfig.toml` checks the whole project.

## How the model is built

**Drawing.** The base class `Adafruit_GFX` never reads pixels back. It draws through three virtual primitives
(`writePixel`, `writeFastVLine`, `writeFastHLine`; `writeFillRect` is a loop of the second). Each routine is a method
with the source's loops and int16 variables that returns the sequence of virtual calls it makes (`Raster.Call`).
`Raster.Hits` says how often a pixel is painted, so "exactly these pixels" and "no pixel twice" (which the source needs
for displays with an inverting draw mode) are one equation. `Raster.Paint` says what a one-bit display shows afterwards.

**Canvas.** `Canvas.GFXcanvas1` is a class over an array of bytes, updated in place. `Play` dispatches a routine's
calls to the canvas's overrides. `Painted` is the specification of every canvas method: each bit of the new buffer,
padding bits included, is given by the old buffer and the calls.

**Integers.** Expressions are computed in C's `int`; a value stored in an `int16_t`, `uint8_t` or `int32_t` variable has
the subset type of that name, so the verifier proves that the store does not truncate. Where the code can wrap
(text cursors, rotating a far-away coordinate, the minor coordinate after the last pixel of a line, the glyph bit
counter) the conversion is written out and the properties hold with it.

**Shape.** Loop bodies and branches that need a proof of their own are separate methods (for example `Circles.Iterate`,
the iteration that the source repeats in every circle routine, `Triangles.Scan`, the scan loop that the source writes
twice, and `Glyphs.NextGlyphBit`). The static variables of `sco_demo_util.c` are the fields of `AudioOutput` and
`AudioInput`; ghost fields record what each accepted and delivered.

## Where the code does not do what one might expect

Each of these is proved as an exact condition, with an input that fails:

- The base fast lines and the canvas overrides agree exactly for lengths of at least 1
  (`Lines.BaseAgreesWithOverride`, `Lines.BaseHLineAgreesWithOverride`).
- `fillRoundRect` paints every column of its rectangle except when the height is 2 and the radius is clamped to 1:
  then the end columns come out with length 0 (`Fills.RoundRectTiles`).
- `charBounds` follows the cursor of `write` exactly as long as no empty glyph reaches past the right edge while
  wrapping is on: `write` does not wrap such a glyph, `charBounds` does (`Text.StepsAgree`,
  `Text.MeasuringFollowsPrinting`; four blanks are enough in `Text.BlanksStray`). What is printed before that is
  inside the measured bounds, what is printed after it need not be (`Text.PrintedInExtent`,
  `Text.PrintedOutsideBounds`).
- The speaker's stream loses exactly one byte for every request that cuts a sample in half, and keeps the order of
  the others (`JitterBuffers.Conservation`); of 801 bytes received, 401 requested samples play 800 and lose one
  (`JitterBuffers.HalfSampleLost`).
- The menu scrolls in bands of 13 pixel rows (`getItemPosition`) but prints lines 12 rows high. The band of the
  selected item stays on the window exactly if the window is taller than 13 pixels (`Menus.SelectionStaysOnWindow`),
  but its text only with few items: `Menus.TextStaysOnWindow` gives the exact condition on window height and number
  of items, and `Menus.TextScrolledOut` a run on the board's 80 pixels that ends with the selected text above the
  window.
- `clear` keeps the selected band on the window exactly if the first row is selected, because its resets of
  `scrollPosition` and `selectedItem` are local variables (`Menus.ClearKeepsOnWindow`, `Menus.ClearLosesSelection`).

## Ranges

Preconditions named `...Fits` keep the int16 variables of a routine exact. For a triangle that means, apart from the
differences of its vertices, that the span at its middle vertex has an int16 length; `Triangles.MiddleSpanDecides` shows
that this span decides for all of them. Fonts are arbitrary tables in which every character has a glyph and every glyph
its bits; the menu's font besides has lines 6 pixels high, at most 5 of them above the baseline and 1 below. A canvas's
buffer is taken to be allocated.

## Model

| member | source | states |
|---|---|---|
| Lines.WriteLine | lib/Adafruit_GFX_Library/Adafruit_GFX.cpp:132-173 | terminates; max(abs dx, abs dy) + 1 pixels, one per major step from the end with the smaller major coordinate; pixel k is at the minor distance k*dy/dx, rounded to the nearest integer and a half rounded down |
| Lines.NextError | lib/Adafruit_GFX_Library/Adafruit_GFX.cpp:164-171 | one error update keeps the minor offset the nearest one; int16 is not left, except that the minor coordinate may wrap after the last pixel |
| Lines.ErrorStep | lib/Adafruit_GFX_Library/Adafruit_GFX.cpp:167-171 | subtracting dy and adding dx on a borrow keeps err = dx/2 - k*dy + m*dx in range and m nearest |
| Lines.MinorIs | lib/Adafruit_GFX_Library/Adafruit_GFX.cpp:148-171 | the offset within half a pixel (halves down) is unique, so any offset with that property is the one drawn |
| Lines.LineAccuracy | lib/Adafruit_GFX_Library/Adafruit_GFX.cpp:132-173 | in every octant and direction each pixel is within half a pixel of the exact line through the given endpoints |
| Lines.LineEnds | lib/Adafruit_GFX_Library/Adafruit_GFX.cpp:132-173 | the walk starts and ends on the two endpoints |
| Lines.LineReversed | lib/Adafruit_GFX_Library/Adafruit_GFX.cpp:137-146 | exchanging the endpoints gives the same pixel sequence |
| Lines.LineConnected | lib/Adafruit_GFX_Library/Adafruit_GFX.cpp:161-172 | consecutive pixels touch |
| Lines.LineHits | lib/Adafruit_GFX_Library/Adafruit_GFX.cpp:161-172 | each pixel of the line is painted once, no other is painted |
| Lines.DrawLine | lib/Adafruit_GFX_Library/Adafruit_GFX.cpp:330-346 | paints just the pixels of `writeLine`, each once, with one fast call if the line is parallel to an axis |
| Lines.AxisLine | lib/Adafruit_GFX_Library/Adafruit_GFX.cpp:330-346 | the Bresenham line along an axis is the run of pixels between its ends |
| Lines.BaseDrawFastVLine | lib/Adafruit_GFX_Library/Adafruit_GFX.cpp:265-270 | through `writeLine`: the pixels from y to y+h-1 in either order, once each |
| Lines.BaseDrawFastHLine | lib/Adafruit_GFX_Library/Adafruit_GFX.cpp:282-287 | the same along x |
| Lines.BaseAgreesWithOverride | lib/Adafruit_GFX_Library/Adafruit_GFX.cpp:1904-1934 | base and override cover the same pixels if and only if the length is at least 1 |
| Lines.BaseHLineAgreesWithOverride | lib/Adafruit_GFX_Library/Adafruit_GFX.cpp:1960-1989 | the same along x |
| Lines.FillRect | lib/Adafruit_GFX_Library/Adafruit_GFX.cpp:300-307 | each pixel of the rectangle once, column by column |
| Circles.MidpointStep | lib/Adafruit_GFX_Library/Adafruit_GFX.cpp:371-379 | f = (x+1)^2 + y^2 - y - r^2, ddF_x = 2x+1, ddF_y = -2y and the distance bounds of the octant point are kept by every iteration |
| Circles.MidpointRange | lib/Adafruit_GFX_Library/Adafruit_GFX.cpp:362-379 | -2r <= f <= 2r+1, so int16 is enough up to radius 16383 |
| Circles.Iterate | lib/Adafruit_GFX_Library/Adafruit_GFX.cpp:371-379 | the int16 code of the iteration keeps the invariant; x grows by one, y shrinks exactly if f >= 0 |
| Circles.MidpointEnd | lib/Adafruit_GFX_Library/Adafruit_GFX.cpp:371-392 | when the loop stops no pixel of the circle is left over |
| Circles.DrawCircle | lib/Adafruit_GFX_Library/Adafruit_GFX.cpp:357-394 | plots exactly the pixels whose larger coordinate is the rounded square root of r^2 minus the smaller one squared |
| Circles.PlottedAccuracy | lib/Adafruit_GFX_Library/Adafruit_GFX.cpp:362-393 | every outline pixel satisfies abs(i^2+j^2-r^2) <= max(abs i, abs j) <= r |
| Fills.FillCircleHelper | lib/Adafruit_GFX_Library/Adafruit_GFX.cpp:471-511 | every column of the wanted halves once, between its outermost outline pixels, the lower one moved by delta; nothing else |
| Fills.NearColumn | lib/Adafruit_GFX_Library/Adafruit_GFX.cpp:495-500 | before the diagonal the new point is the top of its column |
| Fills.FarColumn | lib/Adafruit_GFX_Library/Adafruit_GFX.cpp:501-509 | when y is about to change, column y has its top at the present x |
| Fills.FillCircle | lib/Adafruit_GFX_Library/Adafruit_GFX.cpp:452-458 | each pixel of the hull of the outline exactly once |
| Fills.FillIsHullOfOutline | lib/Adafruit_GFX_Library/Adafruit_GFX.cpp:452-511 | a pixel is filled, once, if and only if `drawCircle` plots one at least as far out in its column |
| Fills.FillAgainstOutline | lib/Adafruit_GFX_Library/Adafruit_GFX.cpp:357-511 | the same about the calls that the two routines make |
| Fills.FillCircleColumns | lib/Adafruit_GFX_Library/Adafruit_GFX.cpp:452-511 | no column from -r to r is missed |
| Fills.FillCoversDisc | lib/Adafruit_GFX_Library/Adafruit_GFX.cpp:452-511 | every lattice point of the disc is filled |
| Fills.FillNearDisc | lib/Adafruit_GFX_Library/Adafruit_GFX.cpp:452-511 | every filled pixel satisfies i^2+j^2 <= r^2+r |
| Fills.FillRoundRect | lib/Adafruit_GFX_Library/Adafruit_GFX.cpp:574-586 | each pixel of the rounded rectangle of the clamped radius exactly once; for a radius of 0 or less the rectangle, widened by it |
| Fills.ClampedRadiusIs | lib/Adafruit_GFX_Library/Adafruit_GFX.cpp:576-578 | the radius asked for if it fits twice into both sides, else the greatest that does |
| Fills.RoundRectInside | lib/Adafruit_GFX_Library/Adafruit_GFX.cpp:574-586 | nothing outside [x,x+w) x [y,y+h) |
| Fills.RoundRectSymmetric | lib/Adafruit_GFX_Library/Adafruit_GFX.cpp:574-586 | symmetric left-right and top-bottom |
| Fills.RoundRectTiles | lib/Adafruit_GFX_Library/Adafruit_GFX.cpp:574-586 | every column is painted if and only if not (height 2 and clamped radius 1) |
| Fills.ColumnExists | lib/Adafruit_GFX_Library/Adafruit_GFX.cpp:488-510 | every column up to r has a topmost outline pixel, of height 0 only in the last column of radius 0 or 1 |
| Triangles.FillTriangle | lib/Adafruit_GFX_Library/Adafruit_GFX.cpp:619-701 | one run per scanline from the least to the greatest y, in order, with the longhand crossings; each pixel once; no division by zero |
| Triangles.Scan | lib/Adafruit_GFX_Library/Adafruit_GFX.cpp:666-679 | the incremental loop (the source's two loops) writes the longhand spans |
| Triangles.FillSorted | lib/Adafruit_GFX_Library/Adafruit_GFX.cpp:647-699 | upper and lower part together cover every scanline once, the middle one by exactly one of them |
| Triangles.FillFlat | lib/Adafruit_GFX_Library/Adafruit_GFX.cpp:638-652 | the case of three vertices on one scanline is one run from the least to the greatest x |
| Triangles.VertexOrder | lib/Adafruit_GFX_Library/Adafruit_GFX.cpp:624-636 | all six orders of the vertices fill the same pixels |
| Triangles.FitsInAnyOrder | lib/Adafruit_GFX_Library/Adafruit_GFX.cpp:624-636 | what `fillTriangle` can take does not depend on the order, either |
| Triangles.EdgeAccuracy | lib/Adafruit_GFX_Library/Adafruit_GFX.cpp:674-677 | a crossing is less than a pixel from the exact one and between the ends of its edge |
| Triangles.EdgeEnds | lib/Adafruit_GFX_Library/Adafruit_GFX.cpp:674-677 | a crossing is exact at both ends of its edge |
| Triangles.SpanInside | lib/Adafruit_GFX_Library/Adafruit_GFX.cpp:666-699 | every span is non-empty and in the x-range of the vertices |
| Triangles.MiddleSpanDecides | lib/Adafruit_GFX_Library/Adafruit_GFX.cpp:666-699 | all span lengths fit in int16 if and only if that of the middle vertex does |
| Triangles.FillCoversTriangle | lib/Adafruit_GFX_Library/Adafruit_GFX.cpp:619-701 | every lattice point of the closed triangle, given by half-planes, is filled |
| Triangles.FillNearTriangle | lib/Adafruit_GFX_Library/Adafruit_GFX.cpp:619-701 | a painted pixel is less than a pixel away from the triangle on its scanline |
| Triangles.FillInBox | lib/Adafruit_GFX_Library/Adafruit_GFX.cpp:619-701 | nothing outside the bounding box |
| Triangles.FillCoversVertices | lib/Adafruit_GFX_Library/Adafruit_GFX.cpp:619-701 | the three vertices are painted |
| Canvas.RotationBijective | lib/Adafruit_GFX_Library/Adafruit_GFX.cpp:1793-1808 | rotation is a bijection between logical and raw pixels that respects the canvas borders |
| Canvas.OriginStored | lib/Adafruit_GFX_Library/Adafruit_GFX.cpp:1788-1824 | drawing the upper left pixel of the picture sets raw (0, 0), (W-1, 0), (W-1, H-1) or (0, H-1) for rotations 0 to 3 |
| Canvas.StoredOnce | lib/Adafruit_GFX_Library/Adafruit_GFX.cpp:1788-1824 | a drawn pixel sets one raw bit and no other |
| Canvas.RotationTurns | lib/Adafruit_GFX_Library/Adafruit_GFX.cpp:1793-1808 | a step right and a step down in the picture are one raw pixel each, the second a quarter turn clockwise from the first: no rotation mirrors |
| Canvas.DrawCorner | lib/Adafruit_GFX_Library/Adafruit_GFX.cpp:1788-1880 | the corner read back with `getRawPixel` after `drawPixel` |
| Canvas.ScanlinesInOrder | lib/Adafruit_GFX_Library/Adafruit_GFX.cpp:1788-1880 | the bits of a buffer are its scanlines one after the other, from left to right |
| Canvas.RotationWraps | lib/Adafruit_GFX_Library/Adafruit_GFX.cpp:1835-1854 | rotating any int16 position in int16 arithmetic never wraps it onto the canvas |
| Canvas.CellInjective | lib/Adafruit_GFX_Library/Adafruit_GFX.cpp:1810 | distinct byte columns and scanlines are distinct bytes |
| Canvas.BufferExtensional | lib/Adafruit_GFX_Library/Adafruit_GFX.cpp:1763-1768 | a buffer is determined by its bits |
| Bits.PlaceValues | lib/Adafruit_GFX_Library/Adafruit_GFX.cpp:1810-1822 | bit 0 of a byte is the most significant one |
| Canvas.GFXcanvas1.constructor | lib/Adafruit_GFX_Library/Adafruit_GFX.cpp:1763-1768 | a canvas of the given size, unrotated, with no pixel lit |
| Canvas.GFXcanvas1.SetRotation | lib/Adafruit_GFX_Library/Adafruit_GFX.cpp:1316-1330 | rotation modulo 4, with width and height exchanged for odd ones |
| Canvas.GFXcanvas1.DrawPixel | lib/Adafruit_GFX_Library/Adafruit_GFX.cpp:1788-1824 | one pixel under the rotation; off-canvas ignored; every other bit unchanged |
| Canvas.GFXcanvas1.GetPixel | lib/Adafruit_GFX_Library/Adafruit_GFX.cpp:1835-1854 | the logical pixel for every int16 position, 0 off the canvas |
| Canvas.GFXcanvas1.GetRawPixel | lib/Adafruit_GFX_Library/Adafruit_GFX.cpp:1867-1880 | the raw pixel, 0 outside the raw canvas |
| Canvas.ReadOverWrite | lib/Adafruit_GFX_Library/Adafruit_GFX.cpp:1788-1880 | after a pixel is drawn it reads back, and every other pixel reads as before |
| Canvas.GFXcanvas1.FillScreen | lib/Adafruit_GFX_Library/Adafruit_GFX.cpp:1888-1893 | every bit, padding included, has the colour |
| Canvas.GFXcanvas1.DrawFastRawHLine | lib/Adafruit_GFX_Library/Adafruit_GFX.cpp:2053-2107 | first-byte mask, memset and last-byte mask set exactly bits x to x+w-1 of scanline y, padding and all else unchanged |
| Canvas.RunMask | lib/Adafruit_GFX_Library/Adafruit_GFX.cpp:2062-2070 | the mask loop selects exactly the bits of the run |
| Canvas.BytesStored | lib/Adafruit_GFX_Library/Adafruit_GFX.cpp:2081-2086 | the memset fills exactly a run of whole-byte columns of one scanline |
| Canvas.GFXcanvas1.DrawFastRawVLine | lib/Adafruit_GFX_Library/Adafruit_GFX.cpp:2015-2042 | exactly bit x of scanlines y to y+h-1 |
| Canvas.GFXcanvas1.DrawFastVLine | lib/Adafruit_GFX_Library/Adafruit_GFX.cpp:1904-1949 | for every rotation, position and signed length, the pixels of the run that are on the canvas, bit for bit |
| Canvas.GFXcanvas1.DrawFastHLine | lib/Adafruit_GFX_Library/Adafruit_GFX.cpp:1960-2004 | the same along x |
| Canvas.GFXcanvas1.Play | lib/Adafruit_GFX_Library/Adafruit_GFX.h:28-66 | the virtual calls of a base routine, dispatched to the overrides, have their combined effect |
| Canvas.SamePaintSameBuffer | lib/Adafruit_GFX_Library/Adafruit_GFX.cpp:1788-2107 | the final bytes depend only on what the calls paint |
| Agreement.MonochromeOnCanvas | lib/Adafruit_GFX_Library/Adafruit_GFX.cpp:1788-2004 | a one-colour routine changes exactly the pixels it hits |
| Agreement.FastLineIsPixelLoop | lib/Adafruit_GFX_Library/Adafruit_GFX.cpp:1904-2004 | a fast line leaves the buffer that a `drawPixel` loop over its run leaves |
| Agreement.LinePathsAgree | lib/Adafruit_GFX_Library/Adafruit_GFX.cpp:330-346 | `drawLine` through the overrides and `writeLine` through `drawPixel` leave the same buffer |
| Agreement.FastVLinePathsAgree | lib/Adafruit_GFX_Library/Adafruit_GFX.cpp:265-270 | base and overridden `drawFastVLine` leave the same buffer for lengths of at least 1 |
| Agreement.FastHLinePathsAgree | lib/Adafruit_GFX_Library/Adafruit_GFX.cpp:282-287 | the same for `drawFastHLine` |
| Agreement.FillScreenPathsAgree | lib/Adafruit_GFX_Library/Adafruit_GFX.cpp:316-318 | base `fillScreen` through `fillRect` and the override show the same picture |
| Bitmaps.DrawBitmap | lib/Adafruit_GFX_Library/Adafruit_GFX.cpp:817-834 | every pixel of the rectangle once, in the colour that its bit of the packed bitmap selects |
| Bitmaps.NextBits | lib/Adafruit_GFX_Library/Adafruit_GFX.cpp:826-829 | the shift register presents bit i of the scanline, for every i |
| Bitmaps.BitmapPaint | lib/Adafruit_GFX_Library/Adafruit_GFX.cpp:817-834 | what a one-bit display shows inside and outside the bitmap |
| Bitmaps.ShowScrolled | example/PandaMicTx/Navigation/Menu.h:180-182 | clearing and blitting another canvas's buffer s rows up shows exactly that canvas's pixels s rows up, dark elsewhere, for every width |
| Glyphs.DrawClassic | lib/Adafruit_GFX_Library/Adafruit_GFX.cpp:1138-1174 | nothing if off screen; else every pixel of the 6 x 8 cell once if solid, only the set pixels if transparent, each in its colour |
| Glyphs.OffScreenIs | lib/Adafruit_GFX_Library/Adafruit_GFX.cpp:1140-1144 | the early return is taken if and only if no pixel of the cell is on the screen |
| Glyphs.ClassicCodeSkips | lib/Adafruit_GFX_Library/Adafruit_GFX.cpp:1146-1147 | uncorrected codes keep their order and leave out number 176 only |
| Glyphs.ClassicShowsColumn | lib/Adafruit_GFX_Library/Adafruit_GFX.cpp:1150-1153 | a column that has been put into the table, top row in the lowest place, is shown |
| Glyphs.NextRow | lib/Adafruit_GFX_Library/Adafruit_GFX.cpp:1153 | the right shift presents the next row of the column |
| Glyphs.DrawCustom | lib/Adafruit_GFX_Library/Adafruit_GFX.cpp:1176-1232 | pixel (xx, yy) is painted, once, exactly if bit yy*w+xx from bitmapOffset is set, at any magnification |
| Glyphs.GlyphShowsPicture | lib/Adafruit_GFX_Library/Adafruit_GFX.cpp:1214-1230 | a picture that has been packed row by row, bit by bit, into the font is shown |
| Glyphs.MagnifiedGlyph | lib/Adafruit_GFX_Library/Adafruit_GFX.cpp:1222-1227 | a magnified glyph is the glyph magnified about the cursor, offsets included |
| Glyphs.NextGlyphBit | lib/Adafruit_GFX_Library/Adafruit_GFX.cpp:1218-1230 | the wrapping 8-bit counter, the fetch and the shift present bit after bit |
| Glyphs.WriteBlock | lib/Adafruit_GFX_Library/Adafruit_GFX.cpp:1155-1165 | a magnified pixel is its block of pixels, once each |
| Text.StepsAgree | lib/Adafruit_GFX_Library/Adafruit_GFX.cpp:1371-1433 | over one character `charBounds` and `write` move the cursor alike if and only if it does not stray |
| Text.LineEndsAt | lib/Adafruit_GFX_Library/Adafruit_GFX.cpp:1242-1286 | a text on one line ends the text size times the sum of its xAdvance fields, or of 6 per classic character, after its start |
| Text.StandsAt | lib/Adafruit_GFX_Library/Adafruit_GFX.cpp:1242-1286 | each of its characters stands that sum over the ones before it from the start |
| Text.WrapsWhenNeeded | lib/Adafruit_GFX_Library/Adafruit_GFX.cpp:1244-1281 | a character is printed at the cursor or, if it would pass the right edge while wrapping is on, at the start of the next line; by the fields of the font |
| Text.MeasuresWhereNeeded | lib/Adafruit_GFX_Library/Adafruit_GFX.cpp:1371-1433 | `charBounds` puts every character by the same rule |
| Text.WrappedTextFits | lib/Adafruit_GFX_Library/Adafruit_GFX.cpp:1256-1276 | with wrapping on, every printed character of a text starts a line or ends before the right edge |
| Text.MeasuringFollowsPrinting | lib/Adafruit_GFX_Library/Adafruit_GFX.cpp:1242-1433 | over a whole text the cursors stay together if and only if no character strays, wrapping and int16 wrap-around included |
| Text.NothingStrays | lib/Adafruit_GFX_Library/Adafruit_GFX.cpp:1256-1282 | never with the classic font, a font without empty glyphs, or without wrapping |
| Text.BlanksStray | lib/Adafruit_GFX_Library/Adafruit_GFX.cpp:1261-1280 | four empty glyphs on a narrow display part the two cursors |
| Text.PrintedOutsideBounds | lib/Adafruit_GFX_Library/Adafruit_GFX.cpp:1242-1474 | a character printed after one has strayed can lie outside the measured extent |
| Text.StraightPart | lib/Adafruit_GFX_Library/Adafruit_GFX.cpp:1242-1286 | if nothing is printed after a character has strayed, a part of the text that never strays prints everything |
| Text.PrintedIsMeasured | lib/Adafruit_GFX_Library/Adafruit_GFX.cpp:1242-1474 | the cursors end together and everything printed is among what is measured |
| Text.TextDisplay.constructor | lib/Adafruit_GFX_Library/Adafruit_GFX.cpp:110-120 | cursor at the origin, size 1, wrapping, classic font |
| Text.TextDisplay.SetFont | lib/Adafruit_GFX_Library/Adafruit_GFX.cpp:1338-1351 | the cursor moves by 6 pixels when the kind of font changes |
| Text.TextDisplay.SetTextSize | lib/Adafruit_GFX_Library/Adafruit_GFX.cpp:1305-1308 | sizes of at least 1 |
| Text.TextDisplay.DrawChar | lib/Adafruit_GFX_Library/Adafruit_GFX.cpp:1134-1235 | the classic or the custom character, by the font that is set |
| Text.TextDisplay.Write | lib/Adafruit_GFX_Library/Adafruit_GFX.cpp:1242-1286 | the cursor after one character, and the character drawn at the place that wrapping gives it |
| Text.TextDisplay.CharBounds | lib/Adafruit_GFX_Library/Adafruit_GFX.cpp:1371-1433 | the cursor after one character, and the extremes grown by its box if that fits in int16 |
| Text.ExtentEncloses | lib/Adafruit_GFX_Library/Adafruit_GFX.cpp:1408-1428 | the extremes enclose the box of every character |
| Text.ExtentTight | lib/Adafruit_GFX_Library/Adafruit_GFX.cpp:1452-1465 | each side of the bounds is the side of a character's box, or the initial -1 for the far sides |
| Text.ReportedTight | lib/Adafruit_GFX_Library/Adafruit_GFX.cpp:1466-1473 | the sides of the reported rectangle are sides of boxes, on the positive side of the screen |
| Text.BoxIsCells | lib/Adafruit_GFX_Library/Adafruit_GFX.cpp:1393-1424 | the box of a character is exactly its magnified cells |
| Text.PrintedInExtent | lib/Adafruit_GFX_Library/Adafruit_GFX.cpp:1242-1474 | every printed character is in the extent of what is measured, if nothing is printed after one has strayed |
| Text.TextDisplay.GetTextBounds | lib/Adafruit_GFX_Library/Adafruit_GFX.cpp:1448-1474 | the extremes over the whole text as corner and size; the start position and 0 for a text without characters |
| Text.TextDisplay.Print | lib/Adafruit_GFX_Library/Adafruit_GFX.cpp:1242-1286 | the whole text: the calls are those of its characters, each drawn at its place, and the cursor ends after the last |
| Text.TextDisplay.PrintInsideBounds | lib/Adafruit_GFX_Library/Adafruit_GFX.cpp:1448-1474 | the reported rectangle contains every pixel that printing the text paints, if nothing is printed after a character has strayed |
| Text.OneLineRun | lib/Adafruit_GFX_Library/Adafruit_GFX.cpp:1256-1282 | text that fits on the line is placed on it, each character before the right edge |
| RingBuffers.StoredAppends | lib/BTstack/src/btstack_ring_buffer.c:92-117 | storing around the end of the storage appends to the queue |
| RingBuffers.SkippedDrops | lib/BTstack/src/btstack_ring_buffer.c:132-153 | advancing the read index drops the oldest bytes |
| RingBuffers.RingBuffer.constructor | lib/BTstack/src/btstack_ring_buffer.c:54-64 | an empty queue |
| RingBuffers.RingBuffer.BytesAvailable | lib/BTstack/src/btstack_ring_buffer.c:66-71 | the number of queued bytes, full and wrapped cases included |
| RingBuffers.RingBuffer.Write | lib/BTstack/src/btstack_ring_buffer.c:84-119 | appends all of the data, or nothing if it does not fit |
| RingBuffers.RingBuffer.Read | lib/BTstack/src/btstack_ring_buffer.c:122-154 | moves the oldest bytes, up to the length asked for, into the caller's buffer in order |
| JitterBuffers.PullConserves | example/PandaMicTx/esp32-hsp-hf/sco_demo_util.c:220-249 | a request loses nothing if and only if it waits or reads whole samples |
| JitterBuffers.Capacities | example/PandaMicTx/esp32-hsp-hf/sco_demo_util.c:259-290 | the speaker side takes packets while 3200 bytes hold them, the microphone side 16000, all or nothing |
| JitterBuffers.HalfSampleLost | example/PandaMicTx/esp32-hsp-hf/sco_demo_util.c:236-249 | a run from the start: 801 bytes received, 401 samples requested, 800 bytes handed out and one lost |
| JitterBuffers.StepBooks | example/PandaMicTx/esp32-hsp-hf/sco_demo_util.c:192-256 | an event loses one byte if it cuts a sample and none otherwise, and brings nothing out of order |
| JitterBuffers.StepSound | example/PandaMicTx/esp32-hsp-hf/sco_demo_util.c:192-256 | every event with whole samples keeps both streams conserved, bounded, and the output on whole samples |
| JitterBuffers.Conservation | example/PandaMicTx/esp32-hsp-hf/sco_demo_util.c:192-433 | over every interleaving of events, what the microphone side hands out is a prefix of what it accepted and the rest is queued; on the speaker side bytes stay in order, one is lost for each request that cuts a sample, and nothing is lost if and only if none does |
| JitterBuffers.WholeSamplesNeverCut | example/PandaMicTx/esp32-hsp-hf/sco_demo_util.c:399-433 | packets of whole samples never lead to a cut |
| JitterBuffers.PausesWhenShort | example/PandaMicTx/esp32-hsp-hf/sco_demo_util.c:240-249 | a call that is not kept waiting pauses the stream if and only if it comes up short, whatever is queued, and then it has emptied it |
| JitterBuffers.SilentUntilPrebuffered | example/PandaMicTx/esp32-hsp-hf/sco_demo_util.c:204-218 | once paused, only silence until a request finds the threshold reached |
| JitterBuffers.StepRunsOn | example/PandaMicTx/esp32-hsp-hf/sco_demo_util.c:220-249 | while a stream runs, whole samples have been handed out, with what is queued at least the threshold; a cut does not change that |
| JitterBuffers.SpurtsAreLong | example/PandaMicTx/esp32-hsp-hf/sco_demo_util.c:204-249 | in every run, with packets of any size: from the request that ends a pause to the next pause at least the threshold is handed out |
| ScoCallbacks.AudioOutput.ReceiveCVSD | example/PandaMicTx/esp32-hsp-hf/sco_demo_util.c:399-433 | packets of 3 to 256 bytes queue their samples, all or nothing; longer ones and one of 2 bytes are dropped |
| ScoCallbacks.AudioOutput.PlaybackCallback | example/PandaMicTx/esp32-hsp-hf/sco_demo_util.c:192-250 | what is handed out is the beginning of the speaker buffer, all whole samples queued or nothing while fewer than 800 bytes are waited for; the rest of the buffer is zeros; pause and resume as specified |
| ScoCallbacks.AudioInput.RecordingCallback | example/PandaMicTx/esp32-hsp-hf/sco_demo_util.c:253-255 | queues the samples, all or nothing |
| ScoCallbacks.AudioInput.SendPayload | example/PandaMicTx/esp32-hsp-hf/sco_demo_util.c:593-631 | what is handed out is the beginning of the payload, behind the header; the rest of the payload is zeros, and the rest of the packet untouched |
| ScoCallbacks.ReadThenSilence | example/PandaMicTx/esp32-hsp-hf/sco_demo_util.c:236-248 | the tail of both callbacks fills exactly the requested length |
| ScoCallbacks.InToOut | example/PandaMicTx/esp32-hsp-hf/sco_demo_util.c:192-433 | what is handed out is a beginning of what came in, if there was always room and no request cut a sample |
| ScoCallbacks.Interleave | example/PandaMicTx/esp32-hsp-hf/sco_demo_util.c:259-296 | any interleaving of the callbacks on freshly initialised buffers: the buffers filled have the sizes asked for, their data parts together are what was handed out, and so the beginning of what came in |
| Menus.StepKeepsOnWindow | example/PandaMicTx/Navigation/Menu.h:64-92 | a key or an addition keeps the selected item's band on a window taller than 13 pixels |
| Menus.TallWindowShowsSelection | example/PandaMicTx/Navigation/Menu.h:64-127 | over every sequence of additions and keys |
| Menus.SelectionStaysOnWindow | example/PandaMicTx/Navigation/Menu.h:189-218 | over every sequence the selection exists and its `getItemPosition` band is on the window, if and only if the window is taller than 13 pixels |
| Menus.KeysUndo | example/PandaMicTx/Navigation/Menu.h:68-77 | up takes back down and down takes back up, over the ends of the list too |
| Menus.KeysGoRound | example/PandaMicTx/Navigation/Menu.h:68-77 | n presses of a key go n items on and around the end, so every item is reached |
| Menus.FullRound | example/PandaMicTx/Navigation/Menu.h:68-77 | as many presses as there are items come back |
| Menus.TextOnTallWindow | example/PandaMicTx/Navigation/Menu.h:189-218 | on such a window the selected text is visible if and only if the scroll position is at most 12 * selected + 2 |
| Menus.TextScrolledOut | example/PandaMicTx/Navigation/Menu.h:159-178 | 20 additions and six up keys on 80 pixels leave the selected text wholly above the window |
| Menus.TextStaysOnWindow | example/PandaMicTx/Navigation/Menu.h:157-218 | over every sequence with at most n items the selected text is on the window, if and only if all bands fit, or n <= 3, or 13 * n < height + 38 and height is not 0 or 12 modulo 13 |
| Menus.ClearKeepsOnWindow | example/PandaMicTx/Navigation/Menu.h:129-135 | `clear` keeps the band on the window if and only if the first row is selected |
| Menus.ClearLosesSelection | example/PandaMicTx/Navigation/Menu.h:129-135 | one addition and one down key before `clear` are enough to lose it |
| Menus.Menu.constructor | example/PandaMicTx/Navigation/Menu.h:35-42 | one "Back" item, selected, unscrolled |
| Menus.Menu.Append | example/PandaMicTx/Navigation/Menu.h:94-127 | one more item, selection and scroll position unchanged |
| Menus.Menu.Clear | example/PandaMicTx/Navigation/Menu.h:129-135 | one "Back" item, selection and scroll position unchanged |
| Menus.Menu.Input | example/PandaMicTx/Navigation/Menu.h:64-92 | the selection moves cyclically and the window follows it; the select key activates the selected item and moves nothing |
| Menus.Menu.ScrollToItem | example/PandaMicTx/Navigation/Menu.h:189-201 | the scroll position for an item above or below the window |
| Menus.PrintItem | example/PandaMicTx/Navigation/Menu.h:164-178 | marker or indentation, label and line end, wrapped or not: the characters at their places, and the cursor on the line after the last |
| Menus.ItemRows | example/PandaMicTx/Navigation/Menu.h:164-178 | the text of an item i that is not wrapped paints only rows 12 * i + 2 to 12 * i + 13 of the list |
| Menus.TitleStandsAt | example/PandaMicTx/Navigation/Menu.h:164-178 | the characters of an item stand on the line of its number, behind the marker or 16 columns in |
| Menus.LinesDrawable | example/PandaMicTx/Navigation/Menu.h:164-178 | a list without wrapped labels can always be printed |
| Menus.PrintList | example/PandaMicTx/Navigation/Menu.h:159-178 | the list canvas has exactly the pixels of the printed items |
| Menus.TextShown | example/PandaMicTx/Navigation/Menu.h:180-182 | a pixel of an item is on the window if and only if its row is |
| Menus.Menu.DrawMenu | example/PandaMicTx/Navigation/Menu.h:157-183 | the window shows exactly the printed items, scrolled; without wrapped labels the selected text is in its rows and on the window as far as they are |
| Menus.Operate | example/PandaMicTx/Navigation/Menu.h:64-127 | on a window of any height, any sequence of events on a new menu goes through the states of the event model; the band of the selection stays on a tall one |

## Left out

- `drawCircleHelper`, `drawRoundRect`, `drawRect`, `drawTriangle`: outlines built from routines that are modelled.
- `GFXcanvas8`, `GFXcanvas16`, the other bitmap overloads, `drawXBitmap`, `Adafruit_GFX_Button`: repeats of what is modelled.
- `setTextColor`, `setTextWrap`, `cp437`: field assignments.
- The AVR build, `startWrite`/`endWrite`, display drivers and fonts' data: no content for these properties.
- Aliasing of the bitmap with the canvas being drawn: `drawBitmap` is modelled on the bytes the bitmap has on entry.
- Lines.WriteLine: endpoints whose difference exceeds 32767, or with the larger major coordinate on 32767.
- Lines.DrawLine: the same diagonals, and axis-parallel lines of 32768 pixels or more, whose length is no int16.
- Fills.FillRoundRect: displays without fast lines, on which a run of length 0 paints two pixels; on the canvas it paints none.
- Triangles.FillTriangle: triangles whose differences or span lengths leave int16, whose last scanline is 32767 or whose middle vertex is on scanline -32768; flat ones on those scanlines are covered.
- Glyphs.DrawClassic: characters on the screen whose cell reaches beyond int16, or if magnified ends on column 32767.
- Glyphs.DrawCustom: characters with a set pixel beyond int16, or if magnified one that ends on column 32767.
- Text.TextDisplay.DrawChar: the characters that `Glyphs.DrawClassic` and `Glyphs.DrawCustom` leave out.
- Text.TextDisplay.Write: the same characters; the cursor agreement with `charBounds` is proved without this restriction.
- Text.TextDisplay.Print: texts with such characters.
- Text.TextDisplay.CharBounds: what the extremes are after a box that ends on 32767 or leaves int16; the cursor is stated for all.
- Text.TextDisplay.GetTextBounds: what is reported for texts with such boxes.
- ScoCallbacks.AudioOutput.ReceiveCVSD: packets of 0 and 1 bytes, for which the source hands the concealment a sample count of 65535.
- ScoCallbacks.AudioOutput.PlaybackCallback: the threshold of the mSBC codec and the stereo build.
- ScoCallbacks.AudioInput.SendPayload: the three header bytes, the mSBC branch and big-endian hosts.
- The CVSD packet-loss concealment: its output is an arbitrary frame.
- Concurrency below the level of callbacks: each callback is one step.
- Menus.Menu.DrawMenu: which rows the items take if a label wraps; lists with characters outside int16 and lists of 2521 items or more.
- Menus.Menu.Input: the select key on a selection that `clear` has left past the last item.
- Menus.Menu.Append: the items themselves; only their labels are kept.
- `Menu::clear` in the run theorems, because it breaks the invariant as stated above; header, navigation and tickers.
