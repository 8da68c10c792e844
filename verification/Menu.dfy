/** The menu of the example firmware: a list taller than its window, which is scrolled after the selection.  The
    scrolling reckons with 13 pixel rows for an item, the printing with 12. */
module Menus {
  import opened Machine
  import opened Raster
  import opened Bits
  import opened Canvas
  import opened Bitmaps
  import opened Glyphs
  import opened Text
  import opened Agreement

  const CHAR_HEIGHT: int := 12
  const CHAR_WIDTH: int := 8
  const WHITE: uint16 := 0xFFFF

  const BACK: seq<uint8> := [66, 97, 99, 107]
  const MARKER: seq<uint8> := [62, 32]
  const LINE_END: seq<uint8> := [RETURN, NEWLINE]

  datatype Key = Up | Down | Select

  // ---- The scrolling window ----

  /** How many rows there are, which one is selected, and which pixel row of the list is on top of the window. */
  datatype Window = Window(count: nat, selected: int, scroll: int)

  const FRESH := Window(1, 0, 0)

  function ItemPosition(item: int): int {
    (CHAR_HEIGHT + 1) * item
  }

  predicate ItemVisible(scroll: int, height: int, item: int) {
    ItemPosition(item + 1) - CHAR_HEIGHT > scroll && ItemPosition(item + 1) < scroll + height
  }

  function ScrolledTo(scroll: int, height: int, item: int): int {
    if ItemPosition(item) + CHAR_HEIGHT > scroll + height then ItemPosition(item) - height + CHAR_HEIGHT + 2
    else ItemPosition(item)
  }

  function Moved(w: Window, key: Key): int
    requires w.count > 0
  {
    match key
    case Up => if w.selected - 1 < 0 then w.count - 1 else w.selected - 1
    case Down => (w.selected + 1) % w.count
    case Select => w.selected
  }

  datatype Event = Add | Press(key: Key)

  function Step(w: Window, height: int, e: Event): Window
    requires w.count > 0
  {
    match e
    case Add => w.(count := w.count + 1)
    case Press(Select) => w
    case Press(key) =>
      var selected := Moved(w, key);
      Window(w.count, selected,
             if ItemVisible(w.scroll, height, selected) then w.scroll else ScrolledTo(w.scroll, height, selected))
  }

  function Run(height: int, events: seq<Event>): (w: Window)
    ensures w.count > 0
  {
    if events == [] then FRESH else Step(Run(height, events[..|events| - 1]), height, events[|events| - 1])
  }

  lemma RunSnoc(height: int, events: seq<Event>, e: Event)
    ensures Run(height, events + [e]) == Step(Run(height, events), height, e)
  {
    assert (events + [e])[..|events|] == events;
  }

  /** The selection exists and its band of 13 pixel rows, as `getItemPosition` places it, lies inside the window. */
  predicate OnWindow(w: Window, height: int) {
    && 0 <= w.selected < w.count && w.scroll >= 0
    && w.scroll <= ItemPosition(w.selected) && ItemPosition(w.selected) + CHAR_HEIGHT < w.scroll + height
  }

  lemma StepKeepsOnWindow(w: Window, height: int, e: Event)
    requires height > CHAR_HEIGHT + 1 && OnWindow(w, height)
    ensures OnWindow(Step(w, height, e), height)
  {
  }

  lemma {:induction false} TallWindowShowsSelection(height: int, events: seq<Event>)
    requires height > CHAR_HEIGHT + 1
    ensures OnWindow(Run(height, events), height)
  {
    if events != [] {
      var n := |events| - 1;
      TallWindowShowsSelection(height, events[..n]);
      StepKeepsOnWindow(Run(height, events[..n]), height, events[n]);
    }
  }

  /** On a window of any height the selected item exists. */
  lemma {:induction false} SelectionExists(height: int, events: seq<Event>)
    ensures 0 <= Run(height, events).selected < Run(height, events).count
  {
    if events != [] {
      SelectionExists(height, events[..|events| - 1]);
    }
  }

  // ---- Going round ----

  lemma AfterPress(height: int, events: seq<Event>, key: Key)
    requires key != Select
    ensures var w, w' := Run(height, events), Run(height, events + [Press(key)]);
            && w'.count == w.count && 0 <= w.selected < w.count
            && w'.selected == if key == Up then (if w.selected == 0 then w.count - 1 else w.selected - 1)
                              else if w.selected == w.count - 1 then 0 else w.selected + 1
  {
    var w := Run(height, events);
    SelectionExists(height, events);
    RunSnoc(height, events, Press(key));
    NextRound(w.selected, w.count);
  }

  lemma NextRound(i: nat, n: nat)
    requires i < n
    ensures (i + 1) % n == if i == n - 1 then 0 else i + 1
  {
    if i < n - 1 {
      ModSmall(i + 1, n);
    }
  }

  /** Each of the two moving keys takes back the other, also over the ends of the list. */
  lemma KeysUndo(height: int, events: seq<Event>)
    ensures Run(height, events + [Press(Down)] + [Press(Up)]).selected == Run(height, events).selected
    ensures Run(height, events + [Press(Up)] + [Press(Down)]).selected == Run(height, events).selected
  {
    AfterPress(height, events, Down);
    AfterPress(height, events + [Press(Down)], Up);
    AfterPress(height, events, Up);
    AfterPress(height, events + [Press(Up)], Down);
  }

  function Presses(key: Key, n: nat): seq<Event> {
    if n == 0 then [] else Presses(key, n - 1) + [Press(key)]
  }

  /** Where the selection is after one more press, or n more of the same key. */
  function Onward(key: Key, n: nat, selected: int, count: int): int {
    if key == Up then (if selected >= n then selected - n else selected - n + count)
    else if selected + n < count then selected + n
    else selected + n - count
  }

  lemma LastPress(height: int, events: seq<Event>, key: Key, n: nat)
    requires key != Select && n > 0
    ensures var w, w' := Run(height, events + Presses(key, n - 1)), Run(height, events + Presses(key, n));
            && 0 <= w.selected < w.count == w'.count
            && w'.selected == Onward(key, 1, w.selected, w.count)
  {
    var before := events + Presses(key, n - 1);
    assert before + [Press(key)] == events + Presses(key, n);
    AfterPress(height, before, key);
  }

  /** From any item, n presses of the down key go n items on, n presses of the up key n items back, and around at the
      ends: each item is reached, and as many presses as there are items come back. */
  lemma {:induction false} KeysGoRound(height: int, events: seq<Event>, key: Key, n: nat)
    requires key != Select && n <= Run(height, events).count
    ensures var w, w' := Run(height, events), Run(height, events + Presses(key, n));
            w'.count == w.count && w'.selected == Onward(key, n, w.selected, w.count)
  {
    SelectionExists(height, events);
    if n == 0 {
      assert events + Presses(key, 0) == events;
    } else {
      KeysGoRound(height, events, key, n - 1);
      LastPress(height, events, key, n);
      OnwardMore(key, n, Run(height, events).selected, Run(height, events).count);
    }
  }

  lemma OnwardMore(key: Key, n: nat, i: nat, count: nat)
    requires i < count && 0 < n <= count
    ensures 0 <= Onward(key, n - 1, i, count) < count
    ensures Onward(key, 1, Onward(key, n - 1, i, count), count) == Onward(key, n, i, count)
  {
  }

  /** All the way round. */
  lemma FullRound(height: int, events: seq<Event>, key: Key)
    requires key != Select
    ensures var count := Run(height, events).count;
            Run(height, events + Presses(key, count)).selected == Run(height, events).selected
  {
    SelectionExists(height, events);
    KeysGoRound(height, events, key, Run(height, events).count);
  }

  ghost predicate AlwaysOnWindow(height: int) {
    forall events :: OnWindow(Run(height, events), height)
  }

  /** Over every sequence of additions and keys the selected band is on the window: exactly when the window is
      taller than the band. */
  lemma SelectionStaysOnWindow(height: int)
    ensures AlwaysOnWindow(height) <==> height > CHAR_HEIGHT + 1
  {
    if height > CHAR_HEIGHT + 1 {
      forall events ensures OnWindow(Run(height, events), height) {
        TallWindowShowsSelection(height, events);
      }
    } else {
      var added: seq<Event>, moved := [Add], [Add, Press(Down)];
      assert added[..0] == [] && moved[..1] == added;
      assert Run(height, added) == Window(2, 0, 0);
      assert Run(height, moved) == Step(Window(2, 0, 0), height, Press(Down));
      assert !OnWindow(Run(height, moved), height);
    }
  }

  /** `clear` puts back the "Back" row but not the selection and the scroll position: its resets are local variables. */
  function Cleared(w: Window): Window {
    Window(1, w.selected, w.scroll)
  }

  /** So the invariant survives `clear` if and only if the first row was selected. */
  lemma ClearKeepsOnWindow(w: Window, height: int)
    requires OnWindow(w, height)
    ensures OnWindow(Cleared(w), height) <==> w.selected == 0
  {
  }

  /** A menu that `clear` takes off its window: selecting the second row first is enough. */
  lemma ClearLosesSelection(height: int)
    requires height > CHAR_HEIGHT + 1
    ensures OnWindow(Run(height, [Add, Press(Down)]), height)
    ensures !OnWindow(Cleared(Run(height, [Add, Press(Down)])), height)
  {
    TallWindowShowsSelection(height, [Add, Press(Down)]);
    assert [Add] + [Press(Down)] == [Add, Press(Down)] && [] + [Add] == [Add];
    RunSnoc(height, [], Add);
    RunSnoc(height, [Add], Press(Down));
  }

  // ---- Where the selected text is ----

  /** The pixel rows of the list that the text of an item may use, from the top of its capitals to the end of its
      descenders: text size 2 in a font with lines 6 high makes the lines 12 high. */
  function TextTop(item: int): int {
    CHAR_HEIGHT * item + 2
  }

  function TextBottom(item: int): int {
    CHAR_HEIGHT * item + CHAR_HEIGHT + 1
  }

  predicate TextOnWindow(w: Window, height: int) {
    w.scroll <= TextTop(w.selected) && TextBottom(w.selected) < w.scroll + height
  }

  /** In a window that keeps the selected band, the selected text can only be lost at the top. */
  lemma TextOnTallWindow(height: int, events: seq<Event>)
    requires height > CHAR_HEIGHT + 1
    ensures var w := Run(height, events);
            TextOnWindow(w, height) <==> w.scroll <= CHAR_HEIGHT * w.selected + 2
  {
    TallWindowShowsSelection(height, events);
  }

  function Additions(n: nat): seq<Event> {
    if n == 0 then [] else Additions(n - 1) + [Add]
  }

  lemma {:induction false} AfterAdditions(height: int, n: nat)
    ensures Run(height, Additions(n)) == Window(n + 1, 0, 0)
  {
    if n > 0 {
      AfterAdditions(height, n - 1);
      RunSnoc(height, Additions(n - 1), Add);
    }
  }

  /** On the 80 pixels of the board: with 20 more items, six presses of the up key select item 15, whose text ends
      on row 193 of the list, above the first row that is shown. */
  lemma TextScrolledOut()
    ensures var events := Additions(20) + [Press(Up), Press(Up), Press(Up), Press(Up), Press(Up), Press(Up)];
            Run(80, events) == Window(21, 15, 194) && TextBottom(15) < 194
  {
    var events := Additions(20);
    AfterAdditions(80, 20);
    for n := 0 to 6
      invariant |events| == |Additions(20)| + n && events[..|Additions(20)|] == Additions(20)
      invariant forall k :: |Additions(20)| <= k < |events| ==> events[k] == Press(Up)
      invariant Run(80, events) == if n == 0 then Window(21, 0, 0) else Window(21, 21 - n, 194)
    {
      RunSnoc(80, events, Press(Up));
      events := events + [Press(Up)];
    }
    assert events == Additions(20) + [Press(Up), Press(Up), Press(Up), Press(Up), Press(Up), Press(Up)];
  }

  ghost predicate TextAlwaysOnWindow(height: int, n: nat) {
    forall events :: Run(height, events).count <= n ==> TextOnWindow(Run(height, events), height)
  }

  /** All bands fit; or there are at most three items; or no more than 38 rows can be scrolled, and the window does
      not end with an item's band or one row short of it. */
  predicate TextKept(height: int, n: nat) {
    && height > CHAR_HEIGHT + 1
    && (|| ItemPosition(n) < height
        || n <= 3
        || (height % 13 != 0 && height % 13 != 12 && ItemPosition(n) < height + 38))
  }

  /** The scroll positions that a menu of at most n items reaches under this condition. */
  predicate ScrollKept(w: Window, height: int, n: nat) {
    && OnWindow(w, height) && w.count <= n
    && (ItemPosition(n) < height ==> w.scroll == 0)
    && (ItemPosition(n) < height || n <= 3
        || (Aligned(w.scroll, height) && w.scroll <= Max(0, ItemPosition(n) + 1 - height)))
  }

  /** A band starts on top of the window, or one ends a row above its end. */
  predicate Aligned(scroll: int, height: int) {
    scroll % 13 == 0 || (scroll + height) % 13 == 1
  }

  lemma StepScrollKept(w: Window, height: int, n: nat, e: Event)
    requires TextKept(height, n) && ScrollKept(w, height, n) && Step(w, height, e).count <= n
    ensures ScrollKept(Step(w, height, e), height, n)
  {
    StepKeepsOnWindow(w, height, e);
    if e.Press? && e.key != Select && ItemPosition(n) >= height && n > 3 {
      AlignedScroll(w.scroll, height, Moved(w, e.key));
    }
  }

  /** Selecting item i keeps an aligned window aligned, unless it ends with a band or one row short of it. */
  lemma AlignedScroll(scroll: int, height: int, i: nat)
    requires Aligned(scroll, height) && height % 13 != 0 && height % 13 != 12 && height > CHAR_HEIGHT + 1
    ensures !ItemVisible(scroll, height, i) ==>
      && Aligned(ScrolledTo(scroll, height, i), height)
      && ScrolledTo(scroll, height, i) <= Max(scroll, ItemPosition(i) + CHAR_HEIGHT + 2 - height)
  {
  }

  lemma {:induction false} RunScrollKept(height: int, events: seq<Event>, n: nat)
    requires TextKept(height, n) && Run(height, events).count <= n
    ensures ScrollKept(Run(height, events), height, n)
  {
    if events != [] {
      var k := |events| - 1;
      RunScrollKept(height, events[..k], n);
      StepScrollKept(Run(height, events[..k]), height, n, events[k]);
    }
  }

  /** Scrolled down by 39 rows or more, going up clips a text. */
  lemma {:induction false} ClimbToClip(height: int, events: seq<Event>) returns (events': seq<Event>)
    requires height > CHAR_HEIGHT + 1 && OnWindow(Run(height, events), height) && Run(height, events).scroll >= 39
    ensures Run(height, events').count == Run(height, events).count
    ensures !TextOnWindow(Run(height, events'), height)
    decreases Run(height, events).selected
  {
    if Run(height, events).scroll > TextTop(Run(height, events).selected) {
      events' := events;
    } else {
      RunSnoc(height, events, Press(Up));
      events' := ClimbToClip(height, events + [Press(Up)]);
    }
  }

  /** Too many items: the up key selects the last one. */
  lemma ManyItemsClip(height: int, n: nat) returns (events: seq<Event>)
    requires height > CHAR_HEIGHT + 1 && ItemPosition(n) >= height + 38
    ensures Run(height, events).count == n && !TextOnWindow(Run(height, events), height)
  {
    AfterAdditions(height, n - 1);
    RunSnoc(height, Additions(n - 1), Press(Up));
    events := ClimbToClip(height, Additions(n - 1) + [Press(Up)]);
  }

  lemma PressDown(height: int, events: seq<Event>, n: nat, i: nat, scroll: int)
    requires Run(height, events) == Window(n, i, scroll) && i + 1 < n
    ensures Run(height, events + [Press(Down)]) ==
            Window(n, i + 1, if ItemVisible(scroll, height, i + 1) then scroll else ScrolledTo(scroll, height, i + 1))
  {
    RunSnoc(height, events, Press(Down));
    ModSmall(i + 1, n);
  }

  lemma ModSmall(a: nat, b: nat)
    requires a < b
    ensures a % b == a
  {
  }

  /** The down key goes through the items that fit. */
  lemma {:induction false} DownTo(height: int, n: nat, i: nat) returns (events: seq<Event>)
    requires i < n && (i == 0 || ItemPosition(i + 1) < height)
    ensures Run(height, events) == Window(n, i, 0)
  {
    if i == 0 {
      AfterAdditions(height, n - 1);
      events := Additions(n - 1);
    } else {
      var before := DownTo(height, n, i - 1);
      PressDown(height, before, n, i - 1, 0);
      events := before + [Press(Down)];
    }
  }

  /** The window ends with item i's band, or one row short of it. */
  predicate EndsWith(height: int, i: int) {
    height <= ItemPosition(i + 1) <= height + 1
  }

  /** Then the down key scrolls that item to the top. */
  lemma PageDown(height: int, n: nat, i: nat) returns (events: seq<Event>)
    requires EndsWith(height, i) && 1 <= i < n
    ensures Run(height, events) == Window(n, i, ItemPosition(i))
  {
    var before := DownTo(height, n, i - 1);
    PressDown(height, before, n, i - 1, 0);
    events := before + [Press(Down)];
  }

  /** Two items to a page: the next two are scrolled to the top, too. */
  lemma TwoMorePages(height: int, n: nat, paged: seq<Event>) returns (events: seq<Event>)
    requires EndsWith(height, 1) && n > 3 && Run(height, paged) == Window(n, 1, ItemPosition(1))
    ensures Run(height, events) == Window(n, 3, ItemPosition(3))
  {
    PressDown(height, paged, n, 1, ItemPosition(1));
    PressDown(height, paged + [Press(Down)], n, 2, ItemPosition(2));
    events := paged + [Press(Down)] + [Press(Down)];
  }

  /** Three items to a page: going up one and down two. */
  lemma UpAndDown(height: int, n: nat, paged: seq<Event>) returns (events: seq<Event>)
    requires EndsWith(height, 2) && n > 3 && Run(height, paged) == Window(n, 2, ItemPosition(2))
    ensures Run(height, events) == Window(n, 3, ItemPosition(3))
  {
    var up := paged + [Press(Up)];
    RunSnoc(height, paged, Press(Up));
    PressDown(height, up, n, 1, ItemPosition(1));
    PressDown(height, up + [Press(Down)], n, 2, ItemPosition(1));
    events := up + [Press(Down)] + [Press(Down)];
  }

  /** So an item from the fourth on is scrolled to the top, and with it the top of its text off the window. */
  lemma PagesClip(height: int, n: nat, i: nat) returns (events: seq<Event>)
    requires EndsWith(height, i) && 1 <= i < n && n > 3
    ensures Run(height, events).count == n && !TextOnWindow(Run(height, events), height)
  {
    var paged := PageDown(height, n, i);
    if i == 1 {
      events := TwoMorePages(height, n, paged);
    } else if i == 2 {
      events := UpAndDown(height, n, paged);
    } else {
      events := paged;
    }
  }

  /** Over every sequence of additions and keys with at most n items, the selected item's text is on the window:
      exactly under the condition `TextKept`. */
  lemma TextStaysOnWindow(height: int, n: nat)
    requires n > 0
    ensures TextAlwaysOnWindow(height, n) <==> TextKept(height, n)
  {
    if TextKept(height, n) {
      forall events | Run(height, events).count <= n ensures TextOnWindow(Run(height, events), height) {
        RunScrollKept(height, events, n);
      }
    } else if height <= CHAR_HEIGHT + 1 {
      assert Run(height, []) == FRESH && !TextOnWindow(FRESH, height);
    } else if ItemPosition(n) >= height + 38 {
      var events := ManyItemsClip(height, n);
      assert !TextOnWindow(Run(height, events), height);
    } else {
      var events := PagesClip(height, n, (height + 1) / 13 - 1);
      assert !TextOnWindow(Run(height, events), height);
    }
  }

  // ---- Printing the list ----

  /** A font with lines 6 high in which no glyph goes higher than 5 pixels above the baseline or lower than 1 below. */
  predicate MenuFont(font: Font) {
    && font.Valid() && font.yAdvance == 6
    && forall k :: 0 <= k < |font.glyphs| ==>
         font.glyphs[k].yOffset >= -5 && font.glyphs[k].yOffset + font.glyphs[k].height <= 1
  }

  function MenuStyle(width: int16, font: Font): Style {
    Style(width, 2, 2, true, Some(font))
  }

  /** The cursor at the start of an item's line, on the baseline, if the items before it take one line each. */
  function LineStart(item: nat): Cursor
    requires ItemPosition(item) < 0x8000
  {
    Cursor(0, CHAR_HEIGHT * (item + 1))
  }

  /** The selected item is marked, the others are indented. */
  function AfterMarker(st: Style, cur: Cursor, chosen: bool): Cursor
    requires st.Valid()
  {
    if chosen then WriteRun(st, cur, MARKER).0 else Cursor(ToInt16(cur.x + CHAR_WIDTH * 2), cur.y)
  }

  /** The item is not wrapped. */
  predicate ItemOnLine(st: Style, cur: Cursor, chosen: bool, title: seq<uint8>)
    requires st.Valid()
  {
    (chosen ==> OneLine(st, cur, MARKER)) && OneLine(st, AfterMarker(st, cur, chosen), title)
  }

  function ItemPlaced(st: Style, cur: Cursor, chosen: bool, title: seq<uint8>): seq<Placed>
    requires st.Valid()
  {
    MarkerPlaced(st, cur, chosen) + WriteRun(st, AfterMarker(st, cur, chosen), title).1
  }

  /** The calls draw the marker, if there is one, and the title, each character at its place. */
  ghost predicate ItemDrawn(st: Style, ink: Ink, cur: Cursor, chosen: bool, title: seq<uint8>, calls: seq<Call>)
    requires st.Valid()
  {
    exists parts :: TextDrawn(st, ink, ItemPlaced(st, cur, chosen, title), parts) && calls == Flattened(parts)
  }

  lemma {:induction false} FlattenedConcat(a: seq<seq<Call>>, b: seq<seq<Call>>)
    ensures Flattened(a + b) == Flattened(a) + Flattened(b)
  {
    if b == [] {
      assert a + b == a && Flattened(a) + [] == Flattened(a);
    } else {
      var n := |b| - 1;
      FlattenedConcat(a, b[..n]);
      assert (a + b)[..|a| + n] == a + b[..n] && (a + b)[|a| + n] == b[n];
      assert Flattened(a) + (Flattened(b[..n]) + b[n]) == Flattened(a) + Flattened(b[..n]) + b[n];
    }
  }

  lemma FlattenedSnoc(parts: seq<seq<Call>>, more: seq<Call>)
    ensures Flattened(parts + [more]) == Flattened(parts) + more
  {
    assert (parts + [more])[..|parts|] == parts;
  }

  lemma {:induction false} FlattenedHits(parts: seq<seq<Call>>, k: nat, px: int, py: int)
    requires k < |parts|
    ensures Hits(Flattened(parts), px, py) >= Hits(parts[k], px, py)
  {
    var n := |parts| - 1;
    HitsConcat(Flattened(parts[..n]), parts[n], px, py);
    if k < n {
      FlattenedHits(parts[..n], k, px, py);
    }
  }

  lemma {:induction false} FlattenedMonochrome(parts: seq<seq<Call>>, color: uint16)
    requires forall k :: 0 <= k < |parts| ==> Monochrome(parts[k], color)
    ensures Monochrome(Flattened(parts), color)
  {
    if parts != [] {
      FlattenedMonochrome(parts[..|parts| - 1], color);
    }
  }

  /** What is placed on a line of the list is drawn in its 12 pixel rows. */
  lemma OnLineDrawable(font: Font, width: int16, height: int, placed: seq<Placed>, y: int)
    requires MenuFont(font) && OnLineAt(MenuStyle(width, font), placed, y) && 0 <= y < 0x7F00
    ensures AllDrawable(MenuStyle(width, font), height, placed)
  {
    var st := MenuStyle(width, font);
    forall k | 0 <= k < |placed| ensures Drawable(st, height, placed[k]) {
      var g := st.GlyphOf(placed[k].c);
      assert st.Reach(placed[k].c) == 2 * (g.xOffset + g.width);
      BoxedDrawable(st, height, placed[k]);
    }
  }

  /** The text of an item stays within its rows. */
  lemma ItemRows(font: Font, width: int16, ink: Ink, item: nat, chosen: bool, title: seq<uint8>, calls: seq<Call>,
                 px: int, py: int)
    requires MenuFont(font) && ItemPosition(item) < 0x8000
    requires ItemOnLine(MenuStyle(width, font), LineStart(item), chosen, title)
    requires ItemDrawn(MenuStyle(width, font), ink, LineStart(item), chosen, title, calls) && Hits(calls, px, py) > 0
    ensures TextTop(item) <= py <= TextBottom(item)
  {
    var st, cur := MenuStyle(width, font), LineStart(item);
    var placed := ItemPlaced(st, cur, chosen, title);
    var parts :| TextDrawn(st, ink, placed, parts) && calls == Flattened(parts);
    ItemOnLineAt(font, width, item, chosen, title);
    var k := DrawnInBoxes(st, ink, placed, parts, px, py);
    assert st.GlyphOf(placed[k].c) in font.glyphs;
  }

  /** Where the characters of an item stand: on the line of its number, behind the marker or 16 columns in. */
  lemma TitleStandsAt(font: Font, width: int16, item: nat, chosen: bool, title: seq<uint8>, n: nat)
    requires MenuFont(font) && ItemPosition(item) < 0x8000 && n < |title|
    requires ItemOnLine(MenuStyle(width, font), LineStart(item), chosen, title)
    requires var st := MenuStyle(width, font);
             st.Prints(title[n]) && st.GlyphOf(title[n]).width > 0 && st.GlyphOf(title[n]).height > 0
    ensures exists p ::
      && p in ItemPlaced(MenuStyle(width, font), LineStart(item), chosen, title)
      && p.c == title[n] && p.y == 12 * item + 12
      && p.x == (if chosen then 2 * Columns(Some(font), [62, 32]) else 16) + 2 * Columns(Some(font), title[..n])
  {
    var st, cur := MenuStyle(width, font), LineStart(item);
    var from := AfterMarker(st, cur, chosen);
    if chosen {
      LineEndsAt(st, cur, MARKER);
      OneLineRun(st, cur, MARKER);
    }
    StandsAt(st, from, title, n);
    var placed, all := WriteRun(st, from, title[..n + 1]).1, WriteRun(st, from, title).1;
    var p := placed[|placed| - 1];
    assert p == all[|placed| - 1];
    assert p in all;
    assert p in ItemPlaced(st, cur, chosen, title);
  }

  lemma ItemOnLineAt(font: Font, width: int16, item: nat, chosen: bool, title: seq<uint8>)
    requires MenuFont(font) && ItemPosition(item) < 0x8000
    requires ItemOnLine(MenuStyle(width, font), LineStart(item), chosen, title)
    ensures var st, cur := MenuStyle(width, font), LineStart(item);
            && OnLineAt(st, ItemPlaced(st, cur, chosen, title), cur.y)
            && OnLineAt(st, WriteRun(st, AfterMarker(st, cur, chosen), title).1, cur.y)
            && AfterMarker(st, cur, chosen).y == WriteRun(st, AfterMarker(st, cur, chosen), title).0.y == cur.y
  {
    var st, cur := MenuStyle(width, font), LineStart(item);
    if chosen {
      OneLineRun(st, cur, MARKER);
    }
    OneLineRun(st, AfterMarker(st, cur, chosen), title);
  }

  lemma ItemMonochrome(font: Font, width: int16, ink: Ink, cur: Cursor, chosen: bool, title: seq<uint8>,
                       calls: seq<Call>)
    requires font.Valid() && ItemDrawn(MenuStyle(width, font), ink, cur, chosen, title, calls)
    ensures Monochrome(calls, ink.color)
  {
    var st := MenuStyle(width, font);
    var placed := ItemPlaced(st, cur, chosen, title);
    var parts :| TextDrawn(st, ink, placed, parts) && calls == Flattened(parts);
    forall k | 0 <= k < |parts| ensures Monochrome(parts[k], ink.color) {
      assert CharDrawn(st, ink, placed[k], parts[k]);
    }
    FlattenedMonochrome(parts, ink.color);
  }

  lemma LineEndRun(st: Style, cur: Cursor)
    requires st.Valid()
    ensures WriteRun(st, cur, LINE_END) == (NextLine(st, cur), [])
  {
    var text := LINE_END;
    assert text[..0] == [] && text[..2] == text;
    WrittenNext(st, cur, text, 0);
    WrittenNext(st, cur, text, 1);
    assert WriteRun(st, cur, text[..0]) == (cur, []);
  }

  function MarkerPlaced(st: Style, cur: Cursor, chosen: bool): seq<Placed>
    requires st.Valid()
  {
    if chosen then WriteRun(st, cur, MARKER).1 else []
  }

  /** The cursor after an item. */
  function ItemEnd(st: Style, cur: Cursor, chosen: bool, title: seq<uint8>): Cursor
    requires st.Valid()
  {
    NextLine(st, WriteRun(st, AfterMarker(st, cur, chosen), title).0)
  }

  method PrintMarker(text: TextDisplay, chosen: bool) returns (calls: seq<Call>, ghost parts: seq<seq<Call>>)
    requires text.Valid()
    requires AllDrawable(text.StyleNow(), text.height, MarkerPlaced(text.StyleNow(), text.CursorNow(), chosen))
    modifies text`cursorX, text`cursorY
    ensures text.CursorNow() == AfterMarker(text.StyleNow(), old(text.CursorNow()), chosen)
    ensures AllPlayable(calls) && calls == Flattened(parts)
    ensures TextDrawn(text.StyleNow(), text.InkNow(),
                      MarkerPlaced(text.StyleNow(), old(text.CursorNow()), chosen), parts)
  {
    calls, parts := [], [];
    if chosen {
      calls, parts := text.Print(MARKER);
    } else {
      text.SetCursor(ToInt16(text.cursorX + CHAR_WIDTH * 2), text.cursorY);
    }
  }

  /** The body of the printing loop: marker or indentation, title, end of line. */
  method PrintItem(text: TextDisplay, title: seq<uint8>, chosen: bool, ghost st: Style, ghost ink: Ink,
                   ghost cur: Cursor) returns (calls: seq<Call>)
    requires text.Valid() && text.StyleNow() == st && text.InkNow() == ink && text.CursorNow() == cur
    requires AllDrawable(st, text.height, ItemPlaced(st, cur, chosen, title))
    modifies text`cursorX, text`cursorY
    ensures text.CursorNow() == ItemEnd(st, cur, chosen, title) && AllPlayable(calls)
    ensures ItemDrawn(st, ink, cur, chosen, title, calls)
  {
    ghost var marked, printed := MarkerPlaced(st, cur, chosen), WriteRun(st, AfterMarker(st, cur, chosen), title).1;
    ghost var parts, more, none;
    var tail, blank;
    DrawableParts(st, text.height, marked, printed);
    calls, parts := PrintMarker(text, chosen);
    tail, more := text.Print(title);
    LineEndRun(st, text.CursorNow());
    blank, none := text.Print(LINE_END);
    calls := calls + tail + blank;
    PartsJoined(st, ink, marked, printed, parts, more);
    assert blank == [] && calls == Flattened(parts + more);
  }

  lemma DrawableParts(st: Style, height: int, a: seq<Placed>, b: seq<Placed>)
    requires st.Valid() && AllDrawable(st, height, a + b)
    ensures AllDrawable(st, height, a) && AllDrawable(st, height, b)
  {
    forall k | 0 <= k < |a| ensures st.Prints(a[k].c) && Drawable(st, height, a[k]) {
      assert (a + b)[k] == a[k];
    }
    forall k | 0 <= k < |b| ensures st.Prints(b[k].c) && Drawable(st, height, b[k]) {
      assert (a + b)[|a| + k] == b[k];
    }
  }

  lemma PartsJoined(st: Style, ink: Ink, a: seq<Placed>, b: seq<Placed>, parts: seq<seq<Call>>, more: seq<seq<Call>>)
    requires st.Valid() && TextDrawn(st, ink, a, parts) && TextDrawn(st, ink, b, more)
    ensures TextDrawn(st, ink, a + b, parts + more) && Flattened(parts + more) == Flattened(parts) + Flattened(more)
  {
    FlattenedConcat(parts, more);
    forall k | 0 <= k < |a + b| ensures st.Prints((a + b)[k].c) && CharDrawn(st, ink, (a + b)[k], (parts + more)[k]) {
      if k < |a| {
        assert (a + b)[k] == a[k] && (parts + more)[k] == parts[k];
      } else {
        assert (a + b)[k] == b[k - |a|] && (parts + more)[k] == more[k - |a|];
      }
    }
  }

  /** The cursor before item k, however many lines the items before it take. */
  function ItemStart(st: Style, titles: seq<seq<uint8>>, selected: int, k: nat): Cursor
    requires st.Valid() && k <= |titles|
  {
    if k == 0 then Cursor(0, CHAR_HEIGHT)
    else ItemEnd(st, ItemStart(st, titles, selected, k - 1), k - 1 == selected, titles[k - 1])
  }

  /** An item to be printed, and where the cursor then is. */
  datatype Line = Line(start: Cursor, chosen: bool, title: seq<uint8>)

  function ListLines(st: Style, titles: seq<seq<uint8>>, selected: int): (lines: seq<Line>)
    requires st.Valid()
    ensures |lines| == |titles|
  {
    seq(|titles|, k requires 0 <= k < |titles| => LineOf(st, titles, selected, k))
  }

  function LineOf(st: Style, titles: seq<seq<uint8>>, selected: int, k: nat): Line
    requires st.Valid() && k < |titles|
  {
    Line(ItemStart(st, titles, selected, k), k == selected, titles[k])
  }

  ghost function Drawing(st: Style, ink: Ink): (Line, seq<Call>) -> bool
    requires st.Valid()
  {
    (line: Line, calls: seq<Call>) => ItemDrawn(st, ink, line.start, line.chosen, line.title, calls)
  }

  /** The items so far are drawn, each on its line. */
  ghost predicate ListDrawn(drawn: (Line, seq<Call>) -> bool, lines: seq<Line>, items: seq<seq<Call>>) {
    |items| <= |lines| && forall k :: 0 <= k < |items| ==> drawn(lines[k], items[k])
  }

  ghost predicate LineDrawable(st: Style, height: int, line: Line)
    requires st.Valid()
  {
    AllDrawable(st, height, ItemPlaced(st, line.start, line.chosen, line.title))
  }

  ghost predicate ListDrawable(st: Style, height: int, lines: seq<Line>)
    requires st.Valid()
  {
    forall k :: 0 <= k < |lines| ==> LineDrawable(st, height, lines[k])
  }

  /** No item is wrapped. */
  predicate ListOnLines(st: Style, titles: seq<seq<uint8>>, selected: int)
    requires st.Valid() && ItemPosition(|titles|) < 0x8000
  {
    forall k :: 0 <= k < |titles| ==> ItemOnLine(st, LineStart(k), k == selected, titles[k])
  }

  /** Then each item starts on the line of its number ... */
  lemma {:induction false} StartsOnLine(font: Font, width: int16, titles: seq<seq<uint8>>, selected: int, k: nat)
    requires MenuFont(font) && ItemPosition(|titles|) < 0x8000 && k <= |titles|
    requires ListOnLines(MenuStyle(width, font), titles, selected)
    ensures ItemStart(MenuStyle(width, font), titles, selected, k) == LineStart(k)
  {
    if k > 0 {
      StartsOnLine(font, width, titles, selected, k - 1);
      ItemOnLineAt(font, width, k - 1, k - 1 == selected, titles[k - 1]);
    }
  }

  /** ... and the whole list can be drawn. */
  lemma LinesDrawable(font: Font, width: int16, height: int, titles: seq<seq<uint8>>, selected: int)
    requires MenuFont(font) && ItemPosition(|titles|) < 0x8000
    requires ListOnLines(MenuStyle(width, font), titles, selected)
    ensures ListDrawable(MenuStyle(width, font), height, ListLines(MenuStyle(width, font), titles, selected))
  {
    var st := MenuStyle(width, font);
    var lines := ListLines(st, titles, selected);
    forall k | 0 <= k < |lines| ensures LineDrawable(st, height, lines[k]) {
      StartsOnLine(font, width, titles, selected, k);
      ItemOnLineAt(font, width, k, k == selected, titles[k]);
      OnLineDrawable(font, width, height, ItemPlaced(st, LineStart(k), k == selected, titles[k]), LineStart(k).y);
    }
  }

  /** The lines are those of the items, each beginning where the one before it ends. */
  ghost predicate Chained(st: Style, lines: seq<Line>, titles: seq<seq<uint8>>, selected: int)
    requires st.Valid()
  {
    && |lines| == |titles|
    && (forall k :: 0 <= k < |lines| ==> lines[k].chosen == (k == selected) && lines[k].title == titles[k])
    && (lines != [] ==> lines[0].start == Cursor(0, CHAR_HEIGHT))
    && forall j, k :: 0 <= j < k < |lines| && k == j + 1 ==>
         lines[k].start == ItemEnd(st, lines[j].start, lines[j].chosen, lines[j].title)
  }

  lemma ListChained(st: Style, titles: seq<seq<uint8>>, selected: int)
    requires st.Valid()
    ensures Chained(st, ListLines(st, titles, selected), titles, selected)
  {
    var lines := ListLines(st, titles, selected);
    forall j, k | 0 <= j < k < |lines| && k == j + 1
      ensures lines[k].start == ItemEnd(st, lines[j].start, lines[j].chosen, lines[j].title)
    {
      assert lines[k] == LineOf(st, titles, selected, k) && lines[j] == LineOf(st, titles, selected, j);
    }
  }

  /** The printing loop of `drawMenu`; `items` are the calls, item by item. */
  method PrintItems(text: TextDisplay, titles: seq<seq<uint8>>, selected: int, ghost lines: seq<Line>)
    returns (calls: seq<Call>, ghost items: seq<seq<Call>>)
    requires text.Valid() && text.CursorNow() == Cursor(0, CHAR_HEIGHT)
    requires Chained(text.StyleNow(), lines, titles, selected) && ListDrawable(text.StyleNow(), text.height, lines)
    modifies text`cursorX, text`cursorY
    ensures AllPlayable(calls) && calls == Flattened(items) && |items| == |titles|
    ensures ListDrawn(Drawing(text.StyleNow(), text.InkNow()), lines, items)
  {
    calls, items := [], [];
    ghost var st, ink := text.StyleNow(), text.InkNow();
    for i := 0 to |titles|
      invariant text.StyleNow() == st && text.InkNow() == ink
      invariant i < |lines| ==> text.CursorNow() == lines[i].start
      invariant AllPlayable(calls) && calls == Flattened(items) && |items| == i
      invariant ListDrawn(Drawing(st, ink), lines, items)
    {
      calls, items := PrintNext(text, titles[i], i == selected, calls, items, st, ink, lines);
    }
  }

  method PrintNext(text: TextDisplay, title: seq<uint8>, chosen: bool, calls: seq<Call>, ghost items: seq<seq<Call>>,
                   ghost st: Style, ghost ink: Ink, ghost lines: seq<Line>)
    returns (calls': seq<Call>, ghost items': seq<seq<Call>>)
    requires text.Valid() && text.StyleNow() == st && text.InkNow() == ink && |items| < |lines|
    requires lines[|items|] == Line(text.CursorNow(), chosen, title)
    requires LineDrawable(st, text.height, lines[|items|])
    requires AllPlayable(calls) && calls == Flattened(items) && ListDrawn(Drawing(st, ink), lines, items)
    modifies text`cursorX, text`cursorY
    ensures text.CursorNow() == ItemEnd(st, lines[|items|].start, chosen, title) && |items'| == |items| + 1
    ensures AllPlayable(calls') && calls' == Flattened(items') && ListDrawn(Drawing(st, ink), lines, items')
  {
    var item := PrintItem(text, title, chosen, st, ink, text.CursorNow());
    OneMoreDrawn(Drawing(st, ink), lines, items, item);
    FlattenedSnoc(items, item);
    calls' := calls + item;
    items' := items + [item];
  }

  lemma OneMoreDrawn(drawn: (Line, seq<Call>) -> bool, lines: seq<Line>, items: seq<seq<Call>>, item: seq<Call>)
    requires ListDrawn(drawn, lines, items) && |items| < |lines| && drawn(lines[|items|], item)
    ensures ListDrawn(drawn, lines, items + [item])
  {
  }

  lemma ListMonochrome(font: Font, width: int16, ink: Ink, lines: seq<Line>, items: seq<seq<Call>>)
    requires font.Valid() && ListDrawn(Drawing(MenuStyle(width, font), ink), lines, items)
    ensures Monochrome(Flattened(items), ink.color)
  {
    forall k | 0 <= k < |items| ensures Monochrome(items[k], ink.color) {
      assert Drawing(MenuStyle(width, font), ink)(lines[k], items[k]);
      ItemMonochrome(font, width, ink, lines[k].start, lines[k].chosen, lines[k].title, items[k]);
    }
    FlattenedMonochrome(items, ink.color);
  }

  function ListInk(height: int16, table: seq<byte>): Ink {
    Ink(height, false, table, WHITE, WHITE)
  }

  /** The text settings of `drawMenu`. */
  method ListText(width: int16, height: int16, font: Font, table: seq<byte>) returns (text: TextDisplay)
    requires font.Valid() && |table| == 256 * 5
    ensures fresh(text) && text.Valid() && text.height == height && text.CursorNow() == Cursor(0, CHAR_HEIGHT)
    ensures text.StyleNow() == MenuStyle(width, font) && text.InkNow() == ListInk(height, table)
  {
    text := new TextDisplay(width, height, table);
    text.SetFont(Some(font));
    text.SetTextSize(2, 2);
    text.SetCursor(0, CHAR_HEIGHT);
  }

  method PrintTitles(width: int16, height: int16, titles: seq<seq<uint8>>, selected: int, font: Font, table: seq<byte>,
                     ghost st: Style, ghost lines: seq<Line>)
    returns (calls: seq<Call>, ghost items: seq<seq<Call>>)
    requires font.Valid() && |table| == 256 * 5 && st == MenuStyle(width, font)
    requires Chained(st, lines, titles, selected) && ListDrawable(st, height, lines)
    ensures AllPlayable(calls) && calls == Flattened(items) && |items| == |titles| && Monochrome(calls, WHITE)
    ensures ListDrawn(Drawing(st, ListInk(height, table)), lines, items)
  {
    var text := ListText(width, height, font, table);
    calls, items := PrintItems(text, titles, selected, lines);
    ListMonochrome(font, width, ListInk(height, table), lines, items);
  }

  /** The first half of `drawMenu`: the list on a canvas of its own. */
  method PrintList(width: int16, titles: seq<seq<uint8>>, selected: int, font: Font, table: seq<byte>,
                   ghost st: Style, ghost lines: seq<Line>)
    returns (canvas: GFXcanvas1, ghost items: seq<seq<Call>>)
    requires width >= 0 && font.Valid() && |table| == 256 * 5 && ItemPosition(|titles|) < 0x8000
    requires st == MenuStyle(width, font)
    requires Chained(st, lines, titles, selected) && ListDrawable(st, ItemPosition(|titles|), lines)
    ensures fresh(canvas) && fresh(canvas.buffer) && canvas.Valid()
    ensures canvas.Geo() == Geometry(width, ItemPosition(|titles|), 0) && |items| == |titles|
    ensures ListDrawn(Drawing(st, ListInk(ItemPosition(|titles|), table)), lines, items)
    ensures ShowsItems(canvas.Geo(), canvas.buffer[..], items)
  {
    var calls;
    calls, items := PrintTitles(width, ItemPosition(|titles|), titles, selected, font, table, st, lines);
    canvas := PlayList(width, ItemPosition(|titles|), calls);
  }

  /** The list canvas has exactly the painted pixels. */
  ghost predicate ShowsItems(g: Geometry, printed: seq<byte>, items: seq<seq<Call>>)
    requires g.Valid()
  {
    forall x, y :: Lit(g, printed, x, y) <==> g.OnCanvas(x, y) && Hits(Flattened(items), x, y) > 0
  }

  method PlayList(width: int16, height: int16, calls: seq<Call>) returns (canvas: GFXcanvas1)
    requires width >= 0 && height >= 0 && AllPlayable(calls) && Monochrome(calls, WHITE)
    ensures fresh(canvas) && fresh(canvas.buffer) && canvas.Valid() && canvas.Geo() == Geometry(width, height, 0)
    ensures forall x, y :: Lit(canvas.Geo(), canvas.buffer[..], x, y) <==>
                           canvas.Geo().OnCanvas(x, y) && Hits(calls, x, y) > 0
  {
    canvas := new GFXcanvas1(width, height);
    ghost var blank := canvas.buffer[..];
    canvas.Play(calls);
    WhiteOnBlank(canvas.Geo(), blank, canvas.buffer[..], calls);
  }

  /** White on a blank canvas: what is painted is lit, and nothing else. */
  lemma WhiteOnBlank(g: Geometry, blank: seq<byte>, after: seq<byte>, calls: seq<Call>)
    requires g.Valid() && Painted(g, blank, after, calls) && Monochrome(calls, WHITE)
    requires forall x, y :: !Lit(g, blank, x, y)
    ensures forall x, y :: Lit(g, after, x, y) <==> g.OnCanvas(x, y) && Hits(calls, x, y) > 0
  {
    forall x, y ensures Lit(g, after, x, y) <==> g.OnCanvas(x, y) && Hits(calls, x, y) > 0 {
      MonochromeOnCanvas(g, blank, after, calls, WHITE, x, y);
    }
  }

  /** What the window shows: pixel (i, j + scroll) of the list if the items paint it and the list has it. */
  ghost predicate ShowsList(g: Geometry, shown: seq<byte>, items: seq<seq<Call>>, scroll: int, count: nat)
    requires g.Valid()
  {
    forall i, j :: Lit(g, shown, i, j) <==>
      && g.OnCanvas(i, j) && 0 <= j + scroll < ItemPosition(count)
      && Hits(Flattened(items), i, j + scroll) > 0
  }

  /** The second half of `drawMenu`. */
  method ShowList(window: GFXcanvas1, canvas: GFXcanvas1, scroll: int16, ghost items: seq<seq<Call>>)
    requires window.Valid() && canvas.Valid() && window.buffer != canvas.buffer && window.rotation == 0
    requires ItemPosition(|items|) < 0x8000 && canvas.Geo() == Geometry(window.WIDTH, ItemPosition(|items|), 0)
    requires -0x8000 < scroll && ItemPosition(|items|) - scroll <= 0x8000
    requires ShowsItems(canvas.Geo(), canvas.buffer[..], items)
    modifies window.buffer
    ensures ShowsList(window.Geo(), window.buffer[..], items, scroll, |items|)
  {
    ShowScrolled(window, canvas, scroll, WHITE);
  }

  /** A pixel that the text of an item paints on the list is on the window exactly if its row is. */
  lemma TextShown(g: Geometry, shown: seq<byte>, items: seq<seq<Call>>, scroll: int, item: nat, px: int, py: int)
    requires g.Valid() && g.rot == 0 && ShowsList(g, shown, items, scroll, |items|) && item < |items|
    requires Hits(items[item], px, py) > 0 && 0 <= px < g.W && 0 <= py < ItemPosition(|items|)
    ensures Lit(g, shown, px, py - scroll) <==> scroll <= py < scroll + g.H
  {
    FlattenedHits(items, item, px, py);
    assert py - scroll + scroll == py;
  }

  /** The text of the selected item is within its rows, and each of its pixels that the list has is on the window
      exactly if its row is. */
  ghost predicate SelectedShown(g: Geometry, shown: seq<byte>, items: seq<seq<Call>>, w: Window)
    requires g.Valid()
  {
    0 <= w.selected < |items| ==> forall px, py :: Hits(items[w.selected], px, py) > 0 ==>
      && TextTop(w.selected) <= py <= TextBottom(w.selected)
      && (0 <= px < g.W && py < ItemPosition(|items|) ==>
            (Lit(g, shown, px, py - w.scroll) <==> w.scroll <= py < w.scroll + g.H))
  }

  lemma SelectedTextShown(g: Geometry, shown: seq<byte>, items: seq<seq<Call>>, w: Window,
                          font: Font, width: int16, ink: Ink, titles: seq<seq<uint8>>)
    requires g.Valid() && g.rot == 0 && g.W == width && MenuFont(font)
    requires |items| == |titles| && ItemPosition(|titles|) < 0x8000
    requires ListDrawn(Drawing(MenuStyle(width, font), ink),
                       ListLines(MenuStyle(width, font), titles, w.selected), items)
    requires ShowsList(g, shown, items, w.scroll, |items|)
    ensures ListOnLines(MenuStyle(width, font), titles, w.selected) ==> SelectedShown(g, shown, items, w)
  {
    if ListOnLines(MenuStyle(width, font), titles, w.selected) && 0 <= w.selected < |items| {
      var line := ListLines(MenuStyle(width, font), titles, w.selected)[w.selected];
      assert Drawing(MenuStyle(width, font), ink)(line, items[w.selected]);
      StartsOnLine(font, width, titles, w.selected, w.selected);
      ItemTextShown(g, shown, items, w, font, width, ink, titles[w.selected]);
    }
  }

  lemma ItemTextShown(g: Geometry, shown: seq<byte>, items: seq<seq<Call>>, w: Window,
                      font: Font, width: int16, ink: Ink, title: seq<uint8>)
    requires g.Valid() && g.rot == 0 && g.W == width && MenuFont(font)
    requires 0 <= w.selected < |items| && ItemPosition(w.selected) < 0x8000
    requires ItemOnLine(MenuStyle(width, font), LineStart(w.selected), true, title)
    requires ItemDrawn(MenuStyle(width, font), ink, LineStart(w.selected), true, title, items[w.selected])
    requires ShowsList(g, shown, items, w.scroll, |items|)
    ensures SelectedShown(g, shown, items, w)
  {
    forall px, py | Hits(items[w.selected], px, py) > 0
      ensures TextTop(w.selected) <= py <= TextBottom(w.selected)
      ensures 0 <= px < g.W && py < ItemPosition(|items|) ==>
              (Lit(g, shown, px, py - w.scroll) <==> w.scroll <= py < w.scroll + g.H)
    {
      ItemRows(font, width, ink, w.selected, true, title, items[w.selected], px, py);
      if 0 <= px < width && py < ItemPosition(|items|) {
        TextShown(g, shown, items, w.scroll, w.selected, px, py);
      }
    }
  }

  /** `drawMenu`. */
  method DrawList(window: GFXcanvas1, titles: seq<seq<uint8>>, selected: int, scroll: int16, font: Font,
                  table: seq<byte>, ghost st: Style, ghost lines: seq<Line>) returns (ghost items: seq<seq<Call>>)
    requires window.Valid() && window.rotation == 0 && font.Valid() && |table| == 256 * 5
    requires ItemPosition(|titles|) < 0x8000 && -0x8000 < scroll && ItemPosition(|titles|) - scroll <= 0x8000
    requires st == MenuStyle(window.width, font)
    requires Chained(st, lines, titles, selected) && ListDrawable(st, ItemPosition(|titles|), lines)
    modifies window.buffer
    ensures |items| == |titles| && ListDrawn(Drawing(st, ListInk(ItemPosition(|titles|), table)), lines, items)
    ensures ShowsList(window.Geo(), window.buffer[..], items, scroll, |items|)
  {
    var canvas;
    canvas, items := PrintList(window.width, titles, selected, font, table, st, lines);
    assert canvas.Geo() == Geometry(window.WIDTH, ItemPosition(|items|), 0);
    ShowList(window, canvas, scroll, items);
  }

  class Menu {
    const mainCanvas: GFXcanvas1
    var scrollPosition: int
    var selectedItem: int
    var menuItems: seq<seq<uint8>>
    var hasChanged: bool

    ghost predicate Valid()
      reads this, mainCanvas
    {
      mainCanvas.Valid() && mainCanvas.rotation == 0 && |menuItems| > 0
    }

    function Now(): Window
      reads this
    {
      Window(|menuItems|, selectedItem, scrollPosition)
    }

    constructor (width: uint16, height: uint16)
      requires width < 0x8000 && height < 0x8000
      ensures Valid() && fresh(mainCanvas) && fresh(mainCanvas.buffer)
      ensures Now() == FRESH && menuItems == [BACK] && mainCanvas.Geo() == Geometry(width, height, 0)
    {
      mainCanvas := new GFXcanvas1(width, height);
      scrollPosition, selectedItem := 0, 0;
      menuItems, hasChanged := [BACK], true;
    }

    /** `subMenu`, `command`, `info` and `custom` all append an item. */
    method Append(title: seq<uint8>)
      requires Valid()
      modifies this`menuItems, this`hasChanged
      ensures Valid() && hasChanged && menuItems == old(menuItems) + [title]
      ensures Now() == Step(old(Now()), mainCanvas.height, Add)
    {
      menuItems := menuItems + [title];
      hasChanged := true;
    }

    /** Leaves the selection and the scroll position as they are. */
    method Clear()
      requires Valid()
      modifies this`menuItems, this`hasChanged
      ensures Valid() && hasChanged && menuItems == [BACK] && Now() == Cleared(old(Now()))
    {
      menuItems := [];
      menuItems := menuItems + [BACK];
      hasChanged := true;
    }

    /** The item that is activated, if the key is the select key; after `Clear` the selection may be past the last. */
    method Input(key: Key) returns (activated: int)
      requires Valid() && selectedItem >= 0 && (key == Select ==> selectedItem < |menuItems|)
      modifies this`selectedItem, this`scrollPosition, this`hasChanged
      ensures Valid() && hasChanged && Now() == Step(old(Now()), mainCanvas.height, Press(key))
      ensures activated == if key == Select then old(selectedItem) else -1
    {
      hasChanged := true;
      match key {
        case Up =>
          selectedItem := selectedItem - 1;
          if selectedItem < 0 {
            selectedItem := |menuItems| - 1;
          }
        case Down =>
          selectedItem := (selectedItem + 1) % |menuItems|;
        case Select =>
          return selectedItem;
      }
      var visible := IsItemVisible(selectedItem);
      if !visible {
        ScrollToItem(selectedItem);
      }
      activated := -1;
    }

    method IsItemVisible(item: int) returns (visible: bool)
      requires Valid()
      ensures visible == ItemVisible(scrollPosition, mainCanvas.height, item)
    {
      var itemPosition := ItemPosition(item + 1);
      visible := itemPosition - CHAR_HEIGHT > scrollPosition && itemPosition < scrollPosition + mainCanvas.height;
    }

    method ScrollToItem(item: int)
      requires Valid()
      modifies this`scrollPosition
      ensures scrollPosition == ScrolledTo(old(scrollPosition), mainCanvas.height, item)
    {
      var itemPosition := ItemPosition(item);
      if itemPosition + CHAR_HEIGHT > scrollPosition + mainCanvas.height {
        scrollPosition := itemPosition - mainCanvas.height + CHAR_HEIGHT + 2;
      } else {
        scrollPosition := itemPosition;
      }
    }

    /** Prints the list on a canvas of its own and shows the part that the window is scrolled to.  If no item is
        wrapped, the text of the selected item is on the window as far as its rows are: all of it if
        `TextOnWindow`. */
    method DrawMenu(font: Font, table: seq<byte>) returns (ghost items: seq<seq<Call>>)
      requires Valid() && MenuFont(font) && |table| == 256 * 5
      requires ItemPosition(|menuItems|) < 0x8000
      requires -0x8000 < scrollPosition < 0x8000 && ItemPosition(|menuItems|) - scrollPosition <= 0x8000
      requires ListDrawable(MenuStyle(mainCanvas.width, font), ItemPosition(|menuItems|),
                            ListLines(MenuStyle(mainCanvas.width, font), menuItems, selectedItem))
      modifies mainCanvas.buffer
      ensures |items| == |menuItems|
      ensures ListDrawn(Drawing(MenuStyle(mainCanvas.width, font), ListInk(ItemPosition(|menuItems|), table)),
                        ListLines(MenuStyle(mainCanvas.width, font), menuItems, selectedItem), items)
      ensures ShowsList(mainCanvas.Geo(), mainCanvas.buffer[..], items, scrollPosition, |items|)
      ensures ListOnLines(MenuStyle(mainCanvas.width, font), menuItems, selectedItem) ==>
        SelectedShown(mainCanvas.Geo(), mainCanvas.buffer[..], items, Now())
    {
      ghost var st := MenuStyle(mainCanvas.width, font);
      ListChained(st, menuItems, selectedItem);
      items := DrawList(mainCanvas, menuItems, selectedItem, scrollPosition, font, table,
                        st, ListLines(st, menuItems, selectedItem));
      SelectedTextShown(mainCanvas.Geo(), mainCanvas.buffer[..], items, Now(), font, mainCanvas.width,
                        ListInk(ItemPosition(|menuItems|), table), menuItems);
    }
  }

  /** Any sequence of additions and keys on a new menu goes through the states of `Run`. */
  method Operate(width: uint16, height: uint16, events: seq<Event>) returns (menu: Menu)
    requires width < 0x8000 && height < 0x8000
    ensures menu.Valid() && menu.Now() == Run(height, events)
    ensures height > CHAR_HEIGHT + 1 ==> OnWindow(menu.Now(), height)
  {
    menu := new Menu(width, height);
    for n := 0 to |events|
      invariant fresh(menu) && menu.Valid() && menu.mainCanvas.height == height
      invariant menu.Now() == Run(height, events[..n])
    {
      assert events[..n + 1][..n] == events[..n];
      SelectionExists(height, events[..n]);
      match events[n] {
        case Add =>
          menu.Append([]);
        case Press(key) =>
          var activated := menu.Input(key);
      }
    }
    assert events[..|events|] == events;
    if height > CHAR_HEIGHT + 1 {
      TallWindowShowsSelection(height, events);
    }
  }
}
