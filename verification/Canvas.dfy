/** `GFXcanvas1`: a one-bit canvas, eight pixels to the byte, in any of four rotations. */
module Canvas {
  import opened Machine
  import opened Raster
  import opened Bits

  /** The raw size of a canvas and its current rotation. */
  datatype Geometry = Geometry(W: int16, H: int16, rot: uint8) {
    predicate Valid() {
      0 <= W && 0 <= H && rot < 4
    }

    /** Bytes per scanline: the row is padded to a whole byte. */
    function RowBytes(): int {
      (W + 7) / 8
    }

    /** Size as seen through the rotation. */
    function Width(): int {
      if rot % 2 == 0 then W else H
    }

    function Height(): int {
      if rot % 2 == 0 then H else W
    }

    predicate OnCanvas(x: int, y: int) {
      0 <= x < Width() && 0 <= y < Height()
    }

    /** Where the logical pixel (x, y) is stored. */
    function ToRaw(x: int, y: int): (int, int) {
      match rot
      case 1 => (W - 1 - y, x)
      case 2 => (W - 1 - x, H - 1 - y)
      case 3 => (y, H - 1 - x)
      case _ => (x, y)
    }

    /** Which logical pixel is stored at raw position (X, Y). */
    function ToLogical(X: int, Y: int): (int, int) {
      match rot
      case 1 => (Y, W - 1 - X)
      case 2 => (W - 1 - X, H - 1 - Y)
      case 3 => (H - 1 - Y, X)
      case _ => (X, Y)
    }
  }

  /** Rotation is a bijection between the logical and the raw pixels. */
  lemma RotationBijective(g: Geometry, x: int, y: int)
    requires g.Valid()
    ensures var (X, Y) := g.ToRaw(x, y);
            && g.ToLogical(X, Y) == (x, y)
            && (g.OnCanvas(x, y) <==> 0 <= X < g.W && 0 <= Y < g.H)
    ensures var (x', y') := g.ToLogical(x, y);
            && g.ToRaw(x', y') == (x, y)
            && (g.OnCanvas(x', y') <==> 0 <= x < g.W && 0 <= y < g.H)
  {
  }

  /** Rotating in int16 may wrap, but never onto the canvas. */
  lemma RotationWraps(g: Geometry, x: int16, y: int16)
    requires g.Valid()
    ensures var (X, Y) := g.ToRaw(x, y);
            && (g.OnCanvas(x, y) ==> ToInt16(X) == X && ToInt16(Y) == Y)
            && (!g.OnCanvas(x, y) ==> !(0 <= ToInt16(X) < g.W && 0 <= ToInt16(Y) < g.H))
  {
    var (X, Y) := g.ToRaw(x, y);
    RotationBijective(g, x, y);
    WrapsOutside(X, g.W);
    WrapsOutside(Y, g.H);
  }

  lemma WrapsOutside(X: int, size: int16)
    requires -0x8000 <= X < 0x8000 + size
    ensures 0 <= X < size ==> ToInt16(X) == X
    ensures !(0 <= X < size) ==> !(0 <= ToInt16(X) < size)
  {
    if X >= 0x8000 {
      ToInt16Wraps(X);
    }
  }

  // ---- Bits of a buffer ----

  function Byte(buf: seq<byte>, k: int): byte {
    if 0 <= k < |buf| then buf[k] else 0
  }

  /** Bit X of scanline Y, in a buffer whose scanlines take rb bytes; padding bits included. */
  predicate RawBit(buf: seq<byte>, rb: nat, X: nat, Y: nat) {
    BitOf(Byte(buf, X / 8 + Y * rb), X % 8)
  }

  /** A buffer is its scanlines one after the other, from left to right. */
  lemma ScanlinesInOrder(buf: seq<byte>, rb: nat, X: nat, Y: nat)
    requires X < 8 * rb && rb * Y + rb <= |buf|
    ensures 0 <= 8 * (rb * Y) + X < 8 * |buf|
    ensures RawBit(buf, rb, X, Y) == Unpacked(buf)[8 * (rb * Y) + X]
  {
    MulPositive(rb, Y);
    assert rb * Y == Y * rb;
    BitInRow(buf, rb * Y, X);
  }

  lemma BitInRow(buf: seq<byte>, row: nat, X: nat)
    requires row + X / 8 < |buf|
    ensures 8 * row + X < 8 * |buf| && Unpacked(buf)[8 * row + X] == BitOf(buf[row + X / 8], X % 8)
  {
  }

  /** A scanline takes no more bytes than its pixels need. */
  lemma RowBytesLeast(g: Geometry)
    requires g.Valid()
    ensures g.W <= 8 * g.RowBytes() < g.W + 8
  {
  }

  /** The logical pixel (x, y); nothing is lit off the canvas. */
  predicate Lit(g: Geometry, buf: seq<byte>, x: int, y: int)
    requires g.Valid()
  {
    g.OnCanvas(x, y) &&
    var (X, Y) := g.ToRaw(x, y);
    RawBit(buf, g.RowBytes(), X, Y)
  }

  /** Looking up a pixel at its position rotated in int16 finds it, or nothing if it is off the canvas. */
  lemma LitThroughRotation(g: Geometry, buf: seq<byte>, x: int16, y: int16)
    requires g.Valid()
    ensures var (X, Y) := (ToInt16(g.ToRaw(x, y).0), ToInt16(g.ToRaw(x, y).1));
            Lit(g, buf, x, y) == (0 <= X < g.W && 0 <= Y < g.H && RawBit(buf, g.RowBytes(), X, Y))
  {
    RotationWraps(g, x, y);
    RotationBijective(g, x, y);
  }

  /** What bit (X, Y) holds after `calls`: a pixel is painted, a padding bit keeps its value. */
  predicate Shown(g: Geometry, before: seq<byte>, calls: seq<Call>, X: nat, Y: nat)
    requires g.Valid()
  {
    var bit := RawBit(before, g.RowBytes(), X, Y);
    if X < g.W then var (x, y) := g.ToLogical(X, Y); Paint(calls, x, y, bit) else bit
  }

  /** `after` is `before` with exactly the effect of `calls`, bit for bit. */
  ghost predicate Painted(g: Geometry, before: seq<byte>, after: seq<byte>, calls: seq<Call>)
    requires g.Valid()
  {
    && |after| == |before|
    && forall X: nat, Y: nat {:trigger RawBit(after, g.RowBytes(), X, Y)} ::
         X < 8 * g.RowBytes() && Y < g.H ==>
           RawBit(after, g.RowBytes(), X, Y) == Shown(g, before, calls, X, Y)
  }

  lemma CellInside(rb: nat, H: nat, X: nat, Y: nat)
    requires X < 8 * rb && Y < H
    ensures 0 <= X / 8 + Y * rb < rb * H
  {
    MulStep(Y, H, rb);
  }

  /** Distinct (byte column, scanline) pairs are distinct bytes. */
  lemma CellInjective(rb: nat, c: nat, Y: nat, c': nat, Y': nat)
    requires c < rb && c' < rb
    requires c + Y * rb == c' + Y' * rb
    ensures c == c' && Y == Y'
  {
    MulStep(Y, Y', rb);
    MulStep(Y', Y, rb);
  }

  /** Storing one byte changes its eight bits and no other. */
  lemma ByteStored(before: seq<byte>, after: seq<byte>, rb: nat, H: nat, c: nat, Y: nat, v: byte)
    requires |before| == rb * H && c < rb && Y < H
    requires 0 <= c + Y * rb < |before| && after == before[c + Y * rb := v]
    ensures forall X': nat, Y': nat {:trigger RawBit(after, rb, X', Y')} :: X' < 8 * rb && Y' < H ==>
      RawBit(after, rb, X', Y') == if Y' == Y && X' / 8 == c then BitOf(v, X' % 8) else RawBit(before, rb, X', Y')
  {
    forall X': nat, Y': nat | X' < 8 * rb && Y' < H
      ensures RawBit(after, rb, X', Y') == if Y' == Y && X' / 8 == c then BitOf(v, X' % 8) else RawBit(before, rb, X', Y')
    {
      CellInside(rb, H, X', Y');
      if X' / 8 + Y' * rb == c + Y * rb {
        CellInjective(rb, c, Y, X' / 8, Y');
      }
    }
  }

  /** `after` is `before` with the w x h block of raw pixels at (X, Y) set to `on`, bit for bit. */
  ghost predicate RawFilled(before: seq<byte>, after: seq<byte>, rb: nat, H: nat,
                            X: int, Y: int, w: int, h: int, on: bool)
  {
    && |after| == |before|
    && forall X': nat, Y': nat {:trigger RawBit(after, rb, X', Y')} :: X' < 8 * rb && Y' < H ==>
         RawBit(after, rb, X', Y') ==
         if X <= X' < X + w && Y <= Y' < Y + h then on else RawBit(before, rb, X', Y')
  }

  /** Storing a masked byte in byte column c fills the run of n pixels that the mask selects. */
  lemma MaskStored(before: seq<byte>, after: seq<byte>, rb: nat, H: nat, c: nat, first: nat, n: nat, Y: nat,
                   mask: byte, on: bool)
    requires |before| == rb * H && c < rb && Y < H && first + n <= 8
    requires 0 <= c + Y * rb < |before|
    requires var ptr := c + Y * rb; after == before[ptr := Masked(before[ptr], mask, on)]
    requires forall j :: 0 <= j < 8 ==> BitOf(mask, j) == (first <= j < first + n)
    ensures RawFilled(before, after, rb, H, 8 * c + first, Y, n, 1, on)
  {
    var ptr := c + Y * rb;
    MaskedBits(before[ptr], mask, on);
    ByteStored(before, after, rb, H, c, Y, after[ptr]);
  }

  /** Storing n whole bytes of zeros or ones fills a run of 8 * n pixels. */
  lemma BytesStored(before: seq<byte>, after: seq<byte>, rb: nat, H: nat, c: nat, n: nat, Y: nat, on: bool)
    requires |before| == |after| == rb * H && c + n <= rb && Y < H
    requires forall k :: 0 <= k < |before| ==>
      after[k] == if c + Y * rb <= k < c + n + Y * rb then (if on then 0xFF else 0x00) else before[k]
    ensures RawFilled(before, after, rb, H, 8 * c, Y, 8 * n, 1, on)
  {
    ConstantBytes();
    forall X': nat, Y': nat | X' < 8 * rb && Y' < H
      ensures RawBit(after, rb, X', Y') ==
              if 8 * c <= X' < 8 * c + 8 * n && Y <= Y' < Y + 1 then on else RawBit(before, rb, X', Y')
    {
      CellInside(rb, H, X', Y');
      MulStep(Y, Y', rb);
      MulStep(Y', Y, rb);
    }
  }

  lemma RawFilledRight(a: seq<byte>, b: seq<byte>, c: seq<byte>, rb: nat, H: nat, X: int, Y: int, w: nat, w': nat, on: bool)
    requires RawFilled(a, b, rb, H, X, Y, w, 1, on) && RawFilled(b, c, rb, H, X + w, Y, w', 1, on)
    ensures RawFilled(a, c, rb, H, X, Y, w + w', 1, on)
  {
  }

  lemma RawFilledDown(a: seq<byte>, b: seq<byte>, c: seq<byte>, rb: nat, H: nat, X: int, Y: int, h: nat, on: bool)
    requires RawFilled(a, b, rb, H, X, Y, 1, h, on) && RawFilled(b, c, rb, H, X, Y + h, 1, 1, on)
    ensures RawFilled(a, c, rb, H, X, Y, 1, h + 1, on)
  {
  }

  /** A filled block of raw pixels is what a call paints, if the call covers the block's logical pixels. */
  lemma RunPainted(g: Geometry, before: seq<byte>, after: seq<byte>, X: int, Y: int, w: int, h: int, call: Call)
    requires g.Valid()
    requires RawFilled(before, after, g.RowBytes(), g.H, X, Y, w, h, call.color != 0)
    requires 0 <= w && X + w <= g.W
    requires forall x, y :: g.OnCanvas(x, y) ==>
      (Covers(call, x, y) <==> var (X', Y') := g.ToRaw(x, y); X <= X' < X + w && Y <= Y' < Y + h)
    ensures Painted(g, before, after, [call])
  {
    forall X': nat, Y': nat | X' < 8 * g.RowBytes() && Y' < g.H
      ensures RawBit(after, g.RowBytes(), X', Y') == Shown(g, before, [call], X', Y')
    {
      RotationBijective(g, X', Y');
      PaintSingle(call);
    }
  }

  /** The raw block that holds the logical w x h block at (x, y). */
  function RawBlock(g: Geometry, x: int, y: int, w: int, h: int): (int, int, int, int) {
    match g.rot
    case 1 => (g.W - y - h, x, h, w)
    case 2 => (g.W - x - w, g.H - y - h, w, h)
    case 3 => (y, g.H - x - w, h, w)
    case _ => (x, y, w, h)
  }

  lemma BlockPainted(g: Geometry, before: seq<byte>, after: seq<byte>, x: int, y: int, w: nat, h: nat, call: Call)
    requires g.Valid()
    requires 0 <= x && x + w <= g.Width() && 0 <= y && y + h <= g.Height()
    requires var (X, Y, w', h') := RawBlock(g, x, y, w, h);
             RawFilled(before, after, g.RowBytes(), g.H, X, Y, w', h', call.color != 0)
    requires forall i, j :: g.OnCanvas(i, j) ==> (Covers(call, i, j) <==> x <= i < x + w && y <= j < y + h)
    ensures Painted(g, before, after, [call])
  {
    var (X, Y, w', h') := RawBlock(g, x, y, w, h);
    RunPainted(g, before, after, X, Y, w', h', call);
  }

  /** A call that covers no pixel of the canvas leaves the buffer alone. */
  lemma NothingPainted(g: Geometry, buf: seq<byte>, call: Call)
    requires g.Valid()
    requires forall x, y :: g.OnCanvas(x, y) ==> !Covers(call, x, y)
    ensures Painted(g, buf, buf, [call])
  {
    RunPainted(g, buf, buf, 0, 0, 0, 0, call);
  }

  /** Equal bits make equal buffers. */
  lemma BufferExtensional(a: seq<byte>, b: seq<byte>, rb: nat, H: nat)
    requires |a| == |b| == rb * H
    requires forall X: nat, Y: nat :: X < 8 * rb && Y < H ==> RawBit(a, rb, X, Y) == RawBit(b, rb, X, Y)
    ensures a == b
  {
    forall k | 0 <= k < |a| ensures a[k] == b[k] {
      assert rb > 0;
      var Y, c := k / rb, k % rb;
      assert k == c + Y * rb;
      MulStep(H, Y, rb);
      forall j | 0 <= j < 8 ensures BitOf(a[k], j) == BitOf(b[k], j) {
        var X := 8 * c + j;
        assert X / 8 == c && X % 8 == j;
        assert RawBit(a, rb, X, Y) == RawBit(b, rb, X, Y);
      }
      ByteExtensional(a[k], b[k]);
    }
  }

  /** The final buffer is determined by what the calls paint, not by how they paint it. */
  lemma SamePaintSameBuffer(g: Geometry, before: seq<byte>, calls: seq<Call>, after: seq<byte>,
                            calls': seq<Call>, after': seq<byte>)
    requires g.Valid() && |before| == g.RowBytes() * g.H
    requires Painted(g, before, after, calls) && Painted(g, before, after', calls')
    requires forall x, y, b {:trigger Paint(calls, x, y, b)} ::
      g.OnCanvas(x, y) ==> Paint(calls, x, y, b) == Paint(calls', x, y, b)
    ensures after == after'
  {
    forall X: nat, Y: nat | X < 8 * g.RowBytes() && Y < g.H
      ensures RawBit(after, g.RowBytes(), X, Y) == RawBit(after', g.RowBytes(), X, Y)
    {
      RotationBijective(g, X, Y);
    }
    BufferExtensional(after, after', g.RowBytes(), g.H);
  }

  /** Painting in two steps. */
  lemma PaintedThen(g: Geometry, a: seq<byte>, b: seq<byte>, c: seq<byte>, first: seq<Call>, second: seq<Call>)
    requires g.Valid()
    requires Painted(g, a, b, first) && Painted(g, b, c, second)
    ensures Painted(g, a, c, first + second)
  {
    forall X: nat, Y: nat | X < 8 * g.RowBytes() && Y < g.H
      ensures RawBit(c, g.RowBytes(), X, Y) == Shown(g, a, first + second, X, Y)
    {
      var bit := RawBit(a, g.RowBytes(), X, Y);
      var (x, y) := g.ToLogical(X, Y);
      PaintConcat(first, second, x, y, bit);
      assert RawBit(b, g.RowBytes(), X, Y) == Shown(g, a, first, X, Y);
    }
  }

  /** Painting seen through the rotation: each pixel on the canvas shows what the calls painted there. */
  lemma PaintedLit(g: Geometry, before: seq<byte>, after: seq<byte>, calls: seq<Call>, x: int, y: int)
    requires g.Valid() && Painted(g, before, after, calls)
    ensures Lit(g, after, x, y) == (g.OnCanvas(x, y) && Paint(calls, x, y, Lit(g, before, x, y)))
  {
    if g.OnCanvas(x, y) {
      RotationBijective(g, x, y);
      var (X, Y) := g.ToRaw(x, y);
      assert RawBit(after, g.RowBytes(), X, Y) == Shown(g, before, calls, X, Y);
    }
  }

  /** Read-over-write: after one pixel is drawn, it has the new colour and every other pixel its old value. */
  lemma ReadOverWrite(g: Geometry, before: seq<byte>, after: seq<byte>, x: int16, y: int16, color: uint16, i: int, j: int)
    requires g.Valid() && Painted(g, before, after, [Pixel(x, y, color)])
    ensures Lit(g, after, i, j) ==
            if (i, j) == (x, y) then g.OnCanvas(x, y) && color != 0 else Lit(g, before, i, j)
  {
    PaintedLit(g, before, after, [Pixel(x, y, color)], i, j);
  }

  /** The pixel in the upper left corner of the picture is stored in the raw corner that the rotation takes there:
      going around with each quarter turn. */
  lemma OriginStored(g: Geometry, before: seq<byte>, after: seq<byte>, color: uint16)
    requires g.Valid() && g.W > 0 && g.H > 0 && Painted(g, before, after, [Pixel(0, 0, color)])
    ensures g.rot == 0 ==> RawBit(after, g.RowBytes(), 0, 0) == (color != 0)
    ensures g.rot == 1 ==> RawBit(after, g.RowBytes(), g.W - 1, 0) == (color != 0)
    ensures g.rot == 2 ==> RawBit(after, g.RowBytes(), g.W - 1, g.H - 1) == (color != 0)
    ensures g.rot == 3 ==> RawBit(after, g.RowBytes(), 0, g.H - 1) == (color != 0)
  {
    var (X, Y) := g.ToRaw(0, 0);
    assert RawBit(after, g.RowBytes(), X, Y) == Shown(g, before, [Pixel(0, 0, color)], X, Y);
  }

  /** A pixel is stored at its raw position, and nowhere else. */
  lemma StoredOnce(g: Geometry, before: seq<byte>, after: seq<byte>, x: int16, y: int16, color: uint16, X: nat, Y: nat)
    requires g.Valid() && g.OnCanvas(x, y) && X < g.W && Y < g.H
    requires Painted(g, before, after, [Pixel(x, y, color)])
    ensures RawBit(after, g.RowBytes(), X, Y) ==
            if (X, Y) == g.ToRaw(x, y) then color != 0 else RawBit(before, g.RowBytes(), X, Y)
  {
    RotationBijective(g, x, y);
    RotationBijective(g, X, Y);
    PaintSingle(Pixel(x, y, color));
    assert RawBit(after, g.RowBytes(), X, Y) == Shown(g, before, [Pixel(x, y, color)], X, Y);
  }

  /** The picture is turned, never mirrored or stretched: a step to the right and a step down are one raw pixel each,
      and the second is a quarter turn clockwise from the first. */
  lemma RotationTurns(g: Geometry, x: int, y: int)
    requires g.Valid()
    ensures var (X, Y), (X1, Y1), (X2, Y2) := g.ToRaw(x, y), g.ToRaw(x + 1, y), g.ToRaw(x, y + 1);
            var (a, b, c, d) := (X1 - X, Y1 - Y, X2 - X, Y2 - Y);
            a * d - b * c == 1 && Abs(a) + Abs(b) == 1 && (c, d) == (-b, a)
  {
  }

  /** Draws the upper left pixel of the picture and finds it in the raw corner. */
  method DrawCorner(canvas: GFXcanvas1, color: uint16) returns (lit: bool)
    requires canvas.Valid() && canvas.WIDTH > 0 && canvas.HEIGHT > 0
    modifies canvas.buffer
    ensures lit == (color != 0)
    ensures var (X, Y) := CornerOf(canvas.rotation, canvas.WIDTH, canvas.HEIGHT);
            lit == RawBit(canvas.buffer[..], canvas.Geo().RowBytes(), X, Y)
  {
    ghost var before := canvas.buffer[..];
    canvas.DrawPixel(0, 0, color);
    OriginStored(canvas.Geo(), before, canvas.buffer[..], color);
    var (X, Y) := CornerOf(canvas.rotation, canvas.WIDTH, canvas.HEIGHT);
    lit := canvas.GetRawPixel(X, Y);
  }

  /** The raw corner where a picture of this rotation begins. */
  function CornerOf(rotation: uint8, W: int16, H: int16): (int16, int16)
    requires W > 0 && H > 0
  {
    (if rotation == 1 || rotation == 2 then W - 1 else 0, if rotation == 2 || rotation == 3 then H - 1 else 0)
  }

  /** Sets or clears the masked bits of the byte at `ptr`: n raw pixels of byte column c of scanline Y. */
  method StoreMasked(buffer: array<byte>, ptr: int, mask: byte, color: uint16, ghost rb: nat, ghost H: nat,
                     ghost c: nat, ghost first: nat, ghost n: nat, ghost Y: nat)
    requires buffer.Length == rb * H && c < rb && Y < H && first + n <= 8
    requires ptr == c + Y * rb
    requires forall j :: 0 <= j < 8 ==> BitOf(mask, j) == (first <= j < first + n)
    modifies buffer
    ensures RawFilled(old(buffer[..]), buffer[..], rb, H, 8 * c + first, Y, n, 1, color != 0)
  {
    CellInside(rb, H, 8 * c, Y);
    StoreMaskedByte(buffer, ptr, mask, color);
    MaskStored(old(buffer[..]), buffer[..], rb, H, c, first, n, Y, mask, color != 0);
  }

  method StoreMaskedByte(buffer: array<byte>, ptr: nat, mask: byte, color: uint16)
    requires ptr < buffer.Length
    modifies buffer
    ensures buffer[..] == old(buffer[..])[ptr := Masked(old(buffer[ptr]), mask, color > 0)]
  {
    if color > 0 {
      buffer[ptr] := buffer[ptr] | mask;
    } else {
      buffer[ptr] := buffer[ptr] & !mask;
    }
  }

  /** `memset` of n whole bytes from `ptr` on: byte column c of scanline Y. */
  method StoreWhole(buffer: array<byte>, ptr: int, n: nat, color: uint16, ghost rb: nat, ghost H: nat,
                    ghost c: nat, ghost Y: nat)
    requires buffer.Length == rb * H && c + n <= rb && Y < H
    requires ptr == c + Y * rb
    modifies buffer
    ensures RawFilled(old(buffer[..]), buffer[..], rb, H, 8 * c, Y, 8 * n, 1, color != 0)
  {
    MulStep(Y, H, rb);
    MulPositive(Y, rb);
    Memset(buffer, ptr, if color > 0 then 0xFF else 0x00, n);
    BytesStored(old(buffer[..]), buffer[..], rb, H, c, n, Y, color != 0);
  }

  /** Sets or clears one bit of the byte at `ptr`: the bit of raw pixel (X, Y). */
  method StoreBit(buffer: array<byte>, ptr: int, i: nat, color: uint16, ghost rb: nat, ghost H: nat,
                  ghost X: nat, ghost Y: nat)
    requires buffer.Length == rb * H && X < 8 * rb && Y < H
    requires ptr == X / 8 + Y * rb && i == X % 8
    modifies buffer
    ensures RawFilled(old(buffer[..]), buffer[..], rb, H, X, Y, 1, 1, color != 0)
  {
    MaskBits(i);
    StoreMasked(buffer, ptr, Mask(i), color, rb, H, X / 8, i, 1, Y);
  }

  /** The mask of `n` bits of a byte, from bit `first` on. */
  method RunMask(first: nat, n: nat) returns (mask: byte)
    requires first + n <= 8
    ensures forall j :: 0 <= j < 8 ==> BitOf(mask, j) == (first <= j < first + n)
  {
    mask := 0x00;
    ConstantBytes();
    for i := first to first + n
      invariant forall j :: 0 <= j < 8 ==> BitOf(mask, j) == (first <= j < i)
    {
      MaskBits(i);
      MaskedBits(mask, Mask(i), true);
      mask := Masked(mask, Mask(i), true);
    }
  }

  method Memset(buffer: array<byte>, ptr: nat, value: byte, n: nat)
    requires ptr + n <= buffer.Length
    modifies buffer
    ensures forall k :: 0 <= k < buffer.Length ==> buffer[k] == if ptr <= k < ptr + n then value else old(buffer[k])
  {
    for i := 0 to n
      invariant forall k :: 0 <= k < buffer.Length ==> buffer[k] == if ptr <= k < ptr + i then value else old(buffer[k])
    {
      buffer[ptr + i] := value;
    }
  }

  class GFXcanvas1 {
    const WIDTH: int16
    const HEIGHT: int16
    var width: int16
    var height: int16
    var rotation: uint8
    const buffer: array<byte>

    ghost predicate Valid()
      reads this
    {
      && 0 <= WIDTH && 0 <= HEIGHT && rotation < 4
      && width == Geo().Width() && height == Geo().Height()
      && buffer.Length == Geo().RowBytes() * HEIGHT
    }

    function Geo(): Geometry
      reads this
    {
      Geometry(WIDTH, HEIGHT, rotation)
    }

    /** The buffer is allocated and cleared. */
    constructor (w: uint16, h: uint16)
      requires w < 0x8000 && h < 0x8000
      ensures Valid() && fresh(buffer) && Geo() == Geometry(w, h, 0)
      ensures forall x, y :: !Lit(Geo(), buffer[..], x, y)
    {
      WIDTH, HEIGHT := w, h;
      width, height, rotation := w, h, 0;
      assert (w + 7) / 8 * h >= 0;
      buffer := new byte[(w + 7) / 8 * h](_ => 0);
      new;
      ConstantBytes();
    }

    method SetRotation(x: uint8)
      requires Valid()
      modifies this`rotation, this`width, this`height
      ensures Valid() && rotation == x % 4
    {
      rotation := x % 4;
      match rotation {
        case 0 | 2 =>
          width := WIDTH;
          height := HEIGHT;
        case _ =>
          width := HEIGHT;
          height := WIDTH;
      }
    }

    method DrawPixel(x: int16, y: int16, color: uint16)
      requires Valid()
      modifies buffer
      ensures Painted(Geo(), old(buffer[..]), buffer[..], [Pixel(x, y, color)])
    {
      ghost var i: int16, j: int16 := x, y;
      var x: int16, y: int16 := x, y;
      if x < 0 || y < 0 || x >= width || y >= height {
        NothingPainted(Geo(), buffer[..], Pixel(x, y, color));
        return;
      }
      RotationBijective(Geo(), x, y);
      match rotation {
        case 1 =>
          var t: int16 := x;
          x := WIDTH - 1 - y;
          y := t;
        case 2 =>
          x := WIDTH - 1 - x;
          y := HEIGHT - 1 - y;
        case 3 =>
          var t: int16 := x;
          x := y;
          y := HEIGHT - 1 - t;
        case _ =>
      }
      assert (x, y) == Geo().ToRaw(i, j);
      var rowBytes := (WIDTH + 7) / 8;
      var ptr := x / 8 + y * rowBytes;
      StoreBit(buffer, ptr, x % 8, color, rowBytes, HEIGHT, x, y);
      BlockPainted(Geo(), old(buffer[..]), buffer[..], i, j, 1, 1, Pixel(i, j, color));
    }

    /** The whole int16 plane is accepted: a coordinate that wraps in the rotation is still off the canvas. */
    method GetPixel(x: int16, y: int16) returns (lit: bool)
      requires Valid()
      ensures lit == Lit(Geo(), buffer[..], x, y)
    {
      var rawX, rawY := Rotate(x, y);
      LitThroughRotation(Geo(), buffer[..], x, y);
      lit := GetRawPixel(rawX, rawY);
    }

    /** The rotation step of `getPixel`, in int16. */
    method Rotate(x: int16, y: int16) returns (rawX: int16, rawY: int16)
      requires Valid()
      ensures rawX == ToInt16(Geo().ToRaw(x, y).0) && rawY == ToInt16(Geo().ToRaw(x, y).1)
    {
      rawX, rawY := x, y;
      match rotation {
        case 1 =>
          var t: int16 := rawX;
          rawX := ToInt16(WIDTH - 1 - rawY);
          rawY := t;
        case 2 =>
          rawX := ToInt16(WIDTH - 1 - rawX);
          rawY := ToInt16(HEIGHT - 1 - rawY);
        case 3 =>
          var t: int16 := rawX;
          rawX := rawY;
          rawY := ToInt16(HEIGHT - 1 - t);
        case _ =>
      }
    }

    method GetRawPixel(x: int16, y: int16) returns (lit: bool)
      requires Valid()
      ensures lit == (0 <= x < WIDTH && 0 <= y < HEIGHT && RawBit(buffer[..], Geo().RowBytes(), x, y))
    {
      if x < 0 || y < 0 || x >= WIDTH || y >= HEIGHT {
        return false;
      }
      CellInside((WIDTH + 7) / 8, HEIGHT, x, y);
      lit := buffer[x / 8 + y * ((WIDTH + 7) / 8)] & Mask(x % 8) != 0;
    }

    /** Padding bits included. */
    method FillScreen(color: uint16)
      requires Valid()
      modifies buffer
      ensures forall X: nat, Y: nat :: X < 8 * Geo().RowBytes() && Y < HEIGHT ==>
        RawBit(buffer[..], Geo().RowBytes(), X, Y) == (color != 0)
    {
      Memset(buffer, 0, if color != 0 then 0xFF else 0x00, (WIDTH + 7) / 8 * HEIGHT);
      ConstantBytes();
      forall X: nat, Y: nat | X < 8 * Geo().RowBytes() && Y < HEIGHT
        ensures RawBit(buffer[..], Geo().RowBytes(), X, Y) == (color != 0)
      {
        CellInside(Geo().RowBytes(), HEIGHT, X, Y);
      }
    }

    // ---- Fast lines ----

    /** Sets exactly raw pixels (x, y) .. (x, y + h - 1). */
    method DrawFastRawVLine(x: int16, y: int16, h: int16, color: uint16)
      requires Valid()
      requires 0 <= x < WIDTH && 0 <= y && 0 <= h && y + h <= HEIGHT
      modifies buffer
      ensures RawFilled(old(buffer[..]), buffer[..], Geo().RowBytes(), HEIGHT, x, y, 1, h, color != 0)
    {
      var rowBytes: int16 := (WIDTH + 7) / 8;
      var ptr := x / 8 + y * rowBytes;
      for i := 0 to h
        invariant ptr == x / 8 + (y + i) * rowBytes
        invariant RawFilled(old(buffer[..]), buffer[..], rowBytes, HEIGHT, x, y, 1, i, color != 0)
      {
        ghost var before := buffer[..];
        StoreBit(buffer, ptr, x % 8, color, rowBytes, HEIGHT, x, y + i);
        RawFilledDown(old(buffer[..]), before, buffer[..], rowBytes, HEIGHT, x, y, i, color != 0);
        MulNext(y + i, rowBytes);
        ptr := ptr + rowBytes;
      }
    }

    /** Sets exactly raw pixels (x, y) .. (x + w - 1, y): a partial first byte, whole bytes, a partial last byte. */
    method DrawFastRawHLine(x: int16, y: int16, w: int16, color: uint16)
      requires Valid()
      requires 0 <= x && 0 <= w && x + w <= WIDTH && 0 <= y < HEIGHT
      modifies buffer
      ensures RawFilled(old(buffer[..]), buffer[..], Geo().RowBytes(), HEIGHT, x, y, w, 1, color != 0)
    {
      var rowBytes: int16 := (WIDTH + 7) / 8;
      ghost var start, c, done := buffer[..], x / 8, 0;
      var ptr := x / 8 + y * rowBytes;
      var remainingWidthBits: nat := w;
      if x % 8 > 0 {
        var n := Min(8 - x % 8, remainingWidthBits);
        var startByteBitMask := RunMask(x % 8, n);
        remainingWidthBits := remainingWidthBits - n;
        StoreMasked(buffer, ptr, startByteBitMask, color, rowBytes, HEIGHT, c, x % 8, n, y);
        done := n;
        ptr, c := ptr + 1, c + 1;
      }
      if remainingWidthBits > 0 {
        assert x + done == 8 * c;
        var remainingWholeBytes := remainingWidthBits / 8;
        var lastByteBits := remainingWidthBits % 8;
        ghost var before := buffer[..];
        StoreWhole(buffer, ptr, remainingWholeBytes, color, rowBytes, HEIGHT, c, y);
        RawFilledRight(start, before, buffer[..], rowBytes, HEIGHT, x, y, done, 8 * remainingWholeBytes, color != 0);
        if lastByteBits > 0 {
          var lastByteBitMask := RunMask(0, lastByteBits);
          ptr, c := ptr + remainingWholeBytes, c + remainingWholeBytes;
          done, before := done + 8 * remainingWholeBytes, buffer[..];
          StoreMasked(buffer, ptr, lastByteBitMask, color, rowBytes, HEIGHT, c, 0, lastByteBits, y);
          RawFilledRight(start, before, buffer[..], rowBytes, HEIGHT, x, y, done, lastByteBits, color != 0);
        }
      }
    }

    method DrawFastVLine(x: int16, y: int16, h: int16, color: uint16)
      requires Valid() && RunFits(y, h)
      modifies buffer
      ensures Painted(Geo(), old(buffer[..]), buffer[..], [VLine(x, y, h, color)])
    {
      ghost var call := VLine(x, y, h, color);
      var x: int16, y: int16, h: int16 := x, y, h;
      if h < 0 {
        h := h * -1;
        y := y - (h - 1);
        if y < 0 {
          h := h + y;
          y := 0;
        }
      }
      if x < 0 || x >= width || y >= height || y + h - 1 < 0 {
        NothingPainted(Geo(), buffer[..], call);
        return;
      }
      if y < 0 {
        h := h + y;
        y := 0;
      }
      if y + h > height {
        h := height - y;
      }
      DrawInsideVLine(x, y, h, color);
      BlockPainted(Geo(), old(buffer[..]), buffer[..], x, y, 1, h, call);
    }

    /** The part of `drawFastVLine` after clipping: turn the run into raw coordinates and draw it. */
    method DrawInsideVLine(x: int16, y: int16, h: int16, color: uint16)
      requires Valid() && 0 <= x < width && 0 <= y && 0 <= h && y + h <= height
      modifies buffer
      ensures var (X, Y, w', h') := RawBlock(Geo(), x, y, 1, h);
              RawFilled(old(buffer[..]), buffer[..], Geo().RowBytes(), HEIGHT, X, Y, w', h', color != 0)
    {
      var x: int16, y: int16 := x, y;
      match rotation {
        case 0 =>
          DrawFastRawVLine(x, y, h, color);
        case 1 =>
          var t: int16 := x;
          x := WIDTH - 1 - y;
          y := t;
          x := x - (h - 1);
          DrawFastRawHLine(x, y, h, color);
        case 2 =>
          x := WIDTH - 1 - x;
          y := HEIGHT - 1 - y;
          y := y - (h - 1);
          DrawFastRawVLine(x, y, h, color);
        case _ =>
          var t: int16 := x;
          x := y;
          y := HEIGHT - 1 - t;
          DrawFastRawHLine(x, y, h, color);
      }
    }

    method DrawFastHLine(x: int16, y: int16, w: int16, color: uint16)
      requires Valid() && RunFits(x, w)
      modifies buffer
      ensures Painted(Geo(), old(buffer[..]), buffer[..], [HLine(x, y, w, color)])
    {
      ghost var call := HLine(x, y, w, color);
      var x: int16, y: int16, w: int16 := x, y, w;
      if w < 0 {
        w := w * -1;
        x := x - (w - 1);
        if x < 0 {
          w := w + x;
          x := 0;
        }
      }
      if y < 0 || y >= height || x >= width || x + w - 1 < 0 {
        NothingPainted(Geo(), buffer[..], call);
        return;
      }
      if x < 0 {
        w := w + x;
        x := 0;
      }
      if x + w >= width {
        w := width - x;
      }
      DrawInsideHLine(x, y, w, color);
      BlockPainted(Geo(), old(buffer[..]), buffer[..], x, y, w, 1, call);
    }

    method DrawInsideHLine(x: int16, y: int16, w: int16, color: uint16)
      requires Valid() && 0 <= y < height && 0 <= x && 0 <= w && x + w <= width
      modifies buffer
      ensures var (X, Y, w', h') := RawBlock(Geo(), x, y, w, 1);
              RawFilled(old(buffer[..]), buffer[..], Geo().RowBytes(), HEIGHT, X, Y, w', h', color != 0)
    {
      var x: int16, y: int16 := x, y;
      match rotation {
        case 0 =>
          DrawFastRawHLine(x, y, w, color);
        case 1 =>
          var t: int16 := x;
          x := WIDTH - 1 - y;
          y := t;
          DrawFastRawVLine(x, y, w, color);
        case 2 =>
          x := WIDTH - 1 - x;
          y := HEIGHT - 1 - y;
          x := x - (w - 1);
          DrawFastRawHLine(x, y, w, color);
        case _ =>
          var t: int16 := x;
          x := y;
          y := HEIGHT - 1 - t;
          y := y - (w - 1);
          DrawFastRawVLine(x, y, w, color);
      }
    }

    /** The virtual calls of a base-class routine, dispatched to this class's overrides. */
    method Play(calls: seq<Call>)
      requires Valid() && AllPlayable(calls)
      modifies buffer
      ensures Painted(Geo(), old(buffer[..]), buffer[..], calls)
    {
      for k := 0 to |calls|
        invariant Painted(Geo(), old(buffer[..]), buffer[..], calls[..k])
      {
        ghost var before := buffer[..];
        match calls[k] {
          case Pixel(x, y, color) => DrawPixel(x, y, color);
          case VLine(x, y, len, color) => DrawFastVLine(x, y, len, color);
          case HLine(x, y, len, color) => DrawFastHLine(x, y, len, color);
        }
        PaintedThen(Geo(), old(buffer[..]), before, buffer[..], calls[..k], [calls[k]]);
        assert calls[..k + 1] == calls[..k] + [calls[k]];
      }
      assert calls[..|calls|] == calls;
    }
  }
}
