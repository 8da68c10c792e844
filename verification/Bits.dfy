/** Bytes as rows of eight pixels, most significant bit first. */
module Bits {
  type byte = bv8

  /** The byte `0x80 >> i`. */
  function Mask(i: nat): byte
    requires i < 8
  {
    match i
    case 0 => 0x80
    case 1 => 0x40
    case 2 => 0x20
    case 3 => 0x10
    case 4 => 0x08
    case 5 => 0x04
    case 6 => 0x02
    case _ => 0x01
  }

  predicate BitOf(b: byte, i: nat)
    requires i < 8
  {
    b & Mask(i) != 0
  }

  lemma MasksApart(i: nat, j: nat)
    requires i < 8 && j < 8
    ensures Mask(i) & Mask(j) == if i == j then Mask(i) else 0
    ensures Mask(i) != 0
  {
  }

  /** `m` selects bits of `b` to set. */
  lemma SetBits(b: byte, m: byte)
    ensures forall j :: 0 <= j < 8 ==> BitOf(b | m, j) == (BitOf(m, j) || BitOf(b, j))
  {
    forall j | 0 <= j < 8 ensures BitOf(b | m, j) == (BitOf(m, j) || BitOf(b, j)) {
      assert (b | m) & Mask(j) == (b & Mask(j)) | (m & Mask(j));
    }
  }

  /** `m` selects bits of `b` to clear. */
  lemma ClearBits(b: byte, m: byte)
    ensures forall j :: 0 <= j < 8 ==> BitOf(b & !m, j) == (!BitOf(m, j) && BitOf(b, j))
  {
    forall j | 0 <= j < 8 ensures BitOf(b & !m, j) == (!BitOf(m, j) && BitOf(b, j)) {
      ClearBitAt(b, m, j);
    }
  }

  lemma ClearBitAt(b: byte, m: byte, j: nat)
    requires j < 8
    ensures BitOf(b & !m, j) == (!BitOf(m, j) && BitOf(b, j))
  {
  }

  lemma MaskBits(i: nat)
    requires i < 8
    ensures forall j :: 0 <= j < 8 ==> BitOf(Mask(i), j) == (j == i)
  {
    forall j | 0 <= j < 8 ensures BitOf(Mask(i), j) == (j == i) {
      MasksApart(i, j);
    }
  }

  /** Setting or clearing the bits that a mask selects. */
  function Masked(b: byte, mask: byte, on: bool): byte {
    if on then b | mask else b & !mask
  }

  lemma MaskedBits(b: byte, mask: byte, on: bool)
    ensures forall j :: 0 <= j < 8 ==> BitOf(Masked(b, mask, on), j) == if BitOf(mask, j) then on else BitOf(b, j)
  {
    SetBits(b, mask);
    ClearBits(b, mask);
  }

  lemma ConstantBytes()
    ensures forall j :: 0 <= j < 8 ==> BitOf(0xFF, j) && !BitOf(0x00, j)
  {
    forall j | 0 <= j < 8 ensures BitOf(0xFF, j) && !BitOf(0x00, j) {
      MasksApart(j, j);
    }
  }

  /** Shifting a byte left brings its next bit to the front. */
  lemma ShiftLeft(b: byte, j: nat)
    requires j < 7
    ensures BitOf(b << 1, j) == BitOf(b, j + 1)
  {
  }

  lemma ShiftRight(b: byte, j: nat)
    requires j < 7
    ensures BitOf(b >> 1, j + 1) == BitOf(b, j)
  {
  }

  function Value(b: byte, i: nat): nat
    requires i < 8
  {
    if !BitOf(b, i) then 0
    else
      match i
      case 0 => 128
      case 1 => 64
      case 2 => 32
      case 3 => 16
      case 4 => 8
      case 5 => 4
      case 6 => 2
      case _ => 1
  }

  /** Bit 0 is the most significant one: a byte is the sum of its bits' place values. */
  lemma PlaceValues(b: byte)
    ensures b as int == Value(b, 0) + Value(b, 1) + Value(b, 2) + Value(b, 3)
                      + Value(b, 4) + Value(b, 5) + Value(b, 6) + Value(b, 7)
  {
  }

  /** The bits of a packed bitmap, in order. */
  function Unpacked(bitmap: seq<byte>): (bits: seq<bool>)
    ensures |bits| == 8 * |bitmap|
    ensures forall n :: 0 <= n < |bits| ==> bits[n] == BitOf(bitmap[n / 8], n % 8)
  {
    seq(8 * |bitmap|, n requires 0 <= n < 8 * |bitmap| => BitOf(bitmap[n / 8], n % 8))
  }

  /** A byte is its eight bits. */
  lemma ByteExtensional(a: byte, b: byte)
    requires forall j :: 0 <= j < 8 ==> BitOf(a, j) == BitOf(b, j)
    ensures a == b
  {
    assert BitOf(a, 0) == BitOf(b, 0) && BitOf(a, 1) == BitOf(b, 1);
    assert BitOf(a, 2) == BitOf(b, 2) && BitOf(a, 3) == BitOf(b, 3);
    assert BitOf(a, 4) == BitOf(b, 4) && BitOf(a, 5) == BitOf(b, 5);
    assert BitOf(a, 6) == BitOf(b, 6) && BitOf(a, 7) == BitOf(b, 7);
  }
}
