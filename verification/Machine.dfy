/** The machine integers of the modelled C/C++ code.

    Arithmetic in the sources is done in `int` (at least 32 bits) after promotion, so plain Dafny `int`
    expressions stand for it.  A value stored in an `int16_t`, `uint8_t`, ... is given the subset type of
    that name: the verifier then proves, at the store, that nothing is truncated.  Where the code relies
    on truncation (or is shown to survive it), the conversion is written out with `ToInt16` or `ToUint8`. */
module Machine {
  type int8 = x: int | -0x80 <= x < 0x80
  type uint8 = x: int | 0 <= x < 0x100
  type int16 = x: int | -0x8000 <= x < 0x8000
  type uint16 = x: int | 0 <= x < 0x1_0000
  type int32 = x: int | -0x8000_0000 <= x < 0x8000_0000

  /** Conversion of an `int` to `int16_t`: the representative modulo 2^16. */
  function ToInt16(x: int): (r: int16)
    ensures (x - r) % 0x1_0000 == 0
    ensures -0x8000 <= x < 0x8000 ==> r == x
  {
    if -0x8000 <= x < 0x8000 then x
    else
      var m := x % 0x1_0000;
      if m < 0x8000 then m else m - 0x1_0000
  }

  /** A value a little above the int16 range wraps to a negative one. */
  lemma ToInt16Wraps(x: int)
    requires 0x8000 <= x < 0x1_0000
    ensures ToInt16(x) == x - 0x1_0000
  {
  }

  /** Conversion of an `int` to `uint8_t`. */
  function ToUint8(x: int): (r: uint8)
    ensures (x - r) % 0x100 == 0
    ensures 0 <= x < 0x100 ==> r == x
  {
    if 0 <= x < 0x100 then x else x % 0x100
  }

  /** Conversion of an `int` to `uint16_t`. */
  function ToUint16(x: int): (r: uint16)
    ensures (x - r) % 0x1_0000 == 0
    ensures 0 <= x < 0x1_0000 ==> r == x
  {
    if 0 <= x < 0x1_0000 then x else x % 0x1_0000
  }

  /** C's integer division, which truncates toward zero (Dafny's is Euclidean). */
  function TruncDiv(a: int, b: int): (q: int)
    requires b > 0
    ensures a >= 0 ==> 0 <= q && q * b <= a < q * b + b
    ensures a < 0 ==> q <= 0 && q * b - b < a <= q * b
  {
    if a >= 0 then
      DivBounds(a, b);
      a / b
    else
      DivBounds(-a, b);
      -((-a) / b)
  }

  lemma DivBounds(n: nat, d: int)
    requires d > 0
    ensures 0 <= n / d && n / d * d <= n < n / d * d + d
  {
    assert n == n / d * d + n % d;
  }

  function Abs(x: int): nat {
    if x < 0 then -x else x
  }

  function Min(x: int, y: int): int {
    if x < y then x else y
  }

  function Max(x: int, y: int): int {
    if x < y then y else x
  }

  lemma MulStep(a: int, b: int, c: int)
    requires c >= 0
    ensures a < b ==> a * c + c <= b * c
    ensures a <= b ==> a * c <= b * c
  {
    if a < b {
      assert (b - a) * c >= c by {
        MulPositive(b - a - 1, c);
      }
    }
  }

  lemma MulNext(a: int, b: int)
    ensures (a + 1) * b == a * b + b
  {
  }

  /** The quotient is the only number whose multiple starts the block that holds n. */
  lemma DivUnique(n: nat, d: nat, q: int)
    requires d > 0 && q * d <= n < q * d + d
    ensures n / d == q
  {
    MulStep(q, n / d, d);
    MulStep(n / d, q, d);
  }

  lemma MulPositive(a: int, b: int)
    requires a >= 0 && b >= 0
    ensures a * b >= 0
  {
  }
}
