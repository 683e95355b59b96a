/** Shared value types: 8-bit bytes, optional values and results. */
module Common {

  /** An unsigned 8-bit value, as `uint8_t` in the pixel buffers. */
  type Byte = b: int | 0 <= b < 256

  /** An unsigned 32-bit value, as `uint32_t` / `unsigned`. */
  type U32 = n: int | 0 <= n < 0x1_0000_0000

  const TWO_32: int := 0x1_0000_0000
  const TWO_64: int := 0x1_0000_0000_0000_0000

  datatype Option<+T> = None | Some(value: T)

  datatype Result<+T, +E> = Ok(value: T) | Err(error: E)

  /** The 8-bit truncation `static_cast<uint8_t>` applied to a non-negative int. */
  function ToByte(v: int): (b: Byte)
    ensures 0 <= v < 256 ==> b == v
    ensures (b - v) % 256 == 0
  {
    v % 256
  }

  /** Unsigned 32-bit wrap-around of an int, as the C conversion to `uint32_t`. */
  function WrapU32(v: int): (r: U32)
    ensures 0 <= v < TWO_32 ==> r == v
    ensures (r - v) % TWO_32 == 0
  {
    v % TWO_32
  }
}

/** Integer facts about multiplication, division and row-major layout. */
module Arith {

  lemma MulAtLeast(d: int, k: int)
    requires d > 0 && k >= 1
    ensures d * k >= d
  {
    var j := k - 1;
    assert d * k == d * j + d;
  }

  lemma MulMonotone(a: int, b: int, c: int)
    requires 0 <= a <= b && c >= 0
    ensures a * c <= b * c
  {
    assert b * c == a * c + (b - a) * c;
  }

  /** The quotient and remainder of a division are determined by any decomposition. */
  lemma DivModUnique(a: int, d: int, q: int, r: int)
    requires d > 0 && 0 <= r < d && a == q * d + r
    ensures a / d == q && a % d == r
  {
    var q', r' := a / d, a % d;
    assert a == d * q' + r';
    if q' > q {
      MulAtLeast(d, q' - q);
    } else if q' < q {
      MulAtLeast(d, q - q');
    }
  }

  /** Row-major decoding: offset `y * len + j` names row `y`, column `j`. */
  lemma RowMajorDecode(len: int, y: int, j: int)
    requires 0 <= j < len
    ensures (y * len + j) / len == y && (y * len + j) % len == j
  {
    DivModUnique(y * len + j, len, y, j);
  }

  /** Every offset below `len * rows` is some row below `rows` and column below `len`. */
  lemma RowMajorEncode(len: int, rows: int, k: int)
    requires len > 0 && 0 <= k < len * rows
    ensures 0 <= k / len < rows && 0 <= k % len < len
    ensures (k / len) * len + k % len == k
  {
    if k / len >= rows {
      MulMonotone(rows, k / len, len);
    }
  }

  /** The last offset of a row-major block stays below its size. */
  lemma RowMajorBound(len: int, rows: int, y: int, j: int)
    requires 0 <= y < rows && 0 <= j < len
    ensures 0 <= y * len + j < len * rows
  {
    MulMonotone(y + 1, rows, len);
  }

  /**
   * The product `a * b`, written as repeated addition. Buffer offsets are
   * built from it so that the solver steps through them additively instead
   * of reasoning about nonlinear products; `MulIsProduct` links it to `*`.
   */
  function Mul(a: nat, b: nat): nat
  {
    if a == 0 then 0 else Mul(a - 1, b) + b
  }

  lemma {:induction false} MulIsProduct(a: nat, b: nat)
    ensures Mul(a, b) == a * b
    decreases a
  {
    if a > 0 {
      MulIsProduct(a - 1, b);
    }
  }

  lemma {:induction false} MulMono(a: nat, a': nat, b: nat)
    requires a <= a'
    ensures Mul(a, b) <= Mul(a', b)
    decreases a'
  {
    if a < a' {
      MulMono(a, a' - 1, b);
    }
  }
}
