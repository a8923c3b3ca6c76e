/** Unsigned 64-bit `std::size_t` arithmetic, as the view's index computations use it. */
module Sizes {

  /** 2^64: one more than the largest `size_t`. */
  const SIZE_LIMIT: int := 0x1_0000_0000_0000_0000

  /** Values of `std::size_t` on a 64-bit target. */
  type SizeT = x: int | 0 <= x < SIZE_LIMIT

  /** `npos == size_type(-1)`: "no position" and "up to the end". */
  const NPOS: SizeT := SIZE_LIMIT - 1

  /** `PTRDIFF_MAX`: no object, hence no buffer a view points into, is larger. */
  const PTRDIFF_MAX: int := 0x7FFF_FFFF_FFFF_FFFF

  /** Reduces a mathematical result to the `size_t` it wraps around to. */
  function Wrap(x: int): (r: SizeT)
    ensures 0 <= x < SIZE_LIMIT ==> r == x
    ensures -SIZE_LIMIT <= x < 0 ==> r == x + SIZE_LIMIT
    ensures SIZE_LIMIT <= x < 2 * SIZE_LIMIT ==> r == x - SIZE_LIMIT
  {
    x % SIZE_LIMIT
  }

  function Min(a: int, b: int): (m: int)
    ensures m <= a && m <= b && (m == a || m == b)
  {
    if a <= b then a else b
  }
}
