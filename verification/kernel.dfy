/** Fixed-width integer types, error numbers and C arithmetic shared by the
    driver models.  Every C integer is modelled as an unbounded `int` of the
    right range; wrap-around and truncating division are written out here
    once, so that each driver model can state where the C code relies on them. */
module Kernel {

  type byte = x: int | 0 <= x < 0x100
  type u16 = x: int | 0 <= x < 0x1_0000
  type s16 = x: int | -0x8000 <= x < 0x8000
  type u32 = x: int | 0 <= x < 0x1_0000_0000
  type s32 = x: int | -0x8000_0000 <= x < 0x8000_0000

  // Linux error numbers (include/uapi/asm-generic/errno-base.h, errno.h);
  // a driver returns them negated.
  const EIO: int := 5
  const ENOMEM: int := 12
  const EBUSY: int := 16
  const ENODEV: int := 19
  const EINVAL: int := 22
  const ETIMEDOUT: int := 110
  const EINPROGRESS: int := 115
  const ENOTSUPP: int := 524

  /** The outcome of a driver call: a value, or the positive errno whose
      negation the C function returns. */
  datatype Result<T> = Ok(value: T) | Err(errno: int)

  /** A pointer that may be NULL. */
  datatype Option<T> = None | Some(value: T)

  /** Conversion of any C integer to `u16`. */
  function U16(x: int): (r: u16)
    ensures 0 <= x < 0x1_0000 ==> r == x
  {
    x % 0x1_0000
  }

  /** Conversion of any C integer to `unsigned int` (reduction modulo 2^32). */
  function U32(x: int): (r: u32)
    ensures 0 <= x < 0x1_0000_0000 ==> r == x
  {
    x % 0x1_0000_0000
  }

  /** Conversion of any C integer to a 32-bit `int` (two's complement). */
  function S32(x: int): (r: s32)
    ensures -0x8000_0000 <= x < 0x8000_0000 ==> r == x
    ensures (r - x) % 0x1_0000_0000 == 0
  {
    var w := x % 0x1_0000_0000;
    if w < 0x8000_0000 then w else w - 0x1_0000_0000
  }

  /** Conversion to `u8`, as in an assignment to a byte variable. */
  function U8(x: int): (r: byte)
    ensures 0 <= x < 0x100 ==> r == x
  {
    x % 0x100
  }

  function Abs(x: int): nat { if x < 0 then -x else x }

  function Min(a: int, b: int): int { if a <= b then a else b }

  function Max(a: int, b: int): int { if a >= b then a else b }

  /** The kernel's `clamp(v, lo, hi)`, i.e. `min(max(v, lo), hi)`. */
  function Clamp(v: int, lo: int, hi: int): (r: int)
    requires lo <= hi
    ensures lo <= r <= hi
    ensures lo <= v <= hi ==> r == v
  {
    Min(Max(v, lo), hi)
  }

  /** C division of a signed integer by a positive divisor: the quotient is
      truncated toward zero (Dafny's own `/` is Euclidean). */
  function CDiv(a: int, d: int): (q: int)
    requires d > 0
    ensures a >= 0 ==> q == a / d
    ensures a <= 0 ==> q == -((-a) / d)
  {
    if a >= 0 then a / d else -((-a) / d)
  }

  /** `DIV_ROUND_UP(n, d)` for unsigned operands. */
  function DivRoundUp(n: nat, d: nat): (q: nat)
    requires d > 0
    ensures (q - 1) * d < n <= q * d || (n == 0 && q == 0)
  {
    (n + d - 1) / d
  }

  /** `DIV_ROUND_CLOSEST(x, d)` for unsigned operands. */
  function DivRoundClosest(x: nat, d: nat): (q: nat)
    requires d > 0
  {
    (x + d / 2) / d
  }

  function Pow2(n: nat): (r: nat)
    ensures r >= 1
  {
    if n == 0 then 1 else 2 * Pow2(n - 1)
  }

  lemma {:induction false} Pow2Add(a: nat, b: nat)
    ensures Pow2(a + b) == Pow2(a) * Pow2(b)
  {
    if a > 0 {
      Pow2Add(a - 1, b);
    }
  }

  lemma {:induction false} Pow2Le(a: nat, b: nat)
    requires a <= b
    ensures Pow2(a) <= Pow2(b)
  {
    if a < b {
      Pow2Le(a, b - 1);
    }
  }
}
