/** C#'s 32-bit signed `int` and its unchecked (wrapping) arithmetic. */
module MachineInt {

  const MIN: int := -0x8000_0000
  const MAX: int := 0x7fff_ffff
  const MODULUS: int := 0x1_0000_0000

  type int32 = x: int | MIN <= x <= MAX

  /** Two's-complement reduction of an unbounded integer into the `int` range. */
  function Wrap(x: int): (r: int32)
    ensures MIN <= x <= MAX ==> r == x
    ensures (x - r) % MODULUS == 0
  {
    (x - MIN) % MODULUS + MIN
  }

  /** Reducing before or after adding `y` makes no difference. */
  lemma WrapAdd(x: int, y: int)
    ensures Wrap(Wrap(x) + y) == Wrap(x + y)
  {
  }

  /** C#'s unchecked prefix `++` on an `int`: it wraps from `int.MaxValue` to `int.MinValue`. */
  function Increment(x: int32): (r: int32)
    ensures x < MAX ==> r == x + 1
    ensures x == MAX ==> r == MIN
  {
    Wrap(x + 1)
  }
}
