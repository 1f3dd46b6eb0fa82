/** Values shared by the kernel side and the server side of the hand-off. */
module Common {

  datatype Option<+T> = None | Some(value: T)

  /** A module is known on both sides by a 128-bit number. */
  type Uuid = u: nat | u < 0x1_0000_0000_0000_0000_0000_0000_0000_0000

  /** The part of `struct module_layout` that the two sides exchange. */
  datatype Layout = Layout(base: nat, size: nat)

  const ENOMEM := 12
  const INT_MAX := 0x7FFF_FFFF
  const PTRDIFF_MAX := 0x7FFF_FFFF_FFFF_FFFF
  const TWO_32 := 0x1_0000_0000
  const TWO_64 := 0x1_0000_0000_0000_0000

  /** Conversion of a C integer to a 32-bit `int` (wrap-around). */
  function ToInt32(x: int): int {
    var m := x % TWO_32;
    if m <= INT_MAX then m else m - TWO_32
  }

  /** Conversion of a C integer to a 64-bit `size_t` (wrap-around). */
  function ToSizeT(x: int): nat {
    x % TWO_64
  }
}
