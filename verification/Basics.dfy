/** What every module needs: an optional value, minimum and maximum, and the unsigned integer ranges. */
module Basics {

  datatype Option<+T> = None | Some(value: T)

  const U32 := 0x1_0000_0000
  const U64 := 0x1_0000_0000_0000_0000

  function Min(a: int, b: int): int {
    if a <= b then a else b
  }

  function Max(a: int, b: int): int {
    if a <= b then b else a
  }
}
