// Small things that several components share.
module Common {

  datatype Option<T> = None | Some(value: T)

  type byte = x: nat | x < 256

  const U32: nat := 0x1_0000_0000

  // AV_NOPTS_VALUE, the smallest 64-bit integer, stands for "no timestamp".
  const NOPTS: int := -0x8000_0000_0000_0000

  function Min(a: int, b: int): int {
    if a < b then a else b
  }

  function Max(a: int, b: int): int {
    if a > b then a else b
  }
}
