/** Small types and functions that several parts use. */
module Basics {
  datatype Option<+T> = None | Some(value: T)

  type Count = n: nat | n > 0 witness 1

  const U16 := 0x1_0000
  const U32 := 0x1_0000_0000

  function Min(a: nat, b: nat): nat {
    if a < b then a else b
  }

  function Max(a: nat, b: nat): nat {
    if a < b then b else a
  }
}
