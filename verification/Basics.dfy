/** What the other modules share: bytes, optional values and the smaller of two numbers. */
module Basics {
  type Byte = n: nat | n < 0x100

  datatype Option<+T> = None | Some(value: T)

  function Min(a: nat, b: nat): nat {
    if a < b then a else b
  }
}
