/** Types shared by the whole model: machine integers as subsets of int, and optional values. */
module Prelude {
  const TWO32: nat := 0x1_0000_0000

  type byte = x: nat | x < 0x100
  type uint32 = x: nat | x < 0x1_0000_0000
  type bytes = seq<byte>

  datatype Option<+T> = None | Some(value: T)
}
