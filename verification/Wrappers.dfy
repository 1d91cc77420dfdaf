/** What the other modules share: optional values and machine numbers. */
module Wrappers {
  datatype Option<+T> = None | Some(value: T)

  const TWO_TO_64 := 0x1_0000_0000_0000_0000

  type byte = x: int | 0 <= x < 256
  type u64 = x: int | 0 <= x < TWO_TO_64
}
