/** What several modules need and none of them is about. */
module Basics {
  const WRAP32: nat := 0x1_0000_0000

  datatype Option<+T> = None | Some(value: T)

  function Min(a: nat, b: nat): nat { if a < b then a else b }
}
