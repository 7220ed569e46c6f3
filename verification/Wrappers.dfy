/** Shared value types: optional values and the fixed-width unsigned integers of the source. */
module Wrappers {

  datatype Option<+T> = None | Some(value: T)

  datatype Result<+T, +E> = Ok(value: T) | Err(error: E)

  const TWO_16: int := 0x1_0000
  const TWO_31: int := 0x8000_0000
  const TWO_32: int := 0x1_0000_0000
  const TWO_64: int := 0x1_0000_0000_0000_0000

  type uint8 = x: int | 0 <= x < 0x100
  type uint16 = x: int | 0 <= x < 0x1_0000
  type uint32 = x: int | 0 <= x < 0x1_0000_0000

  /** The wrap-around of unsigned arithmetic at a given width. */
  function Wrap16(x: int): uint16 { x % TWO_16 }

  function Wrap32(x: int): uint32 { x % TWO_32 }

  /** The next key that a loop over a map happens to visit. */
  method AnyOf<T(==)>(todo: set<T>) returns (x: T)
    requires todo != {}
    ensures x in todo
  {
    x :| x in todo;
  }
}
