/** Bytes, optional values and the arithmetic shared by the driver models. */
module Bytes {

  newtype Byte = b: int | 0 <= b < 256

  datatype Option<+T> = None | Some(value: T)

  function Min(a: int, b: int): (r: int)
    ensures r <= a && r <= b && (r == a || r == b)
  {
    if a < b then a else b
  }

  function Max(a: int, b: int): (r: int)
    ensures r >= a && r >= b && (r == a || r == b)
  {
    if a < b then b else a
  }
}
