/** Small types and functions that several parts of the model share. */
module Common {

  datatype Option<T> = None | Some(value: T)

  const INT_MAX: int := 0x7FFF_FFFF
  const U64: int := 0x1_0000_0000_0000_0000

  function Min(x: nat, y: nat): nat {
    if x < y then x else y
  }

  function Max(x: nat, y: nat): nat {
    if x < y then y else x
  }

  function Abs(x: int): nat {
    if x < 0 then -x else x
  }
}
