/** Raw octets and the small value types shared by every component. */
module Bytes {

  newtype byte = x: int | 0 <= x < 256

  type Bytes = seq<byte>

  const CR: byte := 13
  const LF: byte := 10
  const DOT: byte := 46
  const CRLF: Bytes := [CR, LF]

  datatype Option<+T> = None | Some(value: T)

  datatype Result<+T, +E> = Ok(value: T) | Err(error: E)

  /** Drops one trailing `c`, if there is one. */
  function TrimSuffix(s: Bytes, c: byte): Bytes {
    if s != [] && s[|s| - 1] == c then s[..|s| - 1] else s
  }
}
