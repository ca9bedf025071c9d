/** Types shared by every model. */
module Common {
  datatype Option<+T> = None | Some(value: T)

  /** An operation that either yields a value or ends in an error. */
  datatype Result<+T> = Ok(value: T) | Err(reason: string)

  function Max(a: int, b: int): int {
    if a >= b then a else b
  }

  function Min(a: int, b: int): int {
    if a <= b then a else b
  }
}
