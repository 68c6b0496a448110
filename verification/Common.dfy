/** Result types shared by the models. */
module Common {
  datatype Option<+T> = None | Some(value: T)

  /** A Go `(value, error)` pair: exactly one of the two is meaningful. */
  datatype Result<+T, +E> = Ok(value: T) | Err(error: E)

  function Clamp(value: int, min: int, max: int): int { if value < min then min else if value > max then max else value }
}
