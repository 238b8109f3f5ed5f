/** Values shared by every route model: optional values and the shape of a
    route handler's answer. */
module Common {

  /** A value that may be missing (`null`/`undefined` in the application). */
  datatype Option<T> = None | Some(value: T) {

    /** The value, or `default` when missing (the `??` operator). */
    function GetOr(default: T): T {
      match this
      case Some(v) => v
      case None => default
    }
  }

  /** What a route handler answers: a success value, or an HTTP status code
      with the error message of the JSON body. */
  datatype Reply<T> = Ok(value: T) | Err(status: int, message: string)

  function Min(a: int, b: int): int { if a <= b then a else b }
}
