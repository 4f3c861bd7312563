/** Optional values and the `{ ok, data } | { ok, error }` result shape shared by the model's operations. */
module Results {

  /** A value that may be absent: JavaScript's `undefined`/`null` on one side, a present value on the other. */
  datatype Option<+T> = None | Some(value: T) {

    /** The value, or `default` when absent (JavaScript's `??`). */
    function GetOr(default: T): T {
      match this
      case Some(v) => v
      case None => default
    }
  }

  /** Either a success carrying `data` or a failure carrying `error`. */
  datatype Result<+T, +E> = Ok(data: T) | Err(error: E)
}
