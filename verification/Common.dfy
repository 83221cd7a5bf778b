/** Vocabulary shared by every part of the model. */
module Common {
  datatype Option<+T> = None | Some(value: T) {
    function UnwrapOr(default: T): T {
      match this
      case Some(v) => v
      case None => default
    }
  }

  datatype Result<+T, +E> = Ok(value: T) | Err(error: E)

  /** The kinds of `ThreadplaneServerError` that the modelled code raises. */
  datatype Error = BadRequest | NotFound | Conflict | Internal

  /** UUIDs, taken as already parsed values with a total order. */
  type Id = nat

  /** Timestamps, in whole ticks of the single non-decreasing clock. */
  type Time = int
}
