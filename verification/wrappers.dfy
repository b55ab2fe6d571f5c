/** Option and Result, the usual failure-carrying wrappers. */
module Wrappers {

  datatype Option<+T> = None | Some(value: T) {
    /** The wrapped value, or `default` when there is none (Python's `dict.get(key, default)`). */
    function GetOr(default: T): T {
      match this
      case Some(v) => v
      case None => default
    }
  }

  datatype Result<+T, +E> = Ok(value: T) | Err(error: E)
}

/** The exceptions the modelled code can raise. */
module Errors {

  datatype Error =
    /** `float(text)` raised `ValueError: could not convert string to float`. */
    | NotAFloat(text: string)
    /** `px, py = t` raised `ValueError` because `t` has `got` fields instead of two. */
    | UnpackMismatch(got: nat)
    /** `np.min` / `np.max` raised `ValueError` on an empty array. */
    | ZeroSizeArray
}
