/** Shared helper types for the trading core model. */
module Base {

  /** Python's `None` versus a present value. */
  datatype Option<+T> = None | Some(value: T) {

    /** The value, or `default` when there is none (a missing dictionary key read with
        `dict.get(key, default)`, or a falsy argument replaced by `arg or default`). */
    function GetOr(default: T): T {
      match this
      case Some(v) => v
      case None => default
    }
  }

  function Min(a: real, b: real): real {
    if a <= b then a else b
  }
}
