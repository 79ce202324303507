/** Small wrappers shared by the other modules. */
module Base {

  /** JavaScript's `null`/`undefined` next to a present value. */
  datatype Option<+T> = None | Some(value: T) {
    /** The value, or `default` when absent (the `x || default` idiom on a missing field). */
    function GetOr(default: T): T {
      match this
      case Some(v) => v
      case None => default
    }
  }

  /** What reading one key of browser storage yields: nothing stored, text that
      does not parse, or the parsed value. */
  datatype Stored<+T> = Missing | Corrupt | Parsed(value: T)
}
