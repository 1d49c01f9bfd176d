/** The optional value the model uses for JavaScript's `null`/`undefined`. */
module Options {

  datatype Option<+T> = None | Some(value: T) {

    /** `x ?? d`: the value when there is one, otherwise the default. */
    function GetOr(default: T): T {
      match this
      case Some(v) => v
      case None => default
    }
  }
}
