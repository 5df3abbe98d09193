/** The optional values of the model: C#'s `double?`, a `null` reference, or a `TryParse`
    that reports failure through its boolean result. */
module Options {

  datatype Option<+T> = None | Some(value: T) {

    /** Returns the wrapped value, or `default` when there is none. */
    function GetOr(default: T): T {
      match this
      case Some(v) => v
      case None => default
    }
  }
}
