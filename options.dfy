/** Go's nil-able pointers and "value or nothing" results. */
module Options {

  datatype Option<+T> = None | Some(value: T) {

    /** The pointed-to value, or `default` for nil. */
    function GetOr(default: T): T {
      match this
      case Some(v) => v
      case None => default
    }
  }
}
