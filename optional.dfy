/** The optional value used for the source's `field?: T` members and for lookups. */
module Optional {

  datatype Option<+T> = None | Some(value: T) {

    /** `x || d` for an optional field: the value when present, `d` otherwise. */
    function GetOr(default: T): T {
      match this
      case Some(v) => v
      case None => default
    }
  }
}
