/** The optional value used wherever the kiosk code may produce "nothing":
    an unknown class index, a missing menu field, a raised exception. */
module Options {

  datatype Option<+T> = None | Some(value: T) {

    /** The wrapped value, or `default` when there is none. */
    function GetOr(default: T): T {
      match this
      case Some(v) => v
      case None => default
    }
  }
}
