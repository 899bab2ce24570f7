/** The value-or-nothing wrapper used wherever the modelled Python code can
    leave a name unbound or fail a lookup. */
module Optional {

  datatype Option<+T> = None | Some(value: T) {

    /** The wrapped value, or `default` when there is none. */
    function GetOr(default: T): T {
      match this
      case Some(v) => v
      case None => default
    }
  }
}
