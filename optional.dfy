/** The optional value used for keys that may be absent from the persisted store. */
module Optional {

  datatype Option<+T> = None | Some(value: T) {

    /** The stored value, or `default` when the key is absent. */
    function GetOr(default: T): T {
      match this
      case Some(v) => v
      case None => default
    }
  }
}
