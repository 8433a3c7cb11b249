/** The absent-or-present value that `document.getElementById`, `querySelector`
    and `FormData.get` return as `null`-or-something in the original script. */
module Optional {

  datatype Option<+T> = None | Some(value: T) {

    /** The value, or `default` when there is none. */
    function GetOr(default: T): T {
      match this
      case Some(v) => v
      case None => default
    }
  }
}
