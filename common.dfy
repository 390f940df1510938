/** The optional value used for JavaScript's `null` / `undefined` results. */
module Common {

  datatype Option<T> = None | Some(value: T) {
    /** The wrapped value, or `d` when there is none (`x ?? d`). */
    function GetOr(d: T): T {
      match this
      case Some(v) => v
      case None => d
    }
  }
}
