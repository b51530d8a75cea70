/** A value that may be absent: the model of a JavaScript prop that is `undefined`. */
module Optional {

  datatype Option<+T> = None | Some(value: T) {

    /** The carried value, or `default` when absent (how React fills in a `defaultProps` entry). */
    function GetOr(default: T): (r: T)
      ensures Some? ==> r == value
      ensures None? ==> r == default
    {
      match this
      case Some(v) => v
      case None => default
    }
  }
}
