/** Optional values: the model's stand-in for JavaScript `undefined`, a
    missing dictionary key, or an absent response field. */
module Base {

  datatype Option<+T> = None | Some(value: T) {

    /** The wrapped value, or `default` when there is none. */
    function GetOr(default: T): T {
      match this
      case Some(v) => v
      case None => default
    }
  }
}
