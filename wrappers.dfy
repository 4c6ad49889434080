/** Optional values, standing for Python's `None` and for a result that may be absent. */
module Wrappers {

  datatype Option<+T> = None | Some(value: T)
  {
    /** `x if x is not None else default` */
    function GetOr(default: T): T
    {
      match this
      case Some(v) => v
      case None => default
    }
  }
}
