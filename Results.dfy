/** Optional values and fallible results, for Python's `None` and its exceptions. */
module Results {

  datatype Option<+T> = None | Some(value: T)
  {
    /** The value, or `default` for None. */
    function GetOr(default: T): T
    {
      match this
      case Some(v) => v
      case None => default
    }
  }

  datatype Result<+T, +E> = Ok(value: T) | Err(error: E)
}
