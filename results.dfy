// Optional values (JavaScript `undefined`) and outcomes that may carry a thrown error.
module Results {
  datatype Option<T> = None | Some(value: T)
  {
    function GetOr(default: T): T
    {
      match this
      case Some(v) => v
      case None => default
    }
  }

  /** A computation that either returns a value or throws `error`. */
  datatype Result<T, E> = Ok(value: T) | Err(error: E)
}
