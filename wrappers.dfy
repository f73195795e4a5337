/** Optional values (Java's nullable references) and results (a value or a thrown exception). */
module Wrappers {

  datatype Option<T> = None | Some(value: T)
  {
    function GetOr(default: T): T
    {
      match this
      case Some(v) => v
      case None => default
    }
  }

  datatype Result<T, E> = Ok(value: T) | Err(error: E)
  {
    predicate IsFailure()
    {
      Err?
    }
  }

  /** The value a Java `void` method returns normally with. */
  datatype Unit = Unit
}
