/** Option and Result, the two wrappers the model uses for Java's null and for
  * exceptions that the source lets escape to its caller. */
module Wrappers {

  datatype Option<T> = None | Some(value: T)
  {
    /** `Optional.orElse`: this value if present, otherwise `other`. */
    function OrElse(other: Option<T>): (r: Option<T>)
      ensures r.Some? <==> (Some? || other.Some?)
      ensures Some? ==> r == this
    {
      if Some? then this else other
    }

    function GetOr(default: T): T
    {
      if Some? then value else default
    }
  }

  datatype Result<T, E> = Success(value: T) | Failure(error: E)
}
