/** Optional values and fallible results, as used throughout the model. */
module Wrappers {

  datatype Option<T> = None | Some(value: T)
  {
    predicate IsSome() { this.Some? }

    /** `Option::unwrap_or`. */
    function UnwrapOr(default: T): T
    {
      match this
      case Some(v) => v
      case None => default
    }

    /** SQL `COALESCE(new, old)`: the new value when present, else the old one. */
    function OrElse(other: Option<T>): Option<T>
    {
      if this.Some? then this else other
    }
  }

  datatype Result<T, E> = Ok(value: T) | Err(error: E)
  {
    predicate IsOk() { this.Ok? }
  }
}
