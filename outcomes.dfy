/** Optional values and results: `undefined` versus a value, and a thrown error versus a value. */
module Outcomes {

  /** A value that may be `undefined`. */
  datatype Option<+T> = None | Some(value: T)

  /** The value of an operation that may throw. */
  datatype Result<+T, +E> = Ok(value: T) | Err(error: E)

  /** How a template literal renders an optional string: `${undefined}` is "undefined". */
  function Text(o: Option<string>): string
  {
    match o
    case Some(v) => v
    case None => "undefined"
  }

  /** Whether an optional string is truthy: defined and not empty. */
  predicate Truthy(o: Option<string>)
  {
    o.Some? && o.value != ""
  }
}
