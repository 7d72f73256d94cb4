/** Option and Result, the stock failure-carrying datatypes used across the model. */
module Wrappers {

  datatype Option<+T> = None | Some(value: T) {
    /** The wrapped value, or `default` for None */
    function GetOr(default: T): T {
      match this
      case Some(v) => v
      case None => default
    }
  }

  /** Ok carries a value; Err carries what the Python code would have raised. */
  datatype Result<+T, +E> = Ok(value: T) | Err(error: E)
}

/** The exceptions of the engine that escape to its caller. */
module Errors {

  datatype Fault =
      /** `get_source` indexes an empty match list (an IndexError in the source) */
    | NoSuchSource(name: string)
      /** `trace_fun` is called although none was given (a TypeError in the source) */
    | TracerMissing
      /** the `%`-formatting of the extended search command rejects the date text */
    | DateFormatError(date: string)
      /** a node group index outside the list, counting from either end (an IndexError) */
    | GroupIndexOutOfRange(index: int)
      /** `int()` rejects a flag attribute's text (a ValueError) */
    | InvalidLiteral(text: string)
      /** closing a node's connection raises, with these exception arguments */
    | CloseFailed(args: seq<string>)
}
