/** Failure-carrying values shared by the model: Python exceptions and `sys.exit`
    calls become the error side of a `Result` or an `Outcome`. */
module Wrappers {

  datatype Option<+T> = None | Some(value: T) {
    function GetOr(default: T): T {
      match this
      case Some(v) => v
      case None => default
    }
  }

  datatype Result<+T, +E> = Ok(value: T) | Err(error: E) {
    predicate IsFailure() {
      Err?
    }

    function PropagateFailure<U>(): Result<U, E>
      requires Err?
    {
      Err(error)
    }

    function Extract(): T
      requires Ok?
    {
      value
    }
  }

  datatype Outcome<+E> = Pass | Fail(error: E)

  /** The Python exceptions the modelled code can raise. */
  datatype PyError =
    | KeyError(key: string)        // `d[k]` on a missing key
    | AttributeError               // `.get` / `.lower` on a value that has no such method
    | TypeError                    // iterating, or testing `in`, on a value that does not support it
    | RuntimeError(message: string)
}
