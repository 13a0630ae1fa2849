/** Failure-compatible wrappers for the Python behaviour the model has to
    carry along: an optional value, and an outcome that is either a value or
    an exception that escapes every handler and ends the run. */
module Exceptions {

  datatype Option<+T> = None | Some(value: T) {
    function GetOr(default: T): T {
      match this
      case Some(v) => v
      case None => default
    }
  }

  /** The uncaught Python exceptions the modelled code can raise from the data
      it is handed (the backend's own exceptions that escape are not modelled). */
  datatype PyError =
    | ValueError      // int() of text that is not a decimal number
    | IndexError      // [0] or [i] on a list that is too short
    | KeyError        // a missing field of a backend record
    | AttributeError  // an attribute never set on a tree node
    | TypeError       // a text line indexed as if it were a record
    | NameError       // a loop variable read after a loop that never ran
    | CountError      // a single-node tree search that matched several nodes

  /** Either the computed value, or the exception that ends the run. */
  datatype Outcome<+T> = Done(value: T) | Raised(error: PyError) {
    predicate IsFailure() {
      Raised?
    }

    function PropagateFailure<U>(): Outcome<U>
      requires Raised?
    {
      Raised(error)
    }

    function Extract(): T
      requires Done?
    {
      value
    }
  }
}
