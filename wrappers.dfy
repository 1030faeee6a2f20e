/** Failure-compatible wrappers shared by every module of the model.

    The modelled code is Python: a failing operation raises an exception of a
    built-in class.  `PyError` names the classes the modelled code can raise, and
    `Result` carries either a value or the class of the exception raised first. */
module Wrappers {

  datatype Option<+T> = None | Some(value: T)

  /** The exception classes raised by the modelled code: Python's built-in
      ones, then brownie's own. */
  datatype PyError =
    | ValueError
    | IndexError
    | KeyError
    | TypeError
    | AttributeError
    | AssertionError
    | StopIteration
    | ZeroDivisionError
    | UndeployedLibrary
    | ContractExists
    | ContractNotFound

  datatype Result<+T> = Success(value: T) | Failure(error: PyError) {

    predicate IsFailure() {
      Failure?
    }

    function PropagateFailure<U>(): Result<U>
      requires Failure?
    {
      Failure(error)
    }

    function Extract(): T
      requires Success?
    {
      value
    }
  }
}
