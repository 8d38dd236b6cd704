/** Failure-compatible wrappers shared by the other modules. */
module Wrappers {

  datatype Option<+T> = None | Some(value: T)

  /** The Python exceptions the modelled code can raise on malformed input. */
  datatype Failure =
    | KeyError(key: string)  // subscript of a dict with a missing key
    | TypeError              // subscript of a value that is not a dict
    | IndexError             // subscript of a list past its end
    | ValueError             // list.remove of an absent element
    | NameError              // read of a local that was never assigned

  datatype Result<+R> = Success(value: R) | Failure(error: Failure) {

    predicate IsFailure() {
      Failure?
    }

    function PropagateFailure<U>(): Result<U>
      requires Failure?
    {
      Failure(error)
    }

    function Extract(): R
      requires Success?
    {
      value
    }
  }
}
