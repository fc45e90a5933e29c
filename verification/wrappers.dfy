/**
  Failure-carrying datatypes shared by every module of the model.

  A Rust `panic!` (an explicit one, an `unwrap` on `None`, an out-of-bounds
  index, an integer overflow in a debug build) aborts the program; the model
  represents it as a `Failure` carrying a short description of the cause, so
  that every operation stays total and its error cases can be stated.
 */
module Wrappers {

  datatype Option<+T> = None | Some(value: T) {

    predicate IsFailure() {
      None?
    }

    function PropagateFailure<U>(): Option<U>
      requires None?
    {
      None
    }

    function Extract(): T
      requires Some?
    {
      value
    }
  }

  datatype Result<+R, +E> = Success(value: R) | Failure(error: E) {

    predicate IsFailure() {
      Failure?
    }

    function PropagateFailure<U>(): Result<U, E>
      requires Failure?
    {
      Failure(error)
    }

    function Extract(): R
      requires Success?
    {
      value
    }
  }

  /** Why a Rust program aborted. */
  datatype Panic =
    | Unwrap(what: string)          // `unwrap()` on `None`, or an `Err`
    | OutOfBounds(what: string)     // slice or vector index out of range
    | Overflow(what: string)        // integer overflow in a debug build
    | Explicit(message: string)     // an explicit `panic!`
}
