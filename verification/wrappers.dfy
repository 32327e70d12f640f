/** Failure-carrying datatypes shared by the model: `Option` for a value that
    may be absent (a missing object member, an unparsable descriptor, a
    rejected text) and `Result` for a step that either yields a value or
    fails with a reason. `Option` supports `:-`. */
module Wrappers {

  datatype Option<+T> = None | Some(value: T) {
    predicate IsFailure() {
      None?
    }

    function PropagateFailure<U>(): Option<U>
      requires None?
    {
      None
    }

    function Extract(): T
      requires Some?
    {
      value
    }
  }

  datatype Result<+T, +E> = Success(value: T) | Failure(error: E)
}
