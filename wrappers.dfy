/** The Option datatype used for operations that may throw a JavaScript exception. */
module Wrappers {

  /** None stands for "an exception was thrown"; Some carries the normal result. */
  datatype Option<+T> = None | Some(value: T) {

    predicate IsFailure() {
      None?
    }

    function PropagateFailure<U>(): Option<U>
      requires None?
    {
      None
    }

    function Extract(): T
      requires Some?
    {
      value
    }
  }
}
