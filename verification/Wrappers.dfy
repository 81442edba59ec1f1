/** Failure-compatible result types shared by the models. */
module Wrappers {

  datatype Option<+T> = None | Some(value: T) {
    function GetOr(default: T): T {
      match this
      case Some(v) => v
      case None => default
    }
  }

  /** What a call that may raise gives back: a value, or the text of the exception. */
  datatype Attempt<+T> = Returned(value: T) | Raised(error: string) {
    predicate IsFailure() { Raised? }

    function PropagateFailure<U>(): Attempt<U>
      requires Raised?
    {
      Raised(error)
    }

    function Extract(): T
      requires Returned?
    {
      value
    }
  }
}
