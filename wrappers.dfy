/** Failure-compatible wrappers shared by every module of the model.
    `Option` stands for a JavaScript value that may be `undefined` or `null`;
    `Outcome` stands for a call that either returns a value or throws an
    `Error` whose message is carried as a string. */
module Wrappers {

  datatype Option<+T> = None | Some(value: T) {
    predicate IsFailure() { None? }

    function PropagateFailure<U>(): Option<U>
      requires None?
    {
      None
    }

    function Extract(): T
      requires Some?
    {
      value
    }

    function GetOr(default: T): T {
      match this
      case Some(v) => v
      case None => default
    }
  }

  datatype Outcome<+T> = Success(value: T) | Failure(error: string) {
    predicate IsFailure() { Failure? }

    function PropagateFailure<U>(): Outcome<U>
      requires Failure?
    {
      Failure(error)
    }

    function Extract(): T
      requires Success?
    {
      value
    }
  }

  /** A text that may be absent is truthy when it is present and
      non-empty. */
  predicate Given(v: Option<string>) {
    v.Some? && v.value != ""
  }
}
