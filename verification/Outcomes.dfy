/** Results shared by every module: optional values and calls that may raise. */
module Outcomes {

  datatype Option<+T> = None | Some(value: T)

  /** What a Python call yields: a value, or the message of the exception it raised.
      Usable with `:-`, which re-raises. */
  datatype Try<+T> = Ok(value: T) | Raised(message: string) {

    predicate IsFailure() {
      Raised?
    }

    function PropagateFailure<U>(): Try<U>
      requires Raised?
    {
      Raised(message)
    }

    function Extract(): T
      requires Ok?
    {
      value
    }
  }

  /** Raise `message` unless `condition` holds. */
  function Check(condition: bool, message: string): Try<()> {
    if condition then Ok(()) else Raised(message)
  }
}
