/** Optional values and failure results, standing in for PHP's `null`
    and for the `APIException` / `SparqlException` throws of the library. */
module Wrappers {

  /** `None` models a PHP `null` (an unset array entry, a missing argument). */
  datatype Option<+T> = None | Some(value: T) {
    predicate IsFailure() { None? }

    function PropagateFailure<U>(): Option<U>
      requires None?
    {
      None
    }

    function Extract(): T
      requires Some?
    {
      value
    }
  }

  /** `Err(message)` models a thrown exception; the message names the
      error constant the library throws with. */
  datatype Result<+T> = Ok(value: T) | Err(message: string) {
    predicate IsFailure() { Err? }

    function PropagateFailure<U>(): Result<U>
      requires Err?
    {
      Err(message)
    }

    function Extract(): T
      requires Ok?
    {
      value
    }
  }
}
