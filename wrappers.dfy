/** Optional values and results shared by every module of the model. */
module Wrappers {

  /** `None` stands for JavaScript's `undefined` (or `null` where the source treats both alike). */
  datatype Option<+T> = None | Some(value: T)
  {
    function GetOr(default: T): T
    {
      match this
      case Some(v) => v
      case None => default
    }
  }

  /** The class of an exception thrown, or of a rejected promise. */
  datatype FaultKind =
    | PlainError        // `new Error(...)`
    | BadRequestError   // `BadRequestError` (HTTP 400)
    | NotFoundError     // `NotFoundError` (HTTP 404)
    | TypeError         // a TypeError raised by the JavaScript runtime
    | SyntaxError       // a SyntaxError raised by JSON.parse
    | Rejection         // `Promise.reject(<string>)`

  datatype Fault = Fault(kind: FaultKind, message: string)

  /** A returned value, or the exception / rejection the call ends with. */
  datatype Result<+T> = Ok(value: T) | Err(error: Fault)
  {
    predicate IsFailure()
    {
      Err?
    }

    function PropagateFailure<U>(): Result<U>
      requires Err?
    {
      Err(error)
    }

    function Extract(): T
      requires Ok?
    {
      value
    }
  }
}
