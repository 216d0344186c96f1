/** Option and Result, usable with `:-`, and the exceptions that end a pipeline component. */
module Wrappers {

  datatype Option<+T> = None | Some(value: T) {
    predicate IsFailure() { None? }

    function PropagateFailure<U>(): Option<U>
      requires None?
    {
      None
    }

    function Extract(): T
      requires Some?
    {
      value
    }

    /** The value, or the given error when there is none. */
    function ToResult<E>(error: E): (r: Result<T, E>)
      ensures r.Ok? <==> Some?
      ensures r.Ok? ==> r.value == value
      ensures r.Err? ==> r.error == error
    {
      match this
      case None => Err(error)
      case Some(v) => Ok(v)
    }
  }

  datatype Result<+T, +E> = Ok(value: T) | Err(error: E) {
    predicate IsFailure() { Err? }

    function PropagateFailure<U>(): Result<U, E>
      requires Err?
    {
      Err(error)
    }

    function Extract(): T
      requires Ok?
    {
      value
    }
  }
}

/** The exceptions a component raises; each ends the component's unit of work. */
module Failures {

  datatype Failure =
    | ValueError                            // `int()` of text that is not a decimal integer
    | InvalidBatchSize(size: int)           // a batch size that is not positive
    | NotFound(bucket: string, path: string) // downloading an object that does not exist
    | IndexError                            // `row.iloc[0]` of a row without columns
    | RetryError                            // every one of the three attempts of a model call raised
    | NoObjectsToConcatenate                // `pd.concat` of an empty list
}
