/** Shared wrappers: an optional value, a result carrying one of the portal's
    recoverable error kinds, and the error kinds themselves. */
module Common {

  datatype Option<+T> = None | Some(value: T)

  /** The error kinds the portal can run into. `MalformedPayload` is what
      `JSON.parse` throws on a corrupt stored payload; `MissingRecord` is what
      `Object.entries(undefined)` throws when a saved-record index is stale;
      `FormInvalid` is the browser refusing to fire `submit` because a
      required control is empty. */
  datatype Error = MalformedPayload | MissingRecord(index: int) | FormInvalid

  datatype Result<+T> = Ok(value: T) | Err(error: Error) {
    predicate IsFailure() { Err? }

    function PropagateFailure<U>(): Result<U>
      requires Err?
    {
      Err(error)
    }

    function Extract(): T
      requires Ok?
    {
      value
    }
  }
}
