/** The outcomes a handler can produce and the HTTP status code each maps to. */
module Http {

  /** The errors the handlers raise with `createError`. `InternalError` is the
      500 of a failed database call; storage failures themselves are not modelled. */
  datatype Failure = BadRequest | Unauthorized | Conflict | InternalError
  {
    function StatusCode(): (code: nat)
      ensures 400 <= code < 600
    {
      match this
      case BadRequest => 400
      case Unauthorized => 401
      case Conflict => 409
      case InternalError => 500
    }
  }

  /** What a handler returns: a success payload or the error it throws. */
  datatype Result<+T> = Ok(value: T) | Err(failure: Failure)

  /** What reaches a handler's `catch`: an error created with a status code,
      or an error raised by the database driver (which has none). */
  datatype Thrown = HttpError(failure: Failure) | StorageError

  /** The `catch` clause of the single-slot create handler: an error that
      already carries a status code is re-thrown unchanged, anything else
      becomes a 500. */
  function Caught(e: Thrown): (f: Failure)
    ensures e.HttpError? ==> f.StatusCode() == e.failure.StatusCode()
    ensures e.StorageError? ==> f.StatusCode() == 500
  {
    match e
    case HttpError(f) => f
    case StorageError => InternalError
  }
}
