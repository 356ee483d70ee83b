/**
 * The error and result shapes every handler of the service produces.
 * An `HttpError` stands for a raised `HTTPException` (status code and detail
 * text) or, with status 500, for an exception the framework turns into an
 * internal server error.
 */
module Http {

  datatype Option<+T> = None | Some(value: T)

  datatype HttpError = HttpError(status: int, detail: string)

  /** The outcome of a handler: the response body, or the error it raised. */
  datatype Result<+T> = Ok(value: T) | Err(error: HttpError)

  /** The outcome of a check that returns nothing when it passes. */
  datatype Outcome = Pass | Fail(error: HttpError)

  /** What the server answers when an unexpected exception escapes a handler. */
  const InternalServerError := HttpError(500, "Internal Server Error")
}
