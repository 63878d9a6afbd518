/** Failure-carrying results shared by every handler of the model. */
module Wrappers {

  datatype Option<+T> = None | Some(value: T) {
    function GetOr(default: T): T {
      match this
      case Some(v) => v
      case None => default
    }
  }

  /** A handler either succeeds with a value or fails with an error (an HTTP status code for
      the controllers, a validation error code for the Joi helpers). */
  datatype Result<+T, +E> = Ok(value: T) | Err(error: E)
}

/** The HTTP status codes the controllers throw with `CustomError`. */
module Http {
  const BadRequest: int := 400
  const Forbidden: int := 403
  const NotFound: int := 404
  const MethodNotAllowed: int := 405
  const Conflict: int := 409
  const ServerError: int := 500
}
