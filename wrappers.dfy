/** Optional values and results with an error branch, used throughout the catalog model. */
module Wrappers {

  datatype Option<+T> = None | Some(value: T)

  datatype Result<+T, +E> = Ok(value: T) | Err(error: E)
}

/** The errors the route handlers raise as HTTP exceptions. */
module Http {

  /** An `HTTPException(status_code, detail)` raised by a handler. */
  datatype HttpError = HttpError(status: int, detail: string)

  const BadRequest := 400
  const NotFound := 404
}
