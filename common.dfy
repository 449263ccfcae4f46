/**
 * Shared result types of the admin backend: the optional row a lookup
 * returns, a success-or-failure result, and the HTTP error an endpoint
 * raises (status code and detail text).
 */
module Common {

  /** A row that may be missing (`Optional[...]` / `None` in the service). */
  datatype Option<+T> = None | Some(value: T)

  /** A value or the error that was raised instead. */
  datatype Result<+T, +E> = Ok(value: T) | Err(error: E)

  /** An `HTTPException`: its status code and its detail message. */
  datatype HttpError = HttpError(status: nat, detail: string)

  const BadRequest: nat := 400
  const Unauthorized: nat := 401
  const Forbidden: nat := 403
  const NotFound: nat := 404

  /** The 404 every handler that looks a product up raises when it is missing. */
  const ProductNotFound := HttpError(NotFound, "Product not found")
}
