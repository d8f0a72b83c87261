/** Value types shared by every component of the lead-intake service. */
module Common {

  datatype Option<+T> = None | Some(value: T)

  /** The outcome of a service call: a value, or the HTTPException it raises. */
  datatype Result<+T> = Ok(value: T) | Err(error: HttpError)

  /** An HTTP error as raised through FastAPI's HTTPException: status code and detail text. */
  datatype HttpError = HttpError(status: int, detail: string)

  newtype byte = x: int | 0 <= x < 256

  const HTTP_400_BAD_REQUEST: int := 400
  const HTTP_401_UNAUTHORIZED: int := 401
  const HTTP_404_NOT_FOUND: int := 404
}
