/** An HTTP error response raised by an endpoint (`HTTPException(status_code, detail)`). */
module Http {

  datatype HttpError = HttpError(status: int, detail: string)

  const BadRequest := 400
  const Unauthorized := 401
  const Forbidden := 403
  const NotFound := 404
  const Conflict := 409
  const Unprocessable := 422
  const TooManyRequests := 429
  const BadGateway := 502
  const Unavailable := 503
}
