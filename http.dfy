/** The errors a handler raises as `HTTPException(status_code, detail)`. */
module Http {

  datatype HttpError = HttpError(status: int, detail: string)

  const BadRequest: int := 400
  const Unauthorized: int := 401
  const Forbidden: int := 403
  const NotFound: int := 404
}
