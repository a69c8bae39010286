/** The error half of every handler's JSON response: an HTTP status and the `error` text. */
module Http {
  datatype ApiError = ApiError(status: nat, message: string)

  const BadRequest: nat := 400
  const NotFound: nat := 404
  const ServerError: nat := 500
}
