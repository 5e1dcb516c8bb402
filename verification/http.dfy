/** JSON responses of the route handlers: an error body `{ error }` or a
    data body, each with its HTTP status. */
module Http {

  datatype Response<T> = Error(status: nat, message: string) | Json(status: nat, data: T)

  const Ok: nat := 200
  const Created: nat := 201
  const BadRequest: nat := 400
  const Unauthorized: nat := 401
  const Forbidden: nat := 403
  const NotFound: nat := 404
  const ServerError: nat := 500

  const InternalErrorMessage := "Internal server error"

  /** The reply of every handler's catch block. */
  function InternalError<T>(): (r: Response<T>)
    ensures r.Error? && r.status == ServerError
  {
    Error(ServerError, InternalErrorMessage)
  }
}
