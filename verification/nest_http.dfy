/** The HTTP exceptions the identity service throws, and the status Nest's
    exception layer answers each with. */
module NestHttp {
  import opened Common

  /** Nest's built-in HTTP exceptions, plus any other error (a violated
      unique constraint, say), which Nest answers as a 500. */
  datatype HttpException =
    | Unauthorized(message: string)
    | Forbidden(message: string)
    | NotFound(message: string)
    | Conflict(message: string)
    | InternalServerError

  /** What one call leaves behind: the user table after it, and its result. */
  datatype Effect<S, T> = Effect(state: S, result: Result<T, HttpException>)

  /** The status of the reply Nest sends for `e`. */
  function StatusOf(e: HttpException): (code: int)
    ensures code == 401 <==> e.Unauthorized?
    ensures code == 403 <==> e.Forbidden?
    ensures code == 404 <==> e.NotFound?
    ensures code == 409 <==> e.Conflict?
    ensures code == 500 <==> e.InternalServerError?
  {
    match e
    case Unauthorized(_) => 401
    case Forbidden(_) => 403
    case NotFound(_) => 404
    case Conflict(_) => 409
    case InternalServerError => 500
  }

  /** The default message of a guard that turns the caller away. */
  const GuardUnauthorized := "Unauthorized"
  const GuardForbidden := "Forbidden resource"
}
