/** The error classes the handlers throw, and the result of a handler. */
module Errors {
  import opened Common

  /** One constructor per error class, carrying the message it is thrown with.
      `Unexpected` stands for any other thrown value (a database or type error): it has a message
      but no `statusCode` property. */
  datatype ApiError =
    | BadRequest(msg: string)
    | NotFound(msg: string)
    | UnAuthenticated(msg: string)
    | Conflict(msg: string)
    | Forbidden(msg: string)
    | InternalServer
    | Unexpected(msg: string)
  {
    /** The `statusCode` property the error object carries, if any. */
    function StatusCode(): (code: Option<Status>)
      ensures code.None? <==> Unexpected?
      ensures code.Some? ==> 400 <= code.value <= 500
    {
      match this
      case BadRequest(_) => Some(400)
      case NotFound(_) => Some(404)
      case UnAuthenticated(_) => Some(401)
      case Conflict(_) => Some(409)
      case Forbidden(_) => Some(403)
      case InternalServer => Some(500)
      case Unexpected(_) => None
    }

    /** The `message` property of the error object. */
    function Message(): string
    {
      match this
      case BadRequest(m) => m
      case NotFound(m) => m
      case UnAuthenticated(m) => m
      case Conflict(m) => m
      case Forbidden(m) => m
      case InternalServer => "Have an error on a server"
      case Unexpected(m) => m
    }
  }

  /** What a handler produces: a success value, or the error it throws. */
  datatype Result<+T> = Ok(value: T) | Err(error: ApiError)
}
