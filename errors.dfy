/** The client's error record (MoorRestClientError) and the codes it carries. */
module Errors {
  import opened Wrappers
  import opened Json

  datatype ErrorCode =
    | AuthenticationRequired
    | InvalidCredentials
    | AuthFailed
    | AuthProtocolError
    | TokenExpired

  datatype Error =
      /** MoorRestClientError(message, status_code, details, code, resolution); details None is JNull. */
    | RestError(message: string, status: Option<int>, details: JsonValue, code: Option<ErrorCode>, resolution: Option<string>)
      /** Python's ValueError from unpacking a verb-argument list that does not hold three items. */
    | UnpackError(count: nat)

  /** An error raised with a message only. */
  function Plain(message: string): (e: Error)
    ensures e.RestError? && e.message == message && e.status.None? && e.code.None?
  {
    RestError(message, None, JNull, None, None)
  }

  /** The status code an error carries, if it is a client error with one. */
  function StatusOf(e: Error): Option<int> {
    if e.RestError? then e.status else None
  }

  /** The code an error carries, if any. */
  function CodeOf(e: Error): Option<ErrorCode> {
    if e.RestError? then e.code else None
  }
}
