/**
 * packages/node_lib/src/exceptions/parse_error.ts: turns whatever was thrown
 * into an HTTP exception.
 */
module ParseError {
  import opened Wrappers
  import opened HttpException

  /** What a request handler can throw, by the classes `parseError` tells apart. */
  datatype Thrown =
    | Http(exception: HttpException)
    | VineValidation(messages: seq<ValidationError>)
    | Framework(message: string, status: int, code: Option<string>, help: Option<string>)
    | Syntax(message: string)
    | Unknown(description: string)

  function Parse(error: Thrown): (e: HttpException)
    ensures error.Http? ==> e == error.exception
    ensures error.VineValidation? ==> e.status == UnprocessableEntityStatus && e.metadata == Some(Validation(error.messages)) && e.message == None
    ensures error.Framework? ==> e.message == Some(error.message) && e.status == error.status && e.code == error.code && e.help == error.help
    ensures error.Syntax? ==> e.status == InternalServerErrorStatus && e.message == Some(error.message)
    ensures error.Unknown? ==> e.status == InternalServerErrorStatus && e.message == None && e.cause == Some(error.description)
  {
    match error
    case Http(x) => x
    case VineValidation(messages) =>
      Construct(OptionsArgument(NoOptions.(metadata := Some(Validation(messages)))), None, UnprocessableEntityStatus, "")
    case Framework(message, status, code, help) =>
      Construct(Text(message), Some(NoOptions.(status := Some(status), code := code, help := help, cause := Some(message))), InternalServerErrorStatus, "")
    case Syntax(message) =>
      Construct(Text(message), Some(NoOptions.(cause := Some(message))), InternalServerErrorStatus, "")
    case Unknown(description) =>
      Construct(OptionsArgument(NoOptions.(cause := Some(description))), None, InternalServerErrorStatus, "")
  }

  /** Parsing an already parsed error changes nothing. */
  lemma ParseIdempotent(error: Thrown)
    ensures Parse(Http(Parse(error))) == Parse(error)
  {
  }

  // Errors the framework throws on the controllers' behalf.

  /** `findOrFail` / `firstOrFail` of the ORM when no row matches. */
  const RowNotFound := Framework("Row not found", NotFoundStatus, Some("E_ROW_NOT_FOUND"), None)

  /** The authorizer's refusal, with the policy's reason or its default message. */
  function AuthorizationFailure(reason: Option<string>): (t: Thrown)
    ensures t.Framework? && t.status == ForbiddenStatus
  {
    Framework(reason.GetOr("Access denied"), ForbiddenStatus, Some("E_AUTHORIZATION_FAILURE"), None)
  }

  /** The rate limiter's refusal. */
  const TooManyRequests := Framework("Too many requests", TooManyRequestsStatus, Some("E_TOO_MANY_REQUESTS"), None)

  /** The auth guard's refusal of a missing or invalid credential. */
  const UnauthorizedAccess := Framework("Unauthorized access", UnauthorizedStatus, Some("E_UNAUTHORIZED_ACCESS"), None)
}
