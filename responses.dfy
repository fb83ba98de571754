/**
 * HTTP responses as the error handlers produce them. The rendering of a
 * body is done by helpers outside this model, so a body is a tag naming
 * how it is produced; statuses are the Armeria `HttpStatus` codes used.
 */
module Responses {
  import opened Wrappers

  const NO_CONTENT: nat := 204
  const BAD_REQUEST: nat := 400
  const UNAUTHORIZED: nat := 401
  const FORBIDDEN: nat := 403
  const NOT_FOUND: nat := 404
  const CONFLICT: nat := 409
  const TOO_MANY_REQUESTS: nat := 429
  const INTERNAL_SERVER_ERROR: nat := 500
  const SERVICE_UNAVAILABLE: nat := 503

  /** The message templates the table's handlers format. */
  datatype Template =
    | ChangeConflictMessage
    | EntryNotFoundMessage
    | ProjectExistsMessage
    | ProjectNotFoundMessage
    | RedundantChangeMessage
    | RepositoryExistsMessage
    | RepositoryNotFoundMessage
    | RevisionNotFoundMessage
    | TokenNotFoundMessage
    | TooManyRequestsMessage

  /** The format string of each template; every `%s` is filled from the response's arguments. */
  function Text(t: Template): string {
    match t
    case ChangeConflictMessage => "The given changeset or revision has a conflict."
    case EntryNotFoundMessage => "Entry '%s' does not exist."
    case ProjectExistsMessage => "Project '%s' exists already."
    case ProjectNotFoundMessage => "Project '%s' does not exist."
    case RedundantChangeMessage => "The given changeset does not change anything."
    case RepositoryExistsMessage => "Repository '%s' exists already."
    case RepositoryNotFoundMessage => "Repository '%s' does not exist."
    case RevisionNotFoundMessage => "Revision %s does not exist."
    case TokenNotFoundMessage => "Token '%s' does not exist."
    case TooManyRequestsMessage => "Too many %s are sent to %s"
  }

  datatype Body =
    | NoBody                                                  // HttpResponse.of(status)
    | FromCause                                               // newResponse(ctx, status, cause)
    | Formatted(template: Template, args: seq<Option<string>>)  // newResponse(ctx, status, cause, Text(template), args...)
    | ErrorMessage(message: string)                           // newResponseWithErrorMessage(status, message)

  datatype Response = Response(status: nat, body: Body)

  /**
   * What a handler decides: leave the exception to the framework (a
   * `null` return), answer with a response, or pass it to the next
   * handler (`ExceptionHandlerFunction.fallthrough()`).
   */
  datatype Outcome = Defer | Respond(response: Response) | Fallthrough
}
