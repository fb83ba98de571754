/**
 * The `IllegalArgumentException` handler of HTTP API version 1. It answers
 * every `instanceof IllegalArgumentException` with 400 BAD REQUEST, carrying
 * the exception's message when there is one, and lets every other
 * exception fall through to the next handler.
 */
module BadRequestHandler {
  import opened Wrappers
  import opened Exceptions
  import opened Responses
  import HttpApiExceptionHandler

  function HandleException(cause: Cause): (r: Outcome)
    ensures r != Defer
    ensures r.Respond? <==> InstanceOf(cause.cls, IllegalArgumentException)
    ensures r.Fallthrough? <==> !InstanceOf(cause.cls, IllegalArgumentException)
    ensures r.Respond? ==> r.response.status == BAD_REQUEST
    ensures r.Respond? ==> (r.response.body == NoBody <==> cause.message.None?)
    ensures r.Respond? && cause.message.Some? ==> r.response.body == ErrorMessage(cause.message.value)
  {
    if InstanceOf(cause.cls, IllegalArgumentException) then
      if cause.message.Some? then
        Respond(Response(BAD_REQUEST, ErrorMessage(cause.message.value)))
      else
        Respond(Response(BAD_REQUEST, NoBody))
    else
      Fallthrough
  }

  /**
   * On every `IllegalArgumentException`, application subclasses included,
   * this handler and the default handler agree on 400 BAD REQUEST; they
   * differ only in the body, which here carries the message.
   */
  lemma AgreesWithDefaultHandler(cause: Cause)
    requires InstanceOf(cause.cls, IllegalArgumentException)
    ensures HttpApiExceptionHandler.Handle(cause) == Respond(Response(BAD_REQUEST, FromCause))
    ensures HandleException(cause).Respond? && HandleException(cause).response.status == BAD_REQUEST
    ensures HttpApiExceptionHandler.SilencesReporting(HttpApiExceptionHandler.RouteOf(cause.cls))
  {
    SiblingsAreDisjoint(cause.cls, IllegalArgumentException, HttpStatusException);
    SiblingsAreDisjoint(cause.cls, IllegalArgumentException, HttpResponseException);
    HttpApiExceptionHandler.TableKeys();
  }

  /** Where this handler falls through, the default handler's table and remaining fallbacks decide. */
  lemma FallthroughLeavesOtherStatuses(cause: Cause)
    requires HandleException(cause).Fallthrough?
    requires HttpApiExceptionHandler.Handle(cause).Respond?
    ensures HttpApiExceptionHandler.Handle(cause).response.status == BAD_REQUEST ==>
              cause.cls in HttpApiExceptionHandler.TableBadRequestClasses
  {
    HttpApiExceptionHandler.StatusOrigins(cause);
  }
}
