/**
 * The default error handler of the HTTP API: a table of handlers keyed on
 * the exact runtime class of the exception, consulted after the framework's
 * own HTTP exceptions are deferred and before the `instanceof` fallbacks for
 * bad arguments (400), timed-out requests (503) and everything else (500).
 */
module HttpApiExceptionHandler {
  import opened Wrappers
  import opened Exceptions
  import opened Responses

  /** What one handler function of the table does with the exception. */
  datatype Handler =
    | Templated(status: nat, template: Template, withMessage: bool)  // newResponse(ctx, status, cause, template[, cause.getMessage()])
    | Plain(status: nat)                                            // newResponse(ctx, status, cause)
    | Bare(status: nat)                                             // HttpResponse.of(status)
    | TooManyRequests                                               // 429 naming the kind of request

  /** The `put` calls of the static initializer, in order. */
  const HandlerEntries: seq<(ExceptionClass, Handler)> := [
    (Listed(Server(ChangeConflictException)), Templated(CONFLICT, ChangeConflictMessage, false)),
    (Listed(Server(EntryNotFoundException)), Templated(NOT_FOUND, EntryNotFoundMessage, true)),
    (Listed(Server(EntryNoContentException)), Bare(NO_CONTENT)),
    (Listed(Server(ProjectExistsException)), Templated(CONFLICT, ProjectExistsMessage, true)),
    (Listed(Server(ProjectNotFoundException)), Templated(NOT_FOUND, ProjectNotFoundMessage, true)),
    (Listed(Server(RedundantChangeException)), Templated(CONFLICT, RedundantChangeMessage, false)),
    (Listed(Server(RepositoryExistsException)), Templated(CONFLICT, RepositoryExistsMessage, true)),
    (Listed(Server(RepositoryMetadataException)), Plain(INTERNAL_SERVER_ERROR)),
    (Listed(Server(RepositoryNotFoundException)), Templated(NOT_FOUND, RepositoryNotFoundMessage, true)),
    (Listed(Server(RevisionNotFoundException)), Templated(NOT_FOUND, RevisionNotFoundMessage, true)),
    (Listed(Server(TokenNotFoundException)), Templated(NOT_FOUND, TokenNotFoundMessage, true)),
    (Listed(Server(QueryExecutionException)), Plain(BAD_REQUEST)),
    (Listed(UnsupportedOperationException), Plain(BAD_REQUEST)),
    (Listed(Server(TooManyRequestsException)), TooManyRequests),
    (Listed(Server(InvalidPushException)), Plain(BAD_REQUEST)),
    (Listed(Server(ReadOnlyException)), Plain(SERVICE_UNAVAILABLE)),
    (Listed(Server(MirrorException)), Plain(INTERNAL_SERVER_ERROR)),
    (Listed(Server(AuthorizationException)), Plain(UNAUTHORIZED)),
    (Listed(Server(PermissionException)), Plain(FORBIDDEN))
  ]

  /** No key is put twice. */
  predicate DistinctKeys<K(==), V>(entries: seq<(K, V)>) {
    forall i, j :: 0 <= i < j < |entries| ==> entries[i].0 != entries[j].0
  }

  /**
   * `ImmutableMap.Builder.build()` over the entries put so far: the map,
   * or `None` where the builder throws because a key was put twice.
   */
  function Build<K(==), V>(entries: seq<(K, V)>): (r: Option<map<K, V>>)
    ensures r.Some? <==> DistinctKeys(entries)
    ensures r.Some? ==> r.value.Keys == set i | 0 <= i < |entries| :: entries[i].0
    ensures r.Some? ==> forall i :: 0 <= i < |entries| ==> r.value[entries[i].0] == entries[i].1
  {
    if entries == [] then Some(map[])
    else
      var prefix, last := entries[..|entries| - 1], entries[|entries| - 1];
      match Build(prefix)
      case None => None
      case Some(m) =>
        if last.0 in m then None else Some(m[last.0 := last.1])
  }

  /** The table the static initializer builds: the builder does not throw, and every entry put is in it. */
  function ExceptionHandlers(): (m: map<ExceptionClass, Handler>)
    ensures Build(HandlerEntries) == Some(m)
    ensures m.Keys == set i | 0 <= i < |HandlerEntries| :: HandlerEntries[i].0
    ensures forall i :: 0 <= i < |HandlerEntries| ==> m[HandlerEntries[i].0] == HandlerEntries[i].1
  {
    assert DistinctKeys(HandlerEntries);
    Build(HandlerEntries).value
  }

  /** `peeledCause instanceof HttpStatusException || peeledCause instanceof HttpResponseException`. */
  predicate IsHttpException(c: ExceptionClass) {
    InstanceOf(c, HttpStatusException) || InstanceOf(c, HttpResponseException)
  }

  /** The branch of `onServiceException` that handles an exception. */
  datatype Route =
    | Deferred
    | TableHit(handler: Handler)
    | IllegalArgumentFallback
    | TimedOutFallback
    | InternalErrorFallback

  /** The precedence chain: defer, exact-class table, then the two `instanceof` fallbacks, then 500. */
  function RouteOf(c: ExceptionClass): (r: Route)
    ensures r.Deferred? <==> IsHttpException(c)
    ensures r.TableHit? <==> !IsHttpException(c) && c in ExceptionHandlers()
    ensures r.TableHit? ==> r.handler == ExceptionHandlers()[c]
    ensures r.IllegalArgumentFallback? <==>
              !IsHttpException(c) && c !in ExceptionHandlers() && InstanceOf(c, IllegalArgumentException)
    ensures r.TimedOutFallback? <==>
              !IsHttpException(c) && c !in ExceptionHandlers() && !InstanceOf(c, IllegalArgumentException) &&
              InstanceOf(c, Server(RequestAlreadyTimedOutException))
  {
    if IsHttpException(c) then Deferred
    else if c in ExceptionHandlers() then TableHit(ExceptionHandlers()[c])
    else if InstanceOf(c, IllegalArgumentException) then IllegalArgumentFallback
    else if InstanceOf(c, Server(RequestAlreadyTimedOutException)) then TimedOutFallback
    else InternalErrorFallback
  }

  /** The branches that turn off the context's reporting of unlogged exceptions. */
  predicate SilencesReporting(r: Route) {
    r.TableHit? || r.IllegalArgumentFallback? || r.TimedOutFallback?
  }

  /** What `firstNonNull(cast.type(), "requests")` falls back to. */
  const DEFAULT_REQUEST_TYPE: string := "requests"

  /** The response one table handler builds for the exception. */
  function Apply(h: Handler, cause: Cause): (r: Response)
    ensures r.status == HandlerStatus(h)
    ensures r.body == NoBody <==> h.Bare?
    ensures r.body == FromCause <==> h.Plain?
    ensures r.body.Formatted? && !h.TooManyRequests? ==> r.body.args == if h.withMessage then [cause.message] else []
  {
    match h
    case Templated(status, template, withMessage) =>
      Response(status, Formatted(template, if withMessage then [cause.message] else []))
    case Plain(status) => Response(status, FromCause)
    case Bare(status) => Response(status, NoBody)
    case TooManyRequests =>
      var requestType := if cause.requestType.Some? then cause.requestType.value else DEFAULT_REQUEST_TYPE;
      Response(TOO_MANY_REQUESTS, Formatted(TooManyRequestsMessage, [Some(requestType), cause.message]))
  }

  /** What `onServiceException` returns for an already peeled exception. */
  function Handle(cause: Cause): (r: Outcome)
    ensures r != Fallthrough
    ensures r == Defer <==> IsHttpException(cause.cls)
  {
    match RouteOf(cause.cls)
    case Deferred => Defer
    case TableHit(h) => Respond(Apply(h, cause))
    case IllegalArgumentFallback => Respond(Response(BAD_REQUEST, FromCause))
    case TimedOutFallback => Respond(Response(SERVICE_UNAVAILABLE, FromCause))
    case InternalErrorFallback => Respond(Response(INTERNAL_SERVER_ERROR, FromCause))
  }

  /** The part of Armeria's `ServiceRequestContext` the handler changes. */
  class ServiceRequestContext {
    var shouldReportUnloggedExceptions: bool

    constructor (shouldReport: bool)
      ensures shouldReportUnloggedExceptions == shouldReport
    {
      shouldReportUnloggedExceptions := shouldReport;
    }

    method SetShouldReportUnloggedExceptions(value: bool)
      modifies this
      ensures shouldReportUnloggedExceptions == value
    {
      shouldReportUnloggedExceptions := value;
    }
  }

  /**
   * `HttpApiExceptionHandler.onServiceException` on an exception that is
   * already peeled: the outcome of the first rule that applies, with
   * reporting turned off exactly on the table and the 400 and 503 branches.
   */
  method OnServiceException(ctx: ServiceRequestContext, peeledCause: Cause) returns (r: Outcome)
    modifies ctx
    ensures r == Handle(peeledCause)
    ensures ctx.shouldReportUnloggedExceptions ==
            if SilencesReporting(RouteOf(peeledCause.cls)) then false
            else old(ctx.shouldReportUnloggedExceptions)
  {
    var cls := peeledCause.cls;
    if InstanceOf(cls, HttpStatusException) || InstanceOf(cls, HttpResponseException) {
      return Defer;
    }
    var handlers := ExceptionHandlers();
    if cls in handlers {
      ctx.SetShouldReportUnloggedExceptions(false);
      return Respond(Apply(handlers[cls], peeledCause));
    }
    if InstanceOf(cls, IllegalArgumentException) {
      ctx.SetShouldReportUnloggedExceptions(false);
      return Respond(Response(BAD_REQUEST, FromCause));
    }
    if InstanceOf(cls, Server(RequestAlreadyTimedOutException)) {
      ctx.SetShouldReportUnloggedExceptions(false);
      return Respond(Response(SERVICE_UNAVAILABLE, FromCause));
    }
    return Respond(Response(INTERNAL_SERVER_ERROR, FromCause));
  }

  // Properties of the classification.

  /** A server exception other than the timeout, or `UnsupportedOperationException`, passes every `instanceof` check. */
  lemma NotCaughtByInstanceOf(n: ClassName)
    requires n != Server(RequestAlreadyTimedOutException)
    requires n == UnsupportedOperationException || n.Server?
    ensures !InstanceOf(Listed(n), HttpStatusException) && !InstanceOf(Listed(n), HttpResponseException)
    ensures !InstanceOf(Listed(n), IllegalArgumentException)
    ensures !InstanceOf(Listed(n), Server(RequestAlreadyTimedOutException))
  {
  }

  /** Each class put in the table is a listed server exception or `UnsupportedOperationException`. */
  lemma EntryClasses()
    ensures forall i | 0 <= i < |HandlerEntries| ::
              HandlerEntries[i].0.Listed? && HandlerEntries[i].0.name != Server(RequestAlreadyTimedOutException) &&
              (HandlerEntries[i].0.name == UnsupportedOperationException || HandlerEntries[i].0.name.Server?)
  {
  }

  /** Every table key is an exact listed class that none of the `instanceof` checks would catch. */
  lemma TableKeys()
    ensures forall c :: c in ExceptionHandlers() ==>
              c.Listed? && !IsHttpException(c) &&
              !InstanceOf(c, IllegalArgumentException) && !InstanceOf(c, Server(RequestAlreadyTimedOutException))
  {
    EntryClasses();
    forall c | c in ExceptionHandlers()
      ensures c.Listed? && !IsHttpException(c)
      ensures !InstanceOf(c, IllegalArgumentException) && !InstanceOf(c, Server(RequestAlreadyTimedOutException))
    {
      var i :| 0 <= i < |HandlerEntries| && HandlerEntries[i].0 == c;
      NotCaughtByInstanceOf(c.name);
    }
  }

  /** An exception whose runtime class was put in the table is answered by the handler put with it. */
  lemma TableEntryRoutes(c: ExceptionClass, h: Handler)
    requires (c, h) in HandlerEntries
    ensures RouteOf(c) == TableHit(h)
  {
    TableKeys();
    var i :| 0 <= i < |HandlerEntries| && HandlerEntries[i] == (c, h);
  }

  /** The status of the response a table handler builds. */
  function HandlerStatus(h: Handler): nat {
    if h.TooManyRequests? then TOO_MANY_REQUESTS else h.status
  }

  const ConflictClasses: set<ExceptionClass> :=
    {Listed(Server(ChangeConflictException)), Listed(Server(RedundantChangeException)),
     Listed(Server(ProjectExistsException)), Listed(Server(RepositoryExistsException))}

  const NotFoundClasses: set<ExceptionClass> :=
    {Listed(Server(EntryNotFoundException)), Listed(Server(ProjectNotFoundException)),
     Listed(Server(RepositoryNotFoundException)), Listed(Server(RevisionNotFoundException)),
     Listed(Server(TokenNotFoundException))}

  const TableBadRequestClasses: set<ExceptionClass> :=
    {Listed(Server(QueryExecutionException)), Listed(UnsupportedOperationException),
     Listed(Server(InvalidPushException))}

  const TableInternalErrorClasses: set<ExceptionClass> :=
    {Listed(Server(RepositoryMetadataException)), Listed(Server(MirrorException))}

  /** Conflicting or redundant changes and existing projects or repositories give 409 CONFLICT. */
  lemma ConflictResponses(cause: Cause)
    requires cause.cls in ConflictClasses
    ensures RouteOf(cause.cls).TableHit? && SilencesReporting(RouteOf(cause.cls))
    ensures Handle(cause).Respond? && Handle(cause).response.status == CONFLICT
    ensures cause.cls == Listed(Server(ChangeConflictException)) ==>
              Handle(cause).response.body == Formatted(ChangeConflictMessage, [])
    ensures cause.cls == Listed(Server(RedundantChangeException)) ==>
              Handle(cause).response.body == Formatted(RedundantChangeMessage, [])
    ensures cause.cls == Listed(Server(ProjectExistsException)) ==>
              Handle(cause).response.body == Formatted(ProjectExistsMessage, [cause.message])
    ensures cause.cls == Listed(Server(RepositoryExistsException)) ==>
              Handle(cause).response.body == Formatted(RepositoryExistsMessage, [cause.message])
  {
    if cause.cls == Listed(Server(ChangeConflictException)) {
      TableEntryRoutes(cause.cls, Templated(CONFLICT, ChangeConflictMessage, false));
    } else if cause.cls == Listed(Server(RedundantChangeException)) {
      TableEntryRoutes(cause.cls, Templated(CONFLICT, RedundantChangeMessage, false));
    } else if cause.cls == Listed(Server(ProjectExistsException)) {
      TableEntryRoutes(cause.cls, Templated(CONFLICT, ProjectExistsMessage, true));
    } else {
      TableEntryRoutes(cause.cls, Templated(CONFLICT, RepositoryExistsMessage, true));
    }
  }

  /** Missing entries, projects, repositories, revisions and tokens give 404 NOT FOUND, naming the message. */
  lemma NotFoundResponses(cause: Cause)
    requires cause.cls in NotFoundClasses
    ensures RouteOf(cause.cls).TableHit? && SilencesReporting(RouteOf(cause.cls))
    ensures Handle(cause).Respond? && Handle(cause).response.status == NOT_FOUND
    ensures Handle(cause).response.body.Formatted? && Handle(cause).response.body.args == [cause.message]
    ensures cause.cls == Listed(Server(EntryNotFoundException)) ==>
              Handle(cause).response.body.template == EntryNotFoundMessage
    ensures cause.cls == Listed(Server(ProjectNotFoundException)) ==>
              Handle(cause).response.body.template == ProjectNotFoundMessage
    ensures cause.cls == Listed(Server(RepositoryNotFoundException)) ==>
              Handle(cause).response.body.template == RepositoryNotFoundMessage
    ensures cause.cls == Listed(Server(RevisionNotFoundException)) ==>
              Handle(cause).response.body.template == RevisionNotFoundMessage
    ensures cause.cls == Listed(Server(TokenNotFoundException)) ==>
              Handle(cause).response.body.template == TokenNotFoundMessage
  {
    if cause.cls == Listed(Server(EntryNotFoundException)) {
      TableEntryRoutes(cause.cls, Templated(NOT_FOUND, EntryNotFoundMessage, true));
    } else if cause.cls == Listed(Server(ProjectNotFoundException)) {
      TableEntryRoutes(cause.cls, Templated(NOT_FOUND, ProjectNotFoundMessage, true));
    } else if cause.cls == Listed(Server(RepositoryNotFoundException)) {
      TableEntryRoutes(cause.cls, Templated(NOT_FOUND, RepositoryNotFoundMessage, true));
    } else if cause.cls == Listed(Server(RevisionNotFoundException)) {
      TableEntryRoutes(cause.cls, Templated(NOT_FOUND, RevisionNotFoundMessage, true));
    } else {
      TableEntryRoutes(cause.cls, Templated(NOT_FOUND, TokenNotFoundMessage, true));
    }
  }

  /** An entry without content gives a bare 204 NO CONTENT. */
  lemma EntryNoContentResponse(cause: Cause)
    requires cause.cls == Listed(Server(EntryNoContentException))
    ensures RouteOf(cause.cls).TableHit? && SilencesReporting(RouteOf(cause.cls))
    ensures Handle(cause) == Respond(Response(NO_CONTENT, NoBody))
  {
    TableEntryRoutes(cause.cls, Bare(NO_CONTENT));
  }

  /** Too many requests give 429, naming the request type or, when there is none, "requests". */
  lemma TooManyRequestsResponse(cause: Cause)
    requires cause.cls == Listed(Server(TooManyRequestsException))
    ensures RouteOf(cause.cls).TableHit? && SilencesReporting(RouteOf(cause.cls))
    ensures Handle(cause).Respond? && Handle(cause).response.status == TOO_MANY_REQUESTS
    ensures Handle(cause).response.body.Formatted?
    ensures Handle(cause).response.body.template == TooManyRequestsMessage
    ensures Handle(cause).response.body.args ==
            [Some(if cause.requestType.Some? then cause.requestType.value else DEFAULT_REQUEST_TYPE), cause.message]
  {
    TableEntryRoutes(cause.cls, TooManyRequests);
  }

  /** Invalid queries, unsupported operations and invalid pushes give 400; bad credentials 401; missing permission 403. */
  lemma ClientErrorResponses(cause: Cause)
    requires cause.cls in TableBadRequestClasses ||
             cause.cls == Listed(Server(AuthorizationException)) || cause.cls == Listed(Server(PermissionException))
    ensures RouteOf(cause.cls).TableHit? && SilencesReporting(RouteOf(cause.cls))
    ensures Handle(cause).Respond? && Handle(cause).response.body == FromCause
    ensures cause.cls in TableBadRequestClasses ==> Handle(cause).response.status == BAD_REQUEST
    ensures cause.cls == Listed(Server(AuthorizationException)) ==> Handle(cause).response.status == UNAUTHORIZED
    ensures cause.cls == Listed(Server(PermissionException)) ==> Handle(cause).response.status == FORBIDDEN
  {
    if cause.cls == Listed(Server(AuthorizationException)) {
      TableEntryRoutes(cause.cls, Plain(UNAUTHORIZED));
    } else if cause.cls == Listed(Server(PermissionException)) {
      TableEntryRoutes(cause.cls, Plain(FORBIDDEN));
    } else {
      TableEntryRoutes(cause.cls, Plain(BAD_REQUEST));
    }
  }

  /** A read-only server gives 503; repository metadata and mirroring failures give 500. */
  lemma ServerErrorResponses(cause: Cause)
    requires cause.cls in TableInternalErrorClasses || cause.cls == Listed(Server(ReadOnlyException))
    ensures RouteOf(cause.cls).TableHit? && SilencesReporting(RouteOf(cause.cls))
    ensures Handle(cause).Respond? && Handle(cause).response.body == FromCause
    ensures cause.cls == Listed(Server(ReadOnlyException)) ==> Handle(cause).response.status == SERVICE_UNAVAILABLE
    ensures cause.cls in TableInternalErrorClasses ==> Handle(cause).response.status == INTERNAL_SERVER_ERROR
  {
    if cause.cls == Listed(Server(ReadOnlyException)) {
      TableEntryRoutes(cause.cls, Plain(SERVICE_UNAVAILABLE));
    } else {
      TableEntryRoutes(cause.cls, Plain(INTERNAL_SERVER_ERROR));
    }
  }

  /** An exception the table does not list, and that the framework does not own, is classified by `instanceof` alone. */
  lemma FallbackResponses(cause: Cause)
    requires !IsHttpException(cause.cls) && cause.cls !in ExceptionHandlers()
    ensures Handle(cause).Respond? && Handle(cause).response.body == FromCause
    ensures InstanceOf(cause.cls, IllegalArgumentException) ==>
              Handle(cause).response.status == BAD_REQUEST && SilencesReporting(RouteOf(cause.cls))
    ensures !InstanceOf(cause.cls, IllegalArgumentException) && InstanceOf(cause.cls, Server(RequestAlreadyTimedOutException)) ==>
              Handle(cause).response.status == SERVICE_UNAVAILABLE && SilencesReporting(RouteOf(cause.cls))
    ensures !InstanceOf(cause.cls, IllegalArgumentException) && !InstanceOf(cause.cls, Server(RequestAlreadyTimedOutException)) ==>
              Handle(cause).response.status == INTERNAL_SERVER_ERROR && !SilencesReporting(RouteOf(cause.cls))
  {
  }

  /**
   * The table matches the exact runtime class only: an application
   * subclass of a listed class (even of a table class) is never answered
   * by the table, and falls to the `instanceof` checks.
   */
  lemma SubclassesSkipTable(cause: Cause)
    requires cause.cls.Subclass?
    ensures !RouteOf(cause.cls).TableHit?
    ensures !IsHttpException(cause.cls) ==>
              Handle(cause).Respond? && Handle(cause).response.body == FromCause &&
              Handle(cause).response.status ==
                if InstanceOf(cause.cls.superclass, IllegalArgumentException) then BAD_REQUEST
                else if InstanceOf(cause.cls.superclass, Server(RequestAlreadyTimedOutException)) then SERVICE_UNAVAILABLE
                else INTERNAL_SERVER_ERROR
  {
    TableKeys();
  }

  /** For instance, a subclass of `ChangeConflictException` gives 500, not the table's 409. */
  lemma ChangeConflictSubclassIsInternalError(cause: Cause, id: nat)
    requires cause.cls == Subclass(id, Listed(Server(ChangeConflictException)))
    ensures Handle(cause) == Respond(Response(INTERNAL_SERVER_ERROR, FromCause))
    ensures !SilencesReporting(RouteOf(cause.cls))
  {
    SubclassesSkipTable(cause);
    NotCaughtByInstanceOf(Server(ChangeConflictException));
  }

  /**
   * Reporting of unlogged exceptions is turned off exactly when the table
   * or one of the two `instanceof` fallbacks answers, and left alone
   * exactly when the exception is deferred or falls through to 500.
   */
  lemma ReportingFlagBranches(cause: Cause)
    ensures SilencesReporting(RouteOf(cause.cls)) <==>
              !IsHttpException(cause.cls) &&
              (cause.cls in ExceptionHandlers() ||
               InstanceOf(cause.cls, IllegalArgumentException) ||
               InstanceOf(cause.cls, Server(RequestAlreadyTimedOutException)))
    ensures !SilencesReporting(RouteOf(cause.cls)) <==>
              Handle(cause) == Defer ||
              (cause.cls !in ExceptionHandlers() && Handle(cause) == Respond(Response(INTERNAL_SERVER_ERROR, FromCause)))
  {
  }

  /** The table's classes grouped by the status the source gives them; `None` for a class not in the table. */
  function TableStatusGroup(c: ExceptionClass): Option<nat> {
    if c in ConflictClasses then Some(CONFLICT)
    else if c in NotFoundClasses then Some(NOT_FOUND)
    else if c == Listed(Server(EntryNoContentException)) then Some(NO_CONTENT)
    else if c == Listed(Server(TooManyRequestsException)) then Some(TOO_MANY_REQUESTS)
    else if c == Listed(Server(AuthorizationException)) then Some(UNAUTHORIZED)
    else if c == Listed(Server(PermissionException)) then Some(FORBIDDEN)
    else if c in TableBadRequestClasses then Some(BAD_REQUEST)
    else if c == Listed(Server(ReadOnlyException)) then Some(SERVICE_UNAVAILABLE)
    else if c in TableInternalErrorClasses then Some(INTERNAL_SERVER_ERROR)
    else None
  }

  /** Each entry put in the table has the status of its class's group. */
  lemma EntryStatuses()
    ensures forall i | 0 <= i < |HandlerEntries| ::
              TableStatusGroup(HandlerEntries[i].0) == Some(HandlerStatus(HandlerEntries[i].1))
  {
  }

  /** A class in the table belongs to a group, and its handler has the group's status. */
  lemma TableClassesAreGrouped(c: ExceptionClass)
    requires c in ExceptionHandlers()
    ensures TableStatusGroup(c).Some?
    ensures HandlerStatus(ExceptionHandlers()[c]) == TableStatusGroup(c).value
  {
    EntryStatuses();
    var i :| 0 <= i < |HandlerEntries| && HandlerEntries[i].0 == c;
  }

  /** Every class of a group is in the table. */
  lemma GroupedClassesAreInTable(c: ExceptionClass)
    requires TableStatusGroup(c).Some?
    ensures c in ExceptionHandlers()
  {
    var cause := Cause(c, None, None);
    if c in ConflictClasses {
      ConflictResponses(cause);
    } else if c in NotFoundClasses {
      NotFoundResponses(cause);
    } else if c == Listed(Server(EntryNoContentException)) {
      EntryNoContentResponse(cause);
    } else if c == Listed(Server(TooManyRequestsException)) {
      TooManyRequestsResponse(cause);
    } else if c in TableBadRequestClasses || c == Listed(Server(AuthorizationException)) || c == Listed(Server(PermissionException)) {
      ClientErrorResponses(cause);
    } else {
      ServerErrorResponses(cause);
    }
  }

  /** The table holds exactly the grouped classes, each with its group's status. */
  lemma TableMatchesStatusGroups(c: ExceptionClass)
    ensures c in ExceptionHandlers() <==> TableStatusGroup(c).Some?
    ensures c in ExceptionHandlers() ==> HandlerStatus(ExceptionHandlers()[c]) == TableStatusGroup(c).value
  {
    if c in ExceptionHandlers() {
      TableClassesAreGrouped(c);
    } else if TableStatusGroup(c).Some? {
      GroupedClassesAreInTable(c);
    }
  }

  /** The status of a response: the group status for a table class, else the fallback's. */
  lemma RespondedStatus(cause: Cause)
    requires Handle(cause).Respond?
    ensures cause.cls in ExceptionHandlers() <==> TableStatusGroup(cause.cls).Some?
    ensures Handle(cause).response.status ==
            if cause.cls in ExceptionHandlers() then TableStatusGroup(cause.cls).value
            else if InstanceOf(cause.cls, IllegalArgumentException) then BAD_REQUEST
            else if InstanceOf(cause.cls, Server(RequestAlreadyTimedOutException)) then SERVICE_UNAVAILABLE
            else INTERNAL_SERVER_ERROR
  {
    TableMatchesStatusGroups(cause.cls);
  }

  /** The statuses only the table gives, for a status given in closed form. */
  lemma TableOnlyStatusOrigins(c: ExceptionClass, s: nat, inTable: bool)
    requires inTable <==> TableStatusGroup(c).Some?
    requires s == if inTable then TableStatusGroup(c).value
                  else if InstanceOf(c, IllegalArgumentException) then BAD_REQUEST
                  else if InstanceOf(c, Server(RequestAlreadyTimedOutException)) then SERVICE_UNAVAILABLE
                  else INTERNAL_SERVER_ERROR
    ensures && (s == CONFLICT <==> c in ConflictClasses)
            && (s == NOT_FOUND <==> c in NotFoundClasses)
            && (s == NO_CONTENT <==> c == Listed(Server(EntryNoContentException)))
            && (s == TOO_MANY_REQUESTS <==> c == Listed(Server(TooManyRequestsException)))
            && (s == UNAUTHORIZED <==> c == Listed(Server(AuthorizationException)))
            && (s == FORBIDDEN <==> c == Listed(Server(PermissionException)))
  {
  }

  /** The statuses both the table and a fallback give, for a status given in closed form. */
  lemma SharedStatusOrigins(c: ExceptionClass, s: nat, inTable: bool)
    requires inTable <==> TableStatusGroup(c).Some?
    requires s == if inTable then TableStatusGroup(c).value
                  else if InstanceOf(c, IllegalArgumentException) then BAD_REQUEST
                  else if InstanceOf(c, Server(RequestAlreadyTimedOutException)) then SERVICE_UNAVAILABLE
                  else INTERNAL_SERVER_ERROR
    ensures && (s == BAD_REQUEST <==>
                  c in TableBadRequestClasses ||
                  (!inTable && InstanceOf(c, IllegalArgumentException)))
            && (s == SERVICE_UNAVAILABLE <==>
                  c == Listed(Server(ReadOnlyException)) ||
                  (!inTable && !InstanceOf(c, IllegalArgumentException) &&
                   InstanceOf(c, Server(RequestAlreadyTimedOutException))))
            && (s == INTERNAL_SERVER_ERROR <==>
                  c in TableInternalErrorClasses ||
                  (!inTable && !InstanceOf(c, IllegalArgumentException) &&
                   !InstanceOf(c, Server(RequestAlreadyTimedOutException))))
  {
  }

  /**
   * Where each status can come from: 409, 404, 204, 429, 401 and 403 only
   * from their table classes; 400, 503 and 500 from their table classes or
   * from the matching fallback for a class the table does not list.
   */
  lemma StatusOrigins(cause: Cause)
    requires Handle(cause).Respond?
    ensures var s, c := Handle(cause).response.status, cause.cls;
            && (s == CONFLICT <==> c in ConflictClasses)
            && (s == NOT_FOUND <==> c in NotFoundClasses)
            && (s == NO_CONTENT <==> c == Listed(Server(EntryNoContentException)))
            && (s == TOO_MANY_REQUESTS <==> c == Listed(Server(TooManyRequestsException)))
            && (s == UNAUTHORIZED <==> c == Listed(Server(AuthorizationException)))
            && (s == FORBIDDEN <==> c == Listed(Server(PermissionException)))
            && (s == BAD_REQUEST <==>
                  c in TableBadRequestClasses ||
                  (c !in ExceptionHandlers() && InstanceOf(c, IllegalArgumentException)))
            && (s == SERVICE_UNAVAILABLE <==>
                  c == Listed(Server(ReadOnlyException)) ||
                  (c !in ExceptionHandlers() && !InstanceOf(c, IllegalArgumentException) &&
                   InstanceOf(c, Server(RequestAlreadyTimedOutException))))
            && (s == INTERNAL_SERVER_ERROR <==>
                  c in TableInternalErrorClasses ||
                  (c !in ExceptionHandlers() && !InstanceOf(c, IllegalArgumentException) &&
                   !InstanceOf(c, Server(RequestAlreadyTimedOutException))))
  {
    RespondedStatus(cause);
    var s, c := Handle(cause).response.status, cause.cls;
    TableOnlyStatusOrigins(c, s, c in ExceptionHandlers());
    SharedStatusOrigins(c, s, c in ExceptionHandlers());
  }

  /**
   * Every `RequestAlreadyTimedOutException`, application subclasses
   * included, gives 503 SERVICE UNAVAILABLE and turns reporting off: no
   * earlier rule can catch it.
   */
  lemma TimedOutGivesServiceUnavailable(cause: Cause)
    requires InstanceOf(cause.cls, Server(RequestAlreadyTimedOutException))
    ensures Handle(cause) == Respond(Response(SERVICE_UNAVAILABLE, FromCause))
    ensures SilencesReporting(RouteOf(cause.cls))
  {
    ServerExceptionsAreCentralDogmaExceptions(cause.cls, RequestAlreadyTimedOutException);
    SiblingsAreDisjoint(cause.cls, CentralDogmaException, IllegalArgumentException);
    SiblingsAreDisjoint(cause.cls, CentralDogmaException, HttpStatusException);
    SiblingsAreDisjoint(cause.cls, CentralDogmaException, HttpResponseException);
    TableKeys();
  }
}
