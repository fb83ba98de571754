# Central Dogma HTTP API error classification

This project models how the Central Dogma server turns an exception raised
while serving an HTTP API request into an HTTP outcome. Two handlers are
modelled:

* `HttpApiExceptionHandler` is the default server error handler. It defers
  Armeria's own HTTP exceptions by returning `null`. Next it looks up a
  table keyed on the exception's exact runtime class. Then it applies two
  `instanceof` fallbacks: `IllegalArgumentException` gives 400, and
  `RequestAlreadyTimedOutException` gives 503. Anything else gives 500.
  On the table branch and on both fallbacks it turns off the request
  context's reporting of unlogged exceptions.
* `BadRequestHandler` is the version 1 handler for bad arguments. It
  answers every `IllegalArgumentException` with 400 BAD REQUEST, carrying
  the exception's message when there is one. Every other exception falls
  through.

The project has four files:

* `exceptions.dfy` holds the exception classes. A `Listed` class is one the
  handlers name, and its superclass is fixed. A `Subclass` is an
  application class extending some other class; no handler names it.
  `instanceof` is reachability along the superclass chain. An exact-class
  lookup (`getClass()`) is equality of class values.
* `responses.dfy` holds the HTTP statuses, the message templates and the
  three outcomes: defer (`null`), respond, and fall through.
* `http_api_exception_handler.dfy` holds the handler table, `Build`,
  `Handle` and `OnServiceException`:
  * The table is the builder's `put` calls in order. `Build` models Guava's
    `ImmutableMap.Builder.build()`, which rejects a duplicate key.
  * `Handle` is the pure precedence chain.
  * `OnServiceException` is the imperative method. It updates a one-field
    `ServiceRequestContext`.
* `bad_request_handler.dfy` holds the version 1 handler.

## Model

| member | source | states |
|---|---|---|
| Exceptions.InstanceOf | server/src/main/java/com/linecorp/centraldogma/server/internal/api/HttpApiExceptionHandler.java:130-148 | `x instanceof C`: every class is an instance of itself, and of no class deeper in the hierarchy than itself; `InstanceOfIffAncestor` characterises it fully |
| Exceptions.InstanceOfIffAncestor | server/src/main/java/com/linecorp/centraldogma/server/internal/api/HttpApiExceptionHandler.java:130-131 | `instanceof` holds exactly for the classes on the exception's superclass chain |
| Exceptions.EveryClassIsThrowable | server/src/main/java/com/linecorp/centraldogma/server/internal/api/HttpApiExceptionHandler.java:127 | every exception class is a `Throwable`, and its superclass chain ends at `Throwable` |
| Exceptions.SiblingsAreDisjoint | server/src/main/java/com/linecorp/centraldogma/server/internal/api/HttpApiExceptionHandler.java:130-146 | single inheritance: nothing is an instance of two different classes with the same superclass, so an `IllegalArgumentException` is never one of the HTTP exceptions |
| HttpApiExceptionHandler.Build | server/src/main/java/com/linecorp/centraldogma/server/internal/api/HttpApiExceptionHandler.java:67-123 | the builder yields a map exactly when no key is put twice; the map's keys are the keys that were put, and each maps to the value put with it |
| HttpApiExceptionHandler.ExceptionHandlers | server/src/main/java/com/linecorp/centraldogma/server/internal/api/HttpApiExceptionHandler.java:63-123 | the 19 puts of the static initializer build without a duplicate key; the table maps each class put to its own handler and has no other keys |
| HttpApiExceptionHandler.RouteOf | server/src/main/java/com/linecorp/centraldogma/server/internal/api/HttpApiExceptionHandler.java:130-153 | the precedence chain: each branch is taken exactly when its own test holds and every earlier test fails; the table branch uses the handler put for the exact class |
| HttpApiExceptionHandler.Apply | server/src/main/java/com/linecorp/centraldogma/server/internal/api/HttpApiExceptionHandler.java:70-121 | a table handler answers with its own status; the body is empty exactly for the bare handler, built from the exception exactly for the plain handlers, and a template names the message exactly when the source passes `cause.getMessage()` |
| HttpApiExceptionHandler.Handle | server/src/main/java/com/linecorp/centraldogma/server/internal/api/HttpApiExceptionHandler.java:127-154 | the default handler never falls through, and it defers (returns `null`) exactly for instances of `HttpStatusException` or `HttpResponseException`, subclasses included |
| HttpApiExceptionHandler.OnServiceException | server/src/main/java/com/linecorp/centraldogma/server/internal/api/HttpApiExceptionHandler.java:127-154 | the method returns the outcome of the precedence chain; it sets the reporting flag to false on the table, 400 and 503 branches, and leaves it as it was on the defer and 500 branches |
| HttpApiExceptionHandler.ServiceRequestContext.SetShouldReportUnloggedExceptions | server/src/main/java/com/linecorp/centraldogma/server/internal/api/HttpApiExceptionHandler.java:139 | the context's reporting flag takes the given value |
| HttpApiExceptionHandler.TableKeys | server/src/main/java/com/linecorp/centraldogma/server/internal/api/HttpApiExceptionHandler.java:70-151 | every table key is a listed class that is neither an HTTP exception, nor an `IllegalArgumentException`, nor a `RequestAlreadyTimedOutException` |
| HttpApiExceptionHandler.TableEntryRoutes | server/src/main/java/com/linecorp/centraldogma/server/internal/api/HttpApiExceptionHandler.java:130-141 | an exception whose exact class was put with a handler is answered by that handler |
| HttpApiExceptionHandler.ConflictResponses | server/src/main/java/com/linecorp/centraldogma/server/internal/api/HttpApiExceptionHandler.java:70-89 | conflicting changes, redundant changes and existing projects or repositories give 409 through the table, each with its own message template; the two "exists" templates name the exception's message |
| HttpApiExceptionHandler.NotFoundResponses | server/src/main/java/com/linecorp/centraldogma/server/internal/api/HttpApiExceptionHandler.java:73-100 | missing entries, projects, repositories, revisions and tokens give 404 through the table, each with its own template naming the exception's message |
| HttpApiExceptionHandler.EntryNoContentResponse | server/src/main/java/com/linecorp/centraldogma/server/internal/api/HttpApiExceptionHandler.java:76-77 | an entry without content gives a bare 204 with no body, through the table |
| HttpApiExceptionHandler.TooManyRequestsResponse | server/src/main/java/com/linecorp/centraldogma/server/internal/api/HttpApiExceptionHandler.java:105-111 | too many requests give 429, and the message names the request type, or "requests" when there is none, followed by the exception's message |
| HttpApiExceptionHandler.ClientErrorResponses | server/src/main/java/com/linecorp/centraldogma/server/internal/api/HttpApiExceptionHandler.java:101-121 | query execution, unsupported operation and invalid push give 400; authorization gives 401; permission gives 403; all through the table, with a body built from the exception |
| HttpApiExceptionHandler.ServerErrorResponses | server/src/main/java/com/linecorp/centraldogma/server/internal/api/HttpApiExceptionHandler.java:90-117 | read-only gives 503; repository metadata and mirror failures give 500; all through the table, with a body built from the exception |
| HttpApiExceptionHandler.FallbackResponses | server/src/main/java/com/linecorp/centraldogma/server/internal/api/HttpApiExceptionHandler.java:143-153 | an exception the table does not list and that is not an HTTP exception gets 400 if it is an `IllegalArgumentException`, else 503 if it is a `RequestAlreadyTimedOutException`, else 500; only the 500 leaves reporting on |
| Exceptions.ServerExceptionsAreCentralDogmaExceptions | server/src/main/java/com/linecorp/centraldogma/server/internal/api/HttpApiExceptionHandler.java:148 | every instance of a server exception, application subclasses included, is a `CentralDogmaException` |
| HttpApiExceptionHandler.TimedOutGivesServiceUnavailable | server/src/main/java/com/linecorp/centraldogma/server/internal/api/HttpApiExceptionHandler.java:148-150 | every `RequestAlreadyTimedOutException`, application subclasses included, gives 503 with a body built from the exception and turns reporting off |
| HttpApiExceptionHandler.SubclassesSkipTable | server/src/main/java/com/linecorp/centraldogma/server/internal/api/HttpApiExceptionHandler.java:136-153 | the lookup uses the exact class: a subclass of a listed class never matches the table, and its status follows from the `instanceof` checks on its superclass |
| HttpApiExceptionHandler.ChangeConflictSubclassIsInternalError | server/src/main/java/com/linecorp/centraldogma/server/internal/api/HttpApiExceptionHandler.java:136-153 | for example, a subclass of `ChangeConflictException` gives 500 rather than the table's 409, and does not turn reporting off |
| HttpApiExceptionHandler.ReportingFlagBranches | server/src/main/java/com/linecorp/centraldogma/server/internal/api/HttpApiExceptionHandler.java:130-153 | reporting is turned off exactly when the exception is not an HTTP exception and is in the table or is an instance of either fallback class; it is left alone exactly on the defer path and on the 500 fallback |
| HttpApiExceptionHandler.EntryStatuses | server/src/main/java/com/linecorp/centraldogma/server/internal/api/HttpApiExceptionHandler.java:70-121 | each entry put has the status of its class's status group |
| HttpApiExceptionHandler.TableClassesAreGrouped | server/src/main/java/com/linecorp/centraldogma/server/internal/api/HttpApiExceptionHandler.java:70-123 | every table class is in a status group, and its handler answers with that group's status |
| HttpApiExceptionHandler.GroupedClassesAreInTable | server/src/main/java/com/linecorp/centraldogma/server/internal/api/HttpApiExceptionHandler.java:70-123 | every class of a status group is in the table |
| HttpApiExceptionHandler.TableMatchesStatusGroups | server/src/main/java/com/linecorp/centraldogma/server/internal/api/HttpApiExceptionHandler.java:70-123 | the table holds exactly the classes of the status groups, each with its group's status |
| HttpApiExceptionHandler.RespondedStatus | server/src/main/java/com/linecorp/centraldogma/server/internal/api/HttpApiExceptionHandler.java:136-153 | the status of every response in closed form: the status group for a table class, else 400, 503 or 500 by the `instanceof` checks |
| HttpApiExceptionHandler.TableOnlyStatusOrigins | server/src/main/java/com/linecorp/centraldogma/server/internal/api/HttpApiExceptionHandler.java:70-153 | given the status in closed form, each of 409, 404, 204, 429, 401 and 403 arises exactly for its own table classes |
| HttpApiExceptionHandler.SharedStatusOrigins | server/src/main/java/com/linecorp/centraldogma/server/internal/api/HttpApiExceptionHandler.java:90-153 | given the status in closed form, each of 400, 503 and 500 arises exactly for its table classes or for the matching fallback on a class outside the table |
| HttpApiExceptionHandler.StatusOrigins | server/src/main/java/com/linecorp/centraldogma/server/internal/api/HttpApiExceptionHandler.java:70-153 | for every response of the default handler, each status comes only from its table classes or, for 400, 503 and 500, from the matching `instanceof` fallback |
| BadRequestHandler.HandleException | server/src/main/java/com/linecorp/centraldogma/server/internal/api/BadRequestHandler.java:33-42 | the version 1 handler responds exactly for `IllegalArgumentException` and its subclasses, always with 400; the body is the message when there is one and empty otherwise; every other exception falls through, and the handler never defers |
| BadRequestHandler.AgreesWithDefaultHandler | server/src/main/java/com/linecorp/centraldogma/server/internal/api/BadRequestHandler.java:34-40 | on any `IllegalArgumentException` the version 1 handler and the default handler agree on 400, and the default handler turns reporting off |
| BadRequestHandler.FallthroughLeavesOtherStatuses | server/src/main/java/com/linecorp/centraldogma/server/internal/api/BadRequestHandler.java:42 | where the version 1 handler falls through, the default handler gives 400 only for its 400 table classes |

## Left out

- Unwrapping with `Exceptions.peel`: this is Armeria code that is not part of this model. `OnServiceException` takes the exception already peeled.
- Body rendering: `HttpApiUtil.newResponse`, `HttpApiV1Util.newResponseWithErrorMessage` and the `%s` formatting are not part of this model. A body is a tag: no body, built from the exception, a message template with its arguments, or an error message.
- Armeria wiring: the `ServerErrorHandler` and `ExceptionHandlerFunction` interfaces, what a `null` return means, and how `fallthrough()` passes the exception on to the next handler are not part of this model. The model stops at the outcome value.
- The class hierarchy: the JDK, Armeria and Central Dogma exception sources are not part of this model. The superclass of each listed class is an assumption. The server's own exceptions extend `CentralDogmaException`; it and the JDK and Armeria classes extend `RuntimeException`. The results rest on these facts: no table class is an HTTP exception, `IllegalArgumentException` or `RequestAlreadyTimedOutException`; `IllegalArgumentException`, `HttpStatusException`, `HttpResponseException` and `CentralDogmaException` are siblings; and `RequestAlreadyTimedOutException` is a `CentralDogmaException`, so that no earlier rule catches it.
- `HttpApiExceptionHandler.ServiceRequestContext`: only the `shouldReportUnloggedExceptions` flag is modelled. Logging and the rest of the request context are not part of this model.
- `HttpApiExceptionHandler.OnServiceException`: the table's handlers and `newResponse` receive the request context, and their code is not part of this model. The flag results assume that they never change `shouldReportUnloggedExceptions`.
- `BadRequestHandler.FallthroughLeavesOtherStatuses`: the version 1 handler sees the raw exception, while the default handler peels it first. This lemma and `BadRequestHandler.AgreesWithDefaultHandler` compare the two handlers on an exception that `Exceptions.peel` leaves unchanged. A wrapper around an `IllegalArgumentException` falls through the version 1 handler and then gets 400 from the default handler's fallback, which these lemmas do not cover.
- `TooManyRequestsException.type()`: its value is an `Object` in the source, modelled here as an optional string.
- `HttpApiExceptionHandler.Handle`: its own contract states only the defer and never-fall-through facts. The statuses and bodies are stated by the lemmas that follow it.
- `CentralDogmaConfig.convertValue` and its test: the implementation is not part of this model, and its behaviour depends on process environment variables.
- The commit pipeline, the replicated log, server availability and mirroring: their code is not part of this model.
