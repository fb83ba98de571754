/** The conventional Some/None datatype, standing in for a Java reference that may be null. */
module Wrappers {
  datatype Option<+T> = None | Some(value: T)
}

/**
 * Java exception classes as the HTTP API error handlers see them.
 *
 * A class is either one of the library classes the handlers name
 * (`Listed`), whose superclass is fixed, or an application class that
 * extends some other class (`Subclass`) and that no handler names.
 * `x instanceof C` is reachability of `C` along the superclass relation;
 * `x.getClass()` is the class value itself, so an exact-class lookup is
 * equality of class values.
 */
module Exceptions {
  import opened Wrappers

  /** The classes named by the two handlers, and the ancestors they share. */
  datatype ClassName =
    | Throwable
    | Exception
    | RuntimeException
    | IllegalArgumentException
    | UnsupportedOperationException
    | HttpStatusException
    | HttpResponseException
    | CentralDogmaException
    | Server(exception: ServerException)

  /** The server's own exception classes that the handlers name. */
  datatype ServerException =
    | AuthorizationException
    | ChangeConflictException
    | EntryNoContentException
    | EntryNotFoundException
    | InvalidPushException
    | MirrorException
    | PermissionException
    | ProjectExistsException
    | ProjectNotFoundException
    | QueryExecutionException
    | ReadOnlyException
    | RedundantChangeException
    | RepositoryExistsException
    | RepositoryMetadataException
    | RepositoryNotFoundException
    | RevisionNotFoundException
    | RequestAlreadyTimedOutException
    | TokenNotFoundException
    | TooManyRequestsException

  /**
   * The direct superclass of a listed class. `Throwable` is the root; the
   * JDK and Armeria classes extend `RuntimeException`, and the server's
   * own exceptions are taken to extend `CentralDogmaException`.
   */
  function Superclass(n: ClassName): (r: Option<ClassName>)
    ensures r.Some? ==> Depth(r.value) < Depth(n)
  {
    match n
    case Throwable => None
    case Exception => Some(Throwable)
    case RuntimeException => Some(Exception)
    case IllegalArgumentException => Some(RuntimeException)
    case UnsupportedOperationException => Some(RuntimeException)
    case HttpStatusException => Some(RuntimeException)
    case HttpResponseException => Some(RuntimeException)
    case CentralDogmaException => Some(RuntimeException)
    case Server(_) => Some(CentralDogmaException)
  }

  /** The number of proper ancestors of a listed class. */
  function Depth(n: ClassName): nat {
    match n
    case Throwable => 0
    case Exception => 1
    case RuntimeException => 2
    case IllegalArgumentException => 3
    case UnsupportedOperationException => 3
    case HttpStatusException => 3
    case HttpResponseException => 3
    case CentralDogmaException => 3
    case Server(_) => 4
  }

  /** A runtime class: a listed library class, or an application class extending `superclass`. */
  datatype ExceptionClass =
    | Listed(name: ClassName)
    | Subclass(id: nat, superclass: ExceptionClass)

  /** The length of the superclass chain above `c`, the termination measure of `InstanceOf`. */
  function Height(c: ExceptionClass): nat {
    match c
    case Listed(n) => Depth(n)
    case Subclass(_, s) => Height(s) + 1
  }

  /** `x instanceof n` for an object `x` whose runtime class is `c`. */
  predicate InstanceOf(c: ExceptionClass, n: ClassName)
    ensures c.Listed? && c.name == n ==> InstanceOf(c, n)
    ensures InstanceOf(c, n) ==> Depth(n) <= Height(c)
    decreases Height(c)
  {
    match c
    case Listed(m) =>
      m == n || (Superclass(m).Some? && InstanceOf(Listed(Superclass(m).value), n))
    case Subclass(_, s) => InstanceOf(s, n)
  }

  /** The names of the listed classes on the superclass chain of `c`, nearest first, `c` included. */
  function Ancestors(c: ExceptionClass): (a: seq<ClassName>)
    ensures |a| > 0
    ensures c.Listed? ==> a[0] == c.name
    decreases Height(c)
  {
    match c
    case Listed(m) =>
      [m] + (if Superclass(m).Some? then Ancestors(Listed(Superclass(m).value)) else [])
    case Subclass(_, s) => Ancestors(s)
  }

  /** `instanceof` holds exactly for the listed classes on the superclass chain. */
  lemma {:induction false} InstanceOfIffAncestor(c: ExceptionClass, n: ClassName)
    ensures InstanceOf(c, n) <==> n in Ancestors(c)
    decreases Height(c)
  {
    match c
    case Listed(m) =>
      if Superclass(m).Some? {
        InstanceOfIffAncestor(Listed(Superclass(m).value), n);
      }
    case Subclass(_, s) =>
      InstanceOfIffAncestor(s, n);
  }

  /** Every exception class is a `Throwable`, and the chain ends there. */
  lemma {:induction false} EveryClassIsThrowable(c: ExceptionClass)
    ensures InstanceOf(c, Throwable)
    ensures Ancestors(c)[|Ancestors(c)| - 1] == Throwable
    decreases Height(c)
  {
    match c
    case Listed(m) =>
      if Superclass(m).Some? {
        EveryClassIsThrowable(Listed(Superclass(m).value));
      }
    case Subclass(_, s) =>
      EveryClassIsThrowable(s);
  }

  /**
   * Single inheritance: no exception is an instance of two different
   * classes that extend the same superclass.
   */
  lemma {:induction false} SiblingsAreDisjoint(c: ExceptionClass, a: ClassName, b: ClassName)
    requires a != b && Superclass(a) == Superclass(b)
    ensures !(InstanceOf(c, a) && InstanceOf(c, b))
    decreases Height(c)
  {
    match c
    case Listed(m) =>
      if Superclass(m).Some? {
        SiblingsAreDisjoint(Listed(Superclass(m).value), a, b);
      }
    case Subclass(_, s) =>
      SiblingsAreDisjoint(s, a, b);
  }

  /** Every server exception, application subclasses included, is a `CentralDogmaException`. */
  lemma {:induction false} ServerExceptionsAreCentralDogmaExceptions(c: ExceptionClass, e: ServerException)
    requires InstanceOf(c, Server(e))
    ensures InstanceOf(c, CentralDogmaException)
    decreases Height(c)
  {
    match c
    case Listed(m) =>
      if m != Server(e) {
        ServerExceptionsAreCentralDogmaExceptions(Listed(Superclass(m).value), e);
      }
    case Subclass(_, s) =>
      ServerExceptionsAreCentralDogmaExceptions(s, e);
  }

  /** An exception object: its runtime class, `getMessage()` and, for `TooManyRequestsException`, `type()`. */
  datatype Cause = Cause(cls: ExceptionClass, message: Option<string>, requestType: Option<string>)
}
