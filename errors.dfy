/** `GlobalExceptionHandler`: the mapping from an exception thrown by a controller
    to the HTTP status and `ErrorResponse` body sent back.

    Each handler is declared for one exception class. For a thrown exception the
    framework picks the handler whose class is the closest ancestor of the thrown
    class, so a handler for a subclass wins over the generic `Exception` handler. */
module Errors {
  import opened Common

  /** `ErrorResponse(message, error, status, timestamp)`; the three-argument
      constructor the handlers call stamps the current time. */
  datatype ErrorResponse = ErrorResponse(message: string, error: string, status: int, timestamp: int)

  /** A `ResponseEntity<ErrorResponse>`: the HTTP status and the body. */
  datatype Response = Response(status: int, body: ErrorResponse)

  /** The exception classes involved, by their place in the Java hierarchy. */
  datatype ExcClass =
    | ExceptionClass
    | RuntimeExceptionClass
    | IllegalArgumentClass
    | AuthenticationClass          // spring security's AuthenticationException
    | UsernameNotFoundClass
    | BadCredentialsClass
    | AccessDeniedClass
    | DataAccessClass              // spring's DataAccessException
    | DataIntegrityViolationClass
    | JwtClass                     // the signing library's JwtException

  /** The class of a thrown exception. */
  function ClassOf(e: Exc): ExcClass
  {
    match e
    case UsernameNotFound(_) => UsernameNotFoundClass
    case BadCredentials(_) => BadCredentialsClass
    case IllegalArgument(_) => IllegalArgumentClass
    case AccessDenied(_) => AccessDeniedClass
    case Runtime(_) => RuntimeExceptionClass
    case DataIntegrityViolation(_) => DataIntegrityViolationClass
    case JwtFailure(_) => JwtClass
  }

  /** The direct superclass; `Exception` is the root of the classes modelled. */
  function Parent(c: ExcClass): Option<ExcClass>
  {
    match c
    case ExceptionClass => None
    case RuntimeExceptionClass => Some(ExceptionClass)
    case IllegalArgumentClass => Some(RuntimeExceptionClass)
    case AuthenticationClass => Some(RuntimeExceptionClass)
    case UsernameNotFoundClass => Some(AuthenticationClass)
    case BadCredentialsClass => Some(AuthenticationClass)
    case AccessDeniedClass => Some(RuntimeExceptionClass)
    case DataAccessClass => Some(RuntimeExceptionClass)
    case DataIntegrityViolationClass => Some(DataAccessClass)
    case JwtClass => Some(RuntimeExceptionClass)
  }

  /** The number of superclasses between `c` and `Exception`. */
  function Level(c: ExcClass): nat
  {
    match c
    case ExceptionClass => 0
    case RuntimeExceptionClass => 1
    case UsernameNotFoundClass | BadCredentialsClass | DataIntegrityViolationClass => 3
    case _ => 2
  }

  /** A class followed by its superclasses, nearest first, up to `Exception`. */
  function Ancestry(c: ExcClass): (r: seq<ExcClass>)
    decreases Level(c)
    ensures |r| > 0 && r[0] == c && r[|r| - 1] == ExceptionClass
  {
    match Parent(c)
    case None => [c]
    case Some(p) => [c] + Ancestry(p)
  }

  /** One `@ExceptionHandler` method: its class, the fixed `message` and the status. */
  datatype Handler = Handler(handles: ExcClass, message: string, status: int)

  /** The handler method declared for exactly class `c`, if any. */
  function Declared(c: ExcClass): (h: Option<Handler>)
    ensures h.Some? ==> h.value.handles == c
  {
    match c
    case UsernameNotFoundClass => Some(Handler(UsernameNotFoundClass, "Usuario no encontrado", 404))
    case BadCredentialsClass => Some(Handler(BadCredentialsClass, "Credenciales inválidas", 401))
    case ExceptionClass => Some(Handler(ExceptionClass, "Error inesperado", 500))
    case IllegalArgumentClass => Some(Handler(IllegalArgumentClass, "ERROR", 400))
    case _ => None
  }

  /** The handler chosen for an exception of class `c`: its own declared handler,
      or else the one chosen for its superclass. */
  function Nearest(c: ExcClass): Handler
    decreases Level(c)
  {
    match Declared(c)
    case Some(h) => h
    case None => Nearest(Parent(c).value)
  }

  /** The chosen handler is the one declared for the nearest class in the ancestry
      that has one: every class closer to `c` has none. One always exists, since
      every class descends from `Exception`, which has a handler. */
  lemma {:induction false} NearestIsClosestDeclared(c: ExcClass)
    decreases Level(c)
    ensures exists d | 0 <= d < |Ancestry(c)| ::
      Declared(Ancestry(c)[d]) == Some(Nearest(c)) && forall d' | 0 <= d' < d :: Declared(Ancestry(c)[d']).None?
  {
    if Declared(c).Some? {
      assert Declared(Ancestry(c)[0]) == Some(Nearest(c));
    } else {
      var p := Parent(c).value;
      NearestIsClosestDeclared(p);
      var d :| 0 <= d < |Ancestry(p)| &&
        Declared(Ancestry(p)[d]) == Some(Nearest(p)) && forall d' | 0 <= d' < d :: Declared(Ancestry(p)[d']).None?;
      assert Ancestry(c) == [c] + Ancestry(p);
      assert Declared(Ancestry(c)[d + 1]) == Some(Nearest(c));
    }
  }

  /** The response for a thrown exception: the chosen handler's message and status,
      with the exception's own message as `error`; the body's `status` always equals
      the response's. A subclass handler takes precedence over the generic one, so an
      `IllegalArgumentException` (a duplicate username at registration among them) is
      a 400, not a 500; the services' `AccessDeniedException` and plain
      `RuntimeException` fall to the generic 500. The body is stamped with the time
      `nowMs` at which it is built. */
  function Handle(e: Exc, nowMs: int): (r: Response)
    ensures r.body.status == r.status
    ensures r.body.error == e.msg && r.body.timestamp == nowMs
    ensures e.UsernameNotFound? ==> r.status == 404 && r.body.message == "Usuario no encontrado"
    ensures e.BadCredentials? ==> r.status == 401 && r.body.message == "Credenciales inválidas"
    ensures e.IllegalArgument? ==> r.status == 400 && r.body.message == "ERROR"
    ensures (e.AccessDenied? || e.Runtime? || e.DataIntegrityViolation? || e.JwtFailure?) ==>
      r.status == 500 && r.body.message == "Error inesperado"
  {
    var h := Nearest(ClassOf(e));
    Response(h.status, ErrorResponse(h.message, e.msg, h.status, nowMs))
  }
}
