/** Values shared by every part of the complaints backend model: optional values,
    the exception classes the services throw, results, roles and record states. */
module Common {

  datatype Option<T> = None | Some(value: T)

  /** The Java exception classes the modelled code throws or lets escape.
      Each carries its message text. */
  datatype Exc =
    | UsernameNotFound(msg: string)        // org.springframework.security...UsernameNotFoundException
    | BadCredentials(msg: string)          // org.springframework.security...BadCredentialsException
    | IllegalArgument(msg: string)         // java.lang.IllegalArgumentException
    | AccessDenied(msg: string)            // org.springframework.security.access.AccessDeniedException
    | Runtime(msg: string)                 // plain java.lang.RuntimeException
    | DataIntegrityViolation(msg: string)  // a unique-column clash reported by the store on save
    | JwtFailure(msg: string)              // a parse/signature/expiry failure of the JWS library

  /** What a Java method returns, or the exception it throws. */
  datatype Result<T> = Ok(value: T) | Err(exc: Exc)

  /** The `Rol` enum. */
  datatype Rol = ADMIN | USER | MODERATOR

  /** `Rol.name()`: the enum constant's name. */
  function RolName(r: Rol): string
  {
    match r
    case ADMIN => "ADMIN"
    case USER => "USER"
    case MODERATOR => "MODERATOR"
  }

  /** The `Estado` enum shared by complaints and requests. */
  datatype Estado = PENDIENTE | EN_PROCESO | EN_REVISION | RESUELTO | ARCHIVADO | RECHAZADO

  /** `String.startsWith`: a case-sensitive prefix test. */
  predicate StartsWith(s: string, prefix: string)
  {
    |prefix| <= |s| && s[..|prefix|] == prefix
  }

  /** `String.includes` / `String.contains`: `sub` occurs somewhere in `s`. */
  predicate Contains(s: string, sub: string)
    decreases |s|
  {
    StartsWith(s, sub) || (|s| > 0 && Contains(s[1..], sub))
  }

  /** `Long.toString` of a non-negative number: its decimal digits. */
  function Decimal(n: nat): string
  {
    if n < 10 then ["0123456789"[n]] else Decimal(n / 10) + ["0123456789"[n % 10]]
  }

  /** The index of the first element satisfying `p`, if any: the shape of every
      derived `findBy...` query of the repositories over a table kept in insertion order. */
  function FindFirst<T>(s: seq<T>, p: T -> bool): (r: Option<nat>)
    ensures r.Some? ==> r.value < |s| && p(s[r.value])
    ensures r.Some? ==> forall j | 0 <= j < r.value :: !p(s[j])
    ensures r.None? ==> forall j | 0 <= j < |s| :: !p(s[j])
  {
    if |s| == 0 then None
    else if p(s[0]) then Some(0)
    else match FindFirst(s[1..], p)
      case None => None
      case Some(k) => Some(k + 1)
  }

  /** The first element satisfying `p`, if any: a derived `findBy...` query that
      returns the entity itself. */
  function FindWhere<T>(s: seq<T>, p: T -> bool): (r: Option<T>)
    ensures r.Some? ==> r.value in s && p(r.value)
    ensures r.None? ==> forall j | 0 <= j < |s| :: !p(s[j])
  {
    match FindFirst(s, p)
    case None => None
    case Some(k) => Some(s[k])
  }

  /** The elements of `s` satisfying `p`, in order, each as often as in `s`: a
      derived `findAllBy...` query. */
  function Filter<T(!new)>(s: seq<T>, p: T -> bool): (r: seq<T>)
    ensures forall x :: x in r <==> x in s && p(x)
    ensures forall x :: multiset(r)[x] == if p(x) then multiset(s)[x] else 0
    ensures |r| <= |s|
  {
    if |s| == 0 then []
    else
      assert s == [s[0]] + s[1..];
      (if p(s[0]) then [s[0]] else []) + Filter(s[1..], p)
  }

  /** When exactly one element satisfies `p`, the search finds that one. */
  lemma {:induction false} FindFirstIsUnique<T>(s: seq<T>, p: T -> bool, i: nat)
    requires i < |s| && p(s[i])
    requires forall j | 0 <= j < |s| && j != i :: !p(s[j])
    ensures FindFirst(s, p) == Some(i)
  {
  }
}
