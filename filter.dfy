/** `JwtFilter.doFilter`: the per-request gate that turns an `Authorization`
    header into an identity in the security context.

    The header is the bearer scheme of section 2.1 of RFC 6750, matched with a
    case-sensitive prefix test. The ledger is consulted first; only a token the
    ledger accepts has its signature checked; only then is the subject resolved
    to a user. `Decide` is that decision as a function of the request and the
    stored state; `JwtFilter.DoFilter` is the filter itself, proved against it. */
module Filter {
  import opened Common
  import opened Users
  import opened Tokens
  import opened Security
  import opened Jwt

  /** The scheme prefix the filter requires, seven characters long. */
  const Prefix: string := "Bearer "

  /** The candidate token: the header without its first seven characters, when the
      header is present and starts with the exact prefix; nothing otherwise. */
  function BearerToken(header: Option<string>): (r: Option<string>)
    ensures r.Some? <==> header.Some? && StartsWith(header.value, Prefix)
    ensures r.Some? ==> header.value == Prefix + r.value
  {
    match header
    case None => None
    case Some(h) => if StartsWith(h, Prefix) then Some(h[7..]) else None
  }

  /** A header built as the prefix followed by `t` yields exactly `t`. */
  lemma BearerHeaderRoundTrip(t: string)
    ensures BearerToken(Some(Prefix + t)) == Some(t)
  {
    assert (Prefix + t)[..|Prefix|] == Prefix;
    assert (Prefix + t)[7..] == t;
  }

  /** The ledger check: the record found for the string is neither expired nor
      revoked and its `expiresAt` is after now; an unknown string fails. */
  predicate LedgerAccepts(rows: seq<Token>, token: string, nowMs: int)
  {
    match FindByToken(rows, token)
    case None => false
    case Some(rec) => !rec.expired && !rec.revoked && nowMs < rec.expiresAt
  }

  /** With unique token strings, the ledger accepts a string exactly when some
      record holding it is unexpired, unrevoked and expires after now. */
  lemma LedgerAcceptsExactly(rows: seq<Token>, token: string, nowMs: int)
    requires UniqueTokens(rows)
    ensures LedgerAccepts(rows, token, nowMs) <==>
      exists j | 0 <= j < |rows| ::
        rows[j].token == token && !rows[j].expired && !rows[j].revoked && nowMs < rows[j].expiresAt
  {
    if j :| 0 <= j < |rows| && rows[j].token == token && !rows[j].expired && !rows[j].revoked && nowMs < rows[j].expiresAt {
      TokenLookupIsExact(rows, j);
    }
  }

  /** The authentication the filter builds around a loaded identity:
      `new UsernamePasswordAuthenticationToken(details, null, authorities)`. */
  function Attach(details: UserDetails): Authentication
  {
    Authentication(details, details.authorities, true)
  }

  /** How a request leaves the filter: passed on with the context untouched, passed
      on with an identity attached, or with an exception escaping the filter. */
  datatype Outcome =
    | Anonymous
    | Authenticated(auth: Authentication)
    | Escaped(exc: Exc)

  /** `loadUserByUsername` on the extracted subject; a missing subject (null) finds no user. */
  function LoadSubject(users: seq<Usuario>, subject: Option<string>): Result<UserDetails>
  {
    match subject
    case None => Err(UsernameNotFound("No encontrado"))
    case Some(name) => LoadUserByUsername(users, name)
  }

  /** The filter's decision, as the code is written: the token's subject is passed to
      the username lookup. */
  function Decide(header: Option<string>, tokens: seq<Token>, users: seq<Usuario>, jwt: JwtUtil, nowMs: int): (r: Outcome)
    reads jwt
    ensures BearerToken(header).None? ==> r == Anonymous
    ensures !r.Anonymous? ==>
      BearerToken(header).Some? &&
      LedgerAccepts(tokens, BearerToken(header).value, nowMs) &&
      jwt.ValidateToken(BearerToken(header).value, nowMs)
    ensures r.Authenticated? ==>
      r.auth.authenticated &&
      exists j | 0 <= j < |users| ::
        users[j].enabled &&
        jwt.ExtractUsername(BearerToken(header).value, nowMs) == Ok(Some(users[j].username)) &&
        r.auth == Attach(DetailsOf(users[j]))
    ensures r.Escaped? ==> r.exc.UsernameNotFound?
    ensures BearerToken(header).Some? && LedgerAccepts(tokens, BearerToken(header).value, nowMs) &&
            jwt.ValidateToken(BearerToken(header).value, nowMs) ==>
      !r.Anonymous? &&
      var subject := jwt.ExtractUsername(BearerToken(header).value, nowMs).value;
      (r.Escaped? <==> subject.None? || forall j | 0 <= j < |users| :: !(users[j].username == subject.value && users[j].enabled))
  {
    match BearerToken(header)
    case None => Anonymous
    case Some(token) =>
      if LedgerAccepts(tokens, token, nowMs) && jwt.ValidateToken(token, nowMs) then
        var subject := jwt.ExtractUsername(token, nowMs).value;
        match LoadSubject(users, subject)
        case Err(e) => Escaped(e)
        case Ok(details) => Authenticated(Attach(details))
      else Anonymous
  }

  /** The decision as evidently intended: the subject is a DNI, so the user is looked
      up by DNI, must be enabled, and the attached identity is that user's. */
  function DecideIntended(header: Option<string>, tokens: seq<Token>, users: seq<Usuario>, jwt: JwtUtil, nowMs: int): (r: Outcome)
    reads jwt
    ensures BearerToken(header).None? ==> r == Anonymous
    ensures !r.Anonymous? ==>
      BearerToken(header).Some? &&
      LedgerAccepts(tokens, BearerToken(header).value, nowMs) &&
      jwt.ValidateToken(BearerToken(header).value, nowMs)
    ensures r.Authenticated? ==>
      exists j | 0 <= j < |users| ::
        users[j].enabled &&
        jwt.ExtractUsername(BearerToken(header).value, nowMs) == Ok(Some(users[j].dni)) &&
        r.auth == Attach(DetailsOf(users[j]))
    ensures r.Escaped? ==> r.exc.UsernameNotFound?
    ensures BearerToken(header).Some? && LedgerAccepts(tokens, BearerToken(header).value, nowMs) &&
            jwt.ValidateToken(BearerToken(header).value, nowMs) ==>
      !r.Anonymous? &&
      var subject := jwt.ExtractUsername(BearerToken(header).value, nowMs).value;
      (r.Escaped? <==> subject.None? || FindByDni(users, subject.value).None? || !FindByDni(users, subject.value).value.enabled)
  {
    match BearerToken(header)
    case None => Anonymous
    case Some(token) =>
      if LedgerAccepts(tokens, token, nowMs) && jwt.ValidateToken(token, nowMs) then
        match jwt.ExtractUsername(token, nowMs).value
        case None => Escaped(UsernameNotFound("No encontrado"))
        case Some(dni) =>
          match FindByDni(users, dni)
          case Some(u) =>
            if u.enabled then Authenticated(Attach(DetailsOf(u))) else Escaped(UsernameNotFound("No encontrado"))
          case None => Escaped(UsernameNotFound("No encontrado"))
      else Anonymous
  }

  /** Revocation takes effect on the very next request: the ledger is read afresh,
      so a revoked token leaves the request anonymous, whatever the key or user table. */
  lemma RevokedTokenIsRejected(tokens: seq<Token>, users: seq<Usuario>, jwt: JwtUtil, s: string, nowMs: int)
    requires UniqueTokens(tokens)
    ensures Decide(Some(Prefix + s), Revoked(tokens, s), users, jwt, nowMs) == Anonymous
    ensures DecideIntended(Some(Prefix + s), Revoked(tokens, s), users, jwt, nowMs) == Anonymous
  {
    BearerHeaderRoundTrip(s);
    RevokeThenFind(tokens, s);
  }

  /** The signature is never checked for a token the ledger rejects: the outcome is
      the same under any key and any signing library. */
  lemma RejectedTokenSkipsSignature(header: Option<string>, tokens: seq<Token>, users: seq<Usuario>,
                                    jwt1: JwtUtil, jwt2: JwtUtil, nowMs: int)
    requires BearerToken(header).Some? && !LedgerAccepts(tokens, BearerToken(header).value, nowMs)
    ensures Decide(header, tokens, users, jwt1, nowMs) == Decide(header, tokens, users, jwt2, nowMs) == Anonymous
  {
  }

  /** The state the ledger holds after `login` stored `t` at `k` and nothing revoked
      or expired it: the issued token is still accepted by the ledger and by the
      signature check at `nowMs`. */
  ghost predicate LiveIssuedToken(jwt: JwtUtil, u: Usuario, issuedMs: nat, tokens: seq<Token>, k: nat, nowMs: int)
    reads jwt
  {
    jwt.Initialized() && RoundTrips(jwt.codec) && UniqueTokens(tokens) && k < |tokens| &&
    tokens[k].token == jwt.GenerateToken(u, issuedMs).token &&
    !tokens[k].revoked && !tokens[k].expired && nowMs < tokens[k].expiresAt &&
    nowMs <= ExpSeconds(issuedMs, jwt.expiration) * 1000
  }

  /** As written, an issued token authenticates only when the owner's DNI is also
      the username of some enabled user, and the identity attached is then that
      user's; when no such user exists the lookup throws out of the filter. */
  lemma {:induction false} IssuedTokenResolvesDniAsUsername(jwt: JwtUtil, u: Usuario, issuedMs: nat,
                                                          tokens: seq<Token>, k: nat, users: seq<Usuario>, nowMs: int)
    requires LiveIssuedToken(jwt, u, issuedMs, tokens, k, nowMs)
    ensures var o := Decide(Some(Prefix + tokens[k].token), tokens, users, jwt, nowMs);
      (o.Escaped? <==> forall j | 0 <= j < |users| :: !(users[j].username == u.dni && users[j].enabled)) &&
      (o.Authenticated? ==> o.auth.principal.username == u.dni) &&
      !o.Anonymous?
  {
    BearerHeaderRoundTrip(tokens[k].token);
    LedgerAcceptsExactly(tokens, tokens[k].token, nowMs);
    GeneratedTokenValidates(jwt, u, issuedMs, nowMs);
  }

  /** A user whose username differs from their DNI: with only that user stored,
      their own live token makes the filter throw instead of authenticating them. */
  lemma OwnTokenThrowsForUsernameUnlikeDni(jwt: JwtUtil, u: Usuario, issuedMs: nat, tokens: seq<Token>, k: nat, nowMs: int)
    requires LiveIssuedToken(jwt, u, issuedMs, tokens, k, nowMs)
    requires u.username != u.dni
    ensures Decide(Some(Prefix + tokens[k].token), tokens, [u], jwt, nowMs).Escaped?
  {
    IssuedTokenResolvesDniAsUsername(jwt, u, issuedMs, tokens, k, [u], nowMs);
  }

  /** Corrected: a live token of an enabled stored user authenticates exactly that
      user, with their username and role authority. */
  lemma {:induction false} IssuedTokenAuthenticatesOwner(jwt: JwtUtil, u: Usuario, issuedMs: nat,
                                                       tokens: seq<Token>, k: nat, users: seq<Usuario>, i: nat, nowMs: int)
    requires LiveIssuedToken(jwt, u, issuedMs, tokens, k, nowMs)
    requires UniqueColumns(users) && i < |users| && users[i] == u && u.enabled
    ensures DecideIntended(Some(Prefix + tokens[k].token), tokens, users, jwt, nowMs) == Authenticated(Attach(DetailsOf(u)))
  {
    BearerHeaderRoundTrip(tokens[k].token);
    LedgerAcceptsExactly(tokens, tokens[k].token, nowMs);
    GeneratedTokenValidates(jwt, u, issuedMs, nowMs);
    DniLookupIsExact(users, i);
  }

  /** Corrected: a disabled owner is never authenticated by their token. */
  lemma {:induction false} DisabledOwnerIsNotAuthenticated(jwt: JwtUtil, u: Usuario, issuedMs: nat,
                                                         tokens: seq<Token>, k: nat, users: seq<Usuario>, i: nat, nowMs: int)
    requires LiveIssuedToken(jwt, u, issuedMs, tokens, k, nowMs)
    requires UniqueColumns(users) && i < |users| && users[i] == u && !u.enabled
    ensures DecideIntended(Some(Prefix + tokens[k].token), tokens, users, jwt, nowMs) == Escaped(UsernameNotFound("No encontrado"))
  {
    BearerHeaderRoundTrip(tokens[k].token);
    LedgerAcceptsExactly(tokens, tokens[k].token, nowMs);
    GeneratedTokenValidates(jwt, u, issuedMs, nowMs);
    DniLookupIsExact(users, i);
  }

  /** The filter bean with its collaborators. */
  class JwtFilter {
    const jwtUtil: JwtUtil
    const userRepository: UserRepository
    const tokenRepository: TokenRepository

    constructor (jwtUtil: JwtUtil, userRepository: UserRepository, tokenRepository: TokenRepository)
      ensures this.jwtUtil == jwtUtil && this.userRepository == userRepository && this.tokenRepository == tokenRepository
    {
      this.jwtUtil := jwtUtil;
      this.userRepository := userRepository;
      this.tokenRepository := tokenRepository;
    }

    /** `doFilter`: writes only the request's security context, never the ledger or
        the user table. `escaped` is the exception that leaves the filter; when it is
        `None` the request was handed on to the rest of the chain. */
    method DoFilter(header: Option<string>, ctx: SecurityContext, nowMs: int) returns (escaped: Option<Exc>)
      modifies ctx
      ensures var o := Decide(header, tokenRepository.rows, userRepository.rows, jwtUtil, nowMs);
        (o.Anonymous? ==> ctx.authentication == old(ctx.authentication) && escaped == None) &&
        (o.Authenticated? ==> ctx.authentication == Some(o.auth) && escaped == None) &&
        (o.Escaped? ==> ctx.authentication == old(ctx.authentication) && escaped == Some(o.exc))
    {
      escaped := None;
      if header.Some? && StartsWith(header.value, "Bearer ") {
        var token := header.value[7..];
        var isTokenValid := match FindByToken(tokenRepository.rows, token)
          case None => false
          case Some(rec) => !rec.expired && !rec.revoked && nowMs < rec.expiresAt;
        if isTokenValid && jwtUtil.ValidateToken(token, nowMs) {
          var username := jwtUtil.ExtractUsername(token, nowMs).value;
          var userDetails := LoadSubject(userRepository.rows, username);
          if userDetails.Err? {
            escaped := Some(userDetails.exc);
            return;
          }
          ctx.authentication := Some(Attach(userDetails.value));
        }
      }
    }
  }

  /** Sessions are stateless: on a new request's context, an identity exists after
      the filter only if the filter attached it on this request. */
  method FilterFreshRequest(filter: JwtFilter, header: Option<string>, nowMs: int) returns (ctx: SecurityContext, escaped: Option<Exc>)
    ensures fresh(ctx)
    ensures ctx.authentication.Some? <==>
      Decide(header, filter.tokenRepository.rows, filter.userRepository.rows, filter.jwtUtil, nowMs).Authenticated?
  {
    ctx := new SecurityContext();
    escaped := filter.DoFilter(header, ctx, nowMs);
  }
}
