/** `AuthService`: registration, which inserts a user, and login, which issues a
    token and records it in the ledger. */
module Auth {
  import opened Common
  import opened Users
  import opened Tokens
  import opened Jwt
  import opened Filter

  /** `AuthRegisterRequest`. */
  datatype RegisterRequest = RegisterRequest(
    nombres: string, apellidos: string, username: string, password: string,
    dni: string, correo: string, rol: Rol)

  /** `AuthRequest`. */
  datatype LoginRequest = LoginRequest(username: string, password: string)

  /** The user `register` builds: the request's fields, the password passed through
      the encoder, enabled by default. */
  function RegisteredUser(req: RegisterRequest, encode: string -> string): (u: Usuario)
    ensures u.username == req.username && u.dni == req.dni && u.email == req.correo && u.rol == req.rol
    ensures u.password == encode(req.password)
    ensures u.enabled
  {
    NewUsuario(req.nombres, req.apellidos, req.username, encode(req.password), req.dni, req.correo, req.rol)
  }

  class AuthService {
    const userRepository: UserRepository
    const tokenRepository: TokenRepository
    const jwtUtil: JwtUtil
    /** `PasswordEncoder.encode`. */
    const encode: string -> string

    constructor (userRepository: UserRepository, tokenRepository: TokenRepository, jwtUtil: JwtUtil, encode: string -> string)
      ensures this.userRepository == userRepository && this.tokenRepository == tokenRepository
      ensures this.jwtUtil == jwtUtil && this.encode == encode
    {
      this.userRepository := userRepository;
      this.tokenRepository := tokenRepository;
      this.jwtUtil := jwtUtil;
      this.encode := encode;
    }

    ghost predicate Valid()
      reads this, userRepository, tokenRepository, jwtUtil
    {
      userRepository.Valid() && tokenRepository.Valid() && jwtUtil.Initialized()
    }

    /** `register`. A taken username is refused with `IllegalArgumentException` and
        nothing is stored. Only the username is checked here: a duplicate DNI or
        email reaches the table and is refused there by its unique columns. Otherwise
        exactly one user is added, with the encoded password. */
    method Register(req: RegisterRequest) returns (err: Option<Exc>)
      requires Valid()
      modifies userRepository
      ensures Valid()
      ensures FindByUsername(old(userRepository.rows), req.username).Some? ==>
        err == Some(IllegalArgument("El nombre de usuario ya está en uso")) &&
        userRepository.rows == old(userRepository.rows) && userRepository.nextId == old(userRepository.nextId)
      ensures FindByUsername(old(userRepository.rows), req.username).None? ==>
        var u := RegisteredUser(req, encode).(id := old(userRepository.nextId));
        (ClashesWithOthers(old(userRepository.rows), u) ==>
           err.Some? && err.value.DataIntegrityViolation? && userRepository.rows == old(userRepository.rows)) &&
        (!ClashesWithOthers(old(userRepository.rows), u) ==>
           err == None && userRepository.rows == old(userRepository.rows) + [u])
    {
      if FindByUsername(userRepository.rows, req.username).Some? {
        return Some(IllegalArgument("El nombre de usuario ya está en uso"));
      }
      var u := RegisteredUser(req, encode);
      var saved := userRepository.Insert(u);
      err := if saved.Err? then Some(saved.exc) else None;
    }

    /** `login`. `authOutcome` is what `authenticationManager.authenticate` did with
        the credentials: `None` when it returned, the exception when it threw. After
        a successful authentication the user is looked up by username, a token is
        generated at `nowMs` and saved (the ledger stamps `createdAt` with
        `persistNow`), and the token string is returned. Earlier records, the user's
        included, are kept, so sessions coexist. */
    method Login(req: LoginRequest, authOutcome: Option<Exc>, nowMs: nat, persistNow: int) returns (r: Result<string>)
      requires Valid()
      modifies tokenRepository
      ensures Valid()
      ensures authOutcome.Some? ==>
        r == Err(authOutcome.value) && tokenRepository.rows == old(tokenRepository.rows)
      ensures authOutcome.None? && FindByUsername(userRepository.rows, req.username).None? ==>
        r == Err(UsernameNotFound("Usuario no encontrado")) && tokenRepository.rows == old(tokenRepository.rows)
      ensures authOutcome.None? && FindByUsername(userRepository.rows, req.username).Some? ==>
        var t := jwtUtil.GenerateToken(FindByUsername(userRepository.rows, req.username).value, nowMs);
        (FindByToken(old(tokenRepository.rows), t.token).Some? ==>
           r.Err? && r.exc.DataIntegrityViolation? && tokenRepository.rows == old(tokenRepository.rows)) &&
        (FindByToken(old(tokenRepository.rows), t.token).None? ==>
           r == Ok(t.token) &&
           tokenRepository.rows == old(tokenRepository.rows) + [t.(id := old(tokenRepository.nextId), createdAt := persistNow)])
    {
      if authOutcome.Some? {
        return Err(authOutcome.value);
      }
      var usuario := FindByUsername(userRepository.rows, req.username);
      if usuario.None? {
        return Err(UsernameNotFound("Usuario no encontrado"));
      }
      var token := jwtUtil.GenerateToken(usuario.value, nowMs);
      var saved := tokenRepository.Save(token, persistNow);
      if saved.Err? {
        return Err(saved.exc);
      }
      r := Ok(token.token);
    }
  }

  /** A record stored by `login` stays live for the configured lifetime less one
      second: until then both the ledger and the signature check accept it. */
  lemma IssuedTokenStaysLive(jwt: JwtUtil, u: Usuario, issuedMs: nat, tokens: seq<Token>, k: nat, nowMs: int)
    requires jwt.Initialized() && RoundTrips(jwt.codec) && UniqueTokens(tokens) && k < |tokens|
    requires tokens[k] == jwt.GenerateToken(u, issuedMs).(id := tokens[k].id, createdAt := tokens[k].createdAt)
    requires nowMs <= issuedMs + jwt.expiration - 1000
    ensures LiveIssuedToken(jwt, u, issuedMs, tokens, k, nowMs)
  {
    ExpiryWithinLastSecond(issuedMs, jwt.expiration);
  }

  /** Appending a new record keeps every active token of every user active, and
      adds the new one when it is active. */
  lemma AppendKeepsActiveTokens(rows: seq<Token>, t: Token, usuario: nat)
    ensures forall x :: x in ActiveTokensOf(rows, usuario) ==> x in ActiveTokensOf(rows + [t], usuario)
    ensures t.usuario == usuario && !t.expired && !t.revoked ==> t in ActiveTokensOf(rows + [t], usuario)
  {
  }

  /** Two tokens for one user whose `exp` falls in the same second are the same
      string, since the claims carry nothing else that differs; so once the first is
      in the ledger, the second finds its string taken and `login` fails on save. */
  lemma SameSecondLoginCollides(jwt: JwtUtil, u: Usuario, t1: nat, t2: nat, tokens: seq<Token>, k: nat)
    requires jwt.Initialized()
    requires ExpSeconds(t1, jwt.expiration) == ExpSeconds(t2, jwt.expiration)
    requires k < |tokens| && tokens[k].token == jwt.GenerateToken(u, t1).token
    ensures jwt.GenerateToken(u, t1).token == jwt.GenerateToken(u, t2).token
    ensures FindByToken(tokens, jwt.GenerateToken(u, t2).token).Some?
  {
    assert IssuedClaims(u, t1, jwt.expiration) == IssuedClaims(u, t2, jwt.expiration);
  }

  /** The claims with a token id (`jti`, section 4.1.7 of RFC 7519) set to the
      record's primary key: the correction for colliding strings. */
  function IntendedClaims(user: Usuario, nowMs: nat, expiration: nat, jti: nat): (cl: Claims)
    ensures "jti" in cl && cl["jti"] == JNum(jti)
    ensures forall name | name in IssuedClaims(user, nowMs, expiration) :: name in cl && cl[name] == IssuedClaims(user, nowMs, expiration)[name]
  {
    IssuedClaims(user, nowMs, expiration)["jti" := JNum(jti)]
  }

  /** Corrected: tokens signed with distinct `jti` values are distinct strings,
      whatever the user and clock, so a second login never violates the unique column. */
  lemma DistinctJtiTokensDiffer(c: Codec, k: Key, u1: Usuario, u2: Usuario, ms1: nat, ms2: nat, e: nat, id1: nat, id2: nat)
    requires RoundTrips(c) && id1 != id2
    ensures c.sign(k, IntendedClaims(u1, ms1, e, id1)) != c.sign(k, IntendedClaims(u2, ms2, e, id2))
  {
    var cl1 := IntendedClaims(u1, ms1, e, id1);
    var cl2 := IntendedClaims(u2, ms2, e, id2);
    assert c.verify(k, c.sign(k, cl1)) == Some(cl1);
    assert c.verify(k, c.sign(k, cl2)) == Some(cl2);
    assert cl1["jti"] != cl2["jti"];
  }
}
