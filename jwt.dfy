/** `JwtUtil`: issuing and checking the signed tokens, and reading the current
    user's name from the security context.

    A token is a JWS compact serialisation (section 7.1 of RFC 7515) signed with
    HS512 (section 3.2 of RFC 7518). The signing library is not part of this model:
    it is a `Codec` value passed in, and what the code relies on from it is the
    round trip stated by `RoundTrips`. */
module Jwt {
  import opened Common
  import opened Users
  import opened Tokens
  import opened Security

  /** A claim value: the code writes string and numeric claims only. */
  datatype Json = JStr(str: string) | JNum(num: int)

  /** A JWT claims set (section 4 of RFC 7519). */
  type Claims = map<string, Json>

  /** The HMAC key `Keys.hmacShaKeyFor` derives from the configured secret. */
  datatype Key = HmacKey(material: string)

  /** The signing library: `sign` builds the compact serialisation of a claims set
      under a key; `verify` checks the signature under a key and yields the claims,
      or nothing for a malformed or badly signed string; `decode` reads the payload
      without checking anything, as the client does. */
  datatype Codec = Codec(
    sign: (Key, Claims) -> string,
    verify: (Key, string) -> Option<Claims>,
    decode: string -> Option<Claims>)

  /** What the code assumes of the library: a signed token verifies under the key
      that signed it, and its payload decodes, to the claims that were signed. */
  ghost predicate RoundTrips(c: Codec)
  {
    forall k: Key, cl: Claims :: c.verify(k, c.sign(k, cl)) == Some(cl) && c.decode(c.sign(k, cl)) == Some(cl)
  }

  /** The `exp` claim written at `nowMs` with a lifetime of `expiration` ms: a
      NumericDate, whole seconds since the epoch (section 2 of RFC 7519). */
  function ExpSeconds(nowMs: nat, expiration: nat): nat
  {
    (nowMs + expiration) / 1000
  }

  /** The claims `generateToken` signs: subject = DNI, "rol" = role name, and `exp`. */
  function IssuedClaims(user: Usuario, nowMs: nat, expiration: nat): Claims
  {
    map["sub" := JStr(user.dni), "rol" := JStr(RolName(user.rol)), "exp" := JNum(ExpSeconds(nowMs, expiration))]
  }

  /** The `exp` check of section 4.1.4 of RFC 7519 as the parser applies it, with
      no clock skew allowed: a token is rejected only once the current instant is
      after the expiration instant, so the millisecond `exp * 1000` itself is still
      accepted. A claims set without `exp` never expires. */
  predicate Unexpired(cl: Claims, nowMs: int)
  {
    "exp" in cl ==> cl["exp"].JNum? && nowMs <= cl["exp"].num * 1000
  }

  /** The `sub` claim, or null when there is none. */
  function Subject(cl: Claims): Option<string>
  {
    if "sub" in cl && cl["sub"].JStr? then Some(cl["sub"].str) else None
  }

  class JwtUtil {
    /** `jwt.secret` */
    const secret: string
    /** `jwt.expiration`, in milliseconds */
    const expiration: nat
    const codec: Codec
    /** Null until `init` runs. */
    var secretKey: Option<Key>

    constructor (secret: string, expiration: nat, codec: Codec)
      ensures this.secret == secret && this.expiration == expiration && this.codec == codec
      ensures secretKey == None
    {
      this.secret := secret;
      this.expiration := expiration;
      this.codec := codec;
      secretKey := None;
    }

    /** The key is the one derived from the configured secret. */
    ghost predicate Initialized()
      reads this
    {
      secretKey == Some(HmacKey(secret))
    }

    /** `init`, run once by the container before the bean is used. */
    method Init()
      modifies this
      ensures Initialized()
    {
      secretKey := Some(HmacKey(secret));
    }

    /** `generateToken` at clock `nowMs`: the signed string and its ledger record.
        The record belongs to the user, is neither revoked nor expired, and its
        lifetime is the configured one with the sub-second part dropped. */
    function GenerateToken(user: Usuario, nowMs: nat): (t: Token)
      reads this
      requires Initialized()
      ensures t.token == codec.sign(secretKey.value, IssuedClaims(user, nowMs, expiration))
      ensures t.usuario == user.id && !t.revoked && !t.expired
      ensures t.createdAt == nowMs
      ensures expiration - 1000 < t.expiresAt - t.createdAt <= expiration
      ensures t.expiresAt - t.createdAt == 1000 * (expiration / 1000)
    {
      Token(0, codec.sign(secretKey.value, IssuedClaims(user, nowMs, expiration)),
            false, false, user.id, nowMs, nowMs + (expiration / 1000) * 1000)
    }

    /** `validateToken`: true exactly when the signature verifies under the key and
        the token is unexpired. It never throws: a missing key, a bad signature, a
        malformed string and an expired token are all `false`. */
    function ValidateToken(token: string, nowMs: int): (r: bool)
      reads this
      ensures r <==> secretKey.Some? && codec.verify(secretKey.value, token).Some? &&
                     Unexpired(codec.verify(secretKey.value, token).value, nowMs)
    {
      match secretKey
      case None => false
      case Some(k) =>
        match codec.verify(k, token)
        case None => false
        case Some(cl) => Unexpired(cl, nowMs)
    }

    /** `extractUsername`: the subject of a verified, unexpired token. It throws
        (here: `Err`) exactly when `validateToken` would return false. */
    function ExtractUsername(token: string, nowMs: int): (r: Result<Option<string>>)
      reads this
      ensures r.Ok? <==> ValidateToken(token, nowMs)
      ensures r.Ok? ==> r.value == Subject(codec.verify(secretKey.value, token).value)
    {
      match secretKey
      case None => Err(IllegalArgument("signing key cannot be null"))
      case Some(k) =>
        match codec.verify(k, token)
        case None => Err(JwtFailure("JWT signature does not match"))
        case Some(cl) => if Unexpired(cl, nowMs) then Ok(Subject(cl)) else Err(JwtFailure("JWT expired"))
    }

    /** `getCurrentUsername`: the name of an authenticated authentication in the
        context, and null when there is none or it is not authenticated. */
    function GetCurrentUsername(ctx: SecurityContext): (r: Option<string>)
      reads ctx
      ensures r.Some? <==> ctx.authentication.Some? && ctx.authentication.value.authenticated
      ensures r.Some? ==> r.value == ctx.authentication.value.principal.username
    {
      match ctx.authentication
      case None => None
      case Some(a) => if a.authenticated then Some(a.principal.username) else None
    }
  }

  /** The JWT's own expiry is the end of the second in which the configured
      lifetime ends, rounded down: it falls within the last second of that lifetime. */
  lemma ExpiryWithinLastSecond(nowMs: nat, expiration: nat)
    ensures nowMs + expiration - 1000 < ExpSeconds(nowMs, expiration) * 1000 <= nowMs + expiration
  {
  }

  /** Round trip: a token generated under the key validates up to and including
      the instant `exp`, and yields the user's DNI as its subject; after `exp` it is
      rejected. Its payload decodes to the issued claims. */
  lemma GeneratedTokenValidates(jwt: JwtUtil, user: Usuario, issuedMs: nat, nowMs: int)
    requires jwt.Initialized() && RoundTrips(jwt.codec)
    ensures jwt.ValidateToken(jwt.GenerateToken(user, issuedMs).token, nowMs) <==>
            nowMs <= ExpSeconds(issuedMs, jwt.expiration) * 1000
    ensures nowMs <= ExpSeconds(issuedMs, jwt.expiration) * 1000 ==>
            jwt.ExtractUsername(jwt.GenerateToken(user, issuedMs).token, nowMs) == Ok(Some(user.dni))
    ensures jwt.codec.decode(jwt.GenerateToken(user, issuedMs).token) == Some(IssuedClaims(user, issuedMs, jwt.expiration))
  {
    var cl := IssuedClaims(user, issuedMs, jwt.expiration);
    assert jwt.codec.verify(jwt.secretKey.value, jwt.codec.sign(jwt.secretKey.value, cl)) == Some(cl);
  }

  /** A just-issued record is one of the user's active tokens once stored. */
  lemma IssuedRecordIsActive(jwt: JwtUtil, user: Usuario, issuedMs: nat, rows: seq<Token>, t: Token)
    requires jwt.Initialized()
    requires t in rows
    requires t == jwt.GenerateToken(user, issuedMs).(id := t.id, createdAt := t.createdAt)
    ensures t in ActiveTokensOf(rows, user.id)
  {
  }
}
