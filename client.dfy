/** The browser side of the session: the Angular `AuthService`, which keeps the
    token and what it read from the token's payload in `localStorage`, and
    `JwtInterceptor`, which adds the bearer header to outgoing requests.

    `localStorage` is a map from keys to strings. The payload is read with
    `JSON.parse(atob(token.split('.')[1]))` and no signature check; that read is
    the `decode` of the signing library's model, and it throws (here: `Threw`) when
    the token has no readable payload. */
module Client {
  import opened Common
  import opened Users
  import opened Jwt
  import Filter

  type Storage = map<string, string>

  const TokenKey: string := "jwt-token"
  const RoleKey: string := "jwt-role"
  const UsernameKey: string := "jwt-username"
  const ThemeKey: string := "theme"

  /** What a TypeScript call did: returned a value, or threw. */
  datatype Outcome<T> = Returned(value: T) | Threw

  /** `localStorage.getItem(key)`: the stored string, or null. */
  function GetItem(s: Storage, key: string): (r: Option<string>)
    ensures r.Some? <==> key in s
    ensures r.Some? ==> r.value == s[key]
  {
    if key in s then Some(s[key]) else None
  }

  /** JavaScript truthiness of a stored string: null and "" are falsy. */
  predicate Truthy(v: Option<string>)
  {
    v.Some? && v.value != ""
  }

  /** The decimal text of a number, as `String(n)` writes an integer. */
  function NumberText(n: int): string
  {
    if n < 0 then "-" + Decimal(-n) else Decimal(n)
  }

  /** The text `localStorage.setItem` stores for `payload[name]`: a string as is, a
      number in decimal, and a missing claim as the text "undefined". */
  function StoredClaim(cl: Claims, name: string): (r: string)
    ensures name !in cl ==> r == "undefined"
    ensures name in cl && cl[name].JStr? ==> r == cl[name].str
  {
    if name !in cl then "undefined"
    else match cl[name]
      case JStr(str) => str
      case JNum(n) => NumberText(n)
  }

  /** The claim name `saveToken` reads the role from. */
  const RoleClaimRead: string := "role"

  /** The storage after `saveToken` read `payload` from `token`, taking the role
      from the claim `roleClaim`: the raw token, that claim and the payload's `sub`
      under the three keys; every other key kept. */
  function AfterSave(s: Storage, token: string, payload: Claims, roleClaim: string): (t: Storage)
    ensures GetItem(t, TokenKey) == Some(token)
    ensures GetItem(t, RoleKey) == Some(StoredClaim(payload, roleClaim))
    ensures GetItem(t, UsernameKey) == Some(StoredClaim(payload, "sub"))
    ensures forall key | key != TokenKey && key != RoleKey && key != UsernameKey :: GetItem(t, key) == GetItem(s, key)
  {
    s[TokenKey := token][RoleKey := StoredClaim(payload, roleClaim)][UsernameKey := StoredClaim(payload, "sub")]
  }

  /** The storage after `logout`: everything is cleared, then a truthy theme is put back. */
  function AfterLogout(s: Storage): (t: Storage)
    ensures forall key | key != ThemeKey :: key !in t
    ensures Truthy(GetItem(s, ThemeKey)) ==> GetItem(t, ThemeKey) == GetItem(s, ThemeKey)
    ensures !Truthy(GetItem(s, ThemeKey)) ==> t == map[]
  {
    var preserved := GetItem(s, ThemeKey);
    if Truthy(preserved) then map[ThemeKey := preserved.value] else map[]
  }

  /** `isTokenExpired` at clock `nowMs`. No truthy token: expired. Otherwise the
      payload's `exp` against the current whole second: expired only when that
      second is past `exp`, so the token counts as live through its `exp` second. A
      missing `exp` compares false with any number, so such a token never expires. */
  function IsTokenExpired(s: Storage, decode: string -> Option<Claims>, nowMs: nat): (r: Outcome<bool>)
    ensures !Truthy(GetItem(s, TokenKey)) ==> r == Returned(true)
    ensures Truthy(GetItem(s, TokenKey)) ==>
      (decode(s[TokenKey]).None? <==> r.Threw?)
    ensures Truthy(GetItem(s, TokenKey)) && decode(s[TokenKey]).Some? && "exp" in decode(s[TokenKey]).value &&
            decode(s[TokenKey]).value["exp"].JNum? ==>
      r == Returned(nowMs / 1000 > decode(s[TokenKey]).value["exp"].num)
  {
    var token := GetItem(s, TokenKey);
    if !Truthy(token) then Returned(true)
    else match decode(token.value)
      case None => Threw
      case Some(payload) =>
        if "exp" in payload && payload["exp"].JNum? then Returned(nowMs / 1000 > payload["exp"].num)
        else Returned(false)
  }

  /** `isAuthenticated`: a truthy token that is not expired. The token test comes
      first, so without a token the payload is never read. */
  function IsAuthenticated(s: Storage, decode: string -> Option<Claims>, nowMs: nat): (r: Outcome<bool>)
    ensures r == Returned(true) <==> Truthy(GetItem(s, TokenKey)) && IsTokenExpired(s, decode, nowMs) == Returned(false)
    ensures r.Threw? <==> Truthy(GetItem(s, TokenKey)) && IsTokenExpired(s, decode, nowMs).Threw?
  {
    if !Truthy(GetItem(s, TokenKey)) then Returned(false)
    else match IsTokenExpired(s, decode, nowMs)
      case Threw => Threw
      case Returned(expired) => Returned(!expired)
  }

  /** `isUser`, `isMod`, `isAdmin`: exact comparison of the stored role. */
  predicate IsUser(s: Storage) { GetItem(s, RoleKey) == Some("USER") }
  predicate IsMod(s: Storage) { GetItem(s, RoleKey) == Some("MOD") }
  predicate IsAdmin(s: Storage) { GetItem(s, RoleKey) == Some("ADMIN") }

  /** The three role tests exclude one another. */
  lemma AtMostOneRole(s: Storage)
    ensures !(IsUser(s) && IsMod(s)) && !(IsUser(s) && IsAdmin(s)) && !(IsMod(s) && IsAdmin(s))
  {
  }

  /** The `AuthService` of the client, over the browser's storage. */
  class AuthService {
    var storage: Storage
    /** The unchecked payload read of a token. */
    const decode: string -> Option<Claims>

    constructor (storage: Storage, decode: string -> Option<Claims>)
      ensures this.storage == storage && this.decode == decode
    {
      this.storage := storage;
      this.decode := decode;
    }

    /** `saveToken`: an unreadable payload throws before anything is stored;
        otherwise the storage becomes `AfterSave`. */
    method SaveToken(token: string) returns (r: Outcome<()>)
      modifies this
      ensures decode(token).None? ==> r.Threw? && storage == old(storage)
      ensures decode(token).Some? ==> r == Returned(()) && storage == AfterSave(old(storage), token, decode(token).value, RoleClaimRead)
    {
      var payload := decode(token);
      if payload.None? {
        return Threw;
      }
      storage := storage[TokenKey := token];
      storage := storage[RoleKey := StoredClaim(payload.value, RoleClaimRead)];
      storage := storage[UsernameKey := StoredClaim(payload.value, "sub")];
      r := Returned(());
    }

    /** `logout` (the navigation to the login page is not modelled). */
    method Logout()
      modifies this
      ensures storage == AfterLogout(old(storage))
    {
      var preservedTheme := GetItem(storage, ThemeKey);
      storage := map[];
      if Truthy(preservedTheme) {
        storage := storage[ThemeKey := preservedTheme.value];
      }
    }
  }

  /** After logout the user is not authenticated, and a second logout changes nothing. */
  lemma LogoutEndsSession(s: Storage, decode: string -> Option<Claims>, nowMs: nat)
    ensures IsAuthenticated(AfterLogout(s), decode, nowMs) == Returned(false)
    ensures !IsUser(AfterLogout(s)) && !IsMod(AfterLogout(s)) && !IsAdmin(AfterLogout(s))
    ensures AfterLogout(AfterLogout(s)) == AfterLogout(s)
  {
    assert TokenKey != ThemeKey && RoleKey != ThemeKey;
  }

  /** The token a server issued, once saved: the stored name is the user's DNI and,
      because the server writes the role claim as "rol" while the client reads
      "role", the stored role is the text "undefined", so none of the role tests
      holds for any user. */
  lemma IssuedTokenGivesNoClientRole(codec: Codec, k: Key, u: Usuario, issuedMs: nat, expiration: nat, s: Storage)
    requires RoundTrips(codec)
    ensures var token := codec.sign(k, IssuedClaims(u, issuedMs, expiration));
      codec.decode(token).Some? &&
      var t := AfterSave(s, token, codec.decode(token).value, RoleClaimRead);
      GetItem(t, RoleKey) == Some("undefined") && GetItem(t, UsernameKey) == Some(u.dni) &&
      !IsUser(t) && !IsMod(t) && !IsAdmin(t)
  {
    var cl := IssuedClaims(u, issuedMs, expiration);
    assert codec.decode(codec.sign(k, cl)) == Some(cl);
    assert RoleClaimRead !in cl;
  }

  /** The corrected moderator test, against the `Rol` name the server writes. */
  predicate IsModIntended(s: Storage) { GetItem(s, RoleKey) == Some("MODERATOR") }

  /** Corrected: with the role read from the claim "rol" that the server writes,
      a saved server token gives each user exactly the role test of their own role. */
  lemma IssuedTokenGivesOwnRole(codec: Codec, k: Key, u: Usuario, issuedMs: nat, expiration: nat, s: Storage)
    requires RoundTrips(codec)
    ensures var token := codec.sign(k, IssuedClaims(u, issuedMs, expiration));
      codec.decode(token).Some? &&
      var t := AfterSave(s, token, codec.decode(token).value, "rol");
      GetItem(t, RoleKey) == Some(RolName(u.rol)) &&
      (IsUser(t) <==> u.rol == USER) && (IsAdmin(t) <==> u.rol == ADMIN) && (IsModIntended(t) <==> u.rol == MODERATOR)
  {
    var cl := IssuedClaims(u, issuedMs, expiration);
    assert codec.decode(codec.sign(k, cl)) == Some(cl);
  }

  /** The client keeps a saved server token for almost a second longer than the
      server accepts it: whenever the server's signature check passes, the client
      says authenticated, and for the rest of the `exp` second, after the instant
      `exp` itself, the client still says authenticated while the server already
      rejects it. */
  lemma ClientExpiryTrailsServer(jwt: JwtUtil, u: Usuario, issuedMs: nat, s: Storage, nowMs: nat)
    requires jwt.Initialized() && RoundTrips(jwt.codec)
    ensures var token := jwt.GenerateToken(u, issuedMs).token;
      var t := AfterSave(s, token, jwt.codec.decode(token).value, RoleClaimRead);
      (token != "" ==>
        (jwt.ValidateToken(token, nowMs) ==> IsAuthenticated(t, jwt.codec.decode, nowMs) == Returned(true)) &&
        (IsAuthenticated(t, jwt.codec.decode, nowMs) == Returned(true) <==>
           nowMs / 1000 <= ExpSeconds(issuedMs, jwt.expiration)))
  {
    var token := jwt.GenerateToken(u, issuedMs).token;
    GeneratedTokenValidates(jwt, u, issuedMs, nowMs);
    var cl := IssuedClaims(u, issuedMs, jwt.expiration);
    var t := AfterSave(s, token, cl, RoleClaimRead);
    assert t[TokenKey] == token;
  }

  /** An outgoing request: its URL and its headers. */
  datatype Request = Request(url: string, headers: map<string, string>)

  /** `JwtInterceptor`: a URL containing "/auth/login" anywhere is forwarded as is;
      otherwise, with a truthy stored token, a copy with `Authorization` set to the
      bearer header is forwarded, the other headers kept; with no token the request
      goes as is. */
  function Intercept(req: Request, s: Storage): (r: Request)
    ensures Contains(req.url, "/auth/login") || !Truthy(GetItem(s, TokenKey)) ==> r == req
    ensures !Contains(req.url, "/auth/login") && Truthy(GetItem(s, TokenKey)) ==>
      r.url == req.url && "Authorization" in r.headers && r.headers["Authorization"] == "Bearer " + s[TokenKey] &&
      forall h | h != "Authorization" :: (h in r.headers <==> h in req.headers) && (h in req.headers ==> r.headers[h] == req.headers[h])
  {
    if Contains(req.url, "/auth/login") then req
    else
      var token := GetItem(s, TokenKey);
      if Truthy(token) then req.(headers := req.headers["Authorization" := "Bearer " + token.value])
      else req
  }

  /** The header the interceptor adds is the one the filter parses back: the
      server sees exactly the stored token. */
  lemma InterceptedTokenReachesFilter(req: Request, s: Storage)
    requires !Contains(req.url, "/auth/login") && Truthy(GetItem(s, TokenKey))
    ensures Filter.BearerToken(Some(Intercept(req, s).headers["Authorization"])) == Some(s[TokenKey])
  {
    Filter.BearerHeaderRoundTrip(s[TokenKey]);
  }
}
