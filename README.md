# app-denuncias: a verified model of the authentication gateway and the domain services

This project models the security core of the app-denuncias complaint system in Dafny:

- The stateless JWT gateway of the Spring backend:
  - `JwtUtil` issues, validates and reads tokens.
  - The `Token` ledger and `TokenRepository` / `TokenService` record and revoke them.
  - `JwtFilter` authenticates each request from its `Authorization: Bearer` header.
  - `UserDetailsServiceImpl` turns a stored user into an identity.
  - `AuthService` registers users and logs them in.
  - `SecurityConfig` holds the route table and the access-denied handler.
  - `GlobalExceptionHandler` maps exceptions to HTTP responses.
- The domain services behind the gateway. Each one reads the authenticated username and works on its own table:
  - `DenunciaService` (complaints);
  - `SolicitudService` (requests about a complaint);
  - `NotificationService`;
  - `UsuarioService` (profile update and account switching).
- The browser side:
  - `auth.service.ts` keeps the token and its claims in local storage.
  - `JwtInterceptor.ts` attaches the token to outgoing requests.

Each table is a class. It holds the rows as a `seq` of records and the next primary key, and it keeps the table's
uniqueness constraints as its `Valid()` invariant. The services are classes that hold their repositories. Each
service method states the table it leaves behind: the rows are unchanged on every error path, and the new rows
are given as a function of the old ones. The queries, the record builders and the gateway's decision are pure
functions. Lemmas about those functions state what the source promises:

- revocation is idempotent and takes effect on the next request;
- an issued token authenticates its owner;
- the route table decides every path;
- the inbox is ordered newest first;
- the client session ends on logout.

Modules, one per file: `Common`, `Users`, `Tokens`, `Security`, `Jwt`, `Filter`, `Access`, `Errors`, `Auth`,
`Complaints`, `Requests`, `Notifications`, `Profiles` (`UsuarioService`) and `Client` (the two frontend files).

Where the source files disagree with each other, the model follows the service code:

- `model/Denuncia.java` has the owner (`usuario`) and a state (`estado`), but its state is the nested enum
  `EstadoDenuncia`, while the services compare and set the shared `Estado` enum. It has no `modAsignado`, and
  it spells `descripcion` where the service's builder calls `description(...)`. The complaint record here has
  the fields the services use, with `Estado` as the state.
- `model/Notification.java` lacks the recipient, the request and the `read` flag that `NotificationService`
  reads and writes. The notification record here carries them.
- `repository/UserRepository.java` declares `findByUsername` and `findByDni`, but not `findByUsernameAndEnabledTrue`,
  which `security/UserDetailsServiceImpl.java:29` and `service/UsuarioService.java` (lines 62, 85, 143, 157, 169)
  call, nor `findByEnabledTrue` (`service/UsuarioService.java:45`). The first is modelled by what its name says
  (`Users.FindEnabledByUsername`); the second belongs to `listarUsuarios`, which is not part of this model.
- `repository/DenunciaRepository.java` declares `findByUsuarioId`, `findByUsuarioIdAndId` and
  `findAllByModAsignadoId`. It lacks the two `...EstadoIsNot(Estado)` finders that `listarDenunciasMod` calls
  (it declares `...EstadoNotIn(List<Estado>)` variants instead) and `deleteDenunciaByIdAndEstado`. The missing
  ones are modelled by what their names say.
- The `estado = PENDIENTE` and `createdDate = now` initializers of `model/Denuncia.java` carry no
  `@Builder.Default`, so Lombok's builder, which `nuevaDenuncia` uses, would leave both null. The services
  evidently rely on a new complaint being `PENDIENTE`, since `editarDenuncia` and `eliminarDenuncia` accept only
  that state. The model gives a new complaint the initializers' values (`Complaints.NewDenuncia`).
- `AuthService.register` calls the builder with `.correo(...)`, but the entity's field is `email`. The model stores
  the request's `correo` as the email.
- The services call `JwtUtil.getCurrentUsername()` statically, although it is declared as an instance method. The
  model passes the current username (`Option<string>`, where `None` is null) to each service method.

## Model

| member | source | states |
|---|---|---|
| Users.NewUsuario | backend/src/main/java/utp/edu/denuncias/model/Usuario.java:80-81 | a built user is enabled by default and carries the given username, password hash, DNI, email and role |
| Users.FindByUsername | backend/src/main/java/utp/edu/denuncias/service/AuthService.java:34-36 | `findByUsername`: a found user is a stored row with that username; nothing found means no row has it |
| Users.FindEnabledByUsername | backend/src/main/java/utp/edu/denuncias/security/UserDetailsServiceImpl.java:29-30 | `findByUsernameAndEnabledTrue`: a found user is stored, has that username and is enabled; none found means no enabled row has the name |
| Users.FindById | backend/src/main/java/utp/edu/denuncias/service/DenunciaService.java:182-183 | `findById`: a found user is stored with that id; none found means no row has the id |
| Users.FindByDni | backend/src/main/java/utp/edu/denuncias/model/Usuario.java:57-58 | the lookup on the unique DNI column: a found user is stored with that DNI; none found means no row has it |
| Users.FindCurrent | backend/src/main/java/utp/edu/denuncias/service/DenunciaService.java:140-141 | the lookup of the authenticated user: a result is a stored row whose username is the current username; no result means the name is null or no row has it |
| Users.FindCurrentEnabled | backend/src/main/java/utp/edu/denuncias/service/UsuarioService.java:142-143 | the same, restricted to enabled rows: no result means the name is null or no enabled row has it |
| Users.UsernameLookupIsExact | backend/src/main/java/utp/edu/denuncias/model/Usuario.java:45-46 | with a unique username column, looking up a stored user's username finds exactly that user |
| Users.DniLookupIsExact | backend/src/main/java/utp/edu/denuncias/model/Usuario.java:57-58 | with a unique DNI column, looking up a stored user's DNI finds exactly that user |
| Users.UserRepository.Insert | backend/src/main/java/utp/edu/denuncias/model/Usuario.java:45-65 | `save` of a new user: a clash on username, DNI or email is a `DataIntegrityViolation` and stores nothing; otherwise the user is appended with the next id; uniqueness is preserved |
| Users.UserRepository.Update | backend/src/main/java/utp/edu/denuncias/service/UsuarioService.java:101 | `save` of an existing user: a clash with another row is a `DataIntegrityViolation` and changes nothing; otherwise only that row is replaced |
| Tokens.FindByToken | backend/src/main/java/utp/edu/denuncias/repository/TokenRepository.java:25 | `findByToken`: a found record is stored with that string; none found means no record has it |
| Tokens.TokenLookupIsExact | backend/src/main/java/utp/edu/denuncias/model/Token.java:34-35 | with the unique token column, looking up a stored record's string finds exactly that record |
| Tokens.ActiveTokensOf | backend/src/main/java/utp/edu/denuncias/repository/TokenRepository.java:33 | `findAllByUsuarioAndExpiredFalseAndRevokedFalse`: exactly the stored records of that user that are neither expired nor revoked, each as often as stored |
| Tokens.Revoked | backend/src/main/java/utp/edu/denuncias/repository/TokenRepository.java:46-49 | the ledger after `UPDATE Token t SET t.revoked = true WHERE t.token = ?1`: every record holding the string revoked, all else unchanged (definition; its properties are the lemmas below) |
| Tokens.MatchCount | backend/src/main/java/utp/edu/denuncias/repository/TokenRepository.java:46-49 | the number of rows that update affects: the records holding the string (definition) |
| Tokens.MatchCountZero | backend/src/main/java/utp/edu/denuncias/repository/TokenRepository.java:46-49 | the number of rows the revoking update touches is zero iff no record has the string |
| Tokens.MatchCountIsLookup | backend/src/main/java/utp/edu/denuncias/repository/TokenRepository.java:46-49 | with unique strings the update touches one row when the string is stored and none otherwise |
| Tokens.RevokedKeepsConstraints | backend/src/main/java/utp/edu/denuncias/repository/TokenRepository.java:46-49 | revoking keeps the table's length, ids and string uniqueness |
| Tokens.RevokedChangesOnlyRevokedFlag | backend/src/main/java/utp/edu/denuncias/repository/TokenRepository.java:46-49 | revoking sets `revoked` on the matching record only and changes no other field or row |
| Tokens.RevokeIsIdempotent | backend/src/main/java/utp/edu/denuncias/service/TokenService.java:25-31 | revoking a token twice leaves the same ledger as revoking it once |
| Tokens.RevokeThenFind | backend/src/test/java/utp/edu/denuncias/repository/TokenRepositoryTest.java:81-87 | after revocation an unknown string leaves the ledger unchanged, and a stored one is found again with `revoked` set |
| Tokens.RevokeOneIsRevokeAll | backend/src/main/java/utp/edu/denuncias/service/TokenService.java:26-30 | setting `revoked` on one found record is the same as the bulk update on its string |
| Tokens.TokenRepository.Save | backend/src/main/java/utp/edu/denuncias/model/Token.java:34-35 | saving a token whose string is taken is a `DataIntegrityViolation` and stores nothing; otherwise it is appended with the next id and the persist-time `createdAt` (`onCreate`, lines 75-78) |
| Tokens.TokenRepository.Update | backend/src/main/java/utp/edu/denuncias/service/TokenService.java:29 | `save` of a loaded record replaces that row only |
| Tokens.TokenRepository.RevokeToken | backend/src/main/java/utp/edu/denuncias/repository/TokenRepository.java:46-49 | the revoking update leaves `Revoked(old rows, s)` and returns the number of matching rows; its loop is proved against that function |
| Tokens.TokenService.RevokeToken | backend/src/main/java/utp/edu/denuncias/service/TokenService.java:25-31 | a found record is revoked and saved, and an unknown string changes nothing; both are the ledger `Revoked(old rows, s)` |
| Security.LoadUserByUsername | backend/src/main/java/utp/edu/denuncias/security/UserDetailsServiceImpl.java:28-36 | fails with `UsernameNotFound` iff no enabled user has the name; otherwise the identity is some enabled row's username, password hash and single `ROLE_` authority |
| Security.DetailsOf | backend/src/main/java/utp/edu/denuncias/security/UserDetailsServiceImpl.java:31-35 | the identity `User.builder()` builds: the stored username and password hash and the single authority `ROLE_` + role name (definition) |
| Security.LoadUserFindsRow | backend/src/main/java/utp/edu/denuncias/security/UserDetailsServiceImpl.java:29-34 | with unique usernames the identity is exactly the one enabled row with that name |
| Jwt.JwtUtil.Init | backend/src/main/java/utp/edu/denuncias/security/JwtUtil.java:36-39 | `@PostConstruct init` derives the signing key, after which tokens can be issued |
| Jwt.ExpSeconds | backend/src/main/java/utp/edu/denuncias/security/JwtUtil.java:60 | the `exp` claim: (now + lifetime) in milliseconds, truncated to whole seconds as a `Date` claim is written (definition) |
| Jwt.IssuedClaims | backend/src/main/java/utp/edu/denuncias/security/JwtUtil.java:58-60 | the signed claims: `sub` = DNI, `rol` = role name, `exp` = `ExpSeconds` and nothing else (definition) |
| Jwt.Unexpired | backend/src/main/java/utp/edu/denuncias/security/JwtUtil.java:95-105 | the parser's expiry test: rejected only when now is after `exp * 1000`; no `exp` never expires (definition) |
| Jwt.JwtUtil.GenerateToken | backend/src/main/java/utp/edu/denuncias/security/JwtUtil.java:54-70 | the string is the signature of the claims `sub` = DNI, `rol` = role and `exp` = expiry second; the record belongs to the user, is neither revoked nor expired, and its lifetime is the configured one truncated to whole seconds |
| Jwt.JwtUtil.ValidateToken | backend/src/main/java/utp/edu/denuncias/security/JwtUtil.java:95-105 | true iff a key exists, the signature checks and the `exp` second has not passed; every failure is false, not an exception |
| Jwt.JwtUtil.ExtractUsername | backend/src/main/java/utp/edu/denuncias/security/JwtUtil.java:79-86 | succeeds exactly when the token validates, giving the verified claims' `sub` (which may be absent); otherwise a `JwtFailure` |
| Jwt.JwtUtil.GetCurrentUsername | backend/src/main/java/utp/edu/denuncias/security/JwtUtil.java:113-119 | the principal's username when the context holds an authenticated identity, and null otherwise |
| Jwt.ExpiryWithinLastSecond | backend/src/main/java/utp/edu/denuncias/security/JwtUtil.java:60 | the `exp` second lies in the last second of the configured lifetime |
| Jwt.GeneratedTokenValidates | backend/src/main/java/utp/edu/denuncias/security/JwtUtil.java:54-105 | with a round-tripping codec an issued token validates exactly up to the instant `exp` inclusive, its subject is the owner's DNI, and its payload decodes to the issued claims |
| Jwt.IssuedRecordIsActive | backend/src/main/java/utp/edu/denuncias/security/JwtUtil.java:64-66 | a stored issued record is among its owner's active tokens |
| Filter.BearerToken | backend/src/main/java/utp/edu/denuncias/security/JwtFilter.java:61-63 | a header is read only if it starts with `Bearer `, and the token is what follows the prefix |
| Filter.BearerHeaderRoundTrip | backend/src/main/java/utp/edu/denuncias/security/JwtFilter.java:63 | prefixing a token with `Bearer ` and reading the header back gives the token |
| Filter.LedgerAccepts | backend/src/main/java/utp/edu/denuncias/security/JwtFilter.java:66-71 | the ledger check: the record found for the string is neither expired nor revoked and expires after now; an unknown string fails (definition; `LedgerAcceptsExactly` states it over the table) |
| Filter.LoadSubject | backend/src/main/java/utp/edu/denuncias/security/JwtFilter.java:82 | `loadUserByUsername` on the extracted subject; a null subject finds no user (definition) |
| Filter.Attach | backend/src/main/java/utp/edu/denuncias/security/JwtFilter.java:85-89 | the authentication built around the loaded identity: authenticated, with the identity's authorities (definition) |
| Filter.LedgerAcceptsExactly | backend/src/main/java/utp/edu/denuncias/security/JwtFilter.java:66-71 | the ledger accepts a stored string iff its record is neither expired nor revoked and its `expiresAt` has not passed |
| Filter.Decide | backend/src/main/java/utp/edu/denuncias/security/JwtFilter.java:61-96 | no bearer header leaves the request anonymous; it is anonymous iff the header, the ledger or the signature check fails; once both checks pass, `UsernameNotFound` escapes iff the subject is null or no enabled user has it as username, and otherwise the identity is that enabled user's. With the single clock reading, no other exception escapes |
| Filter.DecideIntended | backend/src/main/java/utp/edu/denuncias/security/JwtFilter.java:76-82 | the corrected decision, which looks the subject up as a DNI: with the same checks, an exception escapes iff the subject is null or the user holding the DNI is missing or disabled, and otherwise the identity is that user's |
| Filter.RevokedTokenIsRejected | backend/src/main/java/utp/edu/denuncias/security/JwtFilter.java:66-71 | after revocation the next request bearing the token is anonymous, under either decision |
| Filter.RejectedTokenSkipsSignature | backend/src/main/java/utp/edu/denuncias/security/JwtFilter.java:74 | a token the ledger rejects leaves the request anonymous whatever the key and the signing library |
| Filter.IssuedTokenResolvesDniAsUsername | backend/src/main/java/utp/edu/denuncias/security/JwtFilter.java:76-82 | as written, a live issued token throws out of the filter iff no enabled user has the owner's DNI as a username, and otherwise authenticates that user; it is never anonymous |
| Filter.OwnTokenThrowsForUsernameUnlikeDni | backend/src/main/java/utp/edu/denuncias/security/JwtFilter.java:76-82 | as written, a user whose username is not their DNI cannot authenticate with their own live token |
| Filter.IssuedTokenAuthenticatesOwner | backend/src/main/java/utp/edu/denuncias/security/JwtFilter.java:76-89 | corrected, a live token of an enabled stored user authenticates exactly that user with their role authority |
| Filter.DisabledOwnerIsNotAuthenticated | backend/src/main/java/utp/edu/denuncias/security/UserDetailsServiceImpl.java:29-30 | corrected, a disabled owner's live token is refused with `UsernameNotFound` |
| Filter.JwtFilter.DoFilter | backend/src/main/java/utp/edu/denuncias/security/JwtFilter.java:61-100 | the filter writes only the request's security context: it attaches the identity of `Decide`, or leaves the context as it was and reports the escaping exception |
| Filter.FilterFreshRequest | backend/src/main/java/utp/edu/denuncias/security/SecurityConfig.java:70 | with stateless sessions, a request has an identity iff the filter attached one on that request |
| Access.AccessDeniedHandler | backend/src/main/java/utp/edu/denuncias/security/SecurityConfig.java:106-119 | the refusal is status 403 with the fixed Spanish error and message, and the body repeats the status |
| Access.Matches | backend/src/main/java/utp/edu/denuncias/security/SecurityConfig.java:64-68 | an exact pattern matches only its path, a `/**` pattern its base and every path below it, `anyRequest()` every path (definition) |
| Access.RuleMatches | backend/src/main/java/utp/edu/denuncias/security/SecurityConfig.java:64-68 | a `requestMatchers(...)` entry matches when one of its patterns does (definition) |
| Access.Granted | backend/src/main/java/utp/edu/denuncias/security/SecurityConfig.java:64-68 | `permitAll()` always; `authenticated()` with an authenticated identity; `hasAnyRole`/`hasRole` when the identity holds `ROLE_` + one of the names, compared as exact strings (definition) |
| Access.DecidingRule | backend/src/main/java/utp/edu/denuncias/security/SecurityConfig.java:63-69 | the first rule with a matching pattern decides; no earlier rule matches |
| Access.Authorize | backend/src/main/java/utp/edu/denuncias/security/SecurityConfig.java:63-73 | allowed iff the deciding rule's requirement is met; otherwise an anonymous request gets the default entry point's bare 403, and an identified one gets the access-denied handler |
| Access.EveryPathIsDecided | backend/src/main/java/utp/edu/denuncias/security/SecurityConfig.java:68 | the catch-all rule makes some rule decide every path |
| Access.PublicRoutesNeedNoIdentity | backend/src/main/java/utp/edu/denuncias/security/SecurityConfig.java:64 | registration, login and the enum endpoints are allowed with or without an identity |
| Access.UnlistedPathNeedsAnyIdentity | backend/src/main/java/utp/edu/denuncias/security/SecurityConfig.java:68 | a path no listed pattern matches needs an authenticated identity of any role |
| Access.OnlyListedRoutesArePublic | backend/src/main/java/utp/edu/denuncias/security/SecurityConfig.java:64-68 | an anonymous request is allowed only on the three public patterns |
| Access.UsuarioAdminIsShadowed | backend/src/main/java/utp/edu/denuncias/security/SecurityConfig.java:65-67 | as written, `/api/usuario/admin/**` is decided by the USER/MOD/ADMIN rule, so a USER is allowed there |
| Access.SolicitudAdminIsShadowed | backend/src/main/java/utp/edu/denuncias/security/SecurityConfig.java:66-67 | as written, `/api/solicitud/admin/**` is decided by the MOD/ADMIN rule |
| Access.ModeratorMeetsNoRoleEntry | backend/src/main/java/utp/edu/denuncias/security/SecurityConfig.java:65-67 | a `MODERATOR` user carries `ROLE_MODERATOR`, which no `MOD` entry grants, so they are refused on every role-guarded path |
| Access.RestrictedPathsAdmitOnlyAdmin | backend/src/main/java/utp/edu/denuncias/security/SecurityConfig.java:66-67 | as written, the paths the ADMIN rule does decide admit only an ADMIN identity |
| Access.IntendedAdminEntriesAdmitOnlyAdmin | backend/src/main/java/utp/edu/denuncias/security/SecurityConfig.java:67 | corrected (admin rules first), every admin path admits an ADMIN and refuses USER and MODERATOR |
| Access.IntendedModEntriesAdmitModerators | backend/src/main/java/utp/edu/denuncias/security/SecurityConfig.java:66 | corrected (`MODERATOR` in the role lists), a moderator path that is not an admin path admits MODERATOR and ADMIN and refuses USER |
| Errors.NearestIsClosestDeclared | backend/src/main/java/utp/edu/denuncias/exception/GlobalExceptionHandler.java:21-71 | the handler chosen for an exception class is the one declared for its closest ancestor that has a handler |
| Errors.Declared | backend/src/main/java/utp/edu/denuncias/exception/GlobalExceptionHandler.java:21-71 | the four `@ExceptionHandler` methods: the class each handles, its message and its status (definition) |
| Errors.Nearest | backend/src/main/java/utp/edu/denuncias/exception/GlobalExceptionHandler.java:21-71 | the handler chosen for a class: its own, or else its superclass's (definition; `NearestIsClosestDeclared` states its property) |
| Errors.Handle | backend/src/main/java/utp/edu/denuncias/exception/GlobalExceptionHandler.java:21-71 | 404 for `UsernameNotFound`, 401 for `BadCredentials`, 400 for `IllegalArgument`, and 500 "Error inesperado" for every other exception; the body repeats the status, carries the exception's message and is stamped with the current time (`dto/ErrorResponse.java:27-29`) |
| Auth.RegisteredUser | backend/src/main/java/utp/edu/denuncias/service/AuthService.java:38-46 | the new user has the request's username, DNI, email and role, the encoded password, and is enabled |
| Auth.AuthService.Register | backend/src/main/java/utp/edu/denuncias/service/AuthService.java:33-48 | a taken username is an `IllegalArgument` and stores nothing; a DNI or email clash is refused by the table; otherwise exactly the registered user is appended |
| Auth.AuthService.Login | backend/src/main/java/utp/edu/denuncias/service/AuthService.java:62-75 | a failed authentication or an unknown username stores nothing; otherwise the generated token is appended to the ledger with earlier records kept and its string returned, unless the string is already stored |
| Auth.IssuedTokenStaysLive | backend/src/main/java/utp/edu/denuncias/service/AuthService.java:71-74 | a record stored by login stays accepted by the ledger and the signature check for its lifetime less one second |
| Auth.AppendKeepsActiveTokens | backend/src/main/java/utp/edu/denuncias/service/AuthService.java:72 | saving a new token keeps every active token active (sessions coexist) and adds the new one |
| Auth.SameSecondLoginCollides | backend/src/main/java/utp/edu/denuncias/security/JwtUtil.java:57-62 | two logins of one user whose `exp` falls in the same second produce the same string, and the second finds it taken |
| Auth.IntendedClaims | backend/src/main/java/utp/edu/denuncias/security/JwtUtil.java:57-62 | corrected claims: the issued claims plus a `jti` equal to the record id |
| Auth.DistinctJtiTokensDiffer | backend/src/main/java/utp/edu/denuncias/model/Token.java:34-35 | corrected, tokens with distinct `jti` are distinct strings, so the unique column is never violated |
| Complaints.FindDenuncia | backend/src/main/java/utp/edu/denuncias/service/DenunciaService.java:165-166 | `findById` on complaints: a result is stored with the id; none means no row has it |
| Complaints.FindOwned | backend/src/main/java/utp/edu/denuncias/service/DenunciaService.java:142-143 | `findByUsuarioIdAndId`: a result is stored with that id and owner; none means no row has both |
| Complaints.NewDenuncia | backend/src/main/java/utp/edu/denuncias/service/DenunciaService.java:39-45 | a new complaint belongs to the current user, is `PENDIENTE`, has no moderator, is created now (the initializers at `model/Denuncia.java:57` and `:63`) and carries the request's content |
| Complaints.WithContent | backend/src/main/java/utp/edu/denuncias/service/DenunciaService.java:147-150 | an edit sets title, description, place and category from the request and changes nothing else |
| Complaints.RemoveAtKeepsOthers | backend/src/main/java/utp/edu/denuncias/service/DenunciaService.java:205 | deleting a row keeps the key invariant and exactly the other complaints |
| Complaints.ListarDenunciasMod | backend/src/main/java/utp/edu/denuncias/service/DenunciaService.java:112-119 | the full list is exactly the unassigned, unarchived complaints; for the own list, an unknown user is `UsernameNotFound`, and otherwise the result is exactly the unarchived complaints assigned to that user; in both lists each complaint appears as often as stored |
| Complaints.DenunciaRepository.Delete | backend/src/main/java/utp/edu/denuncias/service/DenunciaService.java:205 | `delete` removes exactly that row |
| Complaints.DenunciaService.NuevaDenuncia | backend/src/main/java/utp/edu/denuncias/service/DenunciaService.java:35-47 | an unknown current user is `UsernameNotFound` and stores nothing; otherwise exactly the new complaint is appended with the next id |
| Complaints.DenunciaService.EditarDenuncia | backend/src/main/java/utp/edu/denuncias/service/DenunciaService.java:139-152 | an unknown user, a complaint not owned by them, or a state other than `PENDIENTE` is refused and changes nothing; otherwise only that row's content is replaced |
| Complaints.DenunciaService.CambiarEstadoDenuncia | backend/src/main/java/utp/edu/denuncias/service/DenunciaService.java:164-169 | a missing complaint is a runtime error that changes nothing; otherwise only its state changes |
| Complaints.DenunciaService.AsignarModerador | backend/src/main/java/utp/edu/denuncias/service/DenunciaService.java:180-187 | succeeds iff the complaint and the user exist; then only its moderator changes; errors change nothing |
| Complaints.DenunciaService.EliminarDenuncia | backend/src/main/java/utp/edu/denuncias/service/DenunciaService.java:199-206 | a missing complaint is a runtime error and a complaint not `PENDIENTE` an access-denied error, both changing nothing; otherwise exactly that complaint is removed |
| Complaints.OwnerFindsOwnComplaint | backend/src/main/java/utp/edu/denuncias/service/DenunciaService.java:142-143 | with unique ids, an owner's lookup of their own complaint finds exactly it |
| Complaints.EditIsOwnerScoped | backend/src/main/java/utp/edu/denuncias/service/DenunciaService.java:142-143 | no other user finds someone else's complaint, so no one else can edit it |
| Requests.NewSolicitud | backend/src/main/java/utp/edu/denuncias/model/Solicitud.java:50-110 | the builder defaults: `PENDIENTE`, no answer, no end date, created now; the request's fields are kept |
| Requests.Reviewed | backend/src/main/java/utp/edu/denuncias/service/SolicitudService.java:91-93 | a review sets the state from the verdict, the message to the answer and the reviewer, and nothing else |
| Requests.ReviewOverridesEarlierReview | backend/src/main/java/utp/edu/denuncias/service/SolicitudService.java:86-95 | a second review overrides the first entirely: reviewing is not guarded by the state |
| Requests.FindSolicitud | backend/src/main/java/utp/edu/denuncias/service/SolicitudService.java:89-90 | `findById` on requests: a result is stored with the id; none means no row has it |
| Requests.RevisorFor | backend/src/main/java/utp/edu/denuncias/service/SolicitudService.java:59-63 | only an ADMIN author naming a reviewer gets one, and a missing reviewer is an error; in every other case the reviewer is null |
| Requests.SolicitudService.RealizarSolicitud | backend/src/main/java/utp/edu/denuncias/service/SolicitudService.java:54-73 | succeeds iff the current user, the complaint and the reviewer lookup succeed; then exactly the new request is appended; failures are runtime errors that store nothing |
| Requests.SolicitudService.RevisarSolicitud | backend/src/main/java/utp/edu/denuncias/service/SolicitudService.java:86-95 | succeeds iff the current user and the request exist; then only that row becomes its review by the current user |
| Notifications.FindNotification | backend/src/main/java/utp/edu/denuncias/service/NotificationService.java:64-65 | `findById` on notifications: a result is stored with the id; none means no row has it |
| Notifications.MarkedRelatedChangesOnlyRelated | backend/src/main/java/utp/edu/denuncias/service/NotificationService.java:84-88 | afterwards nothing about the request is unread; other rows, and every field but `read`, are unchanged |
| Notifications.MarkRelatedIsIdempotent | backend/src/main/java/utp/edu/denuncias/service/NotificationService.java:84-88 | marking twice gives the same table as marking once |
| Notifications.MarkedRelated | backend/src/main/java/utp/edu/denuncias/service/NotificationService.java:84-88 | the table after every unread notification about the request is set read (definition; its properties are the two lemmas above) |
| Notifications.NewestFirst | backend/src/main/java/utp/edu/denuncias/service/NotificationService.java:80-82 | ordered by creation date, newest first (definition) |
| Notifications.SortNewestFirst | backend/src/main/java/utp/edu/denuncias/service/NotificationService.java:80-82 | the ordering step of the query: sorted by creation date, newest first, and a permutation of its input |
| Notifications.Inbox | backend/src/main/java/utp/edu/denuncias/service/NotificationService.java:80-82 | exactly the recipient's notifications, each as often as stored, newest first |
| Notifications.NotificationService.Notificar | backend/src/main/java/utp/edu/denuncias/service/NotificationService.java:41-50 | exactly one unread notification with the given fields is appended |
| Notifications.NotificationService.MarcarComoLeida | backend/src/main/java/utp/edu/denuncias/service/NotificationService.java:62-71 | a missing id or a caller other than the recipient is refused and changes nothing; otherwise only that row's `read` becomes true |
| Notifications.NotificationService.ObtenerNotificaciones | backend/src/main/java/utp/edu/denuncias/service/NotificationService.java:80-82 | the query changes nothing and returns the recipient's inbox: their notifications, each as often as stored, newest first |
| Notifications.NotificationService.MarcarRelacionadasComoVistas | backend/src/main/java/utp/edu/denuncias/service/NotificationService.java:84-88 | the loop leaves exactly `MarkedRelated(old rows, request)` |
| Notifications.MarkReadIsIdempotent | backend/src/main/java/utp/edu/denuncias/service/NotificationService.java:69-70 | marking a notification read again finds the same row and leaves the table unchanged |
| Profiles.Patched | backend/src/main/java/utp/edu/denuncias/service/UsuarioService.java:88-99 | each non-null field of the request replaces the user's (the password encoded); every other field is kept |
| Profiles.EmptyPatchKeepsUser | backend/src/main/java/utp/edu/denuncias/service/UsuarioService.java:88-99 | an all-null request leaves the user unchanged |
| Profiles.SameKeysNoClash | backend/src/main/java/utp/edu/denuncias/service/UsuarioService.java:115-116 | saving a row with its own id, username, DNI and email never violates a unique column |
| Profiles.PasswordOrRolePatchNeverClashes | backend/src/main/java/utp/edu/denuncias/service/UsuarioService.java:91-101 | a profile update that changes neither username nor email is never refused by the table |
| Profiles.DisabledUserIsNotCurrent | backend/src/main/java/utp/edu/denuncias/service/UsuarioService.java:141-147 | once disabled, a user is no longer found as an enabled user |
| Profiles.SwitchIsIdempotent | backend/src/main/java/utp/edu/denuncias/service/UsuarioService.java:112-132 | activating or deactivating twice gives the same table as once |
| Profiles.UsuarioService.UpdateUser | backend/src/main/java/utp/edu/denuncias/service/UsuarioService.java:78-102 | a null or `anonymousUser` name and a missing enabled user are runtime errors that change nothing; otherwise the patched user is saved, or refused on a clash |
| Profiles.UsuarioService.SetEnabled | backend/src/main/java/utp/edu/denuncias/service/UsuarioService.java:112-132 | a missing id is a runtime error; otherwise only that user's `enabled` flag is set |
| Profiles.UsuarioService.ActivarUsuario | backend/src/main/java/utp/edu/denuncias/service/UsuarioService.java:112-117 | the user is enabled; a missing id changes nothing |
| Profiles.UsuarioService.DesactivarUsuario | backend/src/main/java/utp/edu/denuncias/service/UsuarioService.java:127-132 | the user is disabled; a missing id changes nothing |
| Profiles.UsuarioService.DesactivarUsuarioActual | backend/src/main/java/utp/edu/denuncias/service/UsuarioService.java:141-147 | the current enabled user is disabled and is no longer found as current; otherwise a runtime error |
| Client.StoredClaim | frontend/src/app/auth/auth.service.ts:24-25 | a missing claim is stored as the string `"undefined"`, and a string claim as itself |
| Client.AfterSave | frontend/src/app/auth/auth.service.ts:21-26 | saving stores the token, the role claim (`role` as written) and the `sub` claim, and no other key changes |
| Client.AfterLogout | frontend/src/app/auth/auth.service.ts:40-47 | logout clears every key except a non-empty theme, which is kept |
| Client.GetItem | frontend/src/app/auth/auth.service.ts:28-38 | `localStorage.getItem`: the stored string iff the key is present, and null otherwise |
| Client.IsUser | frontend/src/app/auth/auth.service.ts:53-55 | the stored role is exactly "USER" (definition) |
| Client.IsMod | frontend/src/app/auth/auth.service.ts:57-59 | the stored role is exactly "MOD" (definition) |
| Client.IsAdmin | frontend/src/app/auth/auth.service.ts:61-63 | the stored role is exactly "ADMIN" (definition) |
| Client.IsTokenExpired | frontend/src/app/auth/auth.service.ts:65-72 | no token counts as expired; an undecodable token throws; otherwise expired iff the current second is past a numeric `exp` |
| Client.IsAuthenticated | frontend/src/app/auth/auth.service.ts:49-51 | authenticated iff a non-empty token is stored and not expired; throws only where the expiry check throws |
| Client.AtMostOneRole | frontend/src/app/auth/auth.service.ts:53-63 | at most one of `isUser`, `isMod` and `isAdmin` holds |
| Client.AuthService.SaveToken | frontend/src/app/auth/auth.service.ts:21-26 | an undecodable token throws before anything is stored; otherwise storage becomes `AfterSave` |
| Client.AuthService.Logout | frontend/src/app/auth/auth.service.ts:40-47 | storage becomes `AfterLogout` |
| Client.LogoutEndsSession | frontend/src/app/auth/auth.service.ts:40-63 | after logout the client is unauthenticated and has no role, and logging out again changes nothing |
| Client.IssuedTokenGivesNoClientRole | frontend/src/app/auth/auth.service.ts:24 | as written, saving a server-issued token stores the role `"undefined"`, so no role check holds |
| Client.IssuedTokenGivesOwnRole | frontend/src/app/auth/auth.service.ts:24 | corrected (the role read from the claim `rol`), saving an issued token stores the owner's role, and exactly the matching role check holds |
| Client.ClientExpiryTrailsServer | frontend/src/app/auth/auth.service.ts:65-72 | for an issued token the client counts itself authenticated exactly up to the `exp` second inclusive, so the client accepts the token whenever the server does |
| Client.Intercept | frontend/src/app/auth/JwtInterceptor.ts:5-22 | a login request or a missing token passes unchanged; otherwise `Authorization: Bearer <token>` is added |
| Client.InterceptedTokenReachesFilter | frontend/src/app/auth/JwtInterceptor.ts:14-18 | the header the interceptor adds is read back by the server filter as exactly the stored token |

## Left out

- Cryptography is a parameter. The HMAC-SHA512 signing library is the `Codec` argument (sign, verify, decode), and its round trip is a hypothesis. BCrypt is the `encode` function.
- Time is a parameter. Each operation takes the current time in milliseconds, and the filter reads one instant for the ledger check and the signature check.
- Filter.Decide: the source parses the token a second time in `extractUsername` (`security/JwtUtil.java:79-86`, called at `security/JwtFilter.java:76`), with its own clock reading and no `catch`. A token whose `exp` passes between the signature check (line 74) and that second parse makes `ExpiredJwtException` escape the filter. The model reads one instant for both parses, so this race is not captured and `UsernameNotFound` is the only exception it lets escape.
- Jwt.Unexpired: the parser's expiry test is modelled with no clock skew allowed, since the code configures none: a token is accepted up to and including the instant `exp * 1000`.
- The browser's payload read (`JSON.parse(atob(...))`) is the codec's `decode`.
- Client.IsTokenExpired: a string-valued `exp` is treated as never expired, although JavaScript would convert a numeric string. The server only issues numeric `exp`.
- Client.AuthService.Logout: the navigation to `/login` is not modelled (routing).
- `AuthenticationManager.authenticate` is not modelled. Login receives its outcome as `authOutcome`.
- Spring's default authentication entry point is only the `Challenge(403)` decision. Its bare 403 response itself is not modelled.
- Entity aliasing is not modelled. A loaded entity that is modified and saved is a row replaced by value. `@Transactional` rollbacks and concurrency are out of scope; each service method runs alone.
- The REST controllers, DTO mapping (`*Response.from`) and the listing queries outside the named functions (`listarUsuarios`, the user's own complaints, and so on) are not part of this model.
- `UsuarioService`'s two id-based switches share the helper `SetEnabled`.
- HTTP header names are compared case-sensitively; `Authorization` is the only one read.
- Filter.JwtFilter.DoFilter: the two `System.out.println` calls are not modelled (console output). They log the raw `Authorization` header, a live bearer credential (`security/JwtFilter.java:58`), and the token's subject (line 79).
- Filter.Attach: the request details that `setDetails(...)` adds to the authentication (`security/JwtFilter.java:92`) are not modelled. Nothing in the core reads them.
- No backend code sets `expired` after issuing. The ledger still checks it, and the model carries it as stored.
- Exception messages built from numbers use a decimal rendering of the id. Only the exception class matters to the handlers.

## Findings

| source | as written | input that shows it | evidently intended | confidence | as-written member | corrected member |
|---|---|---|---|---|---|---|
| backend/src/main/java/utp/edu/denuncias/security/JwtFilter.java:76-82 | the token's subject (the DNI, `JwtUtil.java:58`) is passed to `loadUserByUsername` | a user with username "ana" and DNI "12345678" logs in and sends the issued token: the lookup of "12345678" as a username fails and `UsernameNotFoundException` escapes the filter | look the subject up by DNI (or issue the username as subject) | not executed | Filter.OwnTokenThrowsForUsernameUnlikeDni | Filter.IssuedTokenAuthenticatesOwner |
| backend/src/main/java/utp/edu/denuncias/security/SecurityConfig.java:65-67 | the role lists name `MOD`, but the `Rol` enum value is `MODERATOR`, so moderators carry `ROLE_MODERATOR` | a MODERATOR user requests `/api/denuncia/mod/x`: refused with 403 | grant `MODERATOR` | not executed | Access.ModeratorMeetsNoRoleEntry | Access.IntendedModEntriesAdmitModerators |
| backend/src/main/java/utp/edu/denuncias/security/SecurityConfig.java:65-67 | `/api/usuario/**` comes before `/api/usuario/admin/**`, and `/api/solicitud/**` before `/api/solicitud/admin/**`, so the first match shadows the admin rules | a USER requests `/api/usuario/admin/x`: allowed | admin rules before the broader ones | not executed | Access.UsuarioAdminIsShadowed | Access.IntendedAdminEntriesAdmitOnlyAdmin |
| frontend/src/app/auth/auth.service.ts:24 | stores `payload.role`, but the server issues the claim `rol` | save any issued token: `jwt-role` becomes "undefined" and `isUser`, `isMod` and `isAdmin` are all false | read `payload.rol` | not executed | Client.IssuedTokenGivesNoClientRole | Client.IssuedTokenGivesOwnRole |
| backend/src/main/java/utp/edu/denuncias/security/JwtUtil.java:57-62 | the claims are only `sub`, `rol` and `exp` (in seconds), and the token column is unique (`Token.java:34-35`) | the same user logs in twice within one second: both tokens are the same string and the second save fails with a unique-constraint violation | add a distinguishing claim such as `jti` | not executed | Auth.SameSecondLoginCollides | Auth.DistinctJtiTokensDiffer |
