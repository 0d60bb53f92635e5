/** `SecurityConfig.filterChain`'s `authorizeHttpRequests` table and its
    `accessDeniedHandler`.

    A request path is its list of segments ("/api/usuario/admin/x" is
    ["api", "usuario", "admin", "x"]). A pattern "/a/b/**" matches "/a/b" and every
    path below it. The rules are consulted top to bottom and the first rule with a
    matching pattern decides. */
module Access {
  import opened Common
  import opened Security

  type Path = seq<string>

  datatype Pattern =
    | Exact(segments: Path)   // "/registro"
    | Under(base: Path)       // "/api/enum/**"
    | AnyPath                 // anyRequest()

  predicate Matches(p: Pattern, path: Path)
  {
    match p
    case Exact(s) => path == s
    case Under(b) => |b| <= |path| && path[..|b|] == b
    case AnyPath => true
  }

  /** `permitAll()`, `hasAnyRole(...)` / `hasRole(r)` (a one-role list), `authenticated()`. */
  datatype Requirement = PermitAll | HasAnyRole(roles: seq<string>) | IsAuthenticated

  /** `requestMatchers(patterns...).<requirement>` */
  datatype Rule = Rule(patterns: seq<Pattern>, requirement: Requirement)

  predicate RuleMatches(rule: Rule, path: Path)
  {
    exists i | 0 <= i < |rule.patterns| :: Matches(rule.patterns[i], path)
  }

  /** The table as configured. */
  const Table: seq<Rule> := [
    Rule([Exact(["registro"]), Exact(["auth", "login"]), Under(["api", "enum"])], PermitAll),
    Rule([Under(["api", "usuario"]), Under(["api", "denuncia", "usuario"]), Under(["usuario"])],
         HasAnyRole(["USER", "MOD", "ADMIN"])),
    Rule([Under(["api", "usuario", "mod"]), Under(["api", "denuncia", "mod"]), Under(["api", "solicitud"]), Under(["mod"])],
         HasAnyRole(["MOD", "ADMIN"])),
    Rule([Under(["api", "usuario", "admin"]), Under(["api", "denuncia", "admin"]), Under(["api", "solicitud", "admin"]), Under(["admin"])],
         HasAnyRole(["ADMIN"])),
    Rule([AnyPath], IsAuthenticated)
  ]

  /** Whether the requirement is met by the request's identity, if any. A role
      requirement compares the authority "ROLE_" + name against the identity's
      authorities as exact strings. */
  predicate Granted(req: Requirement, auth: Option<Authentication>)
  {
    match req
    case PermitAll => true
    case IsAuthenticated => auth.Some? && auth.value.authenticated
    case HasAnyRole(roles) =>
      auth.Some? && auth.value.authenticated &&
      exists i | 0 <= i < |roles| :: RoleAuthority(roles[i]) in auth.value.authorities
  }

  /** The body `accessDeniedHandler` writes. */
  datatype DeniedBody = DeniedBody(error: string, message: string, status: int)

  /** How the request leaves authorization: allowed through; refused by the
      access-denied handler (an identity is present but lacks the role); or sent to
      the framework's authentication entry point (no identity). With no HTTP Basic,
      no form login and no entry point configured, that entry point is the
      framework's default one, which answers with a bare 403 and no body. */
  datatype Decision =
    | Allow
    | Forbidden(status: int, body: DeniedBody)
    | Challenge(status: int)

  /** `accessDeniedHandler`: status 403 and a JSON body whose `status` is 403 too. */
  function AccessDeniedHandler(): (d: Decision)
    ensures d.Forbidden? && d.status == 403 && d.body.status == d.status
    ensures d.body.error == "Acceso denegado"
    ensures d.body.message == "No tienes permisos para acceder a este recurso."
  {
    Forbidden(403, DeniedBody("Acceso denegado", "No tienes permisos para acceder a este recurso.", 403))
  }

  /** The rule that decides for `path`: the first one with a matching pattern. */
  function DecidingRule(table: seq<Rule>, path: Path): (r: Option<nat>)
    ensures r.Some? ==> r.value < |table| && RuleMatches(table[r.value], path)
    ensures r.Some? ==> forall k | 0 <= k < r.value :: !RuleMatches(table[k], path)
    ensures r.None? ==> forall k | 0 <= k < |table| :: !RuleMatches(table[k], path)
  {
    FindFirst(table, (rule: Rule) => RuleMatches(rule, path))
  }

  /** The authorization decision. A path no rule matches is refused. */
  function Authorize(table: seq<Rule>, path: Path, auth: Option<Authentication>): (d: Decision)
    ensures d.Allow? <==> DecidingRule(table, path).Some? && Granted(table[DecidingRule(table, path).value].requirement, auth)
    ensures d.Challenge? <==> !d.Allow? && auth.None?
    ensures d.Challenge? ==> d.status == 403
    ensures d.Forbidden? ==> d == AccessDeniedHandler()
  {
    var granted := match DecidingRule(table, path)
      case None => false
      case Some(k) => Granted(table[k].requirement, auth);
    if granted then Allow
    else if auth.None? then Challenge(403)
    else AccessDeniedHandler()
  }

  /** The identity the filter attaches for a user of role `r`. */
  predicate HasRoleIdentity(auth: Authentication, r: Rol)
  {
    auth.authenticated && auth.authorities == [RoleAuthority(RolName(r))]
  }

  /** The catch-all rule guarantees that some rule decides every path. */
  lemma EveryPathIsDecided(path: Path)
    ensures DecidingRule(Table, path).Some?
  {
    assert Matches(Table[4].patterns[0], path);
  }

  /** "/registro", "/auth/login" and everything under "/api/enum" are allowed with
      or without an identity. */
  lemma PublicRoutesNeedNoIdentity(path: Path, auth: Option<Authentication>)
    requires path == ["registro"] || path == ["auth", "login"] || (2 <= |path| && path[..2] == ["api", "enum"])
    ensures Authorize(Table, path, auth) == Allow
  {
    if path == ["registro"] {
      assert Matches(Table[0].patterns[0], path);
    } else if path == ["auth", "login"] {
      assert Matches(Table[0].patterns[1], path);
    } else {
      assert Matches(Table[0].patterns[2], path);
    }
  }

  /** A path that no listed pattern matches falls to `anyRequest().authenticated()`:
      any identity, of any role, is enough, and without one the request is challenged. */
  lemma UnlistedPathNeedsAnyIdentity(path: Path, auth: Option<Authentication>)
    requires forall k | 0 <= k < 4 :: !RuleMatches(Table[k], path)
    ensures Authorize(Table, path, auth) == Allow <==> auth.Some? && auth.value.authenticated
    ensures auth.None? ==> Authorize(Table, path, auth) == Challenge(403)
  {
    assert Matches(Table[4].patterns[0], path);
    assert DecidingRule(Table, path) == Some(4);
  }

  /** No path is public except the three listed entries. */
  lemma OnlyListedRoutesArePublic(path: Path)
    ensures Authorize(Table, path, None) == Allow <==> RuleMatches(Table[0], path)
  {
    EveryPathIsDecided(path);
  }

  /** Shadowing: "/api/usuario/mod/**" and "/api/usuario/admin/**" are first matched
      by "/api/usuario/**", so their own entries never decide and every role allowed
      there (USER included) gets through. */
  lemma UsuarioAdminIsShadowed(path: Path, auth: Authentication, r: Rol)
    requires 3 <= |path| && (path[..3] == ["api", "usuario", "admin"] || path[..3] == ["api", "usuario", "mod"])
    requires HasRoleIdentity(auth, r)
    ensures DecidingRule(Table, path) == Some(1)
    ensures Authorize(Table, path, Some(auth)) == Allow <==> r == USER || r == ADMIN
  {
    assert path[0] == "api" && path[1] == "usuario";
    assert path[..2] != ["api", "enum"];
    assert Matches(Table[1].patterns[0], path);
    assert !RuleMatches(Table[0], path);
    assert RoleAuthority("USER") != RoleAuthority("MODERATOR");
    assert RoleAuthority("MOD") != RoleAuthority("MODERATOR");
    assert RoleAuthority("ADMIN") != RoleAuthority("MODERATOR");
  }

  /** Shadowing: "/api/solicitud/admin/**" is first matched by "/api/solicitud/**",
      so the "MOD" role name is let in alongside ADMIN. */
  lemma SolicitudAdminIsShadowed(path: Path)
    requires 3 <= |path| && path[..3] == ["api", "solicitud", "admin"]
    ensures DecidingRule(Table, path) == Some(2)
    ensures Table[2].requirement == HasAnyRole(["MOD", "ADMIN"])
  {
    assert path[0] == "api" && path[1] == "solicitud";
    assert path[..2] != ["api", "enum"] && path[..2] != ["api", "usuario"];
    assert Matches(Table[2].patterns[2], path);
    assert !RuleMatches(Table[0], path);
    assert !RuleMatches(Table[1], path);
  }

  /** Role names are compared as exact strings and the table says "MOD": an identity
      of role MODERATOR meets none of the role-scoped entries. */
  lemma ModeratorMeetsNoRoleEntry(k: nat, auth: Authentication)
    requires 1 <= k <= 3
    requires HasRoleIdentity(auth, MODERATOR)
    ensures !Granted(Table[k].requirement, Some(auth))
  {
    assert RoleAuthority("USER") != RoleAuthority("MODERATOR");
    assert RoleAuthority("MOD") != RoleAuthority("MODERATOR");
    assert RoleAuthority("ADMIN") != RoleAuthority("MODERATOR");
  }

  /** "/mod/**", "/admin/**", "/api/denuncia/mod/**" and "/api/denuncia/admin/**" are
      not covered by earlier entries, so their restrictions apply; with the role names
      as written, only ADMIN passes any of them, and a refused identity gets the 403. */
  lemma RestrictedPathsAdmitOnlyAdmin(path: Path, auth: Authentication, r: Rol)
    requires
      (1 <= |path| && (path[..1] == ["mod"] || path[..1] == ["admin"])) ||
      (3 <= |path| && (path[..3] == ["api", "denuncia", "mod"] || path[..3] == ["api", "denuncia", "admin"]))
    requires HasRoleIdentity(auth, r)
    ensures Authorize(Table, path, Some(auth)) == (if r == ADMIN then Allow else AccessDeniedHandler())
  {
    assert RoleAuthority("USER") != RoleAuthority("ADMIN");
    assert RoleAuthority("MOD") != RoleAuthority("ADMIN");
    assert RoleAuthority("USER") != RoleAuthority("MODERATOR");
    assert RoleAuthority("MOD") != RoleAuthority("MODERATOR");
    assert RoleAuthority("ADMIN") != RoleAuthority("MODERATOR");
    if 1 <= |path| && path[..1] == ["mod"] {
      assert path[0] == "mod";
      assert Matches(Table[2].patterns[3], path);
      assert !RuleMatches(Table[0], path) && !RuleMatches(Table[1], path);
    } else if 1 <= |path| && path[..1] == ["admin"] {
      assert path[0] == "admin";
      assert Matches(Table[3].patterns[3], path);
      assert !RuleMatches(Table[0], path) && !RuleMatches(Table[1], path) && !RuleMatches(Table[2], path);
    } else if path[..3] == ["api", "denuncia", "mod"] {
      assert path[0] == "api" && path[1] == "denuncia" && path[2] == "mod";
      assert path[..2] != ["api", "enum"] && path[..2] != ["api", "usuario"] && path[..2] != ["api", "solicitud"];
      assert Matches(Table[2].patterns[1], path);
      assert !RuleMatches(Table[0], path) && !RuleMatches(Table[1], path);
    } else {
      assert path[0] == "api" && path[1] == "denuncia" && path[2] == "admin";
      assert path[..2] != ["api", "enum"] && path[..2] != ["api", "usuario"] && path[..2] != ["api", "solicitud"];
      assert path[..3] != ["api", "denuncia", "usuario"] && path[..3] != ["api", "denuncia", "mod"];
      assert Matches(Table[3].patterns[1], path);
      assert !RuleMatches(Table[0], path) && !RuleMatches(Table[1], path) && !RuleMatches(Table[2], path);
    }
  }

  /** The table as evidently intended: the stricter entries come before the broader
      ones, and the moderator role is named as the `Rol` enum names it. */
  const IntendedTable: seq<Rule> := [
    Table[0],
    Rule(Table[3].patterns, HasAnyRole(["ADMIN"])),
    Rule(Table[2].patterns, HasAnyRole(["MODERATOR", "ADMIN"])),
    Rule(Table[1].patterns, HasAnyRole(["USER", "MODERATOR", "ADMIN"])),
    Table[4]
  ]

  /** Corrected: every admin entry, "/api/usuario/admin/**" and
      "/api/solicitud/admin/**" included, admits only ADMIN. */
  lemma IntendedAdminEntriesAdmitOnlyAdmin(path: Path, auth: Authentication, r: Rol)
    requires RuleMatches(Table[3], path)
    requires HasRoleIdentity(auth, r)
    ensures Authorize(IntendedTable, path, Some(auth)) == (if r == ADMIN then Allow else AccessDeniedHandler())
  {
    var i :| 0 <= i < 4 && Matches(Table[3].patterns[i], path);
    assert path[0] == "api" || path[0] == "admin";
    assert !RuleMatches(IntendedTable[0], path);
    assert RuleMatches(IntendedTable[1], path);
    assert RoleAuthority("ADMIN") != RoleAuthority("USER");
    assert RoleAuthority("ADMIN") != RoleAuthority("MODERATOR");
  }

  /** Corrected: a moderator entry not also an admin entry admits MODERATOR and ADMIN
      and refuses USER. */
  lemma IntendedModEntriesAdmitModerators(path: Path, auth: Authentication, r: Rol)
    requires RuleMatches(Table[2], path) && !RuleMatches(Table[3], path)
    requires HasRoleIdentity(auth, r)
    ensures Authorize(IntendedTable, path, Some(auth)) == (if r == USER then AccessDeniedHandler() else Allow)
  {
    var i :| 0 <= i < 4 && Matches(Table[2].patterns[i], path);
    assert path[0] == "api" || path[0] == "mod";
    assert !RuleMatches(IntendedTable[0], path);
    assert RuleMatches(IntendedTable[2], path);
    assert RoleAuthority("USER") != RoleAuthority("MODERATOR");
    assert RoleAuthority("USER") != RoleAuthority("ADMIN");
  }
}
