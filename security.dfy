/** The identity the gateway attaches to a request, the request-scoped security
    context that holds it, and `UserDetailsServiceImpl.loadUserByUsername`. */
module Security {
  import opened Common
  import opened Users

  /** Spring's `UserDetails` as built by `User.builder()`. */
  datatype UserDetails = UserDetails(username: string, password: string, authorities: seq<string>)

  /** An authentication placed in the security context. */
  datatype Authentication = Authentication(principal: UserDetails, authorities: seq<string>, authenticated: bool)

  /** The authority `User.builder().roles(r)` grants for role name `r`. */
  function RoleAuthority(role: string): string
  {
    "ROLE_" + role
  }

  /** The identity `loadUserByUsername` builds for a stored user: the stored username
      and password hash, and the single role authority of the user's `Rol`. */
  function DetailsOf(u: Usuario): UserDetails
  {
    UserDetails(u.username, u.password, [RoleAuthority(RolName(u.rol))])
  }

  /** The request's security context. A new request starts with no authentication:
      sessions are stateless, so nothing is carried over from earlier requests. */
  class SecurityContext {
    var authentication: Option<Authentication>

    constructor ()
      ensures authentication == None
    {
      authentication := None;
    }
  }

  /** `UserDetailsServiceImpl.loadUserByUsername`: only an enabled user with that
      username is found; the identity carries the stored username and password hash
      unchanged and the single authority for the user's role. */
  function LoadUserByUsername(users: seq<Usuario>, username: string): (r: Result<UserDetails>)
    ensures r.Err? <==> forall j | 0 <= j < |users| :: !(users[j].username == username && users[j].enabled)
    ensures r.Err? ==> r.exc.UsernameNotFound?
    ensures r.Ok? ==> exists j | 0 <= j < |users| ::
      users[j].username == username && users[j].enabled &&
      r.value == DetailsOf(users[j])
  {
    match FindEnabledByUsername(users, username)
    case None => Err(UsernameNotFound("No encontrado"))
    case Some(u) => Ok(DetailsOf(u))
  }

  /** With unique usernames the identity is that of the one row holding the name. */
  lemma LoadUserFindsRow(users: seq<Usuario>, i: nat)
    requires UniqueColumns(users) && i < |users| && users[i].enabled
    ensures LoadUserByUsername(users, users[i].username) == Ok(DetailsOf(users[i]))
  {
    UsernameLookupIsExact(users, i);
    assert FindEnabledByUsername(users, users[i].username) == Some(users[i]);
  }
}
