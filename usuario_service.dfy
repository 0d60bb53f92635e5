/** `UsuarioService`: the partial update of the current user's profile, and the
    enable/disable switches. */
module Profiles {
  import opened Common
  import opened Users

  /** `UsuarioUpdateRequest`: each field may be null, meaning "keep". */
  datatype UsuarioUpdateRequest = UsuarioUpdateRequest(
    username: Option<string>, password: Option<string>, email: Option<string>, rol: Option<Rol>)

  /** `u` after the setters `updateUser` calls: each non-null request field
      overwrites the stored one (the password through the encoder), a null field
      keeps it, and no other field changes. The role is taken as given. */
  function Patched(u: Usuario, req: UsuarioUpdateRequest, encode: string -> string): (p: Usuario)
    ensures p.username == (if req.username.Some? then req.username.value else u.username)
    ensures p.password == (if req.password.Some? then encode(req.password.value) else u.password)
    ensures p.email == (if req.email.Some? then req.email.value else u.email)
    ensures p.rol == (if req.rol.Some? then req.rol.value else u.rol)
    ensures p.(username := u.username, password := u.password, email := u.email, rol := u.rol) == u
  {
    var u1 := if req.username.Some? then u.(username := req.username.value) else u;
    var u2 := if req.password.Some? then u1.(password := encode(req.password.value)) else u1;
    var u3 := if req.email.Some? then u2.(email := req.email.value) else u2;
    if req.rol.Some? then u3.(rol := req.rol.value) else u3
  }

  /** A request of all nulls changes nothing. */
  lemma EmptyPatchKeepsUser(u: Usuario, encode: string -> string)
    ensures Patched(u, UsuarioUpdateRequest(None, None, None, None), encode) == u
  {
  }

  /** A row changed only outside its unique columns clashes with no other row, so
      saving it cannot fail. */
  lemma SameKeysNoClash(rows: seq<Usuario>, k: nat, u: Usuario)
    requires UniqueColumns(rows) && k < |rows|
    requires u.id == rows[k].id && u.username == rows[k].username && u.dni == rows[k].dni && u.email == rows[k].email
    ensures !ClashesWithOthers(rows, u)
  {
    forall j | 0 <= j < |rows| && rows[j].id != u.id
      ensures !Clash(rows[j], u)
    {
      assert j != k;
    }
  }

  /** A patch that sets neither the username nor the email (a new password, a new
      role, or both) never clashes, so the update of an existing user succeeds. */
  lemma PasswordOrRolePatchNeverClashes(rows: seq<Usuario>, k: nat, req: UsuarioUpdateRequest, encode: string -> string)
    requires UniqueColumns(rows) && k < |rows| && req.username.None? && req.email.None?
    ensures !ClashesWithOthers(rows, Patched(rows[k], req, encode))
  {
    SameKeysNoClash(rows, k, Patched(rows[k], req, encode));
  }

  /** Once the current user has disabled their own account, the enabled-user lookup
      no longer finds their name, so a second self-deactivation (or any other
      lookup of the current user) fails. */
  lemma DisabledUserIsNotCurrent(rows: seq<Usuario>, k: nat)
    requires UniqueColumns(rows) && k < |rows|
    ensures FindEnabledByUsername(rows[k := rows[k].(enabled := false)], rows[k].username).None?
  {
    var after := rows[k := rows[k].(enabled := false)];
    forall j | 0 <= j < |after|
      ensures !(after[j].username == rows[k].username && after[j].enabled)
    {
      if j != k {
        assert !Clash(rows[j], rows[k]);
      }
    }
  }

  /** Switching the flag a second time to the same value leaves the row as the
      first switch left it. */
  lemma SwitchIsIdempotent(rows: seq<Usuario>, k: nat, enabled: bool)
    requires k < |rows|
    ensures var once := rows[k := rows[k].(enabled := enabled)];
      once[k := once[k].(enabled := enabled)] == once
  {
  }

  class UsuarioService {
    const userRepository: UserRepository
    /** `PasswordEncoder.encode`. */
    const encode: string -> string

    constructor (userRepository: UserRepository, encode: string -> string)
      ensures this.userRepository == userRepository && this.encode == encode
    {
      this.userRepository := userRepository;
      this.encode := encode;
    }

    /** `updateUser`. A null or "anonymousUser" name is a `RuntimeException`, and so
        is a name no enabled user has; then nothing changes. Otherwise the user is
        patched and saved, which fails only on a unique-column clash. */
    method UpdateUser(current: Option<string>, req: UsuarioUpdateRequest) returns (r: Result<Usuario>)
      requires userRepository.Valid()
      modifies userRepository
      ensures userRepository.Valid() && userRepository.nextId == old(userRepository.nextId)
      ensures current.None? || current.value == "anonymousUser" ==>
        r == Err(Runtime("No se pudo obtener el usuario autenticado")) && userRepository.rows == old(userRepository.rows)
      ensures current.Some? && current.value != "anonymousUser" && FindEnabledByUsername(old(userRepository.rows), current.value).None? ==>
        r == Err(Runtime("Usuario con " + current.value + ", no encontrado")) && userRepository.rows == old(userRepository.rows)
      ensures current.Some? && current.value != "anonymousUser" && FindEnabledByUsername(old(userRepository.rows), current.value).Some? ==>
        var p := Patched(FindEnabledByUsername(old(userRepository.rows), current.value).value, req, encode);
        (ClashesWithOthers(old(userRepository.rows), p) ==>
           r.Err? && r.exc.DataIntegrityViolation? && userRepository.rows == old(userRepository.rows)) &&
        (!ClashesWithOthers(old(userRepository.rows), p) ==>
           r == Ok(p) && userRepository.rows == old(userRepository.rows)[IndexOfId(old(userRepository.rows), p.id) := p])
    {
      if current.None? || current.value == "anonymousUser" {
        return Err(Runtime("No se pudo obtener el usuario autenticado"));
      }
      var username := current.value;
      var usuario := FindEnabledByUsername(userRepository.rows, username);
      if usuario.None? {
        return Err(Runtime("Usuario con " + username + ", no encontrado"));
      }
      var p := Patched(usuario.value, req, encode);
      r := userRepository.Update(p);
    }

    /** `activarUsuario` and `desactivarUsuario(id)`: a missing id is a
        `RuntimeException` and changes nothing; otherwise that user's `enabled`
        becomes `enabled` and nothing else changes. */
    method SetEnabled(id: nat, enabled: bool) returns (err: Option<Exc>)
      requires userRepository.Valid()
      modifies userRepository
      ensures userRepository.Valid() && userRepository.nextId == old(userRepository.nextId)
      ensures FindById(old(userRepository.rows), id).None? ==>
        err == Some(Runtime("Usuario con ID" + Decimal(id) + " no encontrado")) && userRepository.rows == old(userRepository.rows)
      ensures FindById(old(userRepository.rows), id).Some? ==>
        var k := IndexOfId(old(userRepository.rows), id);
        err == None && userRepository.rows == old(userRepository.rows)[k := old(userRepository.rows)[k].(enabled := enabled)]
    {
      var usuario := FindById(userRepository.rows, id);
      if usuario.None? {
        return Some(Runtime("Usuario con ID" + Decimal(id) + " no encontrado"));
      }
      ghost var k := IndexOfId(userRepository.rows, id);
      assert usuario.value == userRepository.rows[k];
      SameKeysNoClash(userRepository.rows, k, usuario.value.(enabled := enabled));
      var _ := userRepository.Update(usuario.value.(enabled := enabled));
      err := None;
    }

    /** `activarUsuario`. */
    method ActivarUsuario(id: nat) returns (err: Option<Exc>)
      requires userRepository.Valid()
      modifies userRepository
      ensures userRepository.Valid() && userRepository.nextId == old(userRepository.nextId)
      ensures FindById(old(userRepository.rows), id).None? ==> err.Some? && err.value.Runtime? && userRepository.rows == old(userRepository.rows)
      ensures FindById(old(userRepository.rows), id).Some? ==>
        var k := IndexOfId(old(userRepository.rows), id);
        err == None && userRepository.rows == old(userRepository.rows)[k := old(userRepository.rows)[k].(enabled := true)]
    {
      err := SetEnabled(id, true);
    }

    /** `desactivarUsuario(id)`. Only the flag changes: the user's tokens are not
        revoked (the token ledger is not in this method's frame). */
    method DesactivarUsuario(id: nat) returns (err: Option<Exc>)
      requires userRepository.Valid()
      modifies userRepository
      ensures userRepository.Valid() && userRepository.nextId == old(userRepository.nextId)
      ensures FindById(old(userRepository.rows), id).None? ==> err.Some? && err.value.Runtime? && userRepository.rows == old(userRepository.rows)
      ensures FindById(old(userRepository.rows), id).Some? ==>
        var k := IndexOfId(old(userRepository.rows), id);
        err == None && userRepository.rows == old(userRepository.rows)[k := old(userRepository.rows)[k].(enabled := false)]
    {
      err := SetEnabled(id, false);
    }

    /** `desactivarUsuario()`: the current user must be enabled (a
        `RuntimeException` otherwise, nothing changed); their flag becomes false. */
    method DesactivarUsuarioActual(current: Option<string>) returns (err: Option<Exc>)
      requires userRepository.Valid()
      modifies userRepository
      ensures userRepository.Valid() && userRepository.nextId == old(userRepository.nextId)
      ensures FindCurrentEnabled(old(userRepository.rows), current).None? ==>
        err == Some(Runtime("No se pudo obtener el usuario autenticado")) && userRepository.rows == old(userRepository.rows)
      ensures FindCurrentEnabled(old(userRepository.rows), current).Some? ==>
        var k := IndexOfId(old(userRepository.rows), FindCurrentEnabled(old(userRepository.rows), current).value.id);
        err == None && userRepository.rows == old(userRepository.rows)[k := old(userRepository.rows)[k].(enabled := false)] &&
        FindCurrentEnabled(userRepository.rows, current).None?
    {
      var usuario := FindCurrentEnabled(userRepository.rows, current);
      if usuario.None? {
        return Some(Runtime("No se pudo obtener el usuario autenticado"));
      }
      ghost var k := IndexOfId(userRepository.rows, usuario.value.id);
      assert usuario.value == userRepository.rows[k];
      SameKeysNoClash(userRepository.rows, k, usuario.value.(enabled := false));
      DisabledUserIsNotCurrent(userRepository.rows, k);
      var _ := userRepository.Update(usuario.value.(enabled := false));
      err := None;
    }
  }
}
