/** The `Usuario` entity and the user table behind `UserRepository`. */
module Users {
  import opened Common

  /** One row of the user table. `enabled` defaults to true on construction. */
  datatype Usuario = Usuario(
    id: nat,
    nombres: string,
    apellidos: string,
    username: string,
    password: string,
    dni: string,
    email: string,
    rol: Rol,
    enabled: bool)

  /** A new, not yet persisted user: `@Builder.Default enabled = true`; the id is assigned on save. */
  function NewUsuario(nombres: string, apellidos: string, username: string, password: string,
                      dni: string, email: string, rol: Rol): (u: Usuario)
    ensures u.enabled
    ensures u.username == username && u.password == password && u.dni == dni
    ensures u.email == email && u.rol == rol
  {
    Usuario(0, nombres, apellidos, username, password, dni, email, rol, true)
  }

  /** Two users clash on one of the unique columns `username`, `dni`, `email`. */
  predicate Clash(a: Usuario, b: Usuario)
  {
    a.username == b.username || a.dni == b.dni || a.email == b.email
  }

  /** Saving `u` would violate a unique column against some other row. */
  predicate ClashesWithOthers(rows: seq<Usuario>, u: Usuario)
  {
    exists j | 0 <= j < |rows| :: rows[j].id != u.id && Clash(rows[j], u)
  }

  /** The table's constraints: primary key and the three unique, non-null columns. */
  ghost predicate UniqueColumns(rows: seq<Usuario>)
  {
    forall i, j | 0 <= i < |rows| && 0 <= j < |rows| && i != j ::
      rows[i].id != rows[j].id && !Clash(rows[i], rows[j])
  }

  function FindById(rows: seq<Usuario>, id: nat): (r: Option<Usuario>)
    ensures r.Some? ==> r.value in rows && r.value.id == id
    ensures r.None? ==> forall j | 0 <= j < |rows| :: rows[j].id != id
  {
    FindWhere(rows, (u: Usuario) => u.id == id)
  }

  /** `findByUsername`. */
  function FindByUsername(rows: seq<Usuario>, name: string): (r: Option<Usuario>)
    ensures r.Some? ==> r.value in rows && r.value.username == name
    ensures r.None? ==> forall j | 0 <= j < |rows| :: rows[j].username != name
  {
    FindWhere(rows, (u: Usuario) => u.username == name)
  }

  /** `findByUsernameAndEnabledTrue`: only enabled users are found. */
  function FindEnabledByUsername(rows: seq<Usuario>, name: string): (r: Option<Usuario>)
    ensures r.Some? ==> r.value in rows && r.value.username == name && r.value.enabled
    ensures r.None? ==> forall j | 0 <= j < |rows| :: !(rows[j].username == name && rows[j].enabled)
  {
    FindWhere(rows, (u: Usuario) => u.username == name && u.enabled)
  }

  /** `findByDni`. */
  function FindByDni(rows: seq<Usuario>, dni: string): (r: Option<Usuario>)
    ensures r.Some? ==> r.value in rows && r.value.dni == dni
    ensures r.None? ==> forall j | 0 <= j < |rows| :: rows[j].dni != dni
  {
    FindWhere(rows, (u: Usuario) => u.dni == dni)
  }

  /** The security context's name for the current user, or null: the lookup
      every service does with `findByUsername(getCurrentUsername())`. */
  function FindCurrent(rows: seq<Usuario>, current: Option<string>): (r: Option<Usuario>)
    ensures r.Some? ==> current.Some? && r.value in rows && r.value.username == current.value
    ensures r.None? ==> current.None? || forall j | 0 <= j < |rows| :: rows[j].username != current.value
  {
    match current
    case None => None
    case Some(name) => FindByUsername(rows, name)
  }

  /** Same, restricted to enabled users (`findByUsernameAndEnabledTrue`). */
  function FindCurrentEnabled(rows: seq<Usuario>, current: Option<string>): (r: Option<Usuario>)
    ensures r.Some? ==> current.Some? && r.value in rows && r.value.username == current.value && r.value.enabled
    ensures r.None? ==> current.None? || forall j | 0 <= j < |rows| :: !(rows[j].username == current.value && rows[j].enabled)
  {
    match current
    case None => None
    case Some(name) => FindEnabledByUsername(rows, name)
  }

  /** With unique usernames, the username lookup returns the one row holding that name. */
  lemma UsernameLookupIsExact(rows: seq<Usuario>, i: nat)
    requires UniqueColumns(rows) && i < |rows|
    ensures FindByUsername(rows, rows[i].username) == Some(rows[i])
  {
    FindFirstIsUnique(rows, (u: Usuario) => u.username == rows[i].username, i);
  }

  /** With unique DNIs, the DNI lookup returns the one row holding that DNI. */
  lemma DniLookupIsExact(rows: seq<Usuario>, i: nat)
    requires UniqueColumns(rows) && i < |rows|
    ensures FindByDni(rows, rows[i].dni) == Some(rows[i])
  {
    FindFirstIsUnique(rows, (u: Usuario) => u.dni == rows[i].dni, i);
  }

  /** The position of the row with primary key `id`. */
  function IndexOfId(rows: seq<Usuario>, id: nat): (k: nat)
    requires exists j | 0 <= j < |rows| :: rows[j].id == id
    ensures k < |rows| && rows[k].id == id
  {
    FindFirst(rows, (u: Usuario) => u.id == id).value
  }

  /** The user table. `save` of a new entity appends a row with a fresh id;
      `save` of a loaded entity replaces its row. A unique-column clash makes
      `save` fail and leaves the table as it was. */
  class UserRepository {
    var rows: seq<Usuario>
    var nextId: nat

    ghost predicate Valid()
      reads this
    {
      UniqueColumns(rows) && forall j | 0 <= j < |rows| :: rows[j].id < nextId
    }

    constructor ()
      ensures Valid() && rows == [] && nextId == 0
    {
      rows := [];
      nextId := 0;
    }

    /** `save` of a new entity. */
    method Insert(u: Usuario) returns (r: Result<Usuario>)
      requires Valid()
      modifies this
      ensures Valid()
      ensures ClashesWithOthers(old(rows), u.(id := old(nextId))) ==>
        r.Err? && r.exc.DataIntegrityViolation? && rows == old(rows) && nextId == old(nextId)
      ensures !ClashesWithOthers(old(rows), u.(id := old(nextId))) ==>
        r == Ok(u.(id := old(nextId))) && rows == old(rows) + [r.value] && nextId == old(nextId) + 1
    {
      var row := u.(id := nextId);
      if exists j | 0 <= j < |rows| :: rows[j].id != row.id && Clash(rows[j], row) {
        r := Err(DataIntegrityViolation("duplicate key value violates unique constraint"));
      } else {
        rows := rows + [row];
        nextId := nextId + 1;
        r := Ok(row);
      }
    }

    /** `save` of an entity loaded from this table and changed through its setters. */
    method Update(u: Usuario) returns (r: Result<Usuario>)
      requires Valid()
      requires exists j | 0 <= j < |rows| :: rows[j].id == u.id
      modifies this
      ensures Valid() && nextId == old(nextId)
      ensures ClashesWithOthers(old(rows), u) ==>
        r.Err? && r.exc.DataIntegrityViolation? && rows == old(rows)
      ensures !ClashesWithOthers(old(rows), u) ==>
        r == Ok(u) && rows == old(rows)[IndexOfId(old(rows), u.id) := u]
    {
      if exists j | 0 <= j < |rows| :: rows[j].id != u.id && Clash(rows[j], u) {
        r := Err(DataIntegrityViolation("duplicate key value violates unique constraint"));
      } else {
        var k := IndexOfId(rows, u.id);
        rows := rows[k := u];
        r := Ok(u);
      }
    }
  }
}
