/** Complaints (`Denuncia`) and the guarded updates `DenunciaService` makes to them.

    The record shape is the one the service code uses: an owner, an optional
    assigned moderator and a state of the shared `Estado` enum. */
module Complaints {
  import opened Common
  import opened Users

  datatype Denuncia = Denuncia(
    id: nat,
    titulo: string,
    descripcion: string,
    lugar: string,
    categoria: string,        // the category's enum name
    estado: Estado,
    usuario: nat,             // the owner's id
    modAsignado: Option<nat>, // the assigned moderator's id, or null
    createdDate: int)

  /** `DenunciaRequest`: the fields a user writes. */
  datatype DenunciaRequest = DenunciaRequest(titulo: string, descripcion: string, lugar: string, categoria: string)

  /** Primary keys are distinct and below the next id to hand out. */
  ghost predicate KeysBelow(rows: seq<Denuncia>, nextId: nat)
  {
    (forall j | 0 <= j < |rows| :: rows[j].id < nextId) &&
    forall i, j | 0 <= i < |rows| && 0 <= j < |rows| && i != j :: rows[i].id != rows[j].id
  }

  /** `findById`. */
  function FindDenuncia(rows: seq<Denuncia>, id: nat): (r: Option<Denuncia>)
    ensures r.Some? ==> r.value in rows && r.value.id == id
    ensures r.None? ==> forall j | 0 <= j < |rows| :: rows[j].id != id
  {
    FindWhere(rows, (d: Denuncia) => d.id == id)
  }

  /** `findByUsuarioIdAndId`: only a complaint owned by `owner` is found. */
  function FindOwned(rows: seq<Denuncia>, owner: nat, id: nat): (r: Option<Denuncia>)
    ensures r.Some? ==> r.value in rows && r.value.id == id && r.value.usuario == owner
    ensures r.None? ==> forall j | 0 <= j < |rows| :: !(rows[j].id == id && rows[j].usuario == owner)
  {
    FindWhere(rows, (d: Denuncia) => d.id == id && d.usuario == owner)
  }

  /** The position of the complaint with primary key `id`. */
  function IndexOfDenuncia(rows: seq<Denuncia>, id: nat): (k: nat)
    requires exists j | 0 <= j < |rows| :: rows[j].id == id
    ensures k < |rows| && rows[k].id == id
  {
    FindFirst(rows, (d: Denuncia) => d.id == id).value
  }

  /** With distinct keys, the complaint with a key is the one at its position. */
  lemma FindDenunciaIsIndexed(rows: seq<Denuncia>, nextId: nat, k: nat)
    requires KeysBelow(rows, nextId) && k < |rows|
    ensures FindDenuncia(rows, rows[k].id) == Some(rows[k])
    ensures IndexOfDenuncia(rows, rows[k].id) == k
  {
    FindFirstIsUnique(rows, (d: Denuncia) => d.id == rows[k].id, k);
  }

  /** A new complaint: owned by the author, in state `PENDIENTE`, unassigned, and
      created now. The state and the date are the entity's field initializers. */
  function NewDenuncia(req: DenunciaRequest, owner: nat, nowMs: int): (d: Denuncia)
    ensures d.usuario == owner && d.estado == PENDIENTE && d.modAsignado.None? && d.createdDate == nowMs
    ensures d.titulo == req.titulo && d.descripcion == req.descripcion
    ensures d.lugar == req.lugar && d.categoria == req.categoria
  {
    Denuncia(0, req.titulo, req.descripcion, req.lugar, req.categoria, PENDIENTE, owner, None, nowMs)
  }

  /** The edit `editarDenuncia` makes: the four content fields from the request. */
  function WithContent(d: Denuncia, req: DenunciaRequest): (e: Denuncia)
    ensures e.titulo == req.titulo && e.descripcion == req.descripcion
    ensures e.lugar == req.lugar && e.categoria == req.categoria
    ensures e.(titulo := d.titulo, descripcion := d.descripcion, lugar := d.lugar, categoria := d.categoria) == d
  {
    d.(titulo := req.titulo, descripcion := req.descripcion, lugar := req.lugar, categoria := req.categoria)
  }

  /** The rows without position `k`. */
  function RemoveAt(rows: seq<Denuncia>, k: nat): (r: seq<Denuncia>)
    requires k < |rows|
    ensures |r| == |rows| - 1
    ensures forall j | 0 <= j < k :: r[j] == rows[j]
    ensures forall j | k <= j < |r| :: r[j] == rows[j + 1]
  {
    rows[..k] + rows[k + 1..]
  }

  /** Removing the row with a key removes that complaint and keeps every other one. */
  lemma RemoveAtKeepsOthers(rows: seq<Denuncia>, nextId: nat, k: nat)
    requires KeysBelow(rows, nextId) && k < |rows|
    ensures KeysBelow(RemoveAt(rows, k), nextId)
    ensures forall d :: d in RemoveAt(rows, k) <==> d in rows && d.id != rows[k].id
  {
    var r := RemoveAt(rows, k);
    forall d | d in rows && d.id != rows[k].id
      ensures d in r
    {
      var j :| 0 <= j < |rows| && rows[j] == d;
      if j < k { assert r[j] == d; } else { assert r[j - 1] == d; }
    }
  }

  /** `listarDenunciasMod(all)`: with `all`, the unassigned complaints not
      `ARCHIVADO`; otherwise the current user's assigned complaints not `ARCHIVADO`,
      and a missing current user is `UsernameNotFoundException`. */
  function ListarDenunciasMod(rows: seq<Denuncia>, users: seq<Usuario>, current: Option<string>, all: bool): (r: Result<seq<Denuncia>>)
    ensures all ==> r.Ok? && forall d :: d in r.value <==> d in rows && d.modAsignado.None? && d.estado != ARCHIVADO
    ensures all ==> r.Ok? && forall d ::
      multiset(r.value)[d] == (if d.modAsignado.None? && d.estado != ARCHIVADO then multiset(rows)[d] else 0)
    ensures !all && FindCurrent(users, current).None? ==> r.Err? && r.exc.UsernameNotFound?
    ensures !all && FindCurrent(users, current).Some? ==>
      r.Ok? && forall d :: d in r.value <==>
        d in rows && d.modAsignado == Some(FindCurrent(users, current).value.id) && d.estado != ARCHIVADO
    ensures !all && FindCurrent(users, current).Some? ==>
      r.Ok? && forall d ::
        multiset(r.value)[d] == (if d.modAsignado == Some(FindCurrent(users, current).value.id) && d.estado != ARCHIVADO then multiset(rows)[d] else 0)
  {
    if all then Ok(Filter(rows, (d: Denuncia) => d.modAsignado.None? && d.estado != ARCHIVADO))
    else match FindCurrent(users, current)
      case None => Err(UsernameNotFound("No se pudo obtener el usuario autenticado"))
      case Some(u) => Ok(Filter(rows, (d: Denuncia) => d.modAsignado == Some(u.id) && d.estado != ARCHIVADO))
  }

  /** The complaint table. */
  class DenunciaRepository {
    var rows: seq<Denuncia>
    var nextId: nat

    ghost predicate Valid()
      reads this
    {
      KeysBelow(rows, nextId)
    }

    constructor ()
      ensures Valid() && rows == [] && nextId == 0
    {
      rows := [];
      nextId := 0;
    }

    /** `save` of a new complaint: it gets the next id. */
    method Insert(d: Denuncia) returns (saved: Denuncia)
      requires Valid()
      modifies this
      ensures Valid()
      ensures saved == d.(id := old(nextId)) && rows == old(rows) + [saved] && nextId == old(nextId) + 1
    {
      saved := d.(id := nextId);
      rows := rows + [saved];
      nextId := nextId + 1;
    }

    /** `save` of a loaded complaint changed through its setters. */
    method Update(d: Denuncia)
      requires Valid() && exists j | 0 <= j < |rows| :: rows[j].id == d.id
      modifies this
      ensures Valid() && nextId == old(nextId)
      ensures rows == old(rows)[IndexOfDenuncia(old(rows), d.id) := d]
    {
      rows := rows[IndexOfDenuncia(rows, d.id) := d];
    }

    /** `deleteDenunciaByIdAndEstado(id, PENDIENTE)` on a row known to be `PENDIENTE`. */
    method Delete(id: nat)
      requires Valid() && exists j | 0 <= j < |rows| :: rows[j].id == id
      modifies this
      ensures Valid() && nextId == old(nextId)
      ensures rows == RemoveAt(old(rows), IndexOfDenuncia(old(rows), id))
    {
      RemoveAtKeepsOthers(rows, nextId, IndexOfDenuncia(rows, id));
      rows := RemoveAt(rows, IndexOfDenuncia(rows, id));
    }
  }

  class DenunciaService {
    const denunciaRepository: DenunciaRepository
    const userRepository: UserRepository

    constructor (denunciaRepository: DenunciaRepository, userRepository: UserRepository)
      ensures this.denunciaRepository == denunciaRepository && this.userRepository == userRepository
    {
      this.denunciaRepository := denunciaRepository;
      this.userRepository := userRepository;
    }

    /** `nuevaDenuncia`: the current user (by `current`, the context's name) must
        exist; the new complaint is theirs, with the request's content. */
    method NuevaDenuncia(current: Option<string>, req: DenunciaRequest, nowMs: int) returns (r: Result<Denuncia>)
      requires denunciaRepository.Valid()
      modifies denunciaRepository
      ensures denunciaRepository.Valid()
      ensures FindCurrent(userRepository.rows, current).None? ==>
        r.Err? && r.exc.UsernameNotFound? && denunciaRepository.rows == old(denunciaRepository.rows)
      ensures FindCurrent(userRepository.rows, current).Some? ==>
        r == Ok(NewDenuncia(req, FindCurrent(userRepository.rows, current).value.id, nowMs).(id := old(denunciaRepository.nextId))) &&
        denunciaRepository.rows == old(denunciaRepository.rows) + [r.value]
    {
      var user := FindCurrent(userRepository.rows, current);
      if user.None? {
        return Err(UsernameNotFound("No se pudo obtener el usuario autenticado"));
      }
      var saved := denunciaRepository.Insert(NewDenuncia(req, user.value.id, nowMs));
      r := Ok(saved);
    }

    /** `editarDenuncia`: only the current user's own complaints are searched, so
        another user's id is "not found" (`RuntimeException`); a complaint not in
        `PENDIENTE` is refused with `AccessDeniedException`; otherwise only the four
        content fields change. Every failure leaves the table as it was. */
    method EditarDenuncia(current: Option<string>, id: nat, req: DenunciaRequest) returns (r: Result<Denuncia>)
      requires denunciaRepository.Valid()
      modifies denunciaRepository
      ensures denunciaRepository.Valid() && denunciaRepository.nextId == old(denunciaRepository.nextId)
      ensures r.Err? ==> denunciaRepository.rows == old(denunciaRepository.rows)
      ensures FindCurrent(userRepository.rows, current).None? ==> r.Err? && r.exc.UsernameNotFound?
      ensures FindCurrent(userRepository.rows, current).Some? ==>
        var owner := FindCurrent(userRepository.rows, current).value.id;
        (FindOwned(old(denunciaRepository.rows), owner, id).None? ==> r.Err? && r.exc.Runtime?) &&
        (FindOwned(old(denunciaRepository.rows), owner, id).Some? ==>
          var d := FindOwned(old(denunciaRepository.rows), owner, id).value;
          (d.estado != PENDIENTE ==> r.Err? && r.exc.AccessDenied?) &&
          (d.estado == PENDIENTE ==>
            r == Ok(WithContent(d, req)) &&
            denunciaRepository.rows == old(denunciaRepository.rows)[IndexOfDenuncia(old(denunciaRepository.rows), id) := r.value]))
    {
      var user := FindCurrent(userRepository.rows, current);
      if user.None? {
        return Err(UsernameNotFound("No se pudo obtener el usuario autenticado"));
      }
      var denuncia := FindOwned(denunciaRepository.rows, user.value.id, id);
      if denuncia.None? {
        return Err(Runtime("La denuncia con el ID " + Decimal(id) + " no existe"));
      }
      if denuncia.value.estado != PENDIENTE {
        return Err(AccessDenied("Solo se pueden editar denuncias en estado PENDIENTE"));
      }
      var edited := WithContent(denuncia.value, req);
      denunciaRepository.Update(edited);
      r := Ok(edited);
    }

    /** `cambiarEstadoDenuncia`: any state may be set from any state; only `estado` changes. */
    method CambiarEstadoDenuncia(id: nat, estado: Estado) returns (r: Result<Denuncia>)
      requires denunciaRepository.Valid()
      modifies denunciaRepository
      ensures denunciaRepository.Valid() && denunciaRepository.nextId == old(denunciaRepository.nextId)
      ensures FindDenuncia(old(denunciaRepository.rows), id).None? ==>
        r.Err? && r.exc.Runtime? && denunciaRepository.rows == old(denunciaRepository.rows)
      ensures FindDenuncia(old(denunciaRepository.rows), id).Some? ==>
        r == Ok(FindDenuncia(old(denunciaRepository.rows), id).value.(estado := estado)) &&
        denunciaRepository.rows == old(denunciaRepository.rows)[IndexOfDenuncia(old(denunciaRepository.rows), id) := r.value]
    {
      var denuncia := FindDenuncia(denunciaRepository.rows, id);
      if denuncia.None? {
        return Err(Runtime("La denuncia con el ID " + Decimal(id) + " no existe"));
      }
      var changed := denuncia.value.(estado := estado);
      denunciaRepository.Update(changed);
      r := Ok(changed);
    }

    /** `asignarModerador`: both the complaint and the user must exist; the user's
        role is not checked. Only `modAsignado` changes. */
    method AsignarModerador(idDenuncia: nat, idModerador: nat) returns (r: Result<Denuncia>)
      requires denunciaRepository.Valid()
      modifies denunciaRepository
      ensures denunciaRepository.Valid() && denunciaRepository.nextId == old(denunciaRepository.nextId)
      ensures r.Err? ==> r.exc.Runtime? && denunciaRepository.rows == old(denunciaRepository.rows)
      ensures r.Ok? <==> FindDenuncia(old(denunciaRepository.rows), idDenuncia).Some? && FindById(userRepository.rows, idModerador).Some?
      ensures r.Ok? ==>
        r.value == FindDenuncia(old(denunciaRepository.rows), idDenuncia).value.(modAsignado := Some(idModerador)) &&
        denunciaRepository.rows == old(denunciaRepository.rows)[IndexOfDenuncia(old(denunciaRepository.rows), idDenuncia) := r.value]
    {
      var denuncia := FindDenuncia(denunciaRepository.rows, idDenuncia);
      if denuncia.None? {
        return Err(Runtime("La denuncia con el ID " + Decimal(idDenuncia) + " no existe"));
      }
      var moderador := FindById(userRepository.rows, idModerador);
      if moderador.None? {
        return Err(Runtime("El moderador con el ID " + Decimal(idModerador) + " no existe"));
      }
      var withMod := denuncia.value.(modAsignado := Some(moderador.value.id));
      denunciaRepository.Update(withMod);
      r := Ok(withMod);
    }

    /** `eliminarDenuncia`: a missing id is `RuntimeException`; a complaint not in
        `PENDIENTE` is refused with `AccessDeniedException` and stays; a `PENDIENTE`
        one is removed. Ownership is not checked. */
    method EliminarDenuncia(id: nat) returns (err: Option<Exc>)
      requires denunciaRepository.Valid()
      modifies denunciaRepository
      ensures denunciaRepository.Valid() && denunciaRepository.nextId == old(denunciaRepository.nextId)
      ensures FindDenuncia(old(denunciaRepository.rows), id).None? ==>
        err.Some? && err.value.Runtime? && denunciaRepository.rows == old(denunciaRepository.rows)
      ensures FindDenuncia(old(denunciaRepository.rows), id).Some? ==>
        var d := FindDenuncia(old(denunciaRepository.rows), id).value;
        (d.estado != PENDIENTE ==>
          err.Some? && err.value.AccessDenied? && denunciaRepository.rows == old(denunciaRepository.rows)) &&
        (d.estado == PENDIENTE ==>
          err == None &&
          forall x :: x in denunciaRepository.rows <==> x in old(denunciaRepository.rows) && x.id != id)
    {
      var denuncia := FindDenuncia(denunciaRepository.rows, id);
      if denuncia.None? {
        return Some(Runtime("La denuncia con el ID " + Decimal(id) + " no existe"));
      }
      if denuncia.value.estado != PENDIENTE {
        return Some(AccessDenied("Solo se pueden eliminar denuncias con estado PENDIENTE"));
      }
      RemoveAtKeepsOthers(denunciaRepository.rows, denunciaRepository.nextId, IndexOfDenuncia(denunciaRepository.rows, id));
      denunciaRepository.Delete(id);
      err := None;
    }
  }

  /** The owner-scoped search finds each complaint for its owner, as stored; so,
      with `editarDenuncia`'s state test, once a complaint has left `PENDIENTE` its
      owner's edits are refused and its content is frozen. */
  lemma OwnerFindsOwnComplaint(rows: seq<Denuncia>, nextId: nat, k: nat)
    requires KeysBelow(rows, nextId) && k < |rows|
    ensures FindOwned(rows, rows[k].usuario, rows[k].id) == Some(rows[k])
  {
    FindFirstIsUnique(rows, (d: Denuncia) => d.id == rows[k].id && d.usuario == rows[k].usuario, k);
  }

  /** Another user's complaint is never found by the owner-scoped search. */
  lemma EditIsOwnerScoped(rows: seq<Denuncia>, nextId: nat, k: nat, other: nat)
    requires KeysBelow(rows, nextId) && k < |rows| && other != rows[k].usuario
    ensures FindOwned(rows, other, rows[k].id).None?
  {
  }
}
