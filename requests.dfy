/** Requests about a complaint (`Solicitud`), their defaults, and how
    `SolicitudService` files and reviews them. */
module Requests {
  import opened Common
  import opened Users
  import Complaints

  /** The `TipoSolicitud` enum. */
  datatype TipoSolicitud = ASIGNAR_MODERADOR | CAMBIO_ESTADO | ELIMINAR_DENUNCIA | REABRIR_DENUNCIA | INTERN_COMMUNICATION

  datatype Solicitud = Solicitud(
    id: nat,
    titulo: string,
    msg: string,
    respuesta: Option<string>,
    denuncia: nat,           // the complaint's id
    autor: nat,              // the author's id
    revisor: Option<nat>,    // the reviewer's id, or null
    estado: Estado,
    tipoSolicitud: TipoSolicitud,
    createdDate: int,
    endDate: Option<int>)

  /** `SolicitudRequest`: `idRevisor` may be null. */
  datatype SolicitudRequest = SolicitudRequest(
    titulo: string, msg: string, idDenuncia: nat, idRevisor: Option<nat>, tipoSolicitud: TipoSolicitud)

  /** `SolicitudRevisionRequest`. */
  datatype RevisionRequest = RevisionRequest(id: nat, aprobado: bool, mensajeRespuesta: string)

  /** A request as the builder makes it: the `@Builder.Default` fields give state
      `PENDIENTE`, no answer, no end date, and the creation time. */
  function NewSolicitud(titulo: string, msg: string, denuncia: nat, autor: nat, revisor: Option<nat>,
                        tipo: TipoSolicitud, nowMs: int): (s: Solicitud)
    ensures s.estado == PENDIENTE && s.respuesta.None? && s.endDate.None? && s.createdDate == nowMs
    ensures s.titulo == titulo && s.msg == msg && s.denuncia == denuncia && s.autor == autor
    ensures s.revisor == revisor && s.tipoSolicitud == tipo
  {
    Solicitud(0, titulo, msg, None, denuncia, autor, revisor, PENDIENTE, tipo, nowMs, None)
  }

  /** The review of `s` by user `revisor`: the state from the verdict, the message
      replaced by the answer text, the reviewer replaced. */
  function Reviewed(s: Solicitud, aprobado: bool, mensaje: string, revisor: nat): (t: Solicitud)
    ensures t.estado == (if aprobado then RESUELTO else RECHAZADO)
    ensures t.msg == mensaje && t.revisor == Some(revisor)
    ensures t.(estado := s.estado, msg := s.msg, revisor := s.revisor) == s
  {
    s.(estado := if aprobado then RESUELTO else RECHAZADO, msg := mensaje, revisor := Some(revisor))
  }

  /** A review depends on the verdict and the reviewer only, not on the state or
      reviewer the request had: an already-reviewed request can be reviewed again,
      and the last review wins. */
  lemma ReviewOverridesEarlierReview(s: Solicitud, a1: bool, m1: string, r1: nat, a2: bool, m2: string, r2: nat)
    ensures Reviewed(Reviewed(s, a1, m1, r1), a2, m2, r2) == Reviewed(s, a2, m2, r2)
  {
  }

  ghost predicate KeysBelow(rows: seq<Solicitud>, nextId: nat)
  {
    (forall j | 0 <= j < |rows| :: rows[j].id < nextId) &&
    forall i, j | 0 <= i < |rows| && 0 <= j < |rows| && i != j :: rows[i].id != rows[j].id
  }

  /** `findById`. */
  function FindSolicitud(rows: seq<Solicitud>, id: nat): (r: Option<Solicitud>)
    ensures r.Some? ==> r.value in rows && r.value.id == id
    ensures r.None? ==> forall j | 0 <= j < |rows| :: rows[j].id != id
  {
    FindWhere(rows, (s: Solicitud) => s.id == id)
  }

  function IndexOfSolicitud(rows: seq<Solicitud>, id: nat): (k: nat)
    requires exists j | 0 <= j < |rows| :: rows[j].id == id
    ensures k < |rows| && rows[k].id == id
  {
    FindFirst(rows, (s: Solicitud) => s.id == id).value
  }

  /** The reviewer `realizarSolicitud` records: only an ADMIN author who names one
      gets a reviewer, and it must exist (`Err` otherwise); in every other case null. */
  function RevisorFor(users: seq<Usuario>, autor: Usuario, idRevisor: Option<nat>): (r: Result<Option<nat>>)
    ensures !(autor.rol == ADMIN && idRevisor.Some?) ==> r == Ok(None)
    ensures autor.rol == ADMIN && idRevisor.Some? ==>
      (FindById(users, idRevisor.value).Some? ==> r == Ok(idRevisor)) &&
      (FindById(users, idRevisor.value).None? ==> r.Err? && r.exc.Runtime?)
  {
    if autor.rol == ADMIN && idRevisor.Some? then
      match FindById(users, idRevisor.value)
      case None => Err(Runtime("No se pudo obtener el usuario con ID " + Decimal(idRevisor.value)))
      case Some(u) => Ok(Some(u.id))
    else Ok(None)
  }

  /** The request table. */
  class SolicitudRepository {
    var rows: seq<Solicitud>
    var nextId: nat

    ghost predicate Valid()
      reads this
    {
      KeysBelow(rows, nextId)
    }

    constructor ()
      ensures Valid() && rows == [] && nextId == 0
    {
      rows := [];
      nextId := 0;
    }

    method Insert(s: Solicitud) returns (saved: Solicitud)
      requires Valid()
      modifies this
      ensures Valid()
      ensures saved == s.(id := old(nextId)) && rows == old(rows) + [saved] && nextId == old(nextId) + 1
    {
      saved := s.(id := nextId);
      rows := rows + [saved];
      nextId := nextId + 1;
    }

    method Update(s: Solicitud)
      requires Valid() && exists j | 0 <= j < |rows| :: rows[j].id == s.id
      modifies this
      ensures Valid() && nextId == old(nextId)
      ensures rows == old(rows)[IndexOfSolicitud(old(rows), s.id) := s]
    {
      rows := rows[IndexOfSolicitud(rows, s.id) := s];
    }
  }

  class SolicitudService {
    const solicitudRepository: SolicitudRepository
    const userRepository: UserRepository
    const denunciaRepository: Complaints.DenunciaRepository

    constructor (solicitudRepository: SolicitudRepository, userRepository: UserRepository, denunciaRepository: Complaints.DenunciaRepository)
      ensures this.solicitudRepository == solicitudRepository && this.userRepository == userRepository
      ensures this.denunciaRepository == denunciaRepository
    {
      this.solicitudRepository := solicitudRepository;
      this.userRepository := userRepository;
      this.denunciaRepository := denunciaRepository;
    }

    /** `realizarSolicitud`: the current user and the complaint must exist, and a
        named reviewer of an ADMIN author too; any failure is a `RuntimeException`
        and saves nothing. Otherwise exactly one request is saved. */
    method RealizarSolicitud(current: Option<string>, req: SolicitudRequest, nowMs: int) returns (err: Option<Exc>)
      requires solicitudRepository.Valid()
      modifies solicitudRepository
      ensures solicitudRepository.Valid()
      ensures err.Some? ==> err.value.Runtime? && solicitudRepository.rows == old(solicitudRepository.rows)
      ensures err.None? <==>
        FindCurrent(userRepository.rows, current).Some? &&
        Complaints.FindDenuncia(denunciaRepository.rows, req.idDenuncia).Some? &&
        RevisorFor(userRepository.rows, FindCurrent(userRepository.rows, current).value, req.idRevisor).Ok?
      ensures err.None? ==>
        var autor := FindCurrent(userRepository.rows, current).value;
        var revisor := RevisorFor(userRepository.rows, autor, req.idRevisor).value;
        solicitudRepository.rows == old(solicitudRepository.rows) +
          [NewSolicitud(req.titulo, req.msg, req.idDenuncia, autor.id, revisor, req.tipoSolicitud, nowMs).(id := old(solicitudRepository.nextId))]
    {
      var autor := FindCurrent(userRepository.rows, current);
      if autor.None? {
        return Some(Runtime("No se pudo obtener el usuario autenticado"));
      }
      var denuncia := Complaints.FindDenuncia(denunciaRepository.rows, req.idDenuncia);
      if denuncia.None? {
        return Some(Runtime("No se pudo obtener la denuncia con ID " + Decimal(req.idDenuncia)));
      }
      var revisor := RevisorFor(userRepository.rows, autor.value, req.idRevisor);
      if revisor.Err? {
        return Some(revisor.exc);
      }
      var s := NewSolicitud(req.titulo, req.msg, denuncia.value.id, autor.value.id, revisor.value, req.tipoSolicitud, nowMs);
      var _ := solicitudRepository.Insert(s);
      err := None;
    }

    /** `revisarSolicitud`: the current user and the request must exist
        (`RuntimeException` otherwise, nothing changed); the request is reviewed by
        the current user whatever its state; `respuesta` is left as it was. */
    method RevisarSolicitud(current: Option<string>, req: RevisionRequest) returns (r: Result<Solicitud>)
      requires solicitudRepository.Valid()
      modifies solicitudRepository
      ensures solicitudRepository.Valid() && solicitudRepository.nextId == old(solicitudRepository.nextId)
      ensures r.Err? ==> r.exc.Runtime? && solicitudRepository.rows == old(solicitudRepository.rows)
      ensures r.Ok? <==> FindCurrent(userRepository.rows, current).Some? && FindSolicitud(old(solicitudRepository.rows), req.id).Some?
      ensures r.Ok? ==>
        r.value == Reviewed(FindSolicitud(old(solicitudRepository.rows), req.id).value, req.aprobado,
                            req.mensajeRespuesta, FindCurrent(userRepository.rows, current).value.id) &&
        solicitudRepository.rows == old(solicitudRepository.rows)[IndexOfSolicitud(old(solicitudRepository.rows), req.id) := r.value]
    {
      var revisor := FindCurrent(userRepository.rows, current);
      if revisor.None? {
        return Err(Runtime("No se pudo obtener el usuario autenticado"));
      }
      var solicitud := FindSolicitud(solicitudRepository.rows, req.id);
      if solicitud.None? {
        return Err(Runtime("No se pudo obtener la solicitud con ID " + Decimal(req.id)));
      }
      var reviewed := Reviewed(solicitud.value, req.aprobado, req.mensajeRespuesta, revisor.value.id);
      solicitudRepository.Update(reviewed);
      r := Ok(reviewed);
    }
  }
}
