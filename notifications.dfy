/** Notifications to users and `NotificationService`: sending one, marking one
    read by its recipient, marking every unread one about a request read, and the
    recipient's inbox, newest first. */
module Notifications {
  import opened Common

  /** One notification, with the fields the service reads and writes. `read`
      starts false. */
  datatype Notification = Notification(
    id: nat,
    titulo: string,
    message: string,
    createdDate: int,
    denuncia: Option<nat>,    // the complaint's id, or null
    solicitud: Option<nat>,   // the request's id, or null
    destinatario: nat,        // the recipient's user id
    read: bool)

  ghost predicate KeysBelow(rows: seq<Notification>, nextId: nat)
  {
    (forall j | 0 <= j < |rows| :: rows[j].id < nextId) &&
    forall i, j | 0 <= i < |rows| && 0 <= j < |rows| && i != j :: rows[i].id != rows[j].id
  }

  /** `findById`. */
  function FindNotification(rows: seq<Notification>, id: nat): (r: Option<Notification>)
    ensures r.Some? ==> r.value in rows && r.value.id == id
    ensures r.None? ==> forall j | 0 <= j < |rows| :: rows[j].id != id
  {
    FindWhere(rows, (n: Notification) => n.id == id)
  }

  function IndexOfNotification(rows: seq<Notification>, id: nat): (k: nat)
    requires exists j | 0 <= j < |rows| :: rows[j].id == id
    ensures k < |rows| && rows[k].id == id
  {
    FindFirst(rows, (n: Notification) => n.id == id).value
  }

  /** Whether `n` is one `findBySolicitudAndReadFalse(solicitud)` returns. */
  predicate UnreadAbout(n: Notification, solicitud: nat)
  {
    n.solicitud == Some(solicitud) && !n.read
  }

  /** The table after every unread notification about `solicitud` is marked read. */
  function MarkedRelated(rows: seq<Notification>, solicitud: nat): seq<Notification>
  {
    seq(|rows|, i requires 0 <= i < |rows| =>
      if UnreadAbout(rows[i], solicitud) then rows[i].(read := true) else rows[i])
  }

  /** Afterwards nothing about the request is unread; rows about other requests, and
      every field but `read`, are unchanged. */
  lemma MarkedRelatedChangesOnlyRelated(rows: seq<Notification>, solicitud: nat, j: nat)
    requires j < |rows|
    ensures |MarkedRelated(rows, solicitud)| == |rows|
    ensures !UnreadAbout(MarkedRelated(rows, solicitud)[j], solicitud)
    ensures MarkedRelated(rows, solicitud)[j].(read := rows[j].read) == rows[j]
    ensures rows[j].solicitud != Some(solicitud) ==> MarkedRelated(rows, solicitud)[j] == rows[j]
    ensures rows[j].solicitud == Some(solicitud) ==> MarkedRelated(rows, solicitud)[j].read
  {
  }

  /** Marking twice leaves the same table as marking once. */
  lemma MarkRelatedIsIdempotent(rows: seq<Notification>, solicitud: nat)
    ensures MarkedRelated(MarkedRelated(rows, solicitud), solicitud) == MarkedRelated(rows, solicitud)
  {
  }

  /** The list is ordered by `createdDate`, newest first. */
  ghost predicate NewestFirst(s: seq<Notification>)
  {
    forall i, j | 0 <= i < j < |s| :: s[i].createdDate >= s[j].createdDate
  }

  /** `n` placed in a newest-first list before the first entry no newer than it. */
  function InsertNewestFirst(n: Notification, s: seq<Notification>): (r: seq<Notification>)
    requires NewestFirst(s)
    ensures NewestFirst(r)
    ensures multiset(r) == multiset(s) + multiset{n}
  {
    if s == [] then [n]
    else if n.createdDate >= s[0].createdDate then [n] + s
    else
      var rest := InsertNewestFirst(n, s[1..]);
      assert s == [s[0]] + s[1..];
      HeadIsNewest(s[0], n, s[1..], rest);
      [s[0]] + rest
  }

  /** A list whose elements are those of a list no newer than `h`, plus an `n` no
      newer than `h`, still has `h` at its head once `h` is put in front. */
  lemma HeadIsNewest(h: Notification, n: Notification, s: seq<Notification>, rest: seq<Notification>)
    requires NewestFirst([h] + s) && NewestFirst(rest) && n.createdDate < h.createdDate
    requires multiset(rest) == multiset(s) + multiset{n}
    ensures NewestFirst([h] + rest)
  {
    forall j | 0 <= j < |rest|
      ensures rest[j].createdDate <= h.createdDate
    {
      assert rest[j] in multiset(rest);
      if rest[j] != n {
        assert rest[j] in multiset(s);
        var i :| 0 <= i < |s| && s[i] == rest[j];
        assert ([h] + s)[0] == h && ([h] + s)[i + 1] == s[i];
      }
    }
  }

  /** The list sorted newest first (a stable insertion sort). */
  function SortNewestFirst(s: seq<Notification>): (r: seq<Notification>)
    ensures NewestFirst(r)
    ensures multiset(r) == multiset(s)
  {
    if s == [] then []
    else
      assert s == [s[0]] + s[1..];
      InsertNewestFirst(s[0], SortNewestFirst(s[1..]))
  }

  /** `findAllByDestinatarioIdOrderByCreatedDateDesc(id)`: the recipient's
      notifications, each exactly as often as stored, newest first. */
  function Inbox(rows: seq<Notification>, destinatario: nat): (r: seq<Notification>)
    ensures NewestFirst(r)
    ensures forall n :: n in r <==> n in rows && n.destinatario == destinatario
    ensures forall n :: multiset(r)[n] == if n.destinatario == destinatario then multiset(rows)[n] else 0
    ensures |r| <= |rows|
  {
    var mine := Filter(rows, (n: Notification) => n.destinatario == destinatario);
    var r := SortNewestFirst(mine);
    assert forall n :: n in r <==> n in multiset(r);
    assert forall n :: n in mine <==> n in multiset(mine);
    r
  }

  /** The notification table. */
  class NotificationRepository {
    var rows: seq<Notification>
    var nextId: nat

    ghost predicate Valid()
      reads this
    {
      KeysBelow(rows, nextId)
    }

    constructor ()
      ensures Valid() && rows == [] && nextId == 0
    {
      rows := [];
      nextId := 0;
    }

    method Insert(n: Notification) returns (saved: Notification)
      requires Valid()
      modifies this
      ensures Valid()
      ensures saved == n.(id := old(nextId)) && rows == old(rows) + [saved] && nextId == old(nextId) + 1
    {
      saved := n.(id := nextId);
      rows := rows + [saved];
      nextId := nextId + 1;
    }

    method Update(n: Notification)
      requires Valid() && exists j | 0 <= j < |rows| :: rows[j].id == n.id
      modifies this
      ensures Valid() && nextId == old(nextId)
      ensures rows == old(rows)[IndexOfNotification(old(rows), n.id) := n]
    {
      rows := rows[IndexOfNotification(rows, n.id) := n];
    }
  }

  class NotificationService {
    const notificationRepository: NotificationRepository

    constructor (notificationRepository: NotificationRepository)
      ensures this.notificationRepository == notificationRepository
    {
      this.notificationRepository := notificationRepository;
    }

    /** `notificar`: exactly one unread notification with the given fields is added. */
    method Notificar(destinatario: nat, titulo: string, mensaje: string, denuncia: Option<nat>,
                     solicitud: Option<nat>, nowMs: int)
      requires notificationRepository.Valid()
      modifies notificationRepository
      ensures notificationRepository.Valid()
      ensures notificationRepository.rows == old(notificationRepository.rows) +
        [Notification(old(notificationRepository.nextId), titulo, mensaje, nowMs, denuncia, solicitud, destinatario, false)]
    {
      var n := Notification(0, titulo, mensaje, nowMs, denuncia, solicitud, destinatario, false);
      var _ := notificationRepository.Insert(n);
    }

    /** `marcarComoLeida`: a missing id is a `RuntimeException`, a caller other than
        the recipient an `AccessDeniedException`; in both cases nothing changes.
        Otherwise that notification's `read` becomes true and nothing else changes. */
    method MarcarComoLeida(id: nat, usuario: nat) returns (err: Option<Exc>)
      requires notificationRepository.Valid()
      modifies notificationRepository
      ensures notificationRepository.Valid() && notificationRepository.nextId == old(notificationRepository.nextId)
      ensures FindNotification(old(notificationRepository.rows), id).None? ==>
        err == Some(Runtime("Notificación no encontrada")) &&
        notificationRepository.rows == old(notificationRepository.rows)
      ensures FindNotification(old(notificationRepository.rows), id).Some? ==>
        var n := FindNotification(old(notificationRepository.rows), id).value;
        (n.destinatario != usuario ==>
           err == Some(AccessDenied("No puedes marcar como leída esta notificación")) &&
           notificationRepository.rows == old(notificationRepository.rows)) &&
        (n.destinatario == usuario ==>
           err == None &&
           notificationRepository.rows ==
             old(notificationRepository.rows)[IndexOfNotification(old(notificationRepository.rows), id) := n.(read := true)])
    {
      var found := FindNotification(notificationRepository.rows, id);
      if found.None? {
        return Some(Runtime("Notificación no encontrada"));
      }
      var n := found.value;
      if n.destinatario != usuario {
        return Some(AccessDenied("No puedes marcar como leída esta notificación"));
      }
      notificationRepository.Update(n.(read := true));
      err := None;
    }

    /** `obtenerNotificaciones`: a query, nothing changes. */
    method ObtenerNotificaciones(destinatario: nat) returns (r: seq<Notification>)
      ensures r == Inbox(notificationRepository.rows, destinatario)
    {
      r := Inbox(notificationRepository.rows, destinatario);
    }

    /** `marcarNotificacionesRelacionadasComoVistas`: every unread notification about
        the request is set read, one at a time, and saved. */
    method MarcarRelacionadasComoVistas(solicitud: nat)
      requires notificationRepository.Valid()
      modifies notificationRepository
      ensures notificationRepository.Valid() && notificationRepository.nextId == old(notificationRepository.nextId)
      ensures notificationRepository.rows == MarkedRelated(old(notificationRepository.rows), solicitud)
    {
      var repo := notificationRepository;
      ghost var before := repo.rows;
      var i := 0;
      while i < |repo.rows|
        invariant 0 <= i <= |repo.rows| == |before|
        invariant forall j | 0 <= j < i :: repo.rows[j] == MarkedRelated(before, solicitud)[j]
        invariant forall j | i <= j < |repo.rows| :: repo.rows[j] == before[j]
        invariant repo.nextId == old(repo.nextId)
      {
        if UnreadAbout(repo.rows[i], solicitud) {
          repo.rows := repo.rows[i := repo.rows[i].(read := true)];
        }
        i := i + 1;
      }
      assert forall j | 0 <= j < |before| :: repo.rows[j].id == before[j].id;
    }
  }

  /** Marking a notification read a second time, by its recipient, succeeds and
      changes nothing more: the row is already read. */
  lemma MarkReadIsIdempotent(rows: seq<Notification>, nextId: nat, id: nat)
    requires KeysBelow(rows, nextId) && FindNotification(rows, id).Some?
    ensures var k := IndexOfNotification(rows, id);
      var once := rows[k := rows[k].(read := true)];
      FindNotification(once, id) == Some(rows[k].(read := true)) &&
      IndexOfNotification(once, id) == k &&
      once[k := once[k].(read := true)] == once
  {
    var k := IndexOfNotification(rows, id);
    var once := rows[k := rows[k].(read := true)];
    assert forall j | 0 <= j < |once| && j != k :: once[j].id != id;
    FindFirstIsUnique(once, (n: Notification) => n.id == id, k);
  }
}
