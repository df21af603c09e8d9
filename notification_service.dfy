/** NotificationService: the in-app notification table (append an unread
    row, mark one read, list a user's unread rows newest first) and the
    per-event senders, each limited to the row it writes. Message texts are
    rendered by the caller and passed in; publishing to the event bus and
    sending e-mail are outside the model. */
module NotificationService {
  import opened Base
  import opened Entities
  import opened Store

  /** The NotificationType tag each sender writes. */
  const ReminderTag: string := "Reminder"
  const CancellationTag: string := "Cancellation"
  const ApprovalTag: string := "Approval"
  const RejectionTag: string := "Rejection"
  const RescheduleTag: string := "Reschedule"
  const CompletionTag: string := "Completion"
  const PrescriptionTag: string := "Prescription"

  // ---------------------------------------------------------------------------
  // CreateNotificationAsync
  // ---------------------------------------------------------------------------

  /** The row CreateNotificationAsync adds once the database has assigned it
      the key `id`: unread, stamped with the current UTC time, Status left at
      its default. */
  function NewNotification(id: int, userId: string, message: string, notificationType: string,
                           relatedEntityId: Option<int>, utcNow: int): (n: Notification)
    ensures n.id == id && n.userId == userId && n.createdAt == utcNow
    ensures n.message == Some(message) && n.notificationType == Some(notificationType)
    ensures n.relatedEntityId == relatedEntityId
    ensures !n.isRead && n.status == Unread
  {
    Notification(id, userId, Some(message), utcNow, false, Some(notificationType), relatedEntityId, Unread)
  }

  method CreateNotification(ctx: Context, userId: string, message: string, notificationType: string,
                            relatedEntityId: Option<int>, utcNow: int) returns (row: Notification)
    requires ctx.Valid()
    modifies ctx`notifications, ctx`nextNotificationId
    ensures ctx.Valid()
    ensures row == NewNotification(old(ctx.nextNotificationId), userId, message, notificationType, relatedEntityId, utcNow)
    ensures ctx.notifications == old(ctx.notifications) + [row]
    ensures ctx.nextNotificationId == old(ctx.nextNotificationId) + 1
  {
    row := ctx.InsertNotification(NewNotification(0, userId, message, notificationType, relatedEntityId, utcNow));
  }

  // ---------------------------------------------------------------------------
  // MarkAsReadAsync
  // ---------------------------------------------------------------------------

  /** The table after MarkAsReadAsync(id): the row with that key, if any,
      has IsRead set; every other row and every other field is as before. */
  function MarkRead(ns: seq<Notification>, id: int): (r: seq<Notification>)
    ensures |r| == |ns|
    ensures forall i :: 0 <= i < |ns| ==>
      r[i] == ns[i] || (ns[i].id == id && r[i] == ns[i].(isRead := true))
    ensures (forall i :: 0 <= i < |ns| ==> ns[i].id != id) ==> r == ns
  {
    var i := IndexOf(ns, NotificationKey, id);
    if i < 0 then ns else ns[i := ns[i].(isRead := true)]
  }

  method MarkAsRead(ctx: Context, id: int)
    requires ctx.Valid()
    modifies ctx`notifications
    ensures ctx.Valid()
    ensures ctx.notifications == MarkRead(old(ctx.notifications), id)
  {
    var i := IndexOf(ctx.notifications, NotificationKey, id);
    if 0 <= i {
      ReplaceKeepsKeysValid(ctx.notifications, NotificationKey, ctx.nextNotificationId, i,
                            ctx.notifications[i].(isRead := true));
      ctx.notifications := ctx.notifications[i := ctx.notifications[i].(isRead := true)];
    }
  }

  /** Marking the same notification read twice is the same as once. */
  lemma MarkReadIdempotent(ns: seq<Notification>, id: int)
    ensures MarkRead(MarkRead(ns, id), id) == MarkRead(ns, id)
  {
    var i := IndexOf(ns, NotificationKey, id);
    if 0 <= i {
      var once := MarkRead(ns, id);
      assert IndexOf(once, NotificationKey, id) == i by {
        var k := IndexOf(once, NotificationKey, id);
        assert 0 <= k <= i;
        assert once[k].id == ns[k].id;
      }
    }
  }

  /** With distinct keys, the row with that key ends up read and no row is
      marked unread. */
  lemma MarkReadMarksTheRow(ns: seq<Notification>, next: int, id: int)
    requires KeysValid(ns, NotificationKey, next)
    ensures forall i :: 0 <= i < |ns| && ns[i].id == id ==> MarkRead(ns, id)[i].isRead
    ensures forall i :: 0 <= i < |ns| && MarkRead(ns, id)[i].isRead != ns[i].isRead ==> ns[i].id == id
  {
    forall i | 0 <= i < |ns| && ns[i].id == id ensures MarkRead(ns, id)[i].isRead {
      KeyedIndexUnique(ns, NotificationKey, next, id, i);
    }
  }

  // ---------------------------------------------------------------------------
  // GetUserNotificationsAsync
  // ---------------------------------------------------------------------------

  predicate UnreadFor(n: Notification, userId: string) {
    n.userId == userId && !n.isRead
  }

  /** The user's unread notifications, newest CreatedAt first. */
  function GetUserNotifications(ns: seq<Notification>, userId: string): (r: seq<Notification>)
    ensures forall n :: n in r <==> n in ns && UnreadFor(n, userId)
    ensures forall n :: multiset(r)[n] == if UnreadFor(n, userId) then multiset(ns)[n] else 0
    ensures forall i, j :: 0 <= i < j < |r| ==> r[i].createdAt >= r[j].createdAt
  {
    var mine := Filter(ns, n => UnreadFor(n, userId));
    var r := SortBy(mine, NewestFirst, NoKey);
    assert forall n :: n in r <==> n in multiset(r);
    assert forall n :: n in mine <==> n in multiset(mine);
    r
  }

  /** A notification just created for a user is listed among that user's
      unread notifications. */
  lemma CreatedIsListed(ns: seq<Notification>, row: Notification)
    requires !row.isRead
    ensures row in GetUserNotifications(ns + [row], row.userId)
  {
  }

  /** After MarkAsReadAsync(id) the notification with that key is no longer
      listed, and every other listed notification still is. */
  lemma MarkReadUnlists(ns: seq<Notification>, next: int, id: int, userId: string)
    requires KeysValid(ns, NotificationKey, next)
    ensures forall n :: n in GetUserNotifications(MarkRead(ns, id), userId) ==> n.id != id
    ensures forall n :: n in GetUserNotifications(ns, userId) && n.id != id ==>
      n in GetUserNotifications(MarkRead(ns, id), userId)
  {
    var m := MarkRead(ns, id);
    MarkReadMarksTheRow(ns, next, id);
    forall n | n in GetUserNotifications(m, userId) ensures n.id != id {
      var i :| 0 <= i < |m| && m[i] == n;
      assert m[i].id == ns[i].id;
    }
    forall n | n in GetUserNotifications(ns, userId) && n.id != id
      ensures n in GetUserNotifications(m, userId)
    {
      var i :| 0 <= i < |ns| && ns[i] == n;
      assert m[i] == n;
    }
  }

  // ---------------------------------------------------------------------------
  // The per-event senders
  // ---------------------------------------------------------------------------

  /** What a sender addressed to a patient produces: it looks the patient up
      by key and dereferences it, so a missing patient is a null dereference
      and writes nothing; otherwise one unread row for the patient's user. */
  function PatientNotice(patients: seq<Patient>, id: int, patientId: int, message: string, tag: string,
                         relatedEntityId: int, utcNow: int): (r: Result<Notification, Failure>)
    ensures r.Err? <==> FindPatient(patients, patientId).None?
    ensures r.Err? ==> r.error == NullReference
    ensures r.Ok? ==> exists p :: p in patients && p.id == patientId && r.value.userId == p.userId
    ensures r.Ok? ==> r.value == NewNotification(id, r.value.userId, message, tag, Some(relatedEntityId), utcNow)
  {
    match FindPatient(patients, patientId)
    case None => Err(NullReference)
    case Some(p) => Ok(NewNotification(id, p.userId, message, tag, Some(relatedEntityId), utcNow))
  }

  method NotifyPatient(ctx: Context, patientId: int, message: string, tag: string,
                       relatedEntityId: int, utcNow: int) returns (r: Result<Notification, Failure>)
    requires ctx.Valid()
    modifies ctx`notifications, ctx`nextNotificationId
    ensures ctx.Valid()
    ensures r == PatientNotice(ctx.patients, old(ctx.nextNotificationId), patientId, message, tag, relatedEntityId, utcNow)
    ensures ctx.notifications == old(ctx.notifications) + (if r.Ok? then [r.value] else [])
    ensures ctx.nextNotificationId == old(ctx.nextNotificationId) + (if r.Ok? then 1 else 0)
  {
    var patient := FindPatient(ctx.patients, patientId);
    if patient.None? {
      return Err(NullReference);
    }
    var row := CreateNotification(ctx, patient.value.userId, message, tag, Some(relatedEntityId), utcNow);
    r := Ok(row);
  }

  method SendAppointmentReminder(ctx: Context, a: Appointment, message: string, utcNow: int)
    returns (r: Result<Notification, Failure>)
    requires ctx.Valid()
    modifies ctx`notifications, ctx`nextNotificationId
    ensures ctx.Valid()
    ensures r == PatientNotice(ctx.patients, old(ctx.nextNotificationId), a.patientId, message, ReminderTag, a.id, utcNow)
    ensures ctx.notifications == old(ctx.notifications) + (if r.Ok? then [r.value] else [])
    ensures ctx.nextNotificationId == old(ctx.nextNotificationId) + (if r.Ok? then 1 else 0)
  {
    r := NotifyPatient(ctx, a.patientId, message, ReminderTag, a.id, utcNow);
  }

  method SendAppointmentCancellation(ctx: Context, a: Appointment, message: string, utcNow: int)
    returns (r: Result<Notification, Failure>)
    requires ctx.Valid()
    modifies ctx`notifications, ctx`nextNotificationId
    ensures ctx.Valid()
    ensures r == PatientNotice(ctx.patients, old(ctx.nextNotificationId), a.patientId, message, CancellationTag, a.id, utcNow)
    ensures ctx.notifications == old(ctx.notifications) + (if r.Ok? then [r.value] else [])
    ensures ctx.nextNotificationId == old(ctx.nextNotificationId) + (if r.Ok? then 1 else 0)
  {
    r := NotifyPatient(ctx, a.patientId, message, CancellationTag, a.id, utcNow);
  }

  method SendAppointmentApproval(ctx: Context, a: Appointment, message: string, utcNow: int)
    returns (r: Result<Notification, Failure>)
    requires ctx.Valid()
    modifies ctx`notifications, ctx`nextNotificationId
    ensures ctx.Valid()
    ensures r == PatientNotice(ctx.patients, old(ctx.nextNotificationId), a.patientId, message, ApprovalTag, a.id, utcNow)
    ensures ctx.notifications == old(ctx.notifications) + (if r.Ok? then [r.value] else [])
    ensures ctx.nextNotificationId == old(ctx.nextNotificationId) + (if r.Ok? then 1 else 0)
  {
    r := NotifyPatient(ctx, a.patientId, message, ApprovalTag, a.id, utcNow);
  }

  method SendAppointmentRejection(ctx: Context, a: Appointment, message: string, utcNow: int)
    returns (r: Result<Notification, Failure>)
    requires ctx.Valid()
    modifies ctx`notifications, ctx`nextNotificationId
    ensures ctx.Valid()
    ensures r == PatientNotice(ctx.patients, old(ctx.nextNotificationId), a.patientId, message, RejectionTag, a.id, utcNow)
    ensures ctx.notifications == old(ctx.notifications) + (if r.Ok? then [r.value] else [])
    ensures ctx.nextNotificationId == old(ctx.nextNotificationId) + (if r.Ok? then 1 else 0)
  {
    r := NotifyPatient(ctx, a.patientId, message, RejectionTag, a.id, utcNow);
  }

  method SendAppointmentReschedule(ctx: Context, a: Appointment, message: string, utcNow: int)
    returns (r: Result<Notification, Failure>)
    requires ctx.Valid()
    modifies ctx`notifications, ctx`nextNotificationId
    ensures ctx.Valid()
    ensures r == PatientNotice(ctx.patients, old(ctx.nextNotificationId), a.patientId, message, RescheduleTag, a.id, utcNow)
    ensures ctx.notifications == old(ctx.notifications) + (if r.Ok? then [r.value] else [])
    ensures ctx.nextNotificationId == old(ctx.nextNotificationId) + (if r.Ok? then 1 else 0)
  {
    r := NotifyPatient(ctx, a.patientId, message, RescheduleTag, a.id, utcNow);
  }

  method SendAppointmentCompletion(ctx: Context, a: Appointment, message: string, utcNow: int)
    returns (r: Result<Notification, Failure>)
    requires ctx.Valid()
    modifies ctx`notifications, ctx`nextNotificationId
    ensures ctx.Valid()
    ensures r == PatientNotice(ctx.patients, old(ctx.nextNotificationId), a.patientId, message, CompletionTag, a.id, utcNow)
    ensures ctx.notifications == old(ctx.notifications) + (if r.Ok? then [r.value] else [])
    ensures ctx.nextNotificationId == old(ctx.nextNotificationId) + (if r.Ok? then 1 else 0)
  {
    r := NotifyPatient(ctx, a.patientId, message, CompletionTag, a.id, utcNow);
  }

  method SendPrescriptionNotification(ctx: Context, p: Prescription, message: string, utcNow: int)
    returns (r: Result<Notification, Failure>)
    requires ctx.Valid()
    modifies ctx`notifications, ctx`nextNotificationId
    ensures ctx.Valid()
    ensures r == PatientNotice(ctx.patients, old(ctx.nextNotificationId), p.patientId, message, PrescriptionTag, p.id, utcNow)
    ensures ctx.notifications == old(ctx.notifications) + (if r.Ok? then [r.value] else [])
    ensures ctx.nextNotificationId == old(ctx.nextNotificationId) + (if r.Ok? then 1 else 0)
  {
    r := NotifyPatient(ctx, p.patientId, message, PrescriptionTag, p.id, utcNow);
  }

  /** SendAppointmentConfirmationAsync publishes and e-mails a confirmation
      and writes no notification row; patient and doctor are read through
      null-conditional access, so a missing one does not throw. */
  method SendAppointmentConfirmation(ctx: Context, a: Appointment)
    modifies ctx`confirmations
    ensures ctx.confirmations == old(ctx.confirmations) + [a]
  {
    ctx.confirmations := ctx.confirmations + [a];
  }
}
