/** The doctor dashboard: the filtered Today, Upcoming and Pending lists,
    the approve, reject and complete buttons, rescheduling and writing a
    prescription for an appointment. The signed-in user's identity id and
    doctor id are parameters. */
module DoctorPage {
  import opened Base
  import opened Entities
  import opened Store
  import opened PageOutcome
  import AppointmentService
  import DoctorService
  import PrescriptionService
  import NotificationService

  const ApprovedText: string := "Appointment approved successfully"
  const RejectedText: string := "Appointment rejected successfully"
  const CompletedText: string := "Appointment marked as completed"
  const SlotTakenText: string := "The selected time slot is not available"
  const RescheduledText: string := "Appointment rescheduled successfully"
  const InvalidAppointmentText: string := "Invalid appointment"
  const PrescribedText: string := "Prescription created successfully"

  // ---------------------------------------------------------------------------
  // Case-insensitive search
  // ---------------------------------------------------------------------------

  /** Ordinal case folding, on the ASCII letters. */
  function Fold(c: char): char {
    if 'a' <= c <= 'z' then (c as int - 32) as char else c
  }

  predicate SameIgnoringCase(a: string, b: string) {
    |a| == |b| && forall i :: 0 <= i < |a| ==> Fold(a[i]) == Fold(b[i])
  }

  /** The window of `s` starting at i equals `term` up to case. */
  predicate MatchAt(s: string, term: string, i: int) {
    0 <= i && i + |term| <= |s| && SameIgnoringCase(s[i..i + |term|], term)
  }

  /** string.Contains(term, StringComparison.OrdinalIgnoreCase): some
      window of `s` as long as `term` equals it up to case. */
  function ContainsIgnoreCase(s: string, term: string): (b: bool)
    ensures b <==> exists i :: MatchAt(s, term, i)
    decreases |s|
  {
    if |term| <= |s| && SameIgnoringCase(s[..|term|], term) then
      assert s[0..0 + |term|] == s[..|term|];
      assert MatchAt(s, term, 0);
      true
    else if |s| == 0 then
      false
    else
      assert forall i :: MatchAt(s[1..], term, i) ==> MatchAt(s, term, i + 1) by {
        forall i | MatchAt(s[1..], term, i) ensures MatchAt(s, term, i + 1) {
          assert s[1..][i..i + |term|] == s[i + 1..i + 1 + |term|];
        }
      }
      assert forall i :: MatchAt(s, term, i) ==> i > 0 && MatchAt(s[1..], term, i - 1) by {
        forall i | MatchAt(s, term, i) ensures i > 0 && MatchAt(s[1..], term, i - 1) {
          if i == 0 {
            assert false;
          } else {
            assert s[1..][i - 1..i - 1 + |term|] == s[i..i + |term|];
          }
        }
      }
      ContainsIgnoreCase(s[1..], term)
  }

  /** A name containing the term, in any mix of case, is found. */
  lemma InfixIsFound(before: string, term: string, after: string, written: string)
    requires SameIgnoringCase(written, term)
    ensures ContainsIgnoreCase(before + written + after, term)
  {
    var s := before + written + after;
    assert s[|before|..|before| + |term|] == written;
    assert MatchAt(s, term, |before|);
  }

  // ---------------------------------------------------------------------------
  // Dashboard lists
  // ---------------------------------------------------------------------------

  /** The search box: skipped when empty; otherwise the appointment's
      patient must exist and have the term in its first or last name. */
  predicate MatchesSearch(a: Appointment, patients: seq<Patient>, term: string) {
    term == [] ||
    (FindPatient(patients, a.patientId).Some?
     && (ContainsIgnoreCase(FindPatient(patients, a.patientId).value.firstName, term)
         || ContainsIgnoreCase(FindPatient(patients, a.patientId).value.lastName, term)))
  }

  /** Search, status (skipped when empty) and calendar-day filters. With
      none of the three set every appointment passes; a search keeps only
      rows whose patient is loaded and has the term in a name. */
  predicate PassesFilters(a: Appointment, patients: seq<Patient>, term: string, statusFilter: string,
                          dateFilter: Option<int>): (b: bool)
    ensures term == [] && statusFilter == [] && dateFilter.None? ==> b
    ensures b && term != [] ==>
      exists p :: p in patients && p.id == a.patientId
               && (ContainsIgnoreCase(p.firstName, term) || ContainsIgnoreCase(p.lastName, term))
    ensures b && statusFilter != [] ==> a.status == statusFilter
    ensures b && dateFilter.Some? ==> DateOf(dateFilter.value) <= a.start < DateOf(dateFilter.value) + MinutesPerDay
  {
    && MatchesSearch(a, patients, term)
    && (statusFilter == [] || a.status == statusFilter)
    && (dateFilter.None? || DateOf(a.start) == DateOf(dateFilter.value))
  }

  datatype DoctorLists = DoctorLists(today: seq<Appointment>, upcoming: seq<Appointment>, pending: seq<Appointment>)

  /** TodayAppointments, UpcomingAppointments and PendingAppointments over
      the filtered query, each earliest first: Approved on today's date,
      Approved strictly after now, and Pending. */
  function Lists(query: seq<Appointment>, now: int): (l: DoctorLists)
    ensures forall a :: a in l.today <==> a in query && DateOf(a.start) == DateOf(now) && a.status == Approved
    ensures forall a :: a in l.upcoming <==> a in query && a.start > now && a.status == Approved
    ensures forall a :: a in l.pending <==> a in query && a.status == Pending
    ensures AppointmentService.AscendingByStart(l.today) && AppointmentService.AscendingByStart(l.upcoming)
    ensures AppointmentService.AscendingByStart(l.pending)
  {
    DoctorLists(
      AppointmentService.SelectByStart(query, (a: Appointment) => DateOf(a.start) == DateOf(now) && a.status == Approved),
      AppointmentService.SelectByStart(query, (a: Appointment) => a.start > now && a.status == Approved),
      AppointmentService.SelectByStart(query, (a: Appointment) => a.status == Pending))
  }

  /** A pending appointment is never in Today or Upcoming, and an approved
      one later today is in both. */
  lemma ListsOverlapOnlyOnApprovedLaterToday(query: seq<Appointment>, now: int, a: Appointment)
    ensures a in Lists(query, now).pending ==> a !in Lists(query, now).today && a !in Lists(query, now).upcoming
    ensures a in Lists(query, now).today && a.start > now ==> a in Lists(query, now).upcoming
  {
  }

  /** OnGetAsync as written: the doctor is looked up by the identity id,
      then GetDoctorAppointmentsAsync(doctor.Id) binds to the overload
      without a date (every parameter given beats a defaulted one), whose
      stub throws. No list is ever produced. */
  function DashboardAsWritten(doctors: seq<Doctor>, userId: string): (r: Result<DoctorLists, Failure>)
    ensures r.Err?
    ensures r.error == if DoctorService.GetDoctorByUserId(doctors, userId).Err?
                       then KeyNotFound(DoctorService.DoctorUserEntity) else NotImplemented
  {
    match DoctorService.GetDoctorByUserId(doctors, userId)
    case Err(e) => Err(e)
    case Ok(d) =>
      match DoctorService.GetDoctorAppointmentsStub(d.id)
      case Err(e) => Err(e)
      case Ok(appts) => Ok(Lists(appts, 0))
  }

  /** OnGetAsync calling the dated overload with no date: all of the
      doctor's appointments, filtered, then split into the three lists. */
  function DashboardCorrected(doctors: seq<Doctor>, patients: seq<Patient>, appts: seq<Appointment>, userId: string,
                              term: string, statusFilter: string, dateFilter: Option<int>, now: int)
    : (r: Result<DoctorLists, Failure>)
    ensures r.Err? <==> DoctorService.GetDoctorByUserId(doctors, userId).Err?
    ensures r.Ok? ==>
      var d := DoctorService.GetDoctorByUserId(doctors, userId).value;
      && (forall a :: a in r.value.today <==>
            && a in appts && a.doctorId == d.id && DateOf(a.start) == DateOf(now) && a.status == Approved
            && PassesFilters(a, patients, term, statusFilter, dateFilter))
      && (forall a :: a in r.value.upcoming <==>
            && a in appts && a.doctorId == d.id && a.start > now && a.status == Approved
            && PassesFilters(a, patients, term, statusFilter, dateFilter))
      && (forall a :: a in r.value.pending <==>
            a in appts && a.doctorId == d.id && a.status == Pending && PassesFilters(a, patients, term, statusFilter, dateFilter))
    ensures r.Ok? ==>
      && AppointmentService.AscendingByStart(r.value.today)
      && AppointmentService.AscendingByStart(r.value.upcoming)
      && AppointmentService.AscendingByStart(r.value.pending)
  {
    match DoctorService.GetDoctorByUserId(doctors, userId)
    case Err(e) => Err(e)
    case Ok(d) =>
      var mine := DoctorService.GetDoctorAppointments(appts, d.id, Option.None);
      var query := Filter(mine, (a: Appointment) => PassesFilters(a, patients, term, statusFilter, dateFilter));
      assert forall a :: a in mine <==> a in appts && a.doctorId == d.id by {
        forall a ensures a in mine <==> a in appts && a.doctorId == d.id {
          assert a in mine <==> multiset(mine)[a] > 0;
        }
      }
      assert forall a :: a in query <==> a in appts && a.doctorId == d.id && PassesFilters(a, patients, term, statusFilter, dateFilter);
      Ok(Lists(query, now))
  }

  // ---------------------------------------------------------------------------
  // Approve, reject, complete
  // ---------------------------------------------------------------------------

  /** UpdateAppointmentStatusAsync followed by GetByIdAsync: the row takes
      the new status, then is read back, or KeyNotFoundException when there
      is no such row. */
  method SetStatusThenFetch(ctx: Context, id: int, status: string) returns (r: Result<Appointment, Failure>)
    requires ctx.Valid()
    modifies ctx`appointments
    ensures ctx.Valid()
    ensures ctx.appointments == DoctorService.SetStatus(old(ctx.appointments), id, status)
    ensures r.Err? <==> DoctorService.GetById(old(ctx.appointments), id).Err?
    ensures r.Err? ==> r.error == KeyNotFound(DoctorService.AppointmentEntity)
    ensures r.Ok? ==> r.value == DoctorService.GetById(old(ctx.appointments), id).value.(status := status)
  {
    ghost var before := ctx.appointments;
    DoctorService.SetStatusSetsTheRow(ctx.appointments, ctx.nextAppointmentId, id, status);
    DoctorService.UpdateAppointmentStatus(ctx, id, status, Option.None);
    r := DoctorService.GetById(ctx.appointments, id);
    if r.Ok? {
      var i := IndexOf(before, AppointmentKey, id);
      KeyedIndexUnique(ctx.appointments, AppointmentKey, ctx.nextAppointmentId, id, i);
    }
  }

  /** OnPostApproveAsync: status "Approved", then an Approval notice to the
      patient. An unknown id or a missing patient is an unhandled exception. */
  method Approve(ctx: Context, id: int, message: string, utcNow: int) returns (o: Outcome)
    requires ctx.Valid()
    modifies ctx`appointments, ctx`notifications, ctx`nextNotificationId
    ensures ctx.Valid()
    ensures ctx.appointments == DoctorService.SetStatus(old(ctx.appointments), id, Approved)
    ensures DoctorService.GetById(old(ctx.appointments), id).Err? ==>
      o == Crash(KeyNotFound(DoctorService.AppointmentEntity)) && ctx.notifications == old(ctx.notifications)
    ensures DoctorService.GetById(old(ctx.appointments), id).Ok? ==>
      var a := DoctorService.GetById(old(ctx.appointments), id).value;
      var notice := NotificationService.PatientNotice(ctx.patients, old(ctx.nextNotificationId), a.patientId,
                                                      message, NotificationService.ApprovalTag, id, utcNow);
      && o == (if notice.Ok? then Redirect(Success(ApprovedText)) else Crash(notice.error))
      && ctx.notifications == old(ctx.notifications) + (if notice.Ok? then [notice.value] else [])
  {
    var a := SetStatusThenFetch(ctx, id, Approved);
    if a.Err? {
      return Crash(a.error);
    }
    var sent := NotificationService.SendAppointmentApproval(ctx, a.value, message, utcNow);
    o := if sent.Ok? then Redirect(Success(ApprovedText)) else Crash(sent.error);
  }

  /** OnPostRejectAsync: status "Rejected", then a Rejection notice. The
      reason is handed to UpdateAppointmentStatusAsync as its notes, which
      it ignores, so it is stored nowhere. */
  method Reject(ctx: Context, id: int, reason: string, message: string, utcNow: int) returns (o: Outcome)
    requires ctx.Valid()
    modifies ctx`appointments, ctx`notifications, ctx`nextNotificationId
    ensures ctx.Valid()
    ensures ctx.appointments == DoctorService.SetStatus(old(ctx.appointments), id, Rejected)
    ensures DoctorService.GetById(old(ctx.appointments), id).Err? ==>
      o == Crash(KeyNotFound(DoctorService.AppointmentEntity)) && ctx.notifications == old(ctx.notifications)
    ensures DoctorService.GetById(old(ctx.appointments), id).Ok? ==>
      var a := DoctorService.GetById(old(ctx.appointments), id).value;
      var notice := NotificationService.PatientNotice(ctx.patients, old(ctx.nextNotificationId), a.patientId,
                                                      message, NotificationService.RejectionTag, id, utcNow);
      && o == (if notice.Ok? then Redirect(Success(RejectedText)) else Crash(notice.error))
      && ctx.notifications == old(ctx.notifications) + (if notice.Ok? then [notice.value] else [])
  {
    var a := SetStatusThenFetch(ctx, id, Rejected);
    if a.Err? {
      return Crash(a.error);
    }
    var sent := NotificationService.SendAppointmentRejection(ctx, a.value, message, utcNow);
    o := if sent.Ok? then Redirect(Success(RejectedText)) else Crash(sent.error);
  }

  /** OnPostCompleteAsync: status "Completed", then a Completion notice. */
  method Complete(ctx: Context, id: int, message: string, utcNow: int) returns (o: Outcome)
    requires ctx.Valid()
    modifies ctx`appointments, ctx`notifications, ctx`nextNotificationId
    ensures ctx.Valid()
    ensures ctx.appointments == DoctorService.SetStatus(old(ctx.appointments), id, Completed)
    ensures DoctorService.GetById(old(ctx.appointments), id).Err? ==>
      o == Crash(KeyNotFound(DoctorService.AppointmentEntity)) && ctx.notifications == old(ctx.notifications)
    ensures DoctorService.GetById(old(ctx.appointments), id).Ok? ==>
      var a := DoctorService.GetById(old(ctx.appointments), id).value;
      var notice := NotificationService.PatientNotice(ctx.patients, old(ctx.nextNotificationId), a.patientId,
                                                      message, NotificationService.CompletionTag, id, utcNow);
      && o == (if notice.Ok? then Redirect(Success(CompletedText)) else Crash(notice.error))
      && ctx.notifications == old(ctx.notifications) + (if notice.Ok? then [notice.value] else [])
  {
    var a := SetStatusThenFetch(ctx, id, Completed);
    if a.Err? {
      return Crash(a.error);
    }
    var sent := NotificationService.SendAppointmentCompletion(ctx, a.value, message, utcNow);
    o := if sent.Ok? then Redirect(Success(CompletedText)) else Crash(sent.error);
  }

  // ---------------------------------------------------------------------------
  // OnPostRescheduleAsync
  // ---------------------------------------------------------------------------

  /** The row after rescheduling: the new start and status "Rescheduled";
      EndDateTime and every other column keep their old values. */
  function Moved(a: Appointment, newStart: int): (m: Appointment)
    ensures m.start == newStart && m.status == Rescheduled
    ensures m.end == a.end && m.durationMinutes == a.durationMinutes && m.id == a.id
    ensures m.patientId == a.patientId && m.doctorId == a.doctorId && m.reason == a.reason
  {
    a.(start := newStart, status := Rescheduled)
  }

  /** The new interval [newStart, newStart + DurationMinutes) is tested
      against the signed-in doctor's calendar, whoever owns the appointment.
      When it is taken, nothing changes. Otherwise the row is overwritten
      with the moved copy and the patient is sent a Reschedule notice. */
  method Reschedule(ctx: Context, doctorId: int, id: int, newStart: int, message: string, utcNow: int)
    returns (o: Outcome)
    requires ctx.Valid()
    modifies ctx`appointments, ctx`nextAppointmentId, ctx`notifications, ctx`nextNotificationId
    ensures ctx.Valid()
    ensures DoctorService.GetById(old(ctx.appointments), id).Err? ==>
      && o == Crash(KeyNotFound(DoctorService.AppointmentEntity))
      && ctx.appointments == old(ctx.appointments) && ctx.notifications == old(ctx.notifications)
    ensures DoctorService.GetById(old(ctx.appointments), id).Ok? ==>
      var a := DoctorService.GetById(old(ctx.appointments), id).value;
      var free := DoctorService.IsTimeSlotAvailable(old(ctx.appointments), doctorId, newStart, newStart + a.durationMinutes);
      var notice := NotificationService.PatientNotice(ctx.patients, old(ctx.nextNotificationId), a.patientId,
                                                      message, NotificationService.RescheduleTag, id, utcNow);
      && (!free ==>
            && o == Redirect(Error(SlotTakenText))
            && ctx.appointments == old(ctx.appointments) && ctx.notifications == old(ctx.notifications))
      && (free ==>
            && o == (if notice.Ok? then Redirect(Success(RescheduledText)) else Crash(notice.error))
            && |ctx.appointments| == |old(ctx.appointments)|
            && (forall i :: 0 <= i < |ctx.appointments| ==>
                  ctx.appointments[i] == if old(ctx.appointments)[i].id == id then Moved(a, newStart) else old(ctx.appointments)[i])
            && ctx.notifications == old(ctx.notifications) + (if notice.Ok? then [notice.value] else []))
  {
    var found := DoctorService.GetById(ctx.appointments, id);
    if found.Err? {
      return Crash(found.error);
    }
    var a := found.value;
    if !DoctorService.IsTimeSlotAvailable(ctx.appointments, doctorId, newStart, newStart + a.durationMinutes) {
      return Redirect(Error(SlotTakenText));
    }
    var moved := SaveMoved(ctx, a, newStart);
    var sent := NotificationService.SendAppointmentReschedule(ctx, moved, message, utcNow);
    o := if sent.Ok? then Redirect(Success(RescheduledText)) else Crash(sent.error);
  }

  /** The moved row saved through UpdateAsync: it replaces the stored row
      with its id, and nothing else changes. */
  method SaveMoved(ctx: Context, a: Appointment, newStart: int) returns (moved: Appointment)
    requires ctx.Valid() && a in ctx.appointments
    modifies ctx`appointments, ctx`nextAppointmentId
    ensures ctx.Valid() && moved == Moved(a, newStart)
    ensures |ctx.appointments| == |old(ctx.appointments)|
    ensures forall i :: 0 <= i < |ctx.appointments| ==>
      ctx.appointments[i] == if old(ctx.appointments)[i].id == a.id then moved else old(ctx.appointments)[i]
  {
    moved := Moved(a, newStart);
    ghost var k :| 0 <= k < |ctx.appointments| && ctx.appointments[k] == a;
    assert AppointmentKey(ctx.appointments[k]) > 0;
    var updated := DoctorService.UpdateAsync(ctx, moved);
  }

  /** An appointment of the doctor blocks its own move to any start up to
      one duration before it, the same start included: such a reschedule
      is always refused. */
  lemma OwnStartBlocksShortMoves(appts: seq<Appointment>, a: Appointment, newStart: int)
    requires a in appts
    requires newStart <= a.start < newStart + a.durationMinutes
    ensures !DoctorService.IsTimeSlotAvailable(appts, a.doctorId, newStart, newStart + a.durationMinutes)
  {
  }

  // ---------------------------------------------------------------------------
  // OnPostCreatePrescriptionAsync
  // ---------------------------------------------------------------------------

  /** The posted prescription form; absent strings are null. */
  datatype PrescriptionInput = PrescriptionInput(
    appointmentId: int,
    medication: Option<string>,
    dosage: Option<string>,
    frequency: Option<string>,
    durationDays: int,
    instructions: Option<string>,
    allowRefills: bool,
    refillsAllowed: int)

  /** The form's [Required] checks: Medication, Dosage and Frequency
      present and not blank. No length is checked. */
  predicate InputValid(input: PrescriptionInput) {
    RequiredText(input.medication) && RequiredText(input.dosage) && RequiredText(input.frequency)
  }

  /** The prescription the handler builds: the form's fields, the
      signed-in doctor, the appointment's patient, prescribed now. */
  function PrescriptionFrom(input: PrescriptionInput, doctorId: int, patientId: int, now: int): (p: Prescription)
    requires InputValid(input)
    ensures p.appointmentId == input.appointmentId && p.doctorId == doctorId && p.patientId == patientId
    ensures p.medication == input.medication.value && p.prescribedDate == now
    ensures p.renewalStatus == RenewalStatus.RenewalNone
  {
    NewPrescription(input.appointmentId, doctorId, patientId, input.medication.value, input.dosage.value,
                    input.frequency.value, input.durationDays, input.instructions, input.allowRefills,
                    input.refillsAllowed, now)
  }

  /** The form accepts a medication name longer than the 100 characters
      the Prescription record allows. */
  lemma FormAdmitsOverlongMedication()
    ensures var input := PrescriptionInput(1, Some(seq(101, _ => 'a')), Some("1 tablet"), Some("daily"), 7,
                                           Option.None, false, 0);
            InputValid(input) && !MeetsAnnotations(PrescriptionFrom(input, 1, 1, 0))
  {
    var input := PrescriptionInput(1, Some(seq(101, _ => 'a')), Some("1 tablet"), Some("daily"), 7, Option.None, false, 0);
    assert input.medication.value[0] == 'a';
    assert input.dosage.value[0] == '1' && input.frequency.value[0] == 'd';
  }

  /** The handler as written. An invalid form reloads the dashboard, whose
      OnGetAsync throws (see DashboardAsWritten). An unknown appointment
      throws; another doctor's appointment is refused. Otherwise the
      prescription is saved for the appointment's patient and the patient
      is sent a Prescription notice carrying the new row's key. */
  method CreatePrescription(ctx: Context, userId: string, doctorId: int, input: PrescriptionInput, now: int,
                            message: string, utcNow: int) returns (o: Outcome)
    requires ctx.Valid()
    modifies ctx`prescriptions, ctx`nextPrescriptionId, ctx`notifications, ctx`nextNotificationId
    ensures ctx.Valid()
    ensures !InputValid(input) ==>
      && o == Crash(DashboardAsWritten(ctx.doctors, userId).error)
      && ctx.prescriptions == old(ctx.prescriptions) && ctx.notifications == old(ctx.notifications)
    ensures InputValid(input) && DoctorService.GetById(ctx.appointments, input.appointmentId).Err? ==>
      && o == Crash(KeyNotFound(DoctorService.AppointmentEntity))
      && ctx.prescriptions == old(ctx.prescriptions) && ctx.notifications == old(ctx.notifications)
    ensures InputValid(input) && DoctorService.GetById(ctx.appointments, input.appointmentId).Ok? ==>
      var a := DoctorService.GetById(ctx.appointments, input.appointmentId).value;
      var row := PrescriptionFrom(input, doctorId, a.patientId, now).(id := old(ctx.nextPrescriptionId));
      var notice := NotificationService.PatientNotice(ctx.patients, old(ctx.nextNotificationId), a.patientId,
                                                      message, NotificationService.PrescriptionTag, row.id, utcNow);
      && (a.doctorId != doctorId ==>
            && o == Redirect(Error(InvalidAppointmentText))
            && ctx.prescriptions == old(ctx.prescriptions) && ctx.notifications == old(ctx.notifications))
      && (a.doctorId == doctorId ==>
            && o == (if notice.Ok? then Redirect(Success(PrescribedText)) else Crash(notice.error))
            && ctx.prescriptions == old(ctx.prescriptions) + [row]
            && ctx.notifications == old(ctx.notifications) + (if notice.Ok? then [notice.value] else []))
  {
    if !InputValid(input) {
      var dashboard := DashboardAsWritten(ctx.doctors, userId);
      return Crash(dashboard.error);
    }
    var found := DoctorService.GetById(ctx.appointments, input.appointmentId);
    if found.Err? {
      return Crash(found.error);
    }
    var a := found.value;
    if a.doctorId != doctorId {
      return Redirect(Error(InvalidAppointmentText));
    }
    var row := PrescriptionService.CreateAsync(ctx, PrescriptionFrom(input, doctorId, a.patientId, now));
    var sent := NotificationService.SendPrescriptionNotification(ctx, row, message, utcNow);
    o := if sent.Ok? then Redirect(Success(PrescribedText)) else Crash(sent.error);
  }
}
