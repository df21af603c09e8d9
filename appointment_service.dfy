/** AppointmentService: the appointment table's queries (lookup by id, per
    doctor, per date range, count by status), its availability test and the
    operations that book, update, delete and cancel appointments. */
module AppointmentService {
  import opened Base
  import opened Entities
  import opened Store
  import NotificationService

  const DoctorNotAvailable: string := "Doctor is not available at this time"
  const SlotAlreadyBooked: string := "Time slot already booked"
  const SlotNotAvailable: string := "The selected time slot is not available."
  const CannotCancelLate: string := "Cannot cancel within 48 hours of appointment"

  /** DateTime.Now.AddHours(48), in minutes. */
  const CancellationNotice: int := 48 * MinutesPerHour

  /** A row that takes part in the availability and conflict checks. */
  predicate ActiveFor(a: Appointment, doctorId: int) {
    a.doctorId == doctorId && a.status != Cancelled
  }

  // ---------------------------------------------------------------------------
  // IsTimeSlotAvailableAsync
  // ---------------------------------------------------------------------------

  /** The three-way overlap test, written as in the query. */
  predicate Clashes(a: Appointment, start: int, end: int) {
    || (start >= a.start && start < a.start)
    || (end > a.start && end <= a.start)
    || (start <= a.start && end >= a.start)
  }

  /** The slot is free when no active appointment of the doctor clashes. The
      first two disjuncts of the clash test can never hold, so the slot is
      taken exactly when such an appointment starts in the closed interval
      [start, end]; its own length plays no part. */
  function IsTimeSlotAvailable(appts: seq<Appointment>, doctorId: int, start: int, end: int): (free: bool)
    ensures free <==> forall a :: a in appts && ActiveFor(a, doctorId) ==> !(start <= a.start <= end)
  {
    forall i :: 0 <= i < |appts| && ActiveFor(appts[i], doctorId) ==> !Clashes(appts[i], start, end)
  }

  // ---------------------------------------------------------------------------
  // Queries
  // ---------------------------------------------------------------------------

  /** GetByIdAsync: the row with that key, or InvalidOperationException. */
  function GetById(appts: seq<Appointment>, id: int): (r: Result<Appointment, Failure>)
    ensures r.Ok? <==> exists a :: a in appts && a.id == id
    ensures r.Ok? ==> r.value in appts && r.value.id == id
    ensures r.Err? ==> r.error == AppointmentNotFound(id)
  {
    var i := IndexOf(appts, AppointmentKey, id);
    if i < 0 then Err(AppointmentNotFound(id)) else Ok(appts[i])
  }

  predicate AscendingByStart(s: seq<Appointment>) {
    forall i, j :: 0 <= i < j < |s| ==> s[i].start <= s[j].start
  }

  /** Where(p).OrderBy(a => a.AppointmentDateTime). */
  function SelectByStart(appts: seq<Appointment>, p: Appointment -> bool): (r: seq<Appointment>)
    ensures forall a :: multiset(r)[a] == if p(a) then multiset(appts)[a] else 0
    ensures forall a :: a in r <==> a in appts && p(a)
    ensures AscendingByStart(r)
  {
    var r := SortBy(Filter(appts, p), StartOf, NoKey);
    assert forall a :: a in r <==> a in multiset(r);
    assert forall a :: a in Filter(appts, p) <==> a in multiset(Filter(appts, p));
    r
  }

  /** GetByPatientIdAsync: that patient's appointments, earliest first. */
  function GetByPatientId(appts: seq<Appointment>, patientId: int): (r: seq<Appointment>)
    ensures forall a :: multiset(r)[a] == if a.patientId == patientId then multiset(appts)[a] else 0
    ensures AscendingByStart(r)
  {
    SelectByStart(appts, (a: Appointment) => a.patientId == patientId)
  }

  /** GetPatientAppointments(string): the rows whose PatientId, written in
      decimal, equals the given string; no ordering. */
  function GetPatientAppointments(appts: seq<Appointment>, patientId: string): (r: seq<Appointment>)
    ensures forall a :: multiset(r)[a] == if DecimalString(a.patientId) == patientId then multiset(appts)[a] else 0
  {
    Filter(appts, (a: Appointment) => DecimalString(a.patientId) == patientId)
  }

  /** A string with a non-digit after its first character, such as an
      identity user id in GUID form with its '-' at position 8, is the
      decimal text of no patient id: the query finds nothing. */
  lemma NonNumericIdMatchesNothing(appts: seq<Appointment>, patientId: string, k: int)
    requires 0 < k < |patientId| && !IsDigit(patientId[k])
    ensures GetPatientAppointments(appts, patientId) == []
  {
  }

  /** GetByDoctorIdAsync: that doctor's appointments, earliest first. */
  function GetByDoctorId(appts: seq<Appointment>, doctorId: int): (r: seq<Appointment>)
    ensures forall a :: multiset(r)[a] == if a.doctorId == doctorId then multiset(appts)[a] else 0
    ensures AscendingByStart(r)
  {
    SelectByStart(appts, (a: Appointment) => a.doctorId == doctorId)
  }

  /** GetByDateRangeAsync: appointments starting within [start, end], both
      ends included, earliest first. */
  function GetByDateRange(appts: seq<Appointment>, start: int, end: int): (r: seq<Appointment>)
    ensures forall a :: multiset(r)[a] == if start <= a.start <= end then multiset(appts)[a] else 0
    ensures AscendingByStart(r)
  {
    SelectByStart(appts, (a: Appointment) => start <= a.start <= end)
  }

  /** GetAppointmentCountByStatusAsync. */
  function CountByStatus(appts: seq<Appointment>, status: string): (n: nat)
    ensures n <= |appts|
    ensures n == 0 <==> forall a :: a in appts ==> a.status != status
    ensures n == |appts| <==> forall a :: a in appts ==> a.status == status
  {
    if appts == [] then 0
    else
      assert appts == [appts[0]] + appts[1..];
      (if appts[0].status == status then 1 else 0) + CountByStatus(appts[1..], status)
  }

  /** Counting by status splits over concatenation. */
  lemma {:induction false} CountByStatusAppend(s: seq<Appointment>, t: seq<Appointment>, status: string)
    ensures CountByStatus(s + t, status) == CountByStatus(s, status) + CountByStatus(t, status)
  {
    if s != [] {
      assert (s + t)[0] == s[0] && (s + t)[1..] == s[1..] + t;
      CountByStatusAppend(s[1..], t, status);
    } else {
      assert s + t == t;
    }
  }

  // ---------------------------------------------------------------------------
  // The booking invariant
  // ---------------------------------------------------------------------------

  /** No two active appointments of the same doctor start at the same time. */
  predicate NoDoubleBooking(appts: seq<Appointment>) {
    forall i, j ::
      (0 <= i < j < |appts| && appts[i].status != Cancelled && appts[j].status != Cancelled
       && appts[i].doctorId == appts[j].doctorId) ==> appts[i].start != appts[j].start
  }

  /** Appending a row whose start the availability test passed as a point
      interval keeps the table free of double bookings. */
  lemma AvailableAppendKeepsNoDoubleBooking(appts: seq<Appointment>, a: Appointment)
    requires NoDoubleBooking(appts)
    requires IsTimeSlotAvailable(appts, a.doctorId, a.start, a.start)
    ensures NoDoubleBooking(appts + [a])
  {
    var r := appts + [a];
    forall i, j | 0 <= i < j < |r| && r[i].status != Cancelled && r[j].status != Cancelled
      && r[i].doctorId == r[j].doctorId
      ensures r[i].start != r[j].start
    {
      assert r[i] == appts[i] && r[i] in appts;
      if j < |appts| {
        assert r[j] == appts[j];
      }
    }
  }

  /** Cancelling a row of a doubly-booking-free table frees its start for
      its doctor. */
  lemma CancelFreesSlot(appts: seq<Appointment>, i: int, reason: string)
    requires NoDoubleBooking(appts) && 0 <= i < |appts| && appts[i].status != Cancelled
    ensures IsTimeSlotAvailable(appts[i := CancelledRow(appts[i], reason)], appts[i].doctorId, appts[i].start, appts[i].start)
  {
    var r := appts[i := CancelledRow(appts[i], reason)];
    forall a | a in r && ActiveFor(a, appts[i].doctorId) ensures a.start != appts[i].start {
      var k :| 0 <= k < |r| && r[k] == a;
      assert k != i;
      assert r[k] == appts[k];
      if k < i {
        assert appts[k].start != appts[i].start;
      } else {
        assert appts[i].start != appts[k].start;
      }
    }
  }

  // ---------------------------------------------------------------------------
  // AddAsync
  // ---------------------------------------------------------------------------

  /** Adds the appointment when its start is free (the availability test is
      called with start == end), saves it and sends one confirmation;
      otherwise throws and changes nothing. */
  method AddAsync(ctx: Context, appointment: Appointment) returns (r: Result<Appointment, Failure>)
    requires ctx.Valid()
    modifies ctx`appointments, ctx`nextAppointmentId, ctx`confirmations
    ensures ctx.Valid()
    ensures IsTimeSlotAvailable(old(ctx.appointments), appointment.doctorId, appointment.start, appointment.start) ==>
      && r == Ok(appointment.(id := old(ctx.nextAppointmentId)))
      && ctx.appointments == old(ctx.appointments) + [r.value]
      && ctx.nextAppointmentId == old(ctx.nextAppointmentId) + 1
      && ctx.confirmations == old(ctx.confirmations) + [r.value]
    ensures !IsTimeSlotAvailable(old(ctx.appointments), appointment.doctorId, appointment.start, appointment.start) ==>
      && r == Err(InvalidOperation(SlotNotAvailable))
      && ctx.appointments == old(ctx.appointments)
      && ctx.nextAppointmentId == old(ctx.nextAppointmentId)
      && ctx.confirmations == old(ctx.confirmations)
  {
    if IsTimeSlotAvailable(ctx.appointments, appointment.doctorId, appointment.start, appointment.start) {
      var row := ctx.InsertAppointment(appointment);
      NotificationService.SendAppointmentConfirmation(ctx, row);
      r := Ok(row);
    } else {
      r := Err(InvalidOperation(SlotNotAvailable));
    }
  }

  // ---------------------------------------------------------------------------
  // CreateAppointmentAsync
  // ---------------------------------------------------------------------------

  /** Some weekly window of the doctor covers the moment: same weekday and
      StartTime <= time of day <= EndTime, both ends included. Only a
      window of the doctor that is not empty can cover anything. */
  predicate ScheduleCovers(schedules: seq<Schedule>, doctorId: int, t: int): (b: bool)
    ensures b ==> exists s :: s in schedules && s.doctorId == doctorId && s.startTime <= s.endTime
  {
    exists s :: s in schedules && s.doctorId == doctorId && s.dayOfWeek == DayOfWeek(t)
      && s.startTime <= TimeOfDay(t) <= s.endTime
  }

  /** The schedule repeats every week: a moment is covered exactly when
      the same moment a week later is. */
  lemma ScheduleRepeatsWeekly(schedules: seq<Schedule>, doctorId: int, t: int)
    ensures ScheduleCovers(schedules, doctorId, t) <==> ScheduleCovers(schedules, doctorId, t + 7 * MinutesPerDay)
  {
    var u := t + 7 * MinutesPerDay;
    var k := t / MinutesPerDay;
    assert t == k * MinutesPerDay + t % MinutesPerDay;
    assert u == (k + 7) * MinutesPerDay + t % MinutesPerDay;
    assert u / MinutesPerDay == k + 7 && u % MinutesPerDay == t % MinutesPerDay;
    assert TimeOfDay(u) == TimeOfDay(t);
    assert DayOfWeek(u) == DayOfWeek(t);
  }

  /** An active appointment of the doctor starts at exactly that moment;
      this is the availability test on the point interval [t, t]. */
  predicate StartTaken(appts: seq<Appointment>, doctorId: int, t: int): (b: bool)
    ensures b <==> !IsTimeSlotAvailable(appts, doctorId, t, t)
  {
    exists a :: a in appts && ActiveFor(a, doctorId) && a.start == t
  }

  /** The row CreateAppointmentAsync adds: status Pending, the request's
      doctor, patient and start, its Reason stored in CancellationReason,
      EndDateTime left at DateTime's default and DurationMinutes at 30. */
  function BookedFrom(dto: AppointmentCreateDto): (a: Appointment)
    ensures a.status == Pending && a.start == dto.start
    ensures a.doctorId == dto.doctorId && a.patientId == dto.patientId
    ensures a.cancellationReason == dto.reason && a.reason == Option.None
    ensures a.end == MinDateTime && a.durationMinutes == DefaultDurationMinutes
  {
    Appointment(0, dto.start, MinDateTime, DefaultDurationMinutes, Pending, Option.None, dto.reason,
                Option.None, dto.patientId, dto.doctorId)
  }

  method CreateAppointment(ctx: Context, dto: AppointmentCreateDto) returns (r: Result<Appointment, Failure>)
    requires ctx.Valid()
    modifies ctx`appointments, ctx`nextAppointmentId, ctx`confirmations
    ensures ctx.Valid()
    ensures !ScheduleCovers(ctx.schedules, dto.doctorId, dto.start) ==>
      && r == Err(Thrown(DoctorNotAvailable))
      && ctx.appointments == old(ctx.appointments) && ctx.nextAppointmentId == old(ctx.nextAppointmentId)
      && ctx.confirmations == old(ctx.confirmations)
    ensures ScheduleCovers(ctx.schedules, dto.doctorId, dto.start) && StartTaken(old(ctx.appointments), dto.doctorId, dto.start) ==>
      && r == Err(Thrown(SlotAlreadyBooked))
      && ctx.appointments == old(ctx.appointments) && ctx.nextAppointmentId == old(ctx.nextAppointmentId)
      && ctx.confirmations == old(ctx.confirmations)
    ensures ScheduleCovers(ctx.schedules, dto.doctorId, dto.start) && !StartTaken(old(ctx.appointments), dto.doctorId, dto.start) ==>
      && r == Ok(BookedFrom(dto).(id := old(ctx.nextAppointmentId)))
      && ctx.appointments == old(ctx.appointments) + [r.value]
      && ctx.nextAppointmentId == old(ctx.nextAppointmentId) + 1
      && ctx.confirmations == old(ctx.confirmations) + [r.value]
  {
    if !ScheduleCovers(ctx.schedules, dto.doctorId, dto.start) {
      return Err(Thrown(DoctorNotAvailable));
    }
    if StartTaken(ctx.appointments, dto.doctorId, dto.start) {
      return Err(Thrown(SlotAlreadyBooked));
    }
    var row := ctx.InsertAppointment(BookedFrom(dto));
    NotificationService.SendAppointmentConfirmation(ctx, row);
    r := Ok(row);
  }

  /** A successful booking keeps the table free of double bookings. */
  lemma CreateKeepsNoDoubleBooking(appts: seq<Appointment>, dto: AppointmentCreateDto, id: int)
    requires NoDoubleBooking(appts)
    requires !StartTaken(appts, dto.doctorId, dto.start)
    ensures NoDoubleBooking(appts + [BookedFrom(dto).(id := id)])
  {
    AvailableAppendKeepsNoDoubleBooking(appts, BookedFrom(dto).(id := id));
  }

  // ---------------------------------------------------------------------------
  // UpdateAsync, DeleteAsync
  // ---------------------------------------------------------------------------

  /** Marks the entity modified and saves: every column of the row with the
      same key is overwritten; when no row has that key the save affects
      nothing and EF reports a concurrency failure. */
  method UpdateAsync(ctx: Context, appointment: Appointment) returns (r: Result<(), Failure>)
    requires ctx.Valid()
    modifies ctx`appointments
    ensures ctx.Valid()
    ensures r.Ok? <==> exists a :: a in old(ctx.appointments) && a.id == appointment.id
    ensures r.Err? ==> r.error == ConcurrencyConflict && ctx.appointments == old(ctx.appointments)
    ensures |ctx.appointments| == |old(ctx.appointments)|
    ensures forall i :: 0 <= i < |ctx.appointments| ==>
      ctx.appointments[i] == if old(ctx.appointments)[i].id == appointment.id then appointment else old(ctx.appointments)[i]
  {
    var i := IndexOf(ctx.appointments, AppointmentKey, appointment.id);
    if i < 0 {
      return Err(ConcurrencyConflict);
    }
    forall k | 0 <= k < |ctx.appointments| && ctx.appointments[k].id == appointment.id ensures k == i {
      KeyedIndexUnique(ctx.appointments, AppointmentKey, ctx.nextAppointmentId, appointment.id, k);
    }
    ReplaceKeepsKeysValid(ctx.appointments, AppointmentKey, ctx.nextAppointmentId, i, appointment);
    ctx.appointments := ctx.appointments[i := appointment];
    r := Ok(());
  }

  /** Looks the row up with GetByIdAsync, so an unknown id throws; otherwise
      removes the row, and the prescription that belongs to it goes with it
      (Prescription.AppointmentId cascades on delete). */
  method DeleteAsync(ctx: Context, id: int) returns (r: Result<(), Failure>)
    requires ctx.Valid()
    modifies ctx`appointments, ctx`prescriptions
    ensures ctx.Valid()
    ensures r.Err? <==> forall a :: a in old(ctx.appointments) ==> a.id != id
    ensures r.Err? ==>
      && r.error == AppointmentNotFound(id)
      && ctx.appointments == old(ctx.appointments) && ctx.prescriptions == old(ctx.prescriptions)
    ensures r.Ok? ==>
      && |ctx.appointments| == |old(ctx.appointments)| - 1
      && (forall a :: a in ctx.appointments <==> a in old(ctx.appointments) && a.id != id)
      && (forall p :: p in ctx.prescriptions <==> p in old(ctx.prescriptions) && p.appointmentId != id)
  {
    var found := GetById(ctx.appointments, id);
    if found.Err? {
      return Err(found.error);
    }
    var i := IndexOf(ctx.appointments, AppointmentKey, id);
    RemoveKeyed(ctx.appointments, AppointmentKey, ctx.nextAppointmentId, i);
    ctx.appointments := RemoveAt(ctx.appointments, i);
    FilterKeepsKeysValid(ctx.prescriptions, PrescriptionKey, ctx.nextPrescriptionId, (p: Prescription) => p.appointmentId != id);
    ctx.prescriptions := Filter(ctx.prescriptions, (p: Prescription) => p.appointmentId != id);
    r := Ok(());
  }

  // ---------------------------------------------------------------------------
  // CancelAppointmentAsync
  // ---------------------------------------------------------------------------

  /** The row after cancellation: Status and CancellationReason change,
      nothing else does. */
  function CancelledRow(a: Appointment, reason: string): (c: Appointment)
    ensures c.status == Cancelled && c.cancellationReason == Some(reason)
    ensures c == a.(status := Cancelled, cancellationReason := Some(reason))
  {
    a.(status := Cancelled, cancellationReason := Some(reason))
  }

  /** The class's own CancelAppointmentAsync. An unknown id is dereferenced
      (null reference). An appointment starting before now + 48 hours
      throws, so exactly 48 hours ahead may still be cancelled. Otherwise
      the row is cancelled and saved, then the patient is notified; a
      missing patient fails the call after the cancellation is saved. */
  method CancelAppointment(ctx: Context, id: int, reason: string, now: int, message: string, utcNow: int)
    returns (r: Result<(), Failure>)
    requires ctx.Valid()
    modifies ctx`appointments, ctx`notifications, ctx`nextNotificationId
    ensures ctx.Valid()
    ensures GetById(old(ctx.appointments), id).Err? ==>
      r == Err(NullReference) && ctx.appointments == old(ctx.appointments)
      && ctx.notifications == old(ctx.notifications) && ctx.nextNotificationId == old(ctx.nextNotificationId)
    ensures GetById(old(ctx.appointments), id).Ok? && GetById(old(ctx.appointments), id).value.start < now + CancellationNotice ==>
      r == Err(Thrown(CannotCancelLate)) && ctx.appointments == old(ctx.appointments)
      && ctx.notifications == old(ctx.notifications) && ctx.nextNotificationId == old(ctx.nextNotificationId)
    ensures GetById(old(ctx.appointments), id).Ok? && GetById(old(ctx.appointments), id).value.start >= now + CancellationNotice ==>
      var a := GetById(old(ctx.appointments), id).value;
      var notice := NotificationService.PatientNotice(ctx.patients, old(ctx.nextNotificationId), a.patientId,
                                                      message, NotificationService.CancellationTag, id, utcNow);
      && |ctx.appointments| == |old(ctx.appointments)|
      && (forall i :: 0 <= i < |ctx.appointments| ==>
            ctx.appointments[i] == if old(ctx.appointments)[i].id == id then CancelledRow(a, reason) else old(ctx.appointments)[i])
      && r == (if notice.Ok? then Ok(()) else Err(notice.error))
      && ctx.notifications == old(ctx.notifications) + (if notice.Ok? then [notice.value] else [])
  {
    var i := IndexOf(ctx.appointments, AppointmentKey, id);
    if i < 0 {
      return Err(NullReference);
    }
    var a := ctx.appointments[i];
    if a.start < now + CancellationNotice {
      return Err(Thrown(CannotCancelLate));
    }
    var cancelled := CancelledRow(a, reason);
    ReplaceByKey(ctx.appointments, AppointmentKey, ctx.nextAppointmentId, id, cancelled);
    ctx.appointments := ctx.appointments[i := cancelled];
    var sent := NotificationService.SendAppointmentCancellation(ctx, cancelled, message, utcNow);
    r := if sent.Ok? then Ok(()) else Err(sent.error);
  }

  /** The explicit IAppointmentRepository.CancelAppointmentAsync, which is
      what a caller holding the interface reaches: it always throws
      NotImplementedException and changes nothing. */
  method CancelAppointmentViaInterface(ctx: Context, id: int, reason: string) returns (r: Result<bool, Failure>)
    ensures r == Err(NotImplemented)
  {
    r := Err(NotImplemented);
  }
}
