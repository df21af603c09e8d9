/** DoctorService: the doctor-side queries (profile lookups, weekly
    schedule, appointments by day or range), a second availability test,
    status updates and the schedule table's add, update and remove. */
module DoctorService {
  import opened Base
  import opened Entities
  import opened Store
  import AppointmentService

  /** The entity named in each KeyNotFoundException. */
  const DoctorEntity: string := "Doctor"
  const DoctorUserEntity: string := "Doctor user"
  const AppointmentEntity: string := "Appointment"

  // ---------------------------------------------------------------------------
  // Lookups that throw KeyNotFoundException
  // ---------------------------------------------------------------------------

  function GetDoctorById(doctors: seq<Doctor>, id: int): (r: Result<Doctor, Failure>)
    ensures r.Ok? <==> exists d :: d in doctors && d.id == id
    ensures r.Ok? ==> r.value in doctors && r.value.id == id
    ensures r.Err? ==> r.error == KeyNotFound(DoctorEntity)
  {
    match FindDoctor(doctors, id)
    case None => Err(KeyNotFound(DoctorEntity))
    case Some(d) => Ok(d)
  }

  /** FirstOrDefault(d => d.UserId == userId). */
  function DoctorWithUser(doctors: seq<Doctor>, userId: string): (r: Option<Doctor>)
    ensures r.Some? ==> r.value in doctors && r.value.userId == userId
    ensures r.None? <==> forall d :: d in doctors ==> d.userId != userId
  {
    if doctors == [] then Option.None
    else if doctors[0].userId == userId then Some(doctors[0])
    else
      assert doctors == [doctors[0]] + doctors[1..];
      DoctorWithUser(doctors[1..], userId)
  }

  function GetDoctorByUserId(doctors: seq<Doctor>, userId: string): (r: Result<Doctor, Failure>)
    ensures r.Ok? <==> exists d :: d in doctors && d.userId == userId
    ensures r.Ok? ==> r.value in doctors && r.value.userId == userId
    ensures r.Err? ==> r.error == KeyNotFound(DoctorUserEntity)
  {
    match DoctorWithUser(doctors, userId)
    case None => Err(KeyNotFound(DoctorUserEntity))
    case Some(d) => Ok(d)
  }

  function GetById(appts: seq<Appointment>, id: int): (r: Result<Appointment, Failure>)
    ensures r.Ok? <==> exists a :: a in appts && a.id == id
    ensures r.Ok? ==> r.value in appts && r.value.id == id
    ensures r.Err? ==> r.error == KeyNotFound(AppointmentEntity)
  {
    var i := IndexOf(appts, AppointmentKey, id);
    if i < 0 then Err(KeyNotFound(AppointmentEntity)) else Ok(appts[i])
  }

  // ---------------------------------------------------------------------------
  // Schedules
  // ---------------------------------------------------------------------------

  /** GetDoctorScheduleAsync: the doctor's windows by weekday, then start. */
  function GetDoctorSchedule(schedules: seq<Schedule>, doctorId: int): (r: seq<Schedule>)
    ensures forall s :: multiset(r)[s] == if s.doctorId == doctorId then multiset(schedules)[s] else 0
    ensures forall s :: s in r <==> s in schedules && s.doctorId == doctorId
    ensures forall i, j :: 0 <= i < j < |r| ==>
      r[i].dayOfWeek < r[j].dayOfWeek || (r[i].dayOfWeek == r[j].dayOfWeek && r[i].startTime <= r[j].startTime)
  {
    var mine := Filter(schedules, (s: Schedule) => s.doctorId == doctorId);
    var r := SortBy(mine, DayKey, StartTimeKey);
    assert forall s :: s in r <==> s in multiset(r);
    assert forall s :: s in mine <==> s in multiset(mine);
    r
  }

  method AddSchedule(ctx: Context, schedule: Schedule) returns (row: Schedule)
    requires ctx.Valid()
    modifies ctx`schedules, ctx`nextScheduleId
    ensures ctx.Valid()
    ensures row == schedule.(id := old(ctx.nextScheduleId))
    ensures ctx.schedules == old(ctx.schedules) + [row]
    ensures ctx.nextScheduleId == old(ctx.nextScheduleId) + 1
  {
    row := ctx.InsertSchedule(schedule);
  }

  /** Removes the window with that key; an unknown key changes nothing. */
  method RemoveSchedule(ctx: Context, scheduleId: int)
    requires ctx.Valid()
    modifies ctx`schedules
    ensures ctx.Valid()
    ensures forall s :: s in ctx.schedules <==> s in old(ctx.schedules) && s.id != scheduleId
    ensures (forall s :: s in old(ctx.schedules) ==> s.id != scheduleId) ==> ctx.schedules == old(ctx.schedules)
    ensures |ctx.schedules| == |old(ctx.schedules)| - (if exists s :: s in old(ctx.schedules) && s.id == scheduleId then 1 else 0)
  {
    var i := IndexOf(ctx.schedules, ScheduleKey, scheduleId);
    if 0 <= i {
      RemoveKeyed(ctx.schedules, ScheduleKey, ctx.nextScheduleId, i);
      ctx.schedules := RemoveAt(ctx.schedules, i);
    }
  }

  /** Schedules.Update: a window whose key is unset (0) is inserted with a
      fresh key; one whose key exists overwrites that row; any other key
      makes the save fail. */
  method UpdateSchedule(ctx: Context, schedule: Schedule) returns (r: Result<Schedule, Failure>)
    requires ctx.Valid()
    modifies ctx`schedules, ctx`nextScheduleId
    ensures ctx.Valid()
    ensures schedule.id == 0 ==>
      && r == Ok(schedule.(id := old(ctx.nextScheduleId)))
      && ctx.schedules == old(ctx.schedules) + [r.value]
      && ctx.nextScheduleId == old(ctx.nextScheduleId) + 1
    ensures schedule.id != 0 ==> ctx.nextScheduleId == old(ctx.nextScheduleId)
    ensures schedule.id != 0 && (forall s :: s in old(ctx.schedules) ==> s.id != schedule.id) ==>
      r == Err(ConcurrencyConflict) && ctx.schedules == old(ctx.schedules)
    ensures schedule.id != 0 && (exists s :: s in old(ctx.schedules) && s.id == schedule.id) ==>
      && r == Ok(schedule)
      && |ctx.schedules| == |old(ctx.schedules)|
      && forall i :: 0 <= i < |ctx.schedules| ==>
           ctx.schedules[i] == if old(ctx.schedules)[i].id == schedule.id then schedule else old(ctx.schedules)[i]
  {
    if schedule.id == 0 {
      var row := ctx.InsertSchedule(schedule);
      return Ok(row);
    }
    var i := IndexOf(ctx.schedules, ScheduleKey, schedule.id);
    if i < 0 {
      return Err(ConcurrencyConflict);
    }
    forall k | 0 <= k < |ctx.schedules| && ctx.schedules[k].id == schedule.id ensures k == i {
      KeyedIndexUnique(ctx.schedules, ScheduleKey, ctx.nextScheduleId, schedule.id, k);
    }
    ReplaceKeepsKeysValid(ctx.schedules, ScheduleKey, ctx.nextScheduleId, i, schedule);
    ctx.schedules := ctx.schedules[i := schedule];
    r := Ok(schedule);
  }

  // ---------------------------------------------------------------------------
  // Appointment queries
  // ---------------------------------------------------------------------------

  /** GetDoctorAppointmentsAsync(doctorId, date): the doctor's appointments,
      only those on the same calendar day when a date is given, earliest
      first. */
  function GetDoctorAppointments(appts: seq<Appointment>, doctorId: int, date: Option<int>): (r: seq<Appointment>)
    ensures forall a :: multiset(r)[a] == (if a.doctorId == doctorId && (date.None? || DateOf(a.start) == DateOf(date.value))
                                           then multiset(appts)[a] else 0)
    ensures AppointmentService.AscendingByStart(r)
  {
    AppointmentService.SelectByStart(appts,
      (a: Appointment) => a.doctorId == doctorId && (date.None? || DateOf(a.start) == DateOf(date.value)))
  }

  /** GetDoctorAppointmentsAsync(doctorId, startDate, endDate): both bounds
      included, earliest first. */
  function GetDoctorAppointmentsInRange(appts: seq<Appointment>, doctorId: int, startDate: int, endDate: int): (r: seq<Appointment>)
    ensures forall a :: multiset(r)[a] == (if a.doctorId == doctorId && startDate <= a.start <= endDate
                                           then multiset(appts)[a] else 0)
    ensures AppointmentService.AscendingByStart(r)
  {
    AppointmentService.SelectByStart(appts, (a: Appointment) => a.doctorId == doctorId && startDate <= a.start <= endDate)
  }

  /** GetDoctorAppointmentsAsync(int doctorId), the overload without a
      date: a stub that always throws NotImplementedException. */
  function GetDoctorAppointmentsStub(doctorId: int): (r: Result<seq<Appointment>, Failure>)
    ensures r.Err? && r.error == NotImplemented
  {
    Err(NotImplemented)
  }

  /** Without a date the dated overload returns every appointment of the
      doctor; with a date, a subset of those. */
  lemma DatedIsSubsetOfUndated(appts: seq<Appointment>, doctorId: int, date: int)
    ensures forall a :: multiset(GetDoctorAppointments(appts, doctorId, Some(date)))[a]
                        <= multiset(GetDoctorAppointments(appts, doctorId, Option.None))[a]
    ensures forall a :: a in appts && a.doctorId == doctorId ==> a in GetDoctorAppointments(appts, doctorId, Option.None)
  {
    forall a | a in appts && a.doctorId == doctorId ensures a in GetDoctorAppointments(appts, doctorId, Option.None) {
      assert multiset(GetDoctorAppointments(appts, doctorId, Option.None))[a] == multiset(appts)[a];
    }
  }

  // ---------------------------------------------------------------------------
  // IsTimeSlotAvailableAsync
  // ---------------------------------------------------------------------------

  /** Free when no appointment of the doctor, whatever its status, starts in
      the half-open interval [start, end). */
  function IsTimeSlotAvailable(appts: seq<Appointment>, doctorId: int, start: int, end: int): (free: bool)
    ensures free <==> forall a :: a in appts && a.doctorId == doctorId ==> !(start <= a.start < end)
  {
    forall i :: 0 <= i < |appts| && appts[i].doctorId == doctorId ==> !(start <= appts[i].start < end)
  }

  /** On whole minutes the half-open [start, end) is the closed
      [start, end - 1], and this test counts more rows than the appointment
      service's: whatever it accepts, the other accepts too. */
  lemma DoctorFreeImpliesServiceFree(appts: seq<Appointment>, doctorId: int, start: int, end: int)
    requires IsTimeSlotAvailable(appts, doctorId, start, end)
    ensures AppointmentService.IsTimeSlotAvailable(appts, doctorId, start, end - 1)
  {
  }

  /** On a table without cancelled rows the two tests agree. */
  lemma AvailabilityAgreesWithoutCancellations(appts: seq<Appointment>, doctorId: int, start: int, end: int)
    requires forall a :: a in appts ==> a.status != Cancelled
    ensures IsTimeSlotAvailable(appts, doctorId, start, end)
        <==> AppointmentService.IsTimeSlotAvailable(appts, doctorId, start, end - 1)
  {
  }

  /** A cancelled appointment still blocks its start here but not in the
      appointment service. */
  lemma CancelledBlocksOnlyHere(a: Appointment)
    requires a.status == Cancelled
    ensures !IsTimeSlotAvailable([a], a.doctorId, a.start, a.start + 30)
    ensures AppointmentService.IsTimeSlotAvailable([a], a.doctorId, a.start, a.start + 29)
  {
    assert a in [a];
  }

  /** An empty interval is always free here, while the appointment service
      calls a point interval taken when an active appointment starts there. */
  lemma PointIntervalsDiffer(a: Appointment)
    requires a.status != Cancelled
    ensures IsTimeSlotAvailable([a], a.doctorId, a.start, a.start)
    ensures !AppointmentService.IsTimeSlotAvailable([a], a.doctorId, a.start, a.start)
  {
    assert a in [a];
  }

  // ---------------------------------------------------------------------------
  // UpdateAppointmentStatusAsync, UpdateAsync
  // ---------------------------------------------------------------------------

  /** The table after UpdateAppointmentStatusAsync(id, status): the row with
      that key, if any, takes the new Status; nothing else changes. */
  function SetStatus(appts: seq<Appointment>, id: int, status: string): (r: seq<Appointment>)
    ensures |r| == |appts|
    ensures forall i :: 0 <= i < |appts| ==>
      r[i] == appts[i] || (appts[i].id == id && r[i] == appts[i].(status := status))
    ensures (forall i :: 0 <= i < |appts| ==> appts[i].id != id) ==> r == appts
  {
    var i := IndexOf(appts, AppointmentKey, id);
    if i < 0 then appts else appts[i := appts[i].(status := status)]
  }

  /** With distinct keys the row with that key does take the new status. */
  lemma SetStatusSetsTheRow(appts: seq<Appointment>, next: int, id: int, status: string)
    requires KeysValid(appts, AppointmentKey, next)
    ensures forall i :: 0 <= i < |appts| && appts[i].id == id ==> SetStatus(appts, id, status)[i] == appts[i].(status := status)
    ensures KeysValid(SetStatus(appts, id, status), AppointmentKey, next)
  {
    forall i | 0 <= i < |appts| && appts[i].id == id ensures SetStatus(appts, id, status)[i] == appts[i].(status := status) {
      KeyedIndexUnique(appts, AppointmentKey, next, id, i);
    }
    var i := IndexOf(appts, AppointmentKey, id);
    if 0 <= i {
      ReplaceKeepsKeysValid(appts, AppointmentKey, next, i, appts[i].(status := status));
    }
  }

  /** Sets Status only; the notes argument is accepted and ignored, and an
      unknown id is a no-op. */
  method UpdateAppointmentStatus(ctx: Context, appointmentId: int, status: string, notes: Option<string>)
    requires ctx.Valid()
    modifies ctx`appointments
    ensures ctx.Valid()
    ensures ctx.appointments == SetStatus(old(ctx.appointments), appointmentId, status)
  {
    SetStatusSetsTheRow(ctx.appointments, ctx.nextAppointmentId, appointmentId, status);
    var i := IndexOf(ctx.appointments, AppointmentKey, appointmentId);
    if 0 <= i {
      ctx.appointments := ctx.appointments[i := ctx.appointments[i].(status := status)];
    }
  }

  /** Appointments.Update: an unset key (0) inserts, an existing key
      overwrites that row, any other key makes the save fail. */
  method UpdateAsync(ctx: Context, appointment: Appointment) returns (r: Result<Appointment, Failure>)
    requires ctx.Valid()
    modifies ctx`appointments, ctx`nextAppointmentId
    ensures ctx.Valid()
    ensures appointment.id == 0 ==>
      && r == Ok(appointment.(id := old(ctx.nextAppointmentId)))
      && ctx.appointments == old(ctx.appointments) + [r.value]
      && ctx.nextAppointmentId == old(ctx.nextAppointmentId) + 1
    ensures appointment.id != 0 ==> ctx.nextAppointmentId == old(ctx.nextAppointmentId)
    ensures appointment.id != 0 && (forall a :: a in old(ctx.appointments) ==> a.id != appointment.id) ==>
      r == Err(ConcurrencyConflict) && ctx.appointments == old(ctx.appointments)
    ensures appointment.id != 0 && (exists a :: a in old(ctx.appointments) && a.id == appointment.id) ==>
      && r == Ok(appointment)
      && |ctx.appointments| == |old(ctx.appointments)|
      && forall i :: 0 <= i < |ctx.appointments| ==>
           ctx.appointments[i] == if old(ctx.appointments)[i].id == appointment.id then appointment else old(ctx.appointments)[i]
  {
    if appointment.id == 0 {
      var row := ctx.InsertAppointment(appointment);
      return Ok(row);
    }
    var i := IndexOf(ctx.appointments, AppointmentKey, appointment.id);
    if i < 0 {
      return Err(ConcurrencyConflict);
    }
    forall k | 0 <= k < |ctx.appointments| && ctx.appointments[k].id == appointment.id ensures k == i {
      KeyedIndexUnique(ctx.appointments, AppointmentKey, ctx.nextAppointmentId, appointment.id, k);
    }
    ReplaceKeepsKeysValid(ctx.appointments, AppointmentKey, ctx.nextAppointmentId, i, appointment);
    ctx.appointments := ctx.appointments[i := appointment];
    r := Ok(appointment);
  }
}
