/** The booking page: the slot list for a chosen doctor and date, and the
    form post that books through CreateAppointmentAsync. Its
    GenerateTimeSlots is the same loop as the patient dashboard's. */
module BookAppointmentPage {
  import opened Base
  import opened Entities
  import opened Store
  import opened PageOutcome
  import AppointmentService
  import DoctorService
  import PatientPage

  /** OnGetAsync: with both a doctor and a date, every 30-minute slot of
      the doctor's windows on the date's weekday; booked starts are not
      removed. Without either, no list is computed. */
  function OfferedSlots(schedules: seq<Schedule>, doctorId: Option<int>, date: Option<int>): (r: Option<seq<int>>)
    ensures r.Some? <==> doctorId.Some? && date.Some?
    ensures r.Some? ==> forall t :: t in r.value <==>
      exists w :: w in schedules && w.doctorId == doctorId.value && PatientPage.SlotOf(w, date.value, t)
  {
    if doctorId.Some? && date.Some? then
      var windows := DoctorService.GetDoctorSchedule(schedules, doctorId.value);
      PatientPage.WindowSlotsMembers(windows, date.value);
      Some(PatientPage.WindowSlots(windows, date.value))
    else Option.None
  }

  /** The dashboard's free slots are this page's slots minus the starts of
      the doctor's appointments that day: nothing else is removed. */
  lemma DashboardSlotsAreOfferedSlots(schedules: seq<Schedule>, appts: seq<Appointment>, doctorId: int, date: int)
    ensures forall t :: t in PatientPage.AvailableSlots(schedules, appts, doctorId, date) <==>
      && t in OfferedSlots(schedules, Some(doctorId), Some(date)).value
      && !(exists a :: a in appts && a.doctorId == doctorId && DateOf(a.start) == DateOf(date) && a.start == t)
  {
  }

  /** A slot of a window that lies within one day falls on the window's
      weekday and within its opening hours. */
  lemma SlotWithinWindow(w: Schedule, date: int, t: int)
    requires 0 <= w.startTime && w.endTime <= MinutesPerDay
    requires PatientPage.SlotOf(w, date, t)
    ensures w.dayOfWeek == DayOfWeek(t) && w.startTime <= TimeOfDay(t) <= w.endTime
  {
    var m := t - DateOf(date);
    SameDay(date, m);
  }

  /** Every slot offered from windows that lie within one day (each opens
      at or after midnight and closes by the next) passes the weekday and
      time-of-day check of CreateAppointmentAsync. */
  lemma OfferedSlotsPassScheduleCheck(schedules: seq<Schedule>, doctorId: int, date: int, t: int)
    requires forall w :: w in schedules ==> 0 <= w.startTime && w.endTime <= MinutesPerDay
    requires t in OfferedSlots(schedules, Some(doctorId), Some(date)).value
    ensures AppointmentService.ScheduleCovers(schedules, doctorId, t)
  {
    var w :| w in schedules && w.doctorId == doctorId && PatientPage.SlotOf(w, date, t);
    SlotWithinWindow(w, date, t);
  }

  /** OnPostAsync. An invalid form is shown again. Otherwise Input.PatientId
      is overwritten with the signed-in patient's id, whatever was posted,
      and CreateAppointmentAsync books; an exception becomes a model error
      on the page shown again. */
  method Book(ctx: Context, modelValid: bool, patientId: int, input: AppointmentCreateDto) returns (o: Outcome)
    requires ctx.Valid()
    modifies ctx`appointments, ctx`nextAppointmentId, ctx`confirmations
    ensures ctx.Valid()
    ensures !modelValid ==>
      && o == Redisplay(Option.None)
      && ctx.appointments == old(ctx.appointments) && ctx.nextAppointmentId == old(ctx.nextAppointmentId)
      && ctx.confirmations == old(ctx.confirmations)
    ensures modelValid && o.Redisplay? ==>
      && o.modelError.Some? && o.modelError.value.Thrown?
      && ctx.appointments == old(ctx.appointments) && ctx.nextAppointmentId == old(ctx.nextAppointmentId)
      && ctx.confirmations == old(ctx.confirmations)
    ensures modelValid ==>
      (o.Redirect? <==> (&& AppointmentService.ScheduleCovers(ctx.schedules, input.doctorId, input.start)
                         && !AppointmentService.StartTaken(old(ctx.appointments), input.doctorId, input.start)))
    ensures o.Redirect? ==>
      var row := AppointmentService.BookedFrom(input.(patientId := patientId)).(id := old(ctx.nextAppointmentId));
      && o == Redirect(Success(PatientPage.BookedText))
      && ctx.appointments == old(ctx.appointments) + [row]
      && ctx.nextAppointmentId == old(ctx.nextAppointmentId) + 1
      && ctx.confirmations == old(ctx.confirmations) + [row]
      && row.patientId == patientId
  {
    if !modelValid {
      return Redisplay(Option.None);
    }
    var r := AppointmentService.CreateAppointment(ctx, input.(patientId := patientId));
    if r.Err? {
      return Redisplay(Some(r.error));
    }
    o := Redirect(Success(PatientPage.BookedText));
  }
}
