/** The patient dashboard: the appointment and prescription lists with their
    filters and partitions, the free-slot list for a doctor and a date,
    booking, cancelling and asking the doctor for a prescription renewal.
    The signed-in user's patient id is a parameter. */
module PatientPage {
  import opened Base
  import opened Entities
  import opened Store
  import opened PageOutcome
  import AppointmentService
  import DoctorService
  import PrescriptionService
  import NotificationService

  /** TimeSpan.FromMinutes(30), the step both booking pages pass. */
  const SlotMinutes: int := 30

  const BookedText: string := "Appointment booked successfully!"
  const NotFoundText: string := "Appointment not found"
  const TooLateText: string := "Appointments can only be cancelled at least 48 hours in advance"
  const CancelledText: string := "Appointment cancelled successfully"
  const PrescriptionNotFoundText: string := "Prescription not found"
  const ExpiredText: string := "This prescription has already expired"
  const RenewalSentText: string := "Renewal request sent to your doctor"
  const RenewalTag: string := "PrescriptionRenewal"

  // ---------------------------------------------------------------------------
  // GenerateTimeSlots
  // ---------------------------------------------------------------------------

  /** What the iterator yields: start, start + step, start + 2 step, ...,
      each strictly before end. */
  function TimeSlots(start: int, end: int, step: int): seq<int>
    requires 0 < step
    decreases end - start
  {
    if start >= end then [] else [start] + TimeSlots(start + step, end, step)
  }

  lemma MulBounds(step: int, k: int)
    requires 0 < step
    ensures k >= 1 ==> step * k >= step
    ensures k <= -1 ==> step * k <= -step
  {
  }

  /** Euclidean division has one quotient and remainder. */
  lemma RemainderUnique(a: int, step: int, q: int, m: int)
    requires 0 < step && 0 <= m < step && a == step * q + m
    ensures a % step == m
  {
    var q0, m0 := a / step, a % step;
    assert step * (q0 - q) == m - m0;
    MulBounds(step, q0 - q);
  }

  /** Euclidean remainders are unchanged by one step, and a positive offset
      below one step leaves a non-zero remainder. */
  lemma StepRemainder(x: int, step: int)
    requires 0 < step
    ensures (x - step) % step == x % step
    ensures 0 < x < step ==> x % step != 0
  {
    RemainderUnique(x - step, step, x / step - 1, x % step);
    if 0 < x < step {
      RemainderUnique(x, step, 0, x);
    }
  }

  /** The slots are exactly the times in [start, end) a whole number of
      steps after start. */
  lemma {:induction false} TimeSlotsMembers(start: int, end: int, step: int)
    requires 0 < step
    ensures forall t :: t in TimeSlots(start, end, step) <==> start <= t < end && (t - start) % step == 0
    decreases end - start
  {
    if start < end {
      TimeSlotsMembers(start + step, end, step);
      forall t ensures t in TimeSlots(start, end, step) <==> start <= t < end && (t - start) % step == 0 {
        StepRemainder(t - start, step);
      }
    }
  }

  /** The slots come out strictly increasing. */
  lemma {:induction false} TimeSlotsIncreasing(start: int, end: int, step: int)
    requires 0 < step
    ensures forall i, j :: 0 <= i < j < |TimeSlots(start, end, step)| ==>
      TimeSlots(start, end, step)[i] < TimeSlots(start, end, step)[j]
    decreases end - start
  {
    if start < end {
      var r, rest := TimeSlots(start, end, step), TimeSlots(start + step, end, step);
      TimeSlotsIncreasing(start + step, end, step);
      TimeSlotsMembers(start + step, end, step);
      forall i, j | 0 <= i < j < |r| ensures r[i] < r[j] {
        assert r[j] == rest[j - 1] && rest[j - 1] in rest;
        if 0 < i {
          assert r[i] == rest[i - 1];
        }
      }
    }
  }

  /** The loop of GenerateTimeSlots, advancing `time` by the duration. */
  method GenerateTimeSlots(start: int, end: int, duration: int) returns (slots: seq<int>)
    requires 0 < duration
    ensures slots == TimeSlots(start, end, duration)
  {
    slots := [];
    var time := start;
    while time < end
      invariant slots + TimeSlots(time, end, duration) == TimeSlots(start, end, duration)
      decreases end - time
    {
      assert TimeSlots(time, end, duration) == [time] + TimeSlots(time + duration, end, duration);
      assert slots + TimeSlots(time, end, duration) == (slots + [time]) + TimeSlots(time + duration, end, duration);
      slots := slots + [time];
      time := time + duration;
    }
    assert TimeSlots(time, end, duration) == [];
    assert slots + [] == slots;
  }

  // ---------------------------------------------------------------------------
  // Slots offered for a doctor and a date
  // ---------------------------------------------------------------------------

  /** `t` is a slot of the weekly window `w` on the calendar day of `date`:
      the weekdays agree and `t` lies in [date + StartTime, date + EndTime),
      a whole number of 30-minute steps after the window opens. */
  predicate SlotOf(w: Schedule, date: int, t: int) {
    && w.dayOfWeek == DayOfWeek(date)
    && DateOf(date) + w.startTime <= t < DateOf(date) + w.endTime
    && (t - (DateOf(date) + w.startTime)) % SlotMinutes == 0
  }

  /** Where(s => s.DayOfWeek == date.DayOfWeek).SelectMany(GenerateTimeSlots):
      the windows' slots, window after window. */
  function WindowSlots(windows: seq<Schedule>, date: int): seq<int>
  {
    if windows == [] then []
    else
      var w := windows[0];
      (if w.dayOfWeek == DayOfWeek(date)
       then TimeSlots(DateOf(date) + w.startTime, DateOf(date) + w.endTime, SlotMinutes)
       else [])
      + WindowSlots(windows[1..], date)
  }

  /** A time is listed exactly when it is a slot of one of the windows. */
  lemma {:induction false} WindowSlotsMembers(windows: seq<Schedule>, date: int)
    ensures forall t :: t in WindowSlots(windows, date) <==> exists w :: w in windows && SlotOf(w, date, t)
  {
    if windows != [] {
      var w := windows[0];
      WindowSlotsMembers(windows[1..], date);
      TimeSlotsMembers(DateOf(date) + w.startTime, DateOf(date) + w.endTime, SlotMinutes);
      var head := if w.dayOfWeek == DayOfWeek(date)
                  then TimeSlots(DateOf(date) + w.startTime, DateOf(date) + w.endTime, SlotMinutes)
                  else [];
      assert WindowSlots(windows, date) == head + WindowSlots(windows[1..], date);
      forall t | exists v :: v in windows && SlotOf(v, date, t)
        ensures t in WindowSlots(windows, date)
      {
        var v :| v in windows && SlotOf(v, date, t);
        if v != w {
          assert v in windows[1..];
        }
      }
      forall t | t in WindowSlots(windows, date)
        ensures exists v :: v in windows && SlotOf(v, date, t)
      {
        if t in head {
          assert w in windows && SlotOf(w, date, t);
        } else {
          var v :| v in windows[1..] && SlotOf(v, date, t);
          assert v in windows;
        }
      }
    }
  }

  /** The doctor's appointments on the date are those of the table. */
  lemma BookedOnDateMembers(appts: seq<Appointment>, doctorId: int, date: int)
    ensures forall a :: a in DoctorService.GetDoctorAppointments(appts, doctorId, Some(date))
                    <==> a in appts && a.doctorId == doctorId && DateOf(a.start) == DateOf(date)
  {
    var booked := DoctorService.GetDoctorAppointments(appts, doctorId, Some(date));
    forall a ensures a in booked <==> a in appts && a.doctorId == doctorId && DateOf(a.start) == DateOf(date) {
      assert a in booked <==> multiset(booked)[a] > 0;
    }
  }

  /** The slots at which none of the booked appointments starts. */
  function FreeSlots(slots: seq<int>, booked: seq<Appointment>): (r: seq<int>)
    ensures forall t :: t in r <==> t in slots && !(exists a :: a in booked && a.start == t)
  {
    Filter(slots, (slot: int) => forall i :: 0 <= i < |booked| ==> booked[i].start != slot)
  }

  /** OnPostGetAvailableSlotsAsync: the doctor's windows on the date's
      weekday, stepped every 30 minutes, minus every slot at which one of
      the doctor's appointments on that date starts, whatever its status. */
  function AvailableSlots(schedules: seq<Schedule>, appts: seq<Appointment>, doctorId: int, date: int): (r: seq<int>)
    ensures forall t :: t in r <==>
      && (exists w :: w in schedules && w.doctorId == doctorId && SlotOf(w, date, t))
      && !(exists a :: a in appts && a.doctorId == doctorId && DateOf(a.start) == DateOf(date) && a.start == t)
  {
    var windows := DoctorService.GetDoctorSchedule(schedules, doctorId);
    var booked := DoctorService.GetDoctorAppointments(appts, doctorId, Some(date));
    WindowSlotsMembers(windows, date);
    BookedOnDateMembers(appts, doctorId, date);
    FreeSlots(WindowSlots(windows, date), booked)
  }

  // ---------------------------------------------------------------------------
  // Dashboard lists
  // ---------------------------------------------------------------------------

  /** The status filter (skipped when empty; a null query value is modelled
      as the empty string) and the calendar-day filter. */
  predicate Shown(a: Appointment, statusFilter: string, dateFilter: Option<int>) {
    (statusFilter == [] || a.status == statusFilter) && (dateFilter.None? || DateOf(a.start) == DateOf(dateFilter.value))
  }

  function Filtered(list: seq<Appointment>, statusFilter: string, dateFilter: Option<int>): (r: seq<Appointment>)
    ensures forall a :: multiset(r)[a] == if Shown(a, statusFilter, dateFilter) then multiset(list)[a] else 0
  {
    Filter(list, (a: Appointment) => Shown(a, statusFilter, dateFilter))
  }

  /** UpcomingAppointments: start at or after now, earliest first. */
  function Upcoming(list: seq<Appointment>, now: int): (r: seq<Appointment>)
    ensures forall a :: multiset(r)[a] == if a.start >= now then multiset(list)[a] else 0
    ensures AppointmentService.AscendingByStart(r)
  {
    AppointmentService.SelectByStart(list, (a: Appointment) => a.start >= now)
  }

  /** PastAppointments: start before now, latest first. */
  function Past(list: seq<Appointment>, now: int): (r: seq<Appointment>)
    ensures forall a :: multiset(r)[a] == if a.start < now then multiset(list)[a] else 0
    ensures forall i, j :: 0 <= i < j < |r| ==> r[i].start >= r[j].start
  {
    var r := SortBy(Filter(list, (a: Appointment) => a.start < now), LatestFirst, NoKey);
    assert forall i, j :: 0 <= i < j < |r| ==> InOrder(r[i], r[j], LatestFirst, NoKey);
    r
  }

  /** Every listed appointment is upcoming or past, and none is both. */
  lemma UpcomingPastPartition(list: seq<Appointment>, now: int)
    ensures multiset(Upcoming(list, now)) + multiset(Past(list, now)) == multiset(list)
    ensures multiset(Upcoming(list, now)) * multiset(Past(list, now)) == multiset{}
  {
    var u, p := multiset(Upcoming(list, now)), multiset(Past(list, now));
    forall a ensures (u + p)[a] == multiset(list)[a] && (u * p)[a] == 0 {
      assert u[a] == if a.start >= now then multiset(list)[a] else 0;
      assert p[a] == if a.start < now then multiset(list)[a] else 0;
    }
    assert u + p == multiset(list);
    assert u * p == multiset{};
  }

  /** ExpiryDate == null || ExpiryDate > now. */
  predicate IsActive(p: Prescription, now: int) {
    p.expiryDate.None? || p.expiryDate.value > now
  }

  /** ExpiryDate != null && ExpiryDate <= now. */
  predicate IsExpired(p: Prescription, now: int) {
    p.expiryDate.Some? && p.expiryDate.value <= now
  }

  function Active(ps: seq<Prescription>, now: int): (r: seq<Prescription>)
    ensures forall p :: multiset(r)[p] == if IsActive(p, now) then multiset(ps)[p] else 0
  {
    Filter(ps, (p: Prescription) => IsActive(p, now))
  }

  function Expired(ps: seq<Prescription>, now: int): (r: seq<Prescription>)
    ensures forall p :: multiset(r)[p] == if IsExpired(p, now) then multiset(ps)[p] else 0
  {
    Filter(ps, (p: Prescription) => IsExpired(p, now))
  }

  /** Active and Expired split the patient's prescriptions without overlap. */
  lemma ActiveExpiredPartition(ps: seq<Prescription>, now: int)
    ensures multiset(Active(ps, now)) + multiset(Expired(ps, now)) == multiset(ps)
    ensures multiset(Active(ps, now)) * multiset(Expired(ps, now)) == multiset{}
  {
    var a, e := multiset(Active(ps, now)), multiset(Expired(ps, now));
    assert forall p :: (a + e)[p] == multiset(ps)[p];
    assert forall p :: (a * e)[p] == 0;
  }

  /** Each appointment of the list is upcoming or past, never both. */
  lemma SplitByNow(list: seq<Appointment>, now: int)
    ensures forall a :: multiset(Upcoming(list, now))[a] + multiset(Past(list, now))[a] == multiset(list)[a]
    ensures forall a :: a in Upcoming(list, now) ==> a.start >= now
    ensures forall a :: a in Past(list, now) ==> a.start < now
  {
    var u, p := Upcoming(list, now), Past(list, now);
    forall a | a in u ensures a.start >= now {
      assert multiset(u)[a] > 0;
    }
    forall a | a in p ensures a.start < now {
      assert multiset(p)[a] > 0;
    }
  }

  /** Each prescription is active or expired, never both. */
  lemma SplitByExpiry(mine: seq<Prescription>, now: int)
    ensures forall p :: multiset(Active(mine, now))[p] + multiset(Expired(mine, now))[p] == multiset(mine)[p]
  {
  }

  datatype Dashboard = Dashboard(
    upcoming: seq<Appointment>,
    past: seq<Appointment>,
    active: seq<Prescription>,
    expired: seq<Prescription>)

  /** OnGetAsync as written: the appointments come from
      GetPatientAppointments(user.Id), which compares each row's PatientId
      in decimal with the identity user id; the prescriptions from the
      patient's id. Each listed appointment is therefore one whose decimal
      PatientId is the user id. */
  function DashboardAsWritten(appts: seq<Appointment>, ps: seq<Prescription>, userId: string, patientId: int,
                              statusFilter: string, dateFilter: Option<int>, now: int): (d: Dashboard)
    ensures forall a ::
              multiset(d.upcoming)[a] + multiset(d.past)[a] ==
              (if DecimalString(a.patientId) == userId && Shown(a, statusFilter, dateFilter) then multiset(appts)[a] else 0)
    ensures forall a :: a in d.upcoming ==> a.start >= now
    ensures forall a :: a in d.past ==> a.start < now
    ensures forall p ::
              multiset(d.active)[p] + multiset(d.expired)[p] == if p.patientId == patientId then multiset(ps)[p] else 0
  {
    var list := Filtered(AppointmentService.GetPatientAppointments(appts, userId), statusFilter, dateFilter);
    var mine := PrescriptionService.GetByPatientId(ps, patientId);
    SplitByNow(list, now);
    SplitByExpiry(mine, now);
    Dashboard(Upcoming(list, now), Past(list, now), Active(mine, now), Expired(mine, now))
  }

  /** The dashboard with the appointments selected by the patient's id: it
      lists each of the patient's appointments that pass the filters
      exactly once, upcoming when it starts at or after now and past
      otherwise, and nobody else's; and each of the patient's
      prescriptions once, as active or expired. */
  function DashboardCorrected(appts: seq<Appointment>, ps: seq<Prescription>, patientId: int,
                              statusFilter: string, dateFilter: Option<int>, now: int): (d: Dashboard)
    ensures forall a ::
              multiset(d.upcoming)[a] + multiset(d.past)[a] ==
              (if a.patientId == patientId && Shown(a, statusFilter, dateFilter) then multiset(appts)[a] else 0)
    ensures forall a :: a in d.upcoming ==> a.start >= now
    ensures forall a :: a in d.past ==> a.start < now
    ensures forall p ::
              multiset(d.active)[p] + multiset(d.expired)[p] == if p.patientId == patientId then multiset(ps)[p] else 0
  {
    var list := Filtered(AppointmentService.GetByPatientId(appts, patientId), statusFilter, dateFilter);
    var mine := PrescriptionService.GetByPatientId(ps, patientId);
    SplitByNow(list, now);
    SplitByExpiry(mine, now);
    Dashboard(Upcoming(list, now), Past(list, now), Active(mine, now), Expired(mine, now))
  }

  /** With an identity user id that is not a decimal number (a GUID has a
      '-' at position 8) both appointment lists are always empty. */
  lemma DashboardAsWrittenListsNoAppointments(appts: seq<Appointment>, ps: seq<Prescription>, userId: string,
                                              patientId: int, statusFilter: string, dateFilter: Option<int>,
                                              now: int, k: int)
    requires 0 < k < |userId| && !IsDigit(userId[k])
    ensures DashboardAsWritten(appts, ps, userId, patientId, statusFilter, dateFilter, now).upcoming == []
    ensures DashboardAsWritten(appts, ps, userId, patientId, statusFilter, dateFilter, now).past == []
  {
    AppointmentService.NonNumericIdMatchesNothing(appts, userId, k);
    var list := Filtered(AppointmentService.GetPatientAppointments(appts, userId), statusFilter, dateFilter);
    assert list == [];
    assert multiset(Upcoming(list, now)) == multiset{};
    assert multiset(Past(list, now)) == multiset{};
  }

  // ---------------------------------------------------------------------------
  // OnPostBookAppointmentAsync
  // ---------------------------------------------------------------------------

  /** The row the page builds: a 30-minute Pending appointment for the
      signed-in patient, with the typed reason in Reason. */
  function BookingRecord(doctorId: int, patientId: int, start: int, reason: string): (a: Appointment)
    ensures a.start == start && a.end == start + SlotMinutes && a.durationMinutes == a.end - a.start
    ensures a.status == Pending && a.reason == Some(reason) && a.cancellationReason == Option.None
    ensures a.doctorId == doctorId && a.patientId == patientId
  {
    Appointment(0, start, start + SlotMinutes, DefaultDurationMinutes, Pending, Some(reason), Option.None,
                Option.None, patientId, doctorId)
  }

  /** The two booking paths store different rows for the same request: this
      page fills EndDateTime and Reason, CreateAppointmentAsync leaves
      EndDateTime at its default and puts the reason in CancellationReason. */
  lemma BookingPathsDiffer(doctorId: int, patientId: int, start: int, reason: string)
    requires start != MinDateTime - SlotMinutes
    ensures var page := BookingRecord(doctorId, patientId, start, reason);
            var service := AppointmentService.BookedFrom(AppointmentCreateDto(doctorId, patientId, start, Some(reason)));
            && page.end != service.end
            && page.reason == service.cancellationReason && page.cancellationReason == service.reason
  {
  }

  /** The handler as written. Model validation requires a non-blank
      Reason. AddAsync then inserts the row when its start is free and sends
      a confirmation; the page sends a second one for the same row. A
      refused slot shows the page again with the exception's message. */
  method BookAppointment(ctx: Context, patientId: int, doctorId: int, start: int, reason: Option<string>)
    returns (o: Outcome)
    requires ctx.Valid()
    modifies ctx`appointments, ctx`nextAppointmentId, ctx`confirmations
    ensures ctx.Valid()
    ensures !RequiredText(reason) ==>
      && o == Redisplay(Option.None)
      && ctx.appointments == old(ctx.appointments) && ctx.confirmations == old(ctx.confirmations)
      && ctx.nextAppointmentId == old(ctx.nextAppointmentId)
    ensures RequiredText(reason) && !AppointmentService.IsTimeSlotAvailable(old(ctx.appointments), doctorId, start, start) ==>
      && o == Redisplay(Some(InvalidOperation(AppointmentService.SlotNotAvailable)))
      && ctx.appointments == old(ctx.appointments) && ctx.confirmations == old(ctx.confirmations)
      && ctx.nextAppointmentId == old(ctx.nextAppointmentId)
    ensures RequiredText(reason) && AppointmentService.IsTimeSlotAvailable(old(ctx.appointments), doctorId, start, start) ==>
      var row := BookingRecord(doctorId, patientId, start, reason.value).(id := old(ctx.nextAppointmentId));
      && o == Redirect(Success(BookedText))
      && ctx.appointments == old(ctx.appointments) + [row]
      && ctx.nextAppointmentId == old(ctx.nextAppointmentId) + 1
      && ctx.confirmations == old(ctx.confirmations) + [row, row]
  {
    if !RequiredText(reason) {
      return Redisplay(Option.None);
    }
    var added := AppointmentService.AddAsync(ctx, BookingRecord(doctorId, patientId, start, reason.value));
    if added.Err? {
      return Redisplay(Some(added.error));
    }
    NotificationService.SendAppointmentConfirmation(ctx, added.value);
    o := Redirect(Success(BookedText));
  }

  /** The handler with the page's own confirmation removed: AddAsync's is
      the only one. */
  method BookAppointmentCorrected(ctx: Context, patientId: int, doctorId: int, start: int, reason: Option<string>)
    returns (o: Outcome)
    requires ctx.Valid()
    modifies ctx`appointments, ctx`nextAppointmentId, ctx`confirmations
    ensures ctx.Valid()
    ensures !RequiredText(reason) ==>
      && o == Redisplay(Option.None)
      && ctx.appointments == old(ctx.appointments) && ctx.confirmations == old(ctx.confirmations)
      && ctx.nextAppointmentId == old(ctx.nextAppointmentId)
    ensures RequiredText(reason) && !AppointmentService.IsTimeSlotAvailable(old(ctx.appointments), doctorId, start, start) ==>
      && o == Redisplay(Some(InvalidOperation(AppointmentService.SlotNotAvailable)))
      && ctx.appointments == old(ctx.appointments) && ctx.confirmations == old(ctx.confirmations)
      && ctx.nextAppointmentId == old(ctx.nextAppointmentId)
    ensures RequiredText(reason) && AppointmentService.IsTimeSlotAvailable(old(ctx.appointments), doctorId, start, start) ==>
      var row := BookingRecord(doctorId, patientId, start, reason.value).(id := old(ctx.nextAppointmentId));
      && o == Redirect(Success(BookedText))
      && ctx.appointments == old(ctx.appointments) + [row]
      && ctx.nextAppointmentId == old(ctx.nextAppointmentId) + 1
      && ctx.confirmations == old(ctx.confirmations) + [row]
  {
    if !RequiredText(reason) {
      return Redisplay(Option.None);
    }
    var added := AppointmentService.AddAsync(ctx, BookingRecord(doctorId, patientId, start, reason.value));
    if added.Err? {
      return Redisplay(Some(added.error));
    }
    o := Redirect(Success(BookedText));
  }

  // ---------------------------------------------------------------------------
  // OnPostCancelAsync
  // ---------------------------------------------------------------------------

  /** The handler as written. GetByIdAsync throws for an unknown id before
      the null check is reached. Another patient's appointment and one
      starting before now + 48 hours are refused with a message. Otherwise
      the call through IAppointmentRepository reaches the interface's stub,
      whose NotImplementedException is caught and shown: nothing is ever
      cancelled and nothing changes. */
  method CancelAppointment(ctx: Context, patientId: int, id: int, reason: string, now: int) returns (o: Outcome)
    ensures AppointmentService.GetById(ctx.appointments, id).Err? ==> o == Crash(AppointmentNotFound(id))
    ensures AppointmentService.GetById(ctx.appointments, id).Ok? ==>
      var a := AppointmentService.GetById(ctx.appointments, id).value;
      && (a.patientId != patientId ==> o == Redirect(Error(NotFoundText)))
      && (a.patientId == patientId && a.start < now + AppointmentService.CancellationNotice ==> o == Redirect(Error(TooLateText)))
      && (a.patientId == patientId && a.start >= now + AppointmentService.CancellationNotice ==> o == Redirect(ErrorFrom(NotImplemented)))
    ensures !Succeeded(o)
  {
    var found := AppointmentService.GetById(ctx.appointments, id);
    if found.Err? {
      return Crash(found.error);
    }
    var a := found.value;
    if a.patientId != patientId {
      return Redirect(Error(NotFoundText));
    }
    if a.start < now + AppointmentService.CancellationNotice {
      return Redirect(Error(TooLateText));
    }
    var cancelled := AppointmentService.CancelAppointmentViaInterface(ctx, id, reason);
    if cancelled.Err? {
      return Redirect(ErrorFrom(cancelled.error));
    }
    o := Redirect(Success(CancelledText));
  }

  /** The handler calling the class's CancelAppointmentAsync, which cancels
      the row and notifies the patient; the page no longer sends a second
      cancellation notice. */
  method CancelAppointmentCorrected(ctx: Context, patientId: int, id: int, reason: string, now: int,
                                    message: string, utcNow: int) returns (o: Outcome)
    requires ctx.Valid()
    modifies ctx`appointments, ctx`notifications, ctx`nextNotificationId
    ensures ctx.Valid()
    ensures AppointmentService.GetById(old(ctx.appointments), id).Err? ==> o == Crash(AppointmentNotFound(id))
    ensures AppointmentService.GetById(old(ctx.appointments), id).Ok? ==>
      var a := AppointmentService.GetById(old(ctx.appointments), id).value;
      && (a.patientId != patientId ==> o == Redirect(Error(NotFoundText)))
      && (a.patientId == patientId && a.start < now + AppointmentService.CancellationNotice ==> o == Redirect(Error(TooLateText)))
    ensures o.Crash? || (o.Redirect? && o.notice.Error?) ==>
      ctx.appointments == old(ctx.appointments) && ctx.notifications == old(ctx.notifications)
    ensures AppointmentService.GetById(old(ctx.appointments), id).Ok? ==>
      var a := AppointmentService.GetById(old(ctx.appointments), id).value;
      var notice := NotificationService.PatientNotice(ctx.patients, old(ctx.nextNotificationId), a.patientId,
                                                      message, NotificationService.CancellationTag, id, utcNow);
      a.patientId == patientId && a.start >= now + AppointmentService.CancellationNotice ==>
        && o == (if notice.Ok? then Redirect(Success(CancelledText)) else Redirect(ErrorFrom(notice.error)))
        && |ctx.appointments| == |old(ctx.appointments)|
        && (forall i :: 0 <= i < |ctx.appointments| ==>
              ctx.appointments[i] == if old(ctx.appointments)[i].id == id
                                     then AppointmentService.CancelledRow(a, reason) else old(ctx.appointments)[i])
        && ctx.notifications == old(ctx.notifications) + (if notice.Ok? then [notice.value] else [])
  {
    var found := AppointmentService.GetById(ctx.appointments, id);
    if found.Err? {
      return Crash(found.error);
    }
    var a := found.value;
    if a.patientId != patientId {
      return Redirect(Error(NotFoundText));
    }
    if a.start < now + AppointmentService.CancellationNotice {
      return Redirect(Error(TooLateText));
    }
    KeyedIndexUnique(ctx.appointments, AppointmentKey, ctx.nextAppointmentId, id, IndexOf(ctx.appointments, AppointmentKey, id));
    var r := AppointmentService.CancelAppointment(ctx, id, reason, now, message, utcNow);
    o := if r.Ok? then Redirect(Success(CancelledText)) else Redirect(ErrorFrom(r.error));
  }

  // ---------------------------------------------------------------------------
  // OnPostRequestRenewalAsync
  // ---------------------------------------------------------------------------

  /** ExpiryDate < DateTime.Now, a lifted comparison that is false when the
      prescription has no expiry date. */
  predicate RenewalRefused(p: Prescription, now: int) {
    p.expiryDate.Some? && p.expiryDate.value < now
  }

  /** The renewal guard and the Expired list disagree on exactly one
      moment: a prescription expiring now is listed as expired, yet its
      renewal may still be requested. */
  lemma ExpiredButRenewable(p: Prescription, now: int)
    ensures IsExpired(p, now) && !RenewalRefused(p, now) <==> p.expiryDate == Some(now)
    ensures RenewalRefused(p, now) ==> IsExpired(p, now)
  {
  }

  /** Refused with a message when the prescription is unknown, belongs to
      another patient or expired before now. Otherwise one unread
      "PrescriptionRenewal" notification, linked to the prescription, goes
      to the prescribing doctor's user; the prescription itself, its
      RenewalStatus included, is left as it is. A doctor row that cannot be
      found is dereferenced. */
  method RequestRenewal(ctx: Context, patientId: int, prescriptionId: int, now: int, message: string, utcNow: int)
    returns (o: Outcome)
    requires ctx.Valid()
    modifies ctx`notifications, ctx`nextNotificationId
    ensures ctx.Valid()
    ensures var p := PrescriptionService.GetById(ctx.prescriptions, prescriptionId);
      var refused := p.None? || p.value.patientId != patientId || RenewalRefused(p.value, now)
                     || FindDoctor(ctx.doctors, p.value.doctorId).None?;
      && (p.None? || p.value.patientId != patientId ==> o == Redirect(Error(PrescriptionNotFoundText)))
      && (p.Some? && p.value.patientId == patientId && RenewalRefused(p.value, now) ==> o == Redirect(Error(ExpiredText)))
      && ((p.Some? && p.value.patientId == patientId && !RenewalRefused(p.value, now)
           && FindDoctor(ctx.doctors, p.value.doctorId).None?) ==> o == Crash(NullReference))
      && (refused ==> ctx.notifications == old(ctx.notifications) && ctx.nextNotificationId == old(ctx.nextNotificationId))
      && (!refused ==>
            && o == Redirect(Success(RenewalSentText))
            && ctx.notifications == old(ctx.notifications)
                 + [NotificationService.NewNotification(old(ctx.nextNotificationId),
                      FindDoctor(ctx.doctors, p.value.doctorId).value.userId, message, RenewalTag, Some(prescriptionId), utcNow)]
            && ctx.nextNotificationId == old(ctx.nextNotificationId) + 1)
  {
    var p := PrescriptionService.GetById(ctx.prescriptions, prescriptionId);
    if p.None? || p.value.patientId != patientId {
      return Redirect(Error(PrescriptionNotFoundText));
    }
    if RenewalRefused(p.value, now) {
      return Redirect(Error(ExpiredText));
    }
    var doctor := FindDoctor(ctx.doctors, p.value.doctorId);
    if doctor.None? {
      return Crash(NullReference);
    }
    var row := NotificationService.CreateNotification(ctx, doctor.value.userId, message, RenewalTag, Some(p.value.id), utcNow);
    o := Redirect(Success(RenewalSentText));
  }
}
