/** ApplicationDbContext as the services see it: one table per entity set,
    each a sequence of rows in insertion order, with the identity counter the
    database uses to hand out primary keys. SaveChanges is folded into each
    operation, so every method below is one committed change. */
module Store {
  import opened Base
  import opened Entities

  class Context {
    var appointments: seq<Appointment>
    var schedules: seq<Schedule>
    var prescriptions: seq<Prescription>
    var notifications: seq<Notification>
    var patients: seq<Patient>
    var doctors: seq<Doctor>

    var nextAppointmentId: int
    var nextScheduleId: int
    var nextPrescriptionId: int
    var nextNotificationId: int

    /** Appointment confirmations handed to the event bus and the mailer.
        They write no row; the sequence records that one was sent. */
    var confirmations: seq<Appointment>

    /** Every table's primary keys are positive, distinct and below the
        identity counter; Patients.UserId and Doctors.UserId are unique
        indexes. */
    ghost predicate Valid()
      reads this
    {
      && 0 < nextAppointmentId && KeysValid(appointments, AppointmentKey, nextAppointmentId)
      && 0 < nextScheduleId && KeysValid(schedules, ScheduleKey, nextScheduleId)
      && 0 < nextPrescriptionId && KeysValid(prescriptions, PrescriptionKey, nextPrescriptionId)
      && 0 < nextNotificationId && KeysValid(notifications, NotificationKey, nextNotificationId)
      && (forall i, j :: 0 <= i < j < |patients| ==> patients[i].id != patients[j].id && patients[i].userId != patients[j].userId)
      && (forall i, j :: 0 <= i < j < |doctors| ==> doctors[i].id != doctors[j].id && doctors[i].userId != doctors[j].userId)
    }

    /** A database holding the registered patients and doctors and nothing else. */
    constructor (patients: seq<Patient>, doctors: seq<Doctor>)
      requires forall i, j :: 0 <= i < j < |patients| ==> patients[i].id != patients[j].id && patients[i].userId != patients[j].userId
      requires forall i, j :: 0 <= i < j < |doctors| ==> doctors[i].id != doctors[j].id && doctors[i].userId != doctors[j].userId
      ensures Valid()
      ensures this.patients == patients && this.doctors == doctors
      ensures appointments == [] && schedules == [] && prescriptions == [] && notifications == []
      ensures confirmations == []
    {
      this.patients, this.doctors := patients, doctors;
      appointments, schedules, prescriptions, notifications := [], [], [], [];
      nextAppointmentId, nextScheduleId, nextPrescriptionId, nextNotificationId := 1, 1, 1, 1;
      confirmations := [];
    }

    /** Appointments.Add + SaveChanges: the row gets the next identity value. */
    method InsertAppointment(a: Appointment) returns (row: Appointment)
      requires Valid()
      modifies this`appointments, this`nextAppointmentId
      ensures Valid()
      ensures row == a.(id := old(nextAppointmentId))
      ensures appointments == old(appointments) + [row]
      ensures nextAppointmentId == old(nextAppointmentId) + 1
    {
      row := a.(id := nextAppointmentId);
      AppendKeepsKeysValid(appointments, AppointmentKey, nextAppointmentId, row);
      appointments := appointments + [row];
      nextAppointmentId := nextAppointmentId + 1;
    }

    /** Schedules.Add + SaveChanges. */
    method InsertSchedule(s: Schedule) returns (row: Schedule)
      requires Valid()
      modifies this`schedules, this`nextScheduleId
      ensures Valid()
      ensures row == s.(id := old(nextScheduleId))
      ensures schedules == old(schedules) + [row]
      ensures nextScheduleId == old(nextScheduleId) + 1
    {
      row := s.(id := nextScheduleId);
      AppendKeepsKeysValid(schedules, ScheduleKey, nextScheduleId, row);
      schedules := schedules + [row];
      nextScheduleId := nextScheduleId + 1;
    }

    /** Prescriptions.Add + SaveChanges. */
    method InsertPrescription(p: Prescription) returns (row: Prescription)
      requires Valid()
      modifies this`prescriptions, this`nextPrescriptionId
      ensures Valid()
      ensures row == p.(id := old(nextPrescriptionId))
      ensures prescriptions == old(prescriptions) + [row]
      ensures nextPrescriptionId == old(nextPrescriptionId) + 1
    {
      row := p.(id := nextPrescriptionId);
      AppendKeepsKeysValid(prescriptions, PrescriptionKey, nextPrescriptionId, row);
      prescriptions := prescriptions + [row];
      nextPrescriptionId := nextPrescriptionId + 1;
    }

    /** Notifications.Add + SaveChanges. */
    method InsertNotification(n: Notification) returns (row: Notification)
      requires Valid()
      modifies this`notifications, this`nextNotificationId
      ensures Valid()
      ensures row == n.(id := old(nextNotificationId))
      ensures notifications == old(notifications) + [row]
      ensures nextNotificationId == old(nextNotificationId) + 1
    {
      row := n.(id := nextNotificationId);
      AppendKeepsKeysValid(notifications, NotificationKey, nextNotificationId, row);
      notifications := notifications + [row];
      nextNotificationId := nextNotificationId + 1;
    }
  }

  /** Patients.FindAsync(id): the patient with that key, or null. */
  function FindPatient(patients: seq<Patient>, id: int): (r: Option<Patient>)
    ensures r.Some? ==> r.value in patients && r.value.id == id
    ensures r.None? <==> forall p :: p in patients ==> p.id != id
  {
    var i := IndexOf(patients, PatientKey, id);
    if i < 0 then Option.None else Some(patients[i])
  }

  /** Doctors.FindAsync(id): the doctor with that key, or null. */
  function FindDoctor(doctors: seq<Doctor>, id: int): (r: Option<Doctor>)
    ensures r.Some? ==> r.value in doctors && r.value.id == id
    ensures r.None? <==> forall d :: d in doctors ==> d.id != id
  {
    var i := IndexOf(doctors, DoctorKey, id);
    if i < 0 then Option.None else Some(doctors[i])
  }
}
