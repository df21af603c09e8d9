/** The records of HealthApp.Domain/Entities that the services and pages read
    and write, with the column defaults and validation attributes they carry,
    and the exceptions the services throw. */
module Entities {
  import opened Base

  // ---------------------------------------------------------------------------
  // Appointment
  // ---------------------------------------------------------------------------

  /** The Status strings the code writes and compares against. */
  const Pending: string := "Pending"
  const Approved: string := "Approved"
  const Rejected: string := "Rejected"
  const Rescheduled: string := "Rescheduled"
  const Completed: string := "Completed"
  const Cancelled: string := "Cancelled"

  /** Appointment.DurationMinutes defaults to 30. */
  const DefaultDurationMinutes: int := 30

  /** DateTime's default value, DateTime.MinValue, is minute 0. */
  const MinDateTime: int := 0

  /** An appointment row. `start` is AppointmentDateTime, `end` EndDateTime.
      Rows flagged IsDeleted are hidden by the context's query filter, so the
      table here holds only the rows every query sees. */
  datatype Appointment = Appointment(
    id: int,
    start: int,
    end: int,
    durationMinutes: int,
    status: string,
    reason: Option<string>,
    cancellationReason: Option<string>,
    notes: Option<string>,
    patientId: int,
    doctorId: int)

  /** The fields of a booking request posted by a patient. */
  datatype AppointmentCreateDto = AppointmentCreateDto(
    doctorId: int,
    patientId: int,
    start: int,
    reason: Option<string>)

  function AppointmentKey(a: Appointment): int { a.id }
  function StartOf(a: Appointment): int { a.start }
  function LatestFirst(a: Appointment): int { -a.start }

  // ---------------------------------------------------------------------------
  // Schedule: a weekly availability window of one doctor; its times are
  // minutes past midnight (TimeSpan) and its day uses DayOfWeek's numbering.
  // ---------------------------------------------------------------------------

  datatype Schedule = Schedule(
    id: int,
    doctorId: int,
    dayOfWeek: int,
    startTime: int,
    endTime: int)

  function ScheduleKey(s: Schedule): int { s.id }
  function DayKey(s: Schedule): int { s.dayOfWeek }
  function StartTimeKey(s: Schedule): int { s.startTime }

  // ---------------------------------------------------------------------------
  // Prescription
  // ---------------------------------------------------------------------------

  /** The RenewalStatus enum: None, Requested, Approved, Rejected. */
  datatype RenewalStatus = RenewalNone | RenewalRequested | RenewalApproved | RenewalRejected

  datatype Prescription = Prescription(
    id: int,
    appointmentId: int,
    doctorId: int,
    patientId: int,
    medication: string,
    dosage: string,
    frequency: string,
    durationDays: int,
    instructions: Option<string>,
    allowRefills: bool,
    refillsAllowed: int,
    prescribedDate: int,
    expiryDate: Option<int>,
    notes: Option<string>,
    renewalStatus: RenewalStatus,
    renewalNote: Option<string>)

  function PrescriptionKey(p: Prescription): int { p.id }

  /** A prescription as object-initialised by the code: the named fields are
      set, ExpiryDate, Notes and RenewalNote keep their default null, and
      RenewalStatus keeps its declared default None. */
  function NewPrescription(
    appointmentId: int, doctorId: int, patientId: int,
    medication: string, dosage: string, frequency: string, durationDays: int,
    instructions: Option<string>, allowRefills: bool, refillsAllowed: int,
    prescribedDate: int): (p: Prescription)
    ensures p.renewalStatus == RenewalStatus.RenewalNone
    ensures p.expiryDate == Option.None && p.notes == Option.None && p.renewalNote == Option.None
  {
    Prescription(0, appointmentId, doctorId, patientId, medication, dosage, frequency,
                 durationDays, instructions, allowRefills, refillsAllowed, prescribedDate,
                 Option.None, Option.None, RenewalStatus.RenewalNone, Option.None)
  }

  /** char.IsWhiteSpace: the space separators (U+0020, U+00A0, U+1680,
      U+2000 to U+200A, U+202F, U+205F, U+3000), the line and paragraph
      separators U+2028 and U+2029, and the controls U+0009 to U+000D and
      U+0085. */
  predicate IsWhiteSpace(c: char) {
    || c == ' ' || ('\t' <= c <= '\r') || c == '\U{85}' || c == '\U{A0}' || c == '\U{1680}'
    || ('\U{2000}' <= c <= '\U{200A}') || c == '\U{2028}' || c == '\U{2029}'
    || c == '\U{202F}' || c == '\U{205F}' || c == '\U{3000}'
  }

  /** string.IsNullOrWhiteSpace for a non-null string. */
  predicate IsBlank(s: string) {
    forall i :: 0 <= i < |s| ==> IsWhiteSpace(s[i])
  }

  /** [Required] on a string: present, and holding some character that is
      not white space (so neither null, "", nor only blanks). */
  predicate RequiredText(s: Option<string>): (b: bool)
    ensures b <==> s.Some? && exists i :: 0 <= i < |s.value| && !IsWhiteSpace(s.value[i])
    ensures b ==> |s.value| > 0
  {
    s.Some? && !IsBlank(s.value)
  }

  /** The [Required] and [MaxLength] attributes of Prescription: Medication
      at most 100 characters, Dosage and Frequency at most 50, all three
      non-blank. Lengths here count Unicode scalar values. Instructions, ExpiryDate, Notes and RenewalNote are optional. */
  predicate MeetsAnnotations(p: Prescription): (b: bool)
    ensures b ==> 0 < |p.medication| <= 100 && 0 < |p.dosage| <= 50 && 0 < |p.frequency| <= 50
    ensures b ==> !IsBlank(p.medication) && !IsBlank(p.dosage) && !IsBlank(p.frequency)
  {
    && RequiredText(Some(p.medication)) && |p.medication| <= 100
    && RequiredText(Some(p.dosage)) && |p.dosage| <= 50
    && RequiredText(Some(p.frequency)) && |p.frequency| <= 50
  }

  // ---------------------------------------------------------------------------
  // Notification
  // ---------------------------------------------------------------------------

  datatype NotificationStatus = Unread | Read | Archived

  datatype Notification = Notification(
    id: int,
    userId: string,
    message: Option<string>,
    createdAt: int,
    isRead: bool,
    notificationType: Option<string>,
    relatedEntityId: Option<int>,
    status: NotificationStatus)

  function NotificationKey(n: Notification): int { n.id }
  function NewestFirst(n: Notification): int { -n.createdAt }

  // ---------------------------------------------------------------------------
  // Doctor and Patient profiles, each linked to an identity user
  // ---------------------------------------------------------------------------

  datatype Doctor = Doctor(id: int, firstName: string, lastName: string, userId: string)
  datatype Patient = Patient(id: int, firstName: string, lastName: string, userId: string)

  function DoctorKey(d: Doctor): int { d.id }
  function PatientKey(p: Patient): int { p.id }

  /** The full name: first name, one space, last name. */
  function FullName(firstName: string, lastName: string): (s: string)
    ensures |s| == |firstName| + 1 + |lastName|
    ensures s[..|firstName|] == firstName && s[|firstName|] == ' ' && s[|firstName| + 1..] == lastName
  {
    firstName + " " + lastName
  }

  // ---------------------------------------------------------------------------
  // What the services throw
  // ---------------------------------------------------------------------------

  datatype Failure =
    | Thrown(message: string)              // System.Exception with a fixed message
    | InvalidOperation(message: string)    // InvalidOperationException with a fixed message
    | AppointmentNotFound(id: int)         // InvalidOperationException: "Appointment with ID {id} not found."
    | KeyNotFound(entity: string)          // KeyNotFoundException for a missing Doctor / Appointment
    | NullReference                        // a missing row dereferenced
    | NotImplemented                       // a stub that throws NotImplementedException
    | ConcurrencyConflict                  // SaveChanges updated a row that does not exist
    | InvalidCast                          // InvalidCastException from a failed cast
}
