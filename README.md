# HealthApp booking and records core, in Dafny

This project models the booking and records rules of HealthApp, a small
ASP.NET clinic application. Patients book, cancel and list appointments,
and ask for prescription renewals. Doctors approve, reject, complete and
reschedule appointments, and write prescriptions. Administrators cancel
appointments, toggle user lockout and export a CSV report.

The database is a `Store.Context` object. It holds one sequence per table:
appointments, schedules, prescriptions and notifications. It also holds
the patients and doctors, one id counter per table, and the list of
appointment confirmations the confirmation sender would publish. A
`Valid()` invariant keeps the keys of every table positive, distinct and
below the table's counter.

Service methods that add, replace or remove rows are Dafny methods with
field frames (`modifies ctx`appointments`). The LINQ queries are
functions over the sequences. Each query's contract says which rows it
keeps (as a multiset) and in what order. Page handlers are methods that
return an `Outcome`: a redirect with a success or error notice, a
redisplay of the page with an optional model error, a 404, or an
unhandled exception.

Time is an integer count of minutes since 0001-01-01 00:00, a Monday.
`DateOf`, `TimeOfDay` and `DayOfWeek` come from division and remainder,
with Sunday = 0 as in .NET. The wall clock is a `now` parameter.
Notification message texts are parameters too. So are the culture-
dependent short date and short time strings of the CSV report.

Modules follow the source files:

| module | source |
|---|---|
| `Base` | time arithmetic, filters, a stable sort, keyed tables, decimal strings |
| `Entities` | `Appointment`, `Schedule`, `Prescription` (with `RenewalStatus`), `Notification`, `Patient`, `Doctor` |
| `Store` | the database context |
| `AppointmentService`, `DoctorService`, `PrescriptionService`, `NotificationService` | the services of the same names |
| `PageOutcome` | what a page handler returns |
| `PatientPage`, `BookAppointmentPage`, `DoctorPage`, `AdminPage` | the Razor page models |

## Model

| member | source | states |
|---|---|---|
| Entities.NewPrescription | HealthApp.Domain/Entities/Prescription.cs:33-41 | a new prescription has RenewalStatus None and no expiry date, notes or renewal note |
| Entities.RequiredText | HealthApp.Domain/Entities/Prescription.cs:25-30 | [Required] holds iff the text is present and has a character that char.IsWhiteSpace rejects; such a text is not empty |
| Entities.MeetsAnnotations | HealthApp.Domain/Entities/Prescription.cs:25-30 | a conforming prescription has a non-blank medication of 1 to 100 characters and a non-blank dosage and frequency of 1 to 50 |
| Entities.FullName | HealthApp.Domain/Entities/Patient.cs:18 | the full name is the first name, one space, then the last name |
| AppointmentService.IsTimeSlotAvailable | HealthApp.Domain/Services/AppointmentService.cs:158-167 | free exactly when no non-cancelled appointment of the doctor starts in the closed interval [start, end]; the first two disjuncts of the clash test never hold |
| AppointmentService.GetById | HealthApp.Domain/Services/AppointmentService.cs:77-84 | returns the row with that id when one exists, else fails with "Appointment with ID … not found" |
| AppointmentService.GetPatientAppointments | HealthApp.Domain/Services/AppointmentService.cs:18-24 | keeps exactly the rows whose PatientId, written in decimal, equals the given string |
| AppointmentService.NonNumericIdMatchesNothing | HealthApp.Domain/Services/AppointmentService.cs:18-24 | a patient id string with a non-digit after its first character matches no appointment |
| AppointmentService.GetByPatientId | HealthApp.Domain/Services/AppointmentService.cs:94-101 | exactly the patient's rows, each as often as in the table, ascending by start |
| AppointmentService.GetByDoctorId | HealthApp.Domain/Services/AppointmentService.cs:103-110 | exactly the doctor's rows, ascending by start |
| AppointmentService.GetByDateRange | HealthApp.Domain/Services/AppointmentService.cs:112-120 | exactly the rows starting within both bounds, inclusive, ascending by start |
| AppointmentService.CountByStatus | HealthApp.Domain/Services/AppointmentService.cs:178-181 | at most the table size; zero iff no row has the status; the table size iff every row has it |
| AppointmentService.CountByStatusAppend | HealthApp.Domain/Services/AppointmentService.cs:178-181 | the count of a concatenation is the sum of the counts |
| AppointmentService.AddAsync | HealthApp.Domain/Services/AppointmentService.cs:122-135 | on a free start: appends exactly that appointment under the next id and sends one confirmation; on a taken start: InvalidOperationException, table and confirmations unchanged |
| AppointmentService.AvailableAppendKeepsNoDoubleBooking | HealthApp.Domain/Services/AppointmentService.cs:122-135 | a row admitted by AddAsync's point test keeps every doctor free of two active appointments with the same start |
| AppointmentService.ScheduleCovers | HealthApp.Domain/Services/AppointmentService.cs:43-47 | a covered moment lies in a window of that doctor whose start is not after its end |
| AppointmentService.ScheduleRepeatsWeekly | HealthApp.Domain/Services/AppointmentService.cs:43-47 | a moment is covered iff the same moment a week later is covered |
| AppointmentService.StartTaken | HealthApp.Domain/Services/AppointmentService.cs:52-58 | the exact-start conflict check of CreateAppointmentAsync holds iff the availability test fails on the point interval [t, t] |
| AppointmentService.BookedFrom | HealthApp.Domain/Services/AppointmentService.cs:60-67 | the created row is Pending, with the dto's doctor, patient and start; the dto's reason goes into CancellationReason and Reason stays null |
| AppointmentService.CreateAppointment | HealthApp.Domain/Services/AppointmentService.cs:41-75 | fails "Doctor is not available" unless a schedule of the doctor covers the weekday and time of day, both ends inclusive; then fails "Time slot already booked" iff an active row has exactly that start; otherwise appends the new row and one confirmation |
| AppointmentService.CreateKeepsNoDoubleBooking | HealthApp.Domain/Services/AppointmentService.cs:52-70 | a row created past the conflict check keeps the table free of double bookings |
| AppointmentService.UpdateAsync | HealthApp.Domain/Services/AppointmentService.cs:137-141 | replaces the row with the same id and nothing else; an unknown id is a concurrency failure that changes nothing |
| AppointmentService.DeleteAsync | HealthApp.Domain/Services/AppointmentService.cs:143-151 | an unknown id throws and changes nothing; otherwise exactly that row is removed, with the prescriptions that refer to it |
| AppointmentService.CancelledRow | HealthApp.Domain/Services/AppointmentService.cs:190-191 | the cancelled row has Status "Cancelled" and the given reason verbatim, and every other field unchanged |
| AppointmentService.CancelAppointment | HealthApp.Domain/Services/AppointmentService.cs:183-195 | a missing row is a null dereference; a start before now + 48 h throws and changes nothing; otherwise only that row is cancelled and the patient gets one Cancellation notification |
| AppointmentService.CancelFreesSlot | HealthApp.Domain/Services/AppointmentService.cs:183-195 | after cancelling an active row, its start is free again for the availability test |
| AppointmentService.CancelAppointmentViaInterface | HealthApp.Domain/Services/AppointmentService.cs:197-200 | the interface's cancel always fails with NotImplementedException |
| DoctorService.GetDoctorById | HealthApp.Domain/Services/DoctorService.cs:16-23 | the doctor with that id, or KeyNotFoundException when there is none |
| DoctorService.GetDoctorByUserId | HealthApp.Domain/Services/DoctorService.cs:195-202 | the doctor of that identity user, or KeyNotFoundException when there is none |
| DoctorService.GetById | HealthApp.Domain/Services/DoctorService.cs:109-116 | the appointment with that id, or KeyNotFoundException when there is none |
| DoctorService.GetDoctorSchedule | HealthApp.Domain/Services/DoctorService.cs:40-47 | exactly the doctor's schedules, ordered by weekday then start time |
| DoctorService.AddSchedule | HealthApp.Domain/Services/DoctorService.cs:49-53 | appends exactly one schedule under the next id |
| DoctorService.UpdateSchedule | HealthApp.Domain/Services/DoctorService.cs:55-59 | id 0 inserts; a known id replaces that schedule only; an unknown id is a concurrency failure that changes nothing |
| DoctorService.RemoveSchedule | HealthApp.Domain/Services/DoctorService.cs:61-69 | removes the schedule with that id, or changes nothing when it is absent |
| DoctorService.GetDoctorAppointments | HealthApp.Domain/Services/DoctorService.cs:71-87 | the doctor's appointments, restricted to the calendar day of the date when one is given, ascending by start |
| DoctorService.GetDoctorAppointmentsInRange | HealthApp.Domain/Services/DoctorService.cs:89-97 | the doctor's appointments within both bounds, inclusive, ascending by start |
| DoctorService.DatedIsSubsetOfUndated | HealthApp.Domain/Services/DoctorService.cs:71-87 | the dated list is contained in the undated one, which holds every appointment of the doctor |
| DoctorService.GetDoctorAppointmentsStub | HealthApp.Domain/Services/DoctorService.cs:191-194 | the one-argument overload always throws NotImplementedException |
| DoctorService.IsTimeSlotAvailable | HealthApp.Domain/Services/DoctorService.cs:124-128 | free exactly when no appointment of the doctor, cancelled ones included, starts in the half-open interval [start, end) |
| DoctorService.DoctorFreeImpliesServiceFree | HealthApp.Domain/Services/DoctorService.cs:124-128 | free by the doctor-side test implies free by the appointment-side test on [start, end - 1] |
| DoctorService.AvailabilityAgreesWithoutCancellations | HealthApp.Domain/Services/DoctorService.cs:124-128 | with no cancelled rows, the two tests agree on [start, end) versus [start, end - 1] |
| DoctorService.CancelledBlocksOnlyHere | HealthApp.Domain/Services/DoctorService.cs:124-128 | a cancelled appointment blocks its slot for the doctor-side test but not for the appointment-side one |
| DoctorService.PointIntervalsDiffer | HealthApp.Domain/Services/DoctorService.cs:124-128 | on a point interval the doctor-side test finds nothing while the appointment-side one finds the active row |
| DoctorService.SetStatus | HealthApp.Domain/Services/DoctorService.cs:99-107 | each row is unchanged or is the row with that id with only its Status changed; an unknown id changes nothing |
| DoctorService.SetStatusSetsTheRow | HealthApp.Domain/Services/DoctorService.cs:99-107 | with distinct ids the row with that id does take the new status, and the keys stay valid |
| DoctorService.UpdateAppointmentStatus | HealthApp.Domain/Services/DoctorService.cs:99-107 | the appointments become SetStatus of the old table; the notes argument is ignored |
| DoctorService.UpdateAsync | HealthApp.Domain/Services/DoctorService.cs:118-122 | id 0 inserts; a known id replaces that row only; an unknown id is a concurrency failure that changes nothing |
| PrescriptionService.GetById | HealthApp.Domain/Services/PrescriptionService.cs:24-30 | the prescription with that id, or null when there is none |
| PrescriptionService.GetByPatientId | HealthApp.Domain/Services/PrescriptionService.cs:32-38 | exactly the patient's prescriptions |
| PrescriptionService.GetByDoctorId | HealthApp.Domain/Services/PrescriptionService.cs:40-46 | exactly the doctor's prescriptions |
| PrescriptionService.CheckForInteractions | HealthApp.Domain/Services/PrescriptionService.cs:70-81 | true iff the patient already has a prescription with exactly that medication string |
| PrescriptionService.CreateAsync | HealthApp.Domain/Services/PrescriptionService.cs:48-52 | appends exactly the given prescription under the next id |
| PrescriptionService.DeleteAsync | HealthApp.Domain/Services/PrescriptionService.cs:60-68 | removes the prescription with that id, or changes nothing when it is absent |
| PrescriptionService.RenewedCopy | HealthApp.Domain/Services/PrescriptionService.cs:93-105 | the copy keeps medication, dosage, frequency, duration, instructions, patient, doctor and AllowRefills, has one refill fewer, is prescribed now and has RenewalStatus None |
| PrescriptionService.RenewAsync | HealthApp.Domain/Services/PrescriptionService.cs:83-109 | true iff the id exists and refills are allowed and remain; then exactly the renewed copy is appended and the original is untouched; otherwise nothing changes |
| PrescriptionService.RenewalDecreasesRefills | HealthApp.Domain/Services/PrescriptionService.cs:89-104 | a renewed copy has a strictly smaller, non-negative refill count |
| PrescriptionService.ChainLength | HealthApp.Domain/Services/PrescriptionService.cs:89-104 | renewing each copy in turn succeeds exactly RefillsAllowed times when refills are allowed, else never |
| PrescriptionService.RenewingTheOriginalAgain | HealthApp.Domain/Services/PrescriptionService.cs:83-109 | after a renewal the original is found unchanged, so renewing it again is allowed again |
| PrescriptionService.RenewedCopyMeetsAnnotations | HealthApp.Domain/Services/PrescriptionService.cs:93-105 | a renewed copy of a prescription meeting its Required/MaxLength rules meets them too |
| NotificationService.NewNotification | HealthApp.Domain/Services/NotificationService.cs:127-140 | the new row carries the given user, message, type and related id, and is unread |
| NotificationService.CreateNotification | HealthApp.Domain/Services/NotificationService.cs:127-140 | appends exactly one unread row under the next id |
| NotificationService.CreatedIsListed | HealthApp.Domain/Services/NotificationService.cs:127-158 | a freshly created notification is in its user's unread list |
| NotificationService.MarkRead | HealthApp.Domain/Services/NotificationService.cs:142-150 | each row is unchanged or is the row with that id with only IsRead set; an unknown id changes nothing |
| NotificationService.MarkAsRead | HealthApp.Domain/Services/NotificationService.cs:142-150 | the notifications become MarkRead of the old table |
| NotificationService.MarkReadIdempotent | HealthApp.Domain/Services/NotificationService.cs:142-150 | marking the same id twice equals marking it once |
| NotificationService.MarkReadMarksTheRow | HealthApp.Domain/Services/NotificationService.cs:142-150 | the row with that id becomes read, and no other row's IsRead changes |
| NotificationService.GetUserNotifications | HealthApp.Domain/Services/NotificationService.cs:152-158 | exactly the user's unread rows, newest CreatedAt first |
| NotificationService.MarkReadUnlists | HealthApp.Domain/Services/NotificationService.cs:142-158 | a marked notification leaves the unread list and every other listed one stays |
| NotificationService.PatientNotice | HealthApp.Domain/Services/NotificationService.cs:73-88 | the row for a patient: addressed to the patient's user, with the tag and the related id; a missing patient is a null dereference |
| NotificationService.NotifyPatient | HealthApp.Domain/Services/NotificationService.cs:73-88 | appends exactly the PatientNotice row, or nothing when the patient is missing |
| NotificationService.SendAppointmentReminder | HealthApp.Domain/Services/NotificationService.cs:73-88 | one "Reminder" row for the patient, related to the appointment |
| NotificationService.SendAppointmentCancellation | HealthApp.Domain/Services/NotificationService.cs:90-100 | one "Cancellation" row for the patient, related to the appointment |
| NotificationService.SendAppointmentApproval | HealthApp.Domain/Services/NotificationService.cs:102-112 | one "Approval" row for the patient, related to the appointment |
| NotificationService.SendAppointmentRejection | HealthApp.Domain/Services/NotificationService.cs:114-125 | one "Rejection" row for the patient, related to the appointment |
| NotificationService.SendAppointmentReschedule | HealthApp.Domain/Services/NotificationService.cs:164-174 | one "Reschedule" row for the patient, related to the appointment |
| NotificationService.SendAppointmentCompletion | HealthApp.Domain/Services/NotificationService.cs:176-186 | one "Completion" row for the patient, related to the appointment |
| NotificationService.SendPrescriptionNotification | HealthApp.Domain/Services/NotificationService.cs:188-198 | one "Prescription" row for the patient, related to the prescription |
| NotificationService.SendAppointmentConfirmation | HealthApp.Domain/Services/NotificationService.cs:33-70 | publishes one confirmation and writes no notification row |
| PatientPage.GenerateTimeSlots | HealthApp.Razor/Pages/Patient.cshtml.cs:258-264 | the loop yields TimeSlots(start, end, step) |
| PatientPage.TimeSlotsMembers | HealthApp.Razor/Pages/Patient.cshtml.cs:258-264 | the slots are exactly start + k·step below end, and none when start ≥ end |
| PatientPage.TimeSlotsIncreasing | HealthApp.Razor/Pages/Patient.cshtml.cs:258-264 | the slots are strictly increasing |
| PatientPage.WindowSlotsMembers | HealthApp.Razor/Pages/Patient.cshtml.cs:151-156 | the weekday's windows yield exactly the 30-minute steps inside some window |
| PatientPage.BookedOnDateMembers | HealthApp.Razor/Pages/Patient.cshtml.cs:149 | the dated query holds exactly the doctor's appointments on that calendar day |
| PatientPage.FreeSlots | HealthApp.Razor/Pages/Patient.cshtml.cs:151-158 | keeps a slot iff no booked appointment starts at it |
| PatientPage.AvailableSlots | HealthApp.Razor/Pages/Patient.cshtml.cs:146-158 | a slot is listed iff it is a step of some window of the doctor on that weekday and no appointment of the doctor that day, of any status, starts exactly at it |
| PatientPage.Filtered | HealthApp.Razor/Pages/Patient.cshtml.cs:89-97 | keeps the rows with the status (when one is given) on the calendar day (when one is given) |
| PatientPage.Upcoming | HealthApp.Razor/Pages/Patient.cshtml.cs:101-104 | the rows starting at or after now, ascending |
| PatientPage.Past | HealthApp.Razor/Pages/Patient.cshtml.cs:106-109 | the rows starting before now, descending |
| PatientPage.UpcomingPastPartition | HealthApp.Razor/Pages/Patient.cshtml.cs:101-109 | upcoming and past together hold every row once and share none |
| PatientPage.Active | HealthApp.Razor/Pages/Patient.cshtml.cs:113-115 | the prescriptions with no expiry or an expiry after now |
| PatientPage.Expired | HealthApp.Razor/Pages/Patient.cshtml.cs:117-119 | the prescriptions with an expiry at or before now |
| PatientPage.ActiveExpiredPartition | HealthApp.Razor/Pages/Patient.cshtml.cs:113-119 | active and expired together hold every prescription once and share none |
| PatientPage.DashboardAsWrittenListsNoAppointments | HealthApp.Razor/Pages/Patient.cshtml.cs:87 | querying by the identity user id lists no appointment when the id holds a non-digit |
| PatientPage.SplitByNow | HealthApp.Razor/Pages/Patient.cshtml.cs:101-109 | each listed appointment is counted once across upcoming and past; upcoming ones start at or after now, past ones before |
| PatientPage.DashboardAsWritten | HealthApp.Razor/Pages/Patient.cshtml.cs:74-120 | lists each appointment whose decimal PatientId equals the identity user id and that passes the filters exactly once, upcoming or past by now; each of the patient's prescriptions once, active or expired |
| PatientPage.DashboardCorrected | HealthApp.Razor/Pages/Patient.cshtml.cs:74-120 | querying by the patient id lists each of the patient's filtered appointments exactly once, upcoming or past by now, and nobody else's; each of the patient's prescriptions once, active or expired |
| PatientPage.BookingRecord | HealthApp.Razor/Pages/Patient.cshtml.cs:176-184 | the booked row is Pending, ends 30 minutes after its start and carries the reason in Reason |
| PatientPage.BookingPathsDiffer | HealthApp.Razor/Pages/Patient.cshtml.cs:176-184 | the page's row and CreateAppointmentAsync's row differ in end time and swap Reason and CancellationReason |
| PatientPage.BookAppointment | HealthApp.Razor/Pages/Patient.cshtml.cs:164-198 | an invalid form changes nothing; a taken start is a model error; otherwise the row is appended and confirmed twice |
| PatientPage.BookAppointmentCorrected | HealthApp.Razor/Pages/Patient.cshtml.cs:164-198 | as BookAppointment, but confirmed once |
| PatientPage.CancelAppointment | HealthApp.Razor/Pages/Patient.cshtml.cs:200-229 | refused for another patient's row or a start before now + 48 h; otherwise the interface call fails, so no cancel ever succeeds |
| PatientPage.CancelAppointmentCorrected | HealthApp.Razor/Pages/Patient.cshtml.cs:200-229 | the same guards; past them only that row is cancelled and the patient is notified |
| PatientPage.ExpiredButRenewable | HealthApp.Razor/Pages/Patient.cshtml.cs:117-119 | a prescription expiring exactly now is listed as expired but may still be renewed, and that is the only disagreement |
| PatientPage.RequestRenewal | HealthApp.Razor/Pages/Patient.cshtml.cs:231-256 | refused when the prescription is missing, another patient's or expired before now; otherwise one "PrescriptionRenewal" row for the doctor's user, related to the prescription |
| BookAppointmentPage.OfferedSlots | HealthApp.Razor/Pages/BookAppointment.cshtml.cs:42-60 | slots exist only when both doctor and date are given; then exactly the 30-minute steps of the doctor's windows on that weekday, booked ones included |
| BookAppointmentPage.DashboardSlotsAreOfferedSlots | HealthApp.Razor/Pages/BookAppointment.cshtml.cs:44-50 | the patient dashboard's slots are this page's slots minus the starts already booked that day |
| BookAppointmentPage.SlotWithinWindow | HealthApp.Razor/Pages/BookAppointment.cshtml.cs:47-50 | every offered slot falls on the window's weekday, inside the window |
| BookAppointmentPage.OfferedSlotsPassScheduleCheck | HealthApp.Razor/Pages/BookAppointment.cshtml.cs:47-50 | every offered slot passes CreateAppointmentAsync's schedule check |
| BookAppointmentPage.Book | HealthApp.Razor/Pages/BookAppointment.cshtml.cs:62-82 | the row is booked for the signed-in patient whatever the form says; it redirects iff the schedule covers the start and the start is free, appending that row and its one confirmation and advancing the id counter; any failure is a model error and changes nothing |
| DoctorPage.ContainsIgnoreCase | HealthApp.Razor/Pages/Doctor.cshtml.cs:88-94 | true iff some window of the name as long as the term equals the term up to letter case |
| DoctorPage.InfixIsFound | HealthApp.Razor/Pages/Doctor.cshtml.cs:88-94 | a name holding the term, in any mix of letter case, is found |
| DoctorPage.PassesFilters | HealthApp.Razor/Pages/Doctor.cshtml.cs:88-104 | with no search, status or date every row passes; a searched row has a loaded patient with the term in a name; a status or date given is matched |
| DoctorPage.Lists | HealthApp.Razor/Pages/Doctor.cshtml.cs:106-119 | Today is the Approved rows dated today, Upcoming the Approved rows after now, Pending the Pending rows, each ascending |
| DoctorPage.ListsOverlapOnlyOnApprovedLaterToday | HealthApp.Razor/Pages/Doctor.cshtml.cs:106-119 | a pending row is in neither Today nor Upcoming; an approved row later today is in both |
| DoctorPage.DashboardAsWritten | HealthApp.Razor/Pages/Doctor.cshtml.cs:73-120 | the dashboard always fails: KeyNotFound for an unknown user, otherwise the stub overload's NotImplementedException |
| DoctorPage.DashboardCorrected | HealthApp.Razor/Pages/Doctor.cshtml.cs:73-120 | fails iff the user is no doctor; otherwise Today holds exactly the doctor's Approved rows dated today, Upcoming the Approved rows after now and Pending the Pending rows, each among those passing the search, status and date filters, and each list ascending by start |
| DoctorPage.SetStatusThenFetch | HealthApp.Razor/Pages/Doctor.cshtml.cs:124-125 | the status is set and the row read back with it, or KeyNotFound for an unknown id |
| DoctorPage.Approve | HealthApp.Razor/Pages/Doctor.cshtml.cs:122-132 | sets "Approved" and notifies the patient; an unknown id throws |
| DoctorPage.Reject | HealthApp.Razor/Pages/Doctor.cshtml.cs:134-144 | sets "Rejected" and notifies the patient; the reason is stored nowhere |
| DoctorPage.Complete | HealthApp.Razor/Pages/Doctor.cshtml.cs:146-156 | sets "Completed" and notifies the patient |
| DoctorPage.Moved | HealthApp.Razor/Pages/Doctor.cshtml.cs:176-177 | the moved row has the new start and Status "Rescheduled"; EndDateTime and the rest keep their values |
| DoctorPage.SaveMoved | HealthApp.Razor/Pages/Doctor.cshtml.cs:176-178 | the moved row replaces the stored row with its id and no other row changes |
| DoctorPage.Reschedule | HealthApp.Razor/Pages/Doctor.cshtml.cs:158-184 | a taken [new, new + duration) changes nothing; otherwise only that row is moved and the patient notified |
| DoctorPage.OwnStartBlocksShortMoves | HealthApp.Razor/Pages/Doctor.cshtml.cs:158-184 | moving an appointment by less than its duration, or not at all, is always refused |
| DoctorPage.PrescriptionFrom | HealthApp.Razor/Pages/Doctor.cshtml.cs:203-216 | the new prescription takes the form's fields, the signed-in doctor and the appointment's patient |
| DoctorPage.FormAdmitsOverlongMedication | HealthApp.Razor/Pages/Doctor.cshtml.cs:51-71 | the form accepts a 101-character medication that the Prescription record forbids |
| DoctorPage.CreatePrescription | HealthApp.Razor/Pages/Doctor.cshtml.cs:186-223 | an invalid form throws; an unknown appointment throws; another doctor's appointment is refused; otherwise one prescription and one notification are added |
| AdminPage.CancelledText | HealthApp.Razor/Pages/Admin.cshtml.cs:197 | the success notice names the override exactly when it was used |
| AdminPage.CancelAppointment | HealthApp.Razor/Pages/Admin.cshtml.cs:182-199 | a start before now + 48 h is refused unless overridden; past that, the interface call fails, so no cancel ever succeeds |
| AdminPage.CancelAppointmentCorrected | HealthApp.Razor/Pages/Admin.cshtml.cs:182-199 | the same guard; past it only that row is cancelled and the patient is notified |
| AdminPage.InReport | HealthApp.Razor/Pages/Admin.cshtml.cs:208-218 | a filter that sets nothing keeps every row; a kept row lies within both date bounds when both are given and belongs to the doctor given |
| AdminPage.ReportRows | HealthApp.Razor/Pages/Admin.cshtml.cs:208-218 | with the filters applied as intended: keeps a row iff it is within both inclusive bounds given, of the doctor given and of the status given when non-empty |
| AdminPage.EmptyFilterReportsAll | HealthApp.Razor/Pages/Admin.cshtml.cs:204-220 | a filter that sets nothing keeps the whole table in order |
| AdminPage.CrossedBoundsReportNothing | HealthApp.Razor/Pages/Admin.cshtml.cs:208-212 | with the filters applied as intended, a start bound after the end bound keeps nothing |
| AdminPage.LineCells | HealthApp.Razor/Pages/Admin.cshtml.cs:226-231 | the six cells: date, time, patient name, "Dr. " and the doctor's name, status, reason |
| AdminPage.JoinCells | HealthApp.Razor/Pages/Admin.cshtml.cs:226-231 | the joined text starts with the first cell, then a comma when more cells follow |
| AdminPage.CsvLine | HealthApp.Razor/Pages/Admin.cshtml.cs:226-231 | a line starts with the date cell and a comma and ends with a newline |
| AdminPage.RowLine | HealthApp.Razor/Pages/Admin.cshtml.cs:226-231 | a line exists iff the row's patient and doctor both exist |
| AdminPage.Lines | HealthApp.Razor/Pages/Admin.cshtml.cs:224-232 | the first n lines succeed iff each of those rows has its patient and doctor; a failure is a null dereference |
| AdminPage.Csv | HealthApp.Razor/Pages/Admin.cshtml.cs:223-232 | the file succeeds iff every row read has its patient and doctor, else fails with a null dereference; it starts with the header line |
| AdminPage.Report | HealthApp.Razor/Pages/Admin.cshtml.cs:202-232 | the intended report: succeeds iff every filtered row has its patient and doctor, else fails with a null dereference; starts with the header line |
| AdminPage.ReportAsWritten | HealthApp.Razor/Pages/Admin.cshtml.cs:202-232 | any set filter throws InvalidCastException at its cast; with no filter set it is the report of the whole table |
| AdminPage.SetFilterBreaksReport | HealthApp.Razor/Pages/Admin.cshtml.cs:208-218 | with every patient and doctor present, setting any filter makes the handler as written throw while the intended report succeeds |
| AdminPage.WriteCsv | HealthApp.Razor/Pages/Admin.cshtml.cs:223-233 | the loop yields Csv of the rows read |
| AdminPage.GenerateReport | HealthApp.Razor/Pages/Admin.cshtml.cs:202-236 | the handler as written returns ReportAsWritten |
| AdminPage.GenerateReportCorrected | HealthApp.Razor/Pages/Admin.cshtml.cs:202-236 | the handler with the casts removed returns Report |
| AdminPage.PlainLineShape | HealthApp.Razor/Pages/Admin.cshtml.cs:226-231 | with cells free of commas and newlines, a line has exactly five commas and one newline |
| AdminPage.CommaInReasonSplitsField | HealthApp.Razor/Pages/Admin.cshtml.cs:231 | a comma in the reason gives the line a seventh field, since nothing is quoted |
| AdminPage.OneLinePerRow | HealthApp.Razor/Pages/Admin.cshtml.cs:224-232 | with plain rows, the body has exactly one newline per row |
| AdminPage.ReportLineCount | HealthApp.Razor/Pages/Admin.cshtml.cs:223-232 | with the filters applied as intended and plain rows, the report has exactly one line per filtered row plus the header |
| AdminPage.UserStatus | HealthApp.Razor/Pages/Admin.cshtml.cs:110 | "Inactive" iff a lockout end is set and after now, else "Active" |
| AdminPage.Toggled | HealthApp.Razor/Pages/Admin.cshtml.cs:145-156 | an inactive user's lockout is cleared; an active user is locked out until the maximum date |
| AdminPage.ToggleFlipsStatus | HealthApp.Razor/Pages/Admin.cshtml.cs:139-159 | toggling flips the user's status |
| AdminPage.ToggleTwiceRestoresStatus | HealthApp.Razor/Pages/Admin.cshtml.cs:139-159 | toggling twice restores the status |
| AdminPage.ToggleStatus | HealthApp.Razor/Pages/Admin.cshtml.cs:139-159 | an unknown user is a 404; otherwise the status flips and the notice says which way |
| AdminPage.Latest | HealthApp.Razor/Pages/Admin.cshtml.cs:95-100 | at most 50 rows, latest first, and no row left out starts later than a row listed |
| AdminPage.SortedPrefixDominates | HealthApp.Razor/Pages/Admin.cshtml.cs:95-100 | in a latest-first order, every row kept starts no earlier than any row dropped |

`BookAppointment.cshtml.cs:54-60` repeats the slot loop of
`Patient.cshtml.cs:258-264`; `PatientPage.GenerateTimeSlots` models both.

## Left out

- Identity: the signed-in user's identity id, patient id and doctor id are parameters. UserManager, SignInManager and RoleManager are not modelled.
- Admin role toggling and user deletion call the identity library only.
- The admin user list is modelled one user at a time by `AdminPage.UserStatus`. The loop that fills the list only collects those values.
- The admin system notification broadcast is left out. It depends on role membership, which lives in the identity library.
- The patient doctor search (Patient.cshtml.cs:122-144) and `ExportSchedule` on the doctor page filter doctors and format strings only.
- Event-bus publishing and email are outside the model. A confirmation is recorded in `Store.Context.confirmations`.
- Notification message texts are parameters. So are the culture-dependent short date and short time strings of the CSV report.
- Model-state validation of the booking form is the `modelValid` parameter of `BookAppointmentPage.Book`.
- Handlers that redisplay a page recompute the dashboard. The model returns `Redisplay` and does not recompute.
- The pages' null checks after `GetByIdAsync` are dead code, because that method already throws. The model takes the throw.
- Database column limits: `DoctorPage.CreatePrescription` saves an overlong medication. The SQL error this would raise is not modelled (see `DoctorPage.FormAdmitsOverlongMedication`).
- DoctorPage.ContainsIgnoreCase: ordinal case folding is modelled on the ASCII letters only.
- Base.SortBy: SQL leaves the order of equal keys open. The model picks a stable order, and contracts promise only sortedness and the multiset.
- AdminPage.WriteCsv collects the lines and then prepends the header. The source grows one string. The result is the same.
- DoctorPage.Reschedule checks the new slot against the calendar of the doctor id it is given, as the source checks `user.Doctor.Id`'s calendar.
- The string-keyed `GetDoctorAppointmentsAsync` overloads (DoctorService.cs:135-189) are left out. They re-query by identity user id.
- Other members are left out because they only list or count, or are stubs: `GetAllAsync`, `GetAll`, `ExistsAsync`, `GetPendingAppointmentsAsync`, `GetRecentAsync`, and the projection `GetDoctorAppointments(int)` of AppointmentService; `GetAllDoctorsAsync`, `GetDoctorsBySpecializationAsync` and `GetCountAsync` of DoctorService; `UpdateAsync` and `GetAllAsync` of PrescriptionService; and the NotificationService stubs.
- PrescriptionService.RenewAsync: the renewed copy keeps AppointmentId 0, which no appointment has; the required one-to-one foreign key (HealthApp.Domain/Services/ApplicationDbContext.cs:52-56) would make the save fail on SQL Server while the model returns true. Foreign-key failures on save are not modelled.
- DoctorPage.CreatePrescription: a second prescription for the same appointment breaks the unique index of that one-to-one key (HealthApp.Domain/Services/ApplicationDbContext.cs:52-56). Unique-index failures on save are not modelled; the model appends the row.
- PatientPage.DashboardAsWritten, PatientPage.BookAppointment, PatientPage.CancelAppointment, PatientPage.RequestRenewal, BookAppointmentPage.Book, DoctorPage.Reschedule and DoctorPage.CreatePrescription take the signed-in patient's or doctor's id as a parameter, assuming `user.Patient` and `user.Doctor` resolve. In the source they do not always resolve. `GetUserAsync` loads the user without those navigations. There is no Include, and no lazy-loading proxies (Program.cs:33-35; ApplicationUser.cs:13-14 declares them non-virtual). So, read as written, `user.Patient.Id` at Patient.cshtml.cs:112 and :179 and BookAppointment.cshtml.cs:68 dereferences null, and so does `user.Doctor.Id` at Doctor.cshtml.cs:165 and :197. At Patient.cshtml.cs:205 and :236 the navigation is filled by EF fix-up only when the appointment or prescription loaded belongs to that user, and for anyone else's row the comparison throws instead of refusing. The model does not capture these NullReferenceExceptions: it describes each handler as it behaves once the signed-in user's profile is attached.
- Entities.MeetsAnnotations: `|s|` counts Unicode scalar values, while [MaxLength] counts UTF-16 code units. A text of characters outside the Basic Multilingual Plane can meet the model's limit and exceed .NET's.
- Concurrency is not modelled, including the check-then-insert race between two bookings.
- The soft-delete query filter (ApplicationDbContext.cs:33) is not modelled. The tables hold only rows that are not deleted.
- Seconds and sub-minute precision of `DateTime` are not modelled. Times are whole minutes.

Where the code and its test disagree, the model follows the code.
`GetByIdAsync` throws for an unknown id. The test at
HealthApp.Tests/AppointmentServiceTests.cs:250-261 expects null.

## Findings

| source | as written | input that shows it | evidently intended | confidence | as-written member | corrected member |
|---|---|---|---|---|---|---|
| HealthApp.Razor/Pages/Patient.cshtml.cs:219 | the handler cancels through `IAppointmentRepository`. That dispatches to the explicit interface method (AppointmentService.cs:197-200), which throws `NotImplementedException` | any own appointment starting at least 48 h from now | the class method `CancelAppointmentAsync` cancels the row and sends its one cancellation notice (AppointmentService.cs:194); the page's own `SendAppointmentCancellationAsync` at line 220 is dropped, since with the class method it would send a second notice | not executed | PatientPage.CancelAppointment | PatientPage.CancelAppointmentCorrected |
| HealthApp.Razor/Pages/Admin.cshtml.cs:194 | the same interface call, so an admin cancel that passes the guard throws | any appointment with override set | the appointment is cancelled and the patient notified | not executed | AdminPage.CancelAppointment | AdminPage.CancelAppointmentCorrected |
| HealthApp.Razor/Pages/Patient.cshtml.cs:186-187 | `AddAsync` already sends the confirmation, and the handler sends it again (read as written, `user.Patient.Id` at line 179 dereferences the unloaded navigation first, so this is reached only once the profile is attached) | any successful booking | one confirmation per booking | not executed | PatientPage.BookAppointment | PatientPage.BookAppointmentCorrected |
| HealthApp.Razor/Pages/Doctor.cshtml.cs:85 | `GetDoctorAppointmentsAsync(doctor.Id)` binds to the one-argument stub (DoctorService.cs:191-194), which throws | any doctor opening the dashboard | the dated overload with no date, listing all the doctor's appointments | not executed | DoctorPage.DashboardAsWritten | DoctorPage.DashboardCorrected |
| HealthApp.Razor/Pages/Patient.cshtml.cs:87 | appointments are queried with the identity user id, a GUID string, compared with the decimal PatientId (read as written, the handler then dereferences the unloaded `user.Patient` at line 112) | user id "a1b2…" with a letter after its first character | the query uses the patient's numeric id | not executed | PatientPage.DashboardAsWrittenListsNoAppointments | PatientPage.DashboardCorrected |
| HealthApp.Razor/Pages/Admin.cshtml.cs:208-218 | each filter casts the result of `Where` back to `IIncludableQueryable<Appointment, Doctor?>`; `Where` returns a plain query, so the cast throws `InvalidCastException` | a report with only StartDate set | the filters narrow the query and the filtered report is written | not executed | AdminPage.SetFilterBreaksReport | AdminPage.GenerateReportCorrected |
