/** The administrator page: cancelling any appointment (with an override
    of the 48-hour rule), the filtered CSV report, the Active/Inactive
    status of a user and its toggle, and the latest appointments listed on
    the dashboard. */
module AdminPage {
  import opened Base
  import opened Entities
  import opened Store
  import opened PageOutcome
  import AppointmentService
  import NotificationService

  const TooLateText: string := "Cannot cancel within 48 hours unless override is specified"
  const ActiveText: string := "Active"
  const InactiveText: string := "Inactive"
  const ActivatedText: string := "User activated successfully"
  const DeactivatedText: string := "User deactivated successfully"
  const CancelledPrefix: string := "Appointment cancelled"

  /** "Appointment cancelled", marked when the override box was ticked,
      whether or not the 48-hour rule needed overriding. */
  function CancelledText(overrideRestriction: bool): (s: string)
    ensures |s| >= |CancelledPrefix| && s[..|CancelledPrefix|] == CancelledPrefix
    ensures |s| > |CancelledPrefix| <==> overrideRestriction
  {
    CancelledPrefix + (if overrideRestriction then " (override used)" else "")
  }

  // ---------------------------------------------------------------------------
  // OnPostCancelAppointmentAsync
  // ---------------------------------------------------------------------------

  /** The handler as written. GetByIdAsync throws for an unknown id, so the
      NotFound branch after it is never taken. Without the override an
      appointment starting before now + 48 hours is refused. Whatever gets
      past that calls the interface's CancelAppointmentAsync, whose stub
      throws, uncaught: no appointment is ever cancelled from this page. */
  method CancelAppointment(ctx: Context, id: int, reason: string, overrideRestriction: bool, now: int)
    returns (o: Outcome)
    ensures AppointmentService.GetById(ctx.appointments, id).Err? ==> o == Crash(AppointmentNotFound(id))
    ensures AppointmentService.GetById(ctx.appointments, id).Ok? ==>
      var a := AppointmentService.GetById(ctx.appointments, id).value;
      o == if !overrideRestriction && a.start < now + AppointmentService.CancellationNotice
           then Redirect(Error(TooLateText)) else Crash(NotImplemented)
    ensures !Succeeded(o) && !o.NotFoundResult?
  {
    var found := AppointmentService.GetById(ctx.appointments, id);
    if found.Err? {
      return Crash(found.error);
    }
    var a := found.value;
    if !overrideRestriction && a.start < now + AppointmentService.CancellationNotice {
      return Redirect(Error(TooLateText));
    }
    var cancelled := AppointmentService.CancelAppointmentViaInterface(ctx, id, reason);
    if cancelled.Err? {
      return Crash(cancelled.error);
    }
    o := Redirect(Success(CancelledText(overrideRestriction)));
  }

  /** The handler with the cancellation it evidently means: the row is
      cancelled by the page's own rule (any time with the override, from
      48 hours ahead without it) and the patient is sent one cancellation
      notice. The class's CancelAppointmentAsync cannot serve here: it
      refuses every appointment within 48 hours, override or not. */
  method CancelAppointmentCorrected(ctx: Context, id: int, reason: string, overrideRestriction: bool, now: int,
                                    message: string, utcNow: int) returns (o: Outcome)
    requires ctx.Valid()
    modifies ctx`appointments, ctx`notifications, ctx`nextNotificationId
    ensures ctx.Valid()
    ensures AppointmentService.GetById(old(ctx.appointments), id).Err? ==>
      && o == Crash(AppointmentNotFound(id))
      && ctx.appointments == old(ctx.appointments) && ctx.notifications == old(ctx.notifications)
    ensures AppointmentService.GetById(old(ctx.appointments), id).Ok? ==>
      var a := AppointmentService.GetById(old(ctx.appointments), id).value;
      var late := a.start < now + AppointmentService.CancellationNotice;
      var notice := NotificationService.PatientNotice(ctx.patients, old(ctx.nextNotificationId), a.patientId,
                                                      message, NotificationService.CancellationTag, id, utcNow);
      && (!overrideRestriction && late ==>
            && o == Redirect(Error(TooLateText))
            && ctx.appointments == old(ctx.appointments) && ctx.notifications == old(ctx.notifications))
      && (overrideRestriction || !late ==>
            && o == (if notice.Ok? then Redirect(Success(CancelledText(overrideRestriction))) else Crash(notice.error))
            && |ctx.appointments| == |old(ctx.appointments)|
            && (forall i :: 0 <= i < |ctx.appointments| ==>
                  ctx.appointments[i] == if old(ctx.appointments)[i].id == id
                                         then AppointmentService.CancelledRow(a, reason) else old(ctx.appointments)[i])
            && ctx.notifications == old(ctx.notifications) + (if notice.Ok? then [notice.value] else []))
  {
    var found := AppointmentService.GetById(ctx.appointments, id);
    if found.Err? {
      return Crash(found.error);
    }
    var a := found.value;
    if !overrideRestriction && a.start < now + AppointmentService.CancellationNotice {
      return Redirect(Error(TooLateText));
    }
    var i := IndexOf(ctx.appointments, AppointmentKey, id);
    var cancelled := AppointmentService.CancelledRow(a, reason);
    ReplaceByKey(ctx.appointments, AppointmentKey, ctx.nextAppointmentId, id, cancelled);
    ctx.appointments := ctx.appointments[i := cancelled];
    var sent := NotificationService.SendAppointmentCancellation(ctx, a, message, utcNow);
    o := if sent.Ok? then Redirect(Success(CancelledText(overrideRestriction))) else Crash(sent.error);
  }

  // ---------------------------------------------------------------------------
  // OnPostGenerateReportAsync
  // ---------------------------------------------------------------------------

  /** ReportFilterModel; a Status of null or "" applies no filter. */
  datatype ReportFilter = ReportFilter(
    startDate: Option<int>,
    endDate: Option<int>,
    doctorId: Option<int>,
    status: Option<string>)

  /** The report's Where clauses: both date bounds inclusive, the doctor
      and the status. A filter that sets nothing keeps every row; crossed
      date bounds keep none. */
  predicate InReport(a: Appointment, f: ReportFilter): (b: bool)
    ensures !AnyFilterSet(f) ==> b
    ensures b && f.startDate.Some? && f.endDate.Some? ==> f.startDate.value <= a.start <= f.endDate.value
    ensures b && f.doctorId.Some? ==> a.doctorId == f.doctorId.value
  {
    && (f.startDate.None? || a.start >= f.startDate.value)
    && (f.endDate.None? || a.start <= f.endDate.value)
    && (f.doctorId.None? || a.doctorId == f.doctorId.value)
    && (f.status.None? || f.status.value == [] || a.status == f.status.value)
  }

  /** The rows of the report, in table order: each appointment kept exactly
      when it starts within both inclusive bounds that are given, belongs
      to the chosen doctor if any, and has the chosen status if any. */
  function ReportRows(appts: seq<Appointment>, f: ReportFilter): (r: seq<Appointment>)
    ensures forall a :: multiset(r)[a] == if InReport(a, f) then multiset(appts)[a] else 0
  {
    Filter(appts, (a: Appointment) => InReport(a, f))
  }

  /** Whether the handler applies any filter: a start or end bound, a
      doctor, or a non-empty status. Each one it applies goes through a cast
      of the filtered query. */
  predicate AnyFilterSet(f: ReportFilter) {
    f.startDate.Some? || f.endDate.Some? || f.doctorId.Some? || (f.status.Some? && f.status.value != [])
  }

  /** A filter that sets nothing reports the whole table, in order. */
  lemma {:induction false} EmptyFilterReportsAll(appts: seq<Appointment>, f: ReportFilter)
    requires !AnyFilterSet(f)
    ensures ReportRows(appts, f) == appts
  {
    if appts != [] {
      EmptyFilterReportsAll(appts[1..], f);
      FilterCons(appts[0], appts[1..], (a: Appointment) => InReport(a, f));
      assert [appts[0]] + appts[1..] == appts;
    }
  }

  /** A start bound after the end bound reports nothing. */
  lemma CrossedBoundsReportNothing(appts: seq<Appointment>, f: ReportFilter)
    requires f.startDate.Some? && f.endDate.Some? && f.startDate.value > f.endDate.value
    ensures ReportRows(appts, f) == []
  {
  }

  const HeaderFields: string := "Date,Time,Patient,Doctor,Status,Reason"
  const Header: string := HeaderFields + "\n"

  /** A null Reason interpolates as nothing. */
  function ReasonCell(reason: Option<string>): (s: string)
    ensures reason.Some? ==> s == reason.value
    ensures reason.None? ==> s == []
  {
    if reason.Some? then reason.value else []
  }

  /** The cells joined by commas, left to right, without any quoting. */
  function JoinCells(cells: seq<string>): (r: string)
    requires cells != []
    ensures |r| >= |cells[0]| && r[..|cells[0]|] == cells[0]
    ensures |cells| > 1 ==> |r| > |cells[0]| && r[|cells[0]|] == ','
  {
    if |cells| == 1 then cells[0] else JoinCells(cells[..|cells| - 1]) + "," + cells[|cells| - 1]
  }

  /** The six cells of a report line: date, time, patient name, "Dr. " and
      the doctor's name, status and reason. */
  function LineCells(a: Appointment, p: Patient, d: Doctor, date: string, time: string): (cells: seq<string>)
    ensures |cells| == 6 && cells[0] == date && cells[1] == time && cells[5] == ReasonCell(a.reason)
    ensures cells[2] == FullName(p.firstName, p.lastName) && cells[4] == a.status
    ensures |cells[3]| >= 4 && cells[3][..4] == "Dr. " && cells[3][4..] == FullName(d.firstName, d.lastName)
  {
    [date, time, FullName(p.firstName, p.lastName), "Dr. " + FullName(d.firstName, d.lastName), a.status, ReasonCell(a.reason)]
  }

  /** One report line: the cells joined by commas, ended by a newline. */
  function CsvLine(a: Appointment, p: Patient, d: Doctor, date: string, time: string): (line: string)
    ensures |line| > |date| && line[..|date|] == date && line[|date|] == ','
    ensures line[|line| - 1] == '\n'
  {
    JoinCells(LineCells(a, p, d, date, time)) + "\n"
  }

  /** The appointment's Patient and Doctor navigations are both loaded. */
  predicate Resolvable(a: Appointment, patients: seq<Patient>, doctors: seq<Doctor>) {
    FindPatient(patients, a.patientId).Some? && FindDoctor(doctors, a.doctorId).Some?
  }

  /** The line of one row, or None when reading its Patient or Doctor
      navigation would dereference null. */
  function RowLine(a: Appointment, patients: seq<Patient>, doctors: seq<Doctor>,
                   shortDate: int -> string, shortTime: int -> string): (r: Option<string>)
    ensures r.Some? <==> Resolvable(a, patients, doctors)
  {
    var p, d := FindPatient(patients, a.patientId), FindDoctor(doctors, a.doctorId);
    if p.None? || d.None? then None else Some(CsvLine(a, p.value, d.value, shortDate(a.start), shortTime(a.start)))
  }

  /** The first n lines of the report body, in row order. A row whose
      patient or doctor is missing dereferences null, and the first such
      row ends the report. The date and time cells are ToShortDateString
      and ToShortTimeString, whose culture-dependent text is a parameter. */
  function Lines(rows: seq<Appointment>, n: nat, patients: seq<Patient>, doctors: seq<Doctor>,
                 shortDate: int -> string, shortTime: int -> string): (r: Result<string, Failure>)
    requires n <= |rows|
    ensures r.Ok? <==> forall k :: 0 <= k < n ==> Resolvable(rows[k], patients, doctors)
    ensures r.Err? ==> r.error == NullReference
  {
    if n == 0 then Ok([])
    else
      var a := rows[n - 1];
      match Lines(rows, n - 1, patients, doctors, shortDate, shortTime)
      case Err(e) => Err(e)
      case Ok(before) =>
        match RowLine(a, patients, doctors, shortDate, shortTime)
        case None => Err(NullReference)
        case Some(line) => Ok(before + line)
  }

  /** The file's text for the rows read: the header, then one line per
      row. It fails exactly when some row's patient or doctor is missing. */
  function Csv(rows: seq<Appointment>, patients: seq<Patient>, doctors: seq<Doctor>,
               shortDate: int -> string, shortTime: int -> string): (r: Result<string, Failure>)
    ensures r.Ok? <==> forall k :: 0 <= k < |rows| ==> Resolvable(rows[k], patients, doctors)
    ensures r.Err? ==> r.error == NullReference
    ensures r.Ok? ==> |r.value| >= |Header| && r.value[..|Header|] == Header
  {
    match Lines(rows, |rows|, patients, doctors, shortDate, shortTime)
    case Err(e) => Err(e)
    case Ok(body) => Ok(Header + body)
  }

  /** The report the handler evidently means: the file for the filtered rows. */
  function Report(ctx: Context, f: ReportFilter, shortDate: int -> string, shortTime: int -> string)
    : (r: Result<string, Failure>)
    reads ctx
    ensures r.Ok? <==> forall a :: a in ReportRows(ctx.appointments, f) ==> Resolvable(a, ctx.patients, ctx.doctors)
    ensures r.Err? ==> r.error == NullReference
    ensures r.Ok? ==> |r.value| >= |Header| && r.value[..|Header|] == Header
  {
    var rows := ReportRows(ctx.appointments, f);
    assert forall k :: 0 <= k < |rows| ==> rows[k] in rows;
    Csv(rows, ctx.patients, ctx.doctors, shortDate, shortTime)
  }

  /** The report as written. Where(...) returns a plain query, and the cast
      of it back to IIncludableQueryable throws InvalidCastException, so
      any filter that is set ends the handler before a row is read. With
      no filter set it agrees with the intended report. */
  function ReportAsWritten(ctx: Context, f: ReportFilter, shortDate: int -> string, shortTime: int -> string)
    : (r: Result<string, Failure>)
    reads ctx
    ensures AnyFilterSet(f) ==> r == Err(InvalidCast)
    ensures !AnyFilterSet(f) ==> r == Report(ctx, f, shortDate, shortTime)
  {
    if AnyFilterSet(f) then Err(InvalidCast)
    else
      EmptyFilterReportsAll(ctx.appointments, f);
      Csv(ctx.appointments, ctx.patients, ctx.doctors, shortDate, shortTime)
  }

  /** Setting any filter breaks a report that would otherwise be produced:
      with every patient and doctor present, the intended report succeeds
      while the handler as written throws. */
  lemma SetFilterBreaksReport(ctx: Context, f: ReportFilter, shortDate: int -> string, shortTime: int -> string)
    requires AnyFilterSet(f)
    requires forall a :: a in ctx.appointments ==> Resolvable(a, ctx.patients, ctx.doctors)
    ensures ReportAsWritten(ctx, f, shortDate, shortTime) == Err(InvalidCast)
    ensures Report(ctx, f, shortDate, shortTime).Ok?
  {
  }

  /** A row without its patient or doctor fails the whole file. */
  lemma CsvFailsAt(rows: seq<Appointment>, i: nat, patients: seq<Patient>, doctors: seq<Doctor>,
                   shortDate: int -> string, shortTime: int -> string)
    requires i < |rows| && !Resolvable(rows[i], patients, doctors)
    ensures Csv(rows, patients, doctors, shortDate, shortTime) == Err(NullReference)
  {
  }

  /** The handler's loop: one line per row after the header (the lines are
      collected first and put after the header at the end, which gives the
      same text). The first row without its patient or doctor throws. */
  method WriteCsv(rows: seq<Appointment>, patients: seq<Patient>, doctors: seq<Doctor>,
                  shortDate: int -> string, shortTime: int -> string) returns (r: Result<string, Failure>)
    ensures r == Csv(rows, patients, doctors, shortDate, shortTime)
  {
    var lines: string := [];
    for i := 0 to |rows|
      invariant Lines(rows, i, patients, doctors, shortDate, shortTime) == Ok(lines)
    {
      var line := RowLine(rows[i], patients, doctors, shortDate, shortTime);
      if line.None? {
        CsvFailsAt(rows, i, patients, doctors, shortDate, shortTime);
        return Err(NullReference);
      }
      lines := lines + line.value;
    }
    r := Ok(Header + lines);
  }

  /** OnPostGenerateReportAsync as written: a set filter throws at its
      cast; otherwise every row of the table is written. */
  method GenerateReport(ctx: Context, f: ReportFilter, shortDate: int -> string, shortTime: int -> string)
    returns (r: Result<string, Failure>)
    ensures r == ReportAsWritten(ctx, f, shortDate, shortTime)
  {
    if AnyFilterSet(f) {
      return Err(InvalidCast);
    }
    r := WriteCsv(ctx.appointments, ctx.patients, ctx.doctors, shortDate, shortTime);
  }

  /** OnPostGenerateReportAsync with the filters applied to the query
      without the casts: the file for the filtered rows. */
  method GenerateReportCorrected(ctx: Context, f: ReportFilter, shortDate: int -> string, shortTime: int -> string)
    returns (r: Result<string, Failure>)
    ensures r == Report(ctx, f, shortDate, shortTime)
  {
    var rows := ReportRows(ctx.appointments, f);
    r := WriteCsv(rows, ctx.patients, ctx.doctors, shortDate, shortTime);
  }

  // ---------------------------------------------------------------------------
  // Counting separators in the report
  // ---------------------------------------------------------------------------

  function Occurrences(s: string, c: char): (n: nat)
    ensures n <= |s|
  {
    if s == [] then 0 else (if s[0] == c then 1 else 0) + Occurrences(s[1..], c)
  }

  lemma {:induction false} OccurrencesAppend(s: string, t: string, c: char)
    ensures Occurrences(s + t, c) == Occurrences(s, c) + Occurrences(t, c)
  {
    if s == [] {
      assert s + t == t;
    } else {
      assert (s + t)[0] == s[0] && (s + t)[1..] == s[1..] + t;
      OccurrencesAppend(s[1..], t, c);
    }
  }

  lemma {:induction false} OccurrencesAbsent(s: string, c: char)
    ensures Occurrences(s, c) == 0 <==> c !in s
  {
    if s != [] {
      assert s == [s[0]] + s[1..];
      OccurrencesAbsent(s[1..], c);
    }
  }

  /** A cell holding neither a comma nor a newline. */
  predicate PlainCell(s: string) {
    ',' !in s && '\n' !in s
  }

  predicate PlainCells(cells: seq<string>) {
    forall i :: 0 <= i < |cells| ==> PlainCell(cells[i])
  }

  /** The occurrences of `c` inside the cells themselves. */
  function CellOccurrences(cells: seq<string>, c: char): nat {
    if cells == [] then 0 else CellOccurrences(cells[..|cells| - 1], c) + Occurrences(cells[|cells| - 1], c)
  }

  /** Joining n cells adds n - 1 commas and nothing else. */
  lemma {:induction false} JoinOccurrences(cells: seq<string>, c: char)
    requires cells != []
    ensures Occurrences(JoinCells(cells), c) == CellOccurrences(cells, c) + (if c == ',' then |cells| - 1 else 0)
  {
    if |cells| == 1 {
      assert cells[..0] == [];
    } else {
      var front, last := cells[..|cells| - 1], cells[|cells| - 1];
      JoinOccurrences(front, c);
      OccurrencesAppend(JoinCells(front) + ",", last, c);
      OccurrencesAppend(JoinCells(front), ",", c);
    }
  }

  /** Plain cells hold no separator. */
  lemma {:induction false} PlainCellsHoldNone(cells: seq<string>, c: char)
    requires c == ',' || c == '\n'
    requires PlainCells(cells)
    ensures CellOccurrences(cells, c) == 0
  {
    if cells != [] {
      PlainCellsHoldNone(cells[..|cells| - 1], c);
      OccurrencesAbsent(cells[|cells| - 1], c);
    }
  }

  /** A line's separators are its cells' own, five joining commas and the
      final newline. */
  lemma LineSeparators(a: Appointment, p: Patient, d: Doctor, date: string, time: string, c: char)
    ensures Occurrences(CsvLine(a, p, d, date, time), c)
         == CellOccurrences(LineCells(a, p, d, date, time), c) + (if c == ',' then 5 else if c == '\n' then 1 else 0)
  {
    var cells := LineCells(a, p, d, date, time);
    JoinOccurrences(cells, c);
    OccurrencesAppend(JoinCells(cells), "\n", c);
  }

  /** A row whose six cells are plain, its patient and doctor present. */
  predicate PlainRow(a: Appointment, patients: seq<Patient>, doctors: seq<Doctor>,
                     shortDate: int -> string, shortTime: int -> string) {
    && Resolvable(a, patients, doctors)
    && PlainCells(LineCells(a, FindPatient(patients, a.patientId).value, FindDoctor(doctors, a.doctorId).value,
                            shortDate(a.start), shortTime(a.start)))
  }

  /** With plain cells a line has exactly six fields and one newline. */
  lemma PlainLineShape(a: Appointment, p: Patient, d: Doctor, date: string, time: string)
    requires PlainCells(LineCells(a, p, d, date, time))
    ensures Occurrences(CsvLine(a, p, d, date, time), ',') == 5
    ensures Occurrences(CsvLine(a, p, d, date, time), '\n') == 1
  {
    var cells := LineCells(a, p, d, date, time);
    PlainCellsHoldNone(cells, ',');
    PlainCellsHoldNone(cells, '\n');
    LineSeparators(a, p, d, date, time, ',');
    LineSeparators(a, p, d, date, time, '\n');
  }

  /** No quoting is applied (section 2 of RFC 4180 would enclose such a
      field in double quotes): a comma in the reason becomes a seventh
      field of the line. */
  lemma CommaInReasonSplitsField(a: Appointment, p: Patient, d: Doctor, date: string, time: string,
                                 before: string, after: string)
    requires PlainCells(LineCells(a, p, d, date, time)[..5])
    requires PlainCell(before) && PlainCell(after) && a.reason == Some(before + "," + after)
    ensures Occurrences(CsvLine(a, p, d, date, time), ',') == 6
  {
    var cells := LineCells(a, p, d, date, time);
    assert cells[..|cells| - 1] == cells[..5];
    PlainCellsHoldNone(cells[..5], ',');
    OccurrencesAbsent(before, ',');
    OccurrencesAbsent(after, ',');
    OccurrencesAppend(before + ",", after, ',');
    OccurrencesAppend(before, ",", ',');
    LineSeparators(a, p, d, date, time, ',');
  }

  /** One more resolvable row appends its line. */
  lemma LinesStep(rows: seq<Appointment>, n: nat, patients: seq<Patient>, doctors: seq<Doctor>,
                  shortDate: int -> string, shortTime: int -> string)
    requires 0 < n <= |rows|
    requires Lines(rows, n - 1, patients, doctors, shortDate, shortTime).Ok?
    requires Resolvable(rows[n - 1], patients, doctors)
    ensures Lines(rows, n, patients, doctors, shortDate, shortTime)
         == Ok(Lines(rows, n - 1, patients, doctors, shortDate, shortTime).value
               + RowLine(rows[n - 1], patients, doctors, shortDate, shortTime).value)
  {
  }

  /** A plain row adds one line holding one newline. */
  lemma PlainRowAddsLine(rows: seq<Appointment>, n: nat, patients: seq<Patient>, doctors: seq<Doctor>,
                         shortDate: int -> string, shortTime: int -> string)
    requires 0 < n <= |rows|
    requires Lines(rows, n - 1, patients, doctors, shortDate, shortTime).Ok?
    requires PlainRow(rows[n - 1], patients, doctors, shortDate, shortTime)
    ensures Lines(rows, n, patients, doctors, shortDate, shortTime).Ok?
    ensures Occurrences(Lines(rows, n, patients, doctors, shortDate, shortTime).value, '\n')
         == Occurrences(Lines(rows, n - 1, patients, doctors, shortDate, shortTime).value, '\n') + 1
  {
    var a := rows[n - 1];
    LinesStep(rows, n, patients, doctors, shortDate, shortTime);
    var p, d := FindPatient(patients, a.patientId).value, FindDoctor(doctors, a.doctorId).value;
    PlainLineShape(a, p, d, shortDate(a.start), shortTime(a.start));
    OccurrencesAppend(Lines(rows, n - 1, patients, doctors, shortDate, shortTime).value,
                      CsvLine(a, p, d, shortDate(a.start), shortTime(a.start)), '\n');
  }

  /** With plain cells the first n rows give n newline-terminated lines. */
  lemma {:induction false} OneLinePerRow(rows: seq<Appointment>, n: nat, patients: seq<Patient>, doctors: seq<Doctor>,
                                         shortDate: int -> string, shortTime: int -> string)
    requires n <= |rows|
    requires forall k :: 0 <= k < n ==> PlainRow(rows[k], patients, doctors, shortDate, shortTime)
    ensures Lines(rows, n, patients, doctors, shortDate, shortTime).Ok?
    ensures Occurrences(Lines(rows, n, patients, doctors, shortDate, shortTime).value, '\n') == n
  {
    if n > 0 {
      assert PlainRow(rows[n - 1], patients, doctors, shortDate, shortTime);
      OneLinePerRow(rows, n - 1, patients, doctors, shortDate, shortTime);
      PlainRowAddsLine(rows, n, patients, doctors, shortDate, shortTime);
    }
  }

  /** A text without newlines, ended by one, holds exactly one. */
  lemma NewlineTerminated(s: string)
    requires '\n' !in s
    ensures Occurrences(s + "\n", '\n') == 1
  {
    OccurrencesAbsent(s, '\n');
    OccurrencesAppend(s, "\n", '\n');
  }

  /** The header ends in the only newline it holds. */
  lemma HeaderHasOneNewline()
    ensures Occurrences(Header, '\n') == 1
  {
    assert '\n' !in HeaderFields;
    NewlineTerminated(HeaderFields);
  }

  /** So a report of plain rows succeeds, with a newline for the header and
      one per reported row. */
  lemma ReportLineCount(ctx: Context, f: ReportFilter, shortDate: int -> string, shortTime: int -> string)
    requires forall a :: a in ReportRows(ctx.appointments, f) ==> PlainRow(a, ctx.patients, ctx.doctors, shortDate, shortTime)
    ensures Report(ctx, f, shortDate, shortTime).Ok?
    ensures Occurrences(Report(ctx, f, shortDate, shortTime).value, '\n') == |ReportRows(ctx.appointments, f)| + 1
  {
    var rows := ReportRows(ctx.appointments, f);
    assert forall k :: 0 <= k < |rows| ==> rows[k] in rows;
    OneLinePerRow(rows, |rows|, ctx.patients, ctx.doctors, shortDate, shortTime);
    var body := Lines(rows, |rows|, ctx.patients, ctx.doctors, shortDate, shortTime).value;
    assert Report(ctx, f, shortDate, shortTime) == Ok(Header + body);
    HeaderHasOneNewline();
    OccurrencesAppend(Header, body, '\n');
  }

  // ---------------------------------------------------------------------------
  // User status (LoadDataAsync, OnPostToggleStatusAsync)
  // ---------------------------------------------------------------------------

  /** An identity user, as far as its status goes. */
  datatype User = User(id: string, lockoutEnd: Option<int>)

  /** DateTimeOffset.MaxValue, 9999-12-31 23:59, in minutes. */
  const MaxLockout: int := 5258964959

  /** "Inactive" exactly when a lockout end is set and still ahead. */
  function UserStatus(u: User, now: int): (s: string)
    ensures s == InactiveText <==> u.lockoutEnd.Some? && u.lockoutEnd.value > now
    ensures s == ActiveText <==> s != InactiveText
  {
    if u.lockoutEnd.Some? && u.lockoutEnd.value > now then InactiveText else ActiveText
  }

  /** The lockout after the toggle: cleared for an inactive user, set to
      the maximum for an active one. */
  function Toggled(u: User, now: int): (r: User)
    ensures r.id == u.id
    ensures UserStatus(u, now) == InactiveText ==> r.lockoutEnd.None?
    ensures UserStatus(u, now) == ActiveText ==> r.lockoutEnd == Some(MaxLockout)
  {
    if UserStatus(u, now) == InactiveText then u.(lockoutEnd := Option.None) else u.(lockoutEnd := Some(MaxLockout))
  }

  /** Before the end of the calendar, the toggle flips the status. */
  lemma ToggleFlipsStatus(u: User, now: int)
    requires now < MaxLockout
    ensures UserStatus(Toggled(u, now), now) != UserStatus(u, now)
  {
  }

  /** Toggling twice restores the status, though not the lockout end. */
  lemma ToggleTwiceRestoresStatus(u: User, now: int)
    requires now < MaxLockout
    ensures UserStatus(Toggled(Toggled(u, now), now), now) == UserStatus(u, now)
  {
    ToggleFlipsStatus(u, now);
    ToggleFlipsStatus(Toggled(u, now), now);
  }

  datatype Toggle = Toggle(outcome: Outcome, updated: Option<User>)

  /** OnPostToggleStatusAsync: NotFound for an unknown user; otherwise
      the toggled user, with a message naming what happened to it. */
  function ToggleStatus(found: Option<User>, now: int): (r: Toggle)
    ensures found.None? <==> r.outcome == NotFoundResult
    ensures found.None? ==> r.updated.None?
    ensures found.Some? ==> r.updated.Some? && r.updated.value.id == found.value.id && Succeeded(r.outcome)
    ensures found.Some? && now < MaxLockout ==>
      && UserStatus(r.updated.value, now) != UserStatus(found.value, now)
      && (r.outcome.notice.text == ActivatedText <==> UserStatus(r.updated.value, now) == ActiveText)
  {
    if found.None? then Toggle(NotFoundResult, Option.None)
    else
      var u := found.value;
      Toggle(Redirect(Success(if UserStatus(u, now) == InactiveText then ActivatedText else DeactivatedText)),
             Some(Toggled(u, now)))
  }

  // ---------------------------------------------------------------------------
  // AllAppointments (LoadDataAsync)
  // ---------------------------------------------------------------------------

  const DashboardLimit: nat := 50

  /** OrderByDescending(AppointmentDateTime).Take(50): the latest
      appointments, latest first. Any copy left out starts no later than
      every one listed. */
  function Latest(appts: seq<Appointment>): (r: seq<Appointment>)
    ensures |r| == if |appts| < DashboardLimit then |appts| else DashboardLimit
    ensures forall i, j :: 0 <= i < j < |r| ==> r[i].start >= r[j].start
    ensures multiset(r) <= multiset(appts)
    ensures forall a, b :: a in r && multiset(r)[b] < multiset(appts)[b] ==> b.start <= a.start
  {
    var s := SortBy(appts, LatestFirst, NoKey);
    var k := if |s| < DashboardLimit then |s| else DashboardLimit;
    var r := s[..k];
    assert s == r + s[k..];
    assert multiset(s) == multiset(r) + multiset(s[k..]);
    forall i, j | 0 <= i < j < |r| ensures r[i].start >= r[j].start {
      assert InOrder(s[i], s[j], LatestFirst, NoKey);
    }
    forall a, b | a in r && multiset(r)[b] < multiset(appts)[b] ensures b.start <= a.start {
      assert b in multiset(s[k..]);
      SortedPrefixDominates(s, k, a, b);
    }
    r
  }

  /** In a latest-first order, whatever comes after position k starts no
      later than anything before it. */
  lemma SortedPrefixDominates(s: seq<Appointment>, k: nat, a: Appointment, b: Appointment)
    requires k <= |s| && SortedBy(s, LatestFirst, NoKey)
    requires a in s[..k] && b in s[k..]
    ensures b.start <= a.start
  {
    var i :| 0 <= i < k && s[..k][i] == a;
    var j :| 0 <= j < |s| - k && s[k..][j] == b;
    assert InOrder(s[i], s[k + j], LatestFirst, NoKey);
  }
}
