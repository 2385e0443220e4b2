/** The student dashboard: exam rows read from the database, the gate in front of
    an exam, and how each exam card is shown. */
module Dashboard {
  import opened Base
  import opened Text
  import opened Store
  import ExamSession

  /** The `duration` column as `Number` sees it: null, absent, a finite number or
      a non-finite one. */
  datatype DurationField = NullDuration | NoDuration | Finite(minutes: real) | NonFinite

  /** A row of the `exams` table; a text column is None when null. */
  datatype ExamRow = ExamRow(id: string, title: Option<string>, description: Option<string>,
                             accessCode: Option<string>, duration: DurationField, status: Option<string>)

  /** An exam as the dashboard keeps it. */
  datatype Exam = Exam(id: string, title: string, description: string, accessCode: string, duration: real, status: string)

  /** `a || b` on optional strings: the first that is present and non-empty, else "". */
  function OrElse(a: Option<string>, b: string): string
  {
    if a.Some? && a.value != "" then a.value else b
  }

  /** `Number.isFinite(Number(duration)) ? Number(duration) : 90`. */
  function Minutes(d: DurationField): (r: real)
    ensures d.Finite? ==> r == d.minutes
    ensures d.NullDuration? ==> r == 0.0
    ensures d.NoDuration? || d.NonFinite? ==> r == 90.0
  {
    match d
    case NullDuration => 0.0
    case NoDuration => 90.0
    case Finite(m) => m
    case NonFinite => 90.0
  }

  /** The mapping of one row in `load`. */
  function FromRow(r: ExamRow): (e: Exam)
    ensures e.id == r.id
    ensures e.title == (if r.title.Some? && r.title.value != "" then r.title.value else r.id)
    ensures e.accessCode == OrElse(r.accessCode, OrElse(r.description, ""))
    ensures e.status == OrElse(r.status, "")
  {
    Exam(r.id, OrElse(r.title, r.id), OrElse(r.description, ""), OrElse(r.accessCode, OrElse(r.description, "")),
         Minutes(r.duration), OrElse(r.status, ""))
  }

  function FromRows(rows: seq<ExamRow>): (es: seq<Exam>)
    ensures |es| == |rows|
    ensures forall k :: 0 <= k < |rows| ==> es[k] == FromRow(rows[k])
  {
    if rows == [] then [] else [FromRow(rows[0])] + FromRows(rows[1..])
  }

  const DefaultExams: seq<Exam> := [
    Exam("elyonaris", "English Exam", "English Online Exam", "", 120.0, "available"),
    Exam("2", "Mathematics Matriculation Exam 2025 (Paper 1)", "Calculus and Linear Algebra comprehensive test", "", 120.0, "not-ready"),
    Exam("3", "Physics Midterm", "Physics Matriculation Exam 2025 (Paper 1)", "", 90.0, "not-ready")
  ]

  /** `load`: the list is replaced only when the query returns at least one row; an
      error or an empty answer keeps what is shown. */
  function Loaded(current: seq<Exam>, data: Option<seq<ExamRow>>): (r: seq<Exam>)
    ensures data.None? || data.value == [] ==> r == current
    ensures data.Some? && data.value != [] ==> r == FromRows(data.value)
  {
    if data.Some? && |data.value| > 0 then FromRows(data.value) else current
  }

  /** The row's own title wins; a blank title shows the id. */
  lemma TitleFallsBackToId(r: ExamRow)
    requires r.title.None? || r.title.value == ""
    ensures FromRow(r).title == r.id
  {
  }

  // ---------------------------------------------------------------- starting an exam

  /** What the gate reads: the retake flag, the incident and submission lookups (a
      failure is `Failed`), which incident row the unordered lookup returns, and
      whether the incident or submission lookup threw. A throw from the retake lookup
      is caught where it happens and reads as `retakeOk` false. */
  datatype StartIo = StartIo(retakeOk: bool, incidentOk: bool, submissionOk: bool, incidentPick: nat, throws: bool)

  /** `handleStartExam`: without an admission id go to login; an incident, then a
      submission, redirect unless retake is enabled; anything else, a failed lookup
      or a thrown error included, opens the exam. */
  function StartRoute(db: Backend, storedId: string, exam: Exam, io: StartIo): Route
    reads db
  {
    var admissionId := Trim(storedId);
    if admissionId == "" then Login
    else if io.throws then ExamPage(exam.id)
    else
      var k := Key(exam.id, admissionId);
      var retake := db.RetakeEnabled(k, io.retakeOk);
      var incident := db.FirstIncident(k, io.incidentOk, io.incidentPick);
      var sub := db.SubmissionLookup(k, io.submissionOk);
      if !retake && incident.Found? then Cancelled(exam.id, if incident.row == "" then "previous dismissal" else incident.row)
      else if !retake && sub.Found? then Submitted(exam.id)
      else ExamPage(exam.id)
  }

  /** The gate only redirects on a record it found: failed lookups let the student in. */
  lemma StartFailsOpen(db: Backend, storedId: string, exam: Exam, io: StartIo)
    requires Trim(storedId) != ""
    requires io.throws || (!io.incidentOk && !io.submissionOk)
    ensures StartRoute(db, storedId, exam, io) == ExamPage(exam.id)
  {
  }

  /** With retake enabled the student always enters, whatever is on record. */
  lemma RetakeAlwaysEnters(db: Backend, storedId: string, exam: Exam, io: StartIo)
    requires Trim(storedId) != "" && io.retakeOk && Key(exam.id, Trim(storedId)) in db.retake
    requires db.retake[Key(exam.id, Trim(storedId))]
    ensures StartRoute(db, storedId, exam, io) == ExamPage(exam.id)
  {
  }

  /** An incident is looked at before the submission: with both on record the
      student lands on the cancelled page, with one of the stored reasons or, when
      that is blank, "previous dismissal"; whichever row the database returns is the
      one forwarded. */
  lemma IncidentBeforeSubmission(db: Backend, storedId: string, exam: Exam, io: StartIo)
    requires Trim(storedId) != "" && !io.throws && io.incidentOk && io.submissionOk
    requires !db.RetakeEnabled(Key(exam.id, Trim(storedId)), io.retakeOk)
    requires var k := Key(exam.id, Trim(storedId)); k in db.incidents && |db.incidents[k]| > 0 && k in db.submissions
    ensures var route := StartRoute(db, storedId, exam, io);
      route.Cancelled? && route.examId == exam.id
      && (route.reason == "previous dismissal" || route.reason in db.incidents[Key(exam.id, Trim(storedId))])
    ensures io.incidentPick < |db.incidents[Key(exam.id, Trim(storedId))]| ==>
      var reason := db.incidents[Key(exam.id, Trim(storedId))][io.incidentPick];
      StartRoute(db, storedId, exam, io) == Cancelled(exam.id, if reason == "" then "previous dismissal" else reason)
  {
  }

  /** The exam page's own mount check takes the opposite order: the same records
      send the student to the submitted page there. */
  lemma DashboardAndExamPageDisagree(db: Backend, storedId: string, exam: Exam, s: Submission, reason: string)
    requires Trim(storedId) != "" && exam.id != ""
    requires var k := Key(exam.id, Trim(storedId));
      db.incidents == map[k := [reason]] && db.submissions == map[k := s] && db.retake == map[]
    ensures StartRoute(db, storedId, exam, StartIo(true, true, true, 0, false)).Cancelled?
    ensures ExamSession.MountDecision(Trim(storedId), exam.id, true, false, Found(s), Found(reason))
            == Some(Submitted(exam.id))
  {
  }

  // ---------------------------------------------------------------- exam cards

  predicate IsBlurred(e: Exam)
  {
    Contains(Lower(e.status), "blur") || e.id == "elyonaris"
    || Contains(Lower(e.title), "mathematics") || Contains(Lower(e.title), "physics")
  }

  predicate IsUnavailable(e: Exam)
  {
    Contains(Lower(e.status), "unavail") || Lower(e.status) == "unavailable"
  }

  predicate StartDisabled(e: Exam)
  {
    e.status == "completed" || e.status == "not-ready" || IsBlurred(e) || IsUnavailable(e)
  }

  /** The Start button's label, by priority: completed, not ready, unavailable. */
  function StartLabel(e: Exam): string
  {
    if e.status == "completed" then "✓ Completed"
    else if e.status == "not-ready" then "Not Ready"
    else if IsUnavailable(e) then "Unavailable"
    else "Start Exam"
  }

  /** The badge text: two statuses get a display name, the others are shown raw. */
  function BadgeText(status: string): (r: string)
    ensures status != "in-progress" && status != "not-ready" ==> r == status
  {
    if status == "in-progress" then "In Progress"
    else if status == "not-ready" then "Not Ready"
    else status
  }

  /** The exact-match test for "unavailable" adds nothing to the substring test. */
  lemma UnavailableBySubstring(e: Exam)
    ensures IsUnavailable(e) <==> Contains(Lower(e.status), "unavail")
  {
    if Lower(e.status) == "unavailable" {
      assert SliceAt(Lower(e.status), "unavail", 0);
    }
  }

  /** A card whose button can be pressed always reads "Start Exam". */
  lemma EnabledReadsStart(e: Exam)
    requires !StartDisabled(e)
    ensures StartLabel(e) == "Start Exam"
  {
  }

  /** The English exam is blurred by its id, so its card can never be started from
      the dashboard, whatever its status. */
  lemma EnglishCardAlwaysDisabled(e: Exam)
    requires e.id == "elyonaris"
    ensures IsBlurred(e) && StartDisabled(e)
  {
  }

  /** None of the built-in cards can be started. */
  lemma DefaultCardsDisabled()
    ensures forall k :: 0 <= k < |DefaultExams| ==> StartDisabled(DefaultExams[k])
  {
    var es := DefaultExams;
    assert |es| == 3;
    assert es[0].id == "elyonaris";
    assert es[1].status == "not-ready" && es[2].status == "not-ready";
  }
}
