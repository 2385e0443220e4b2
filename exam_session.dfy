/** The exam page (`Exam.tsx`): an access-code gate, entry checks against earlier
    submissions and incidents, a one-second countdown that ends the exam, the
    six-violation cancellation for English exams, the end-of-exam write and a
    snapshot in local storage that survives a reload. */
module ExamSession {
  import opened Base
  import opened Text
  import opened Store
  import opened SecureExam

  /** The exam passed by the dashboard; `duration` is in minutes and `description`
      holds the access code. */
  datatype ExamInfo = ExamInfo(title: string, description: string, duration: int)

  /** The `exam_<id>_state` entry of local storage. */
  datatype Snapshot = Snapshot(examStarted: bool, timeRemaining: int)

  // ---------------------------------------------------------------- access code

  datatype GateResult = Unchanged | NoCodeConfigured | InvalidCode | Passed

  /** `handleSubmitExamCodes`: a blank entry is ignored; a blank configured code blocks;
      otherwise the trimmed codes must agree up to letter case. */
  function AccessGate(entered: string, configured: string): (r: GateResult)
    ensures r == Unchanged <==> Trim(entered) == ""
    ensures r == NoCodeConfigured <==> Trim(entered) != "" && Trim(configured) == ""
    ensures r == Passed <==>
      Trim(entered) != "" && Trim(configured) != "" && EqualsIgnoreCase(Trim(entered), Trim(configured))
  {
    var code := Trim(entered);
    var expected := Trim(configured);
    if code == "" then Unchanged
    else if expected == "" then NoCodeConfigured
    else if EqualsIgnoreCase(code, expected) then Passed
    else InvalidCode
  }

  /** The configured code: the exam's description, "" without an exam. */
  function ExpectedCode(exam: Option<ExamInfo>): string
  {
    if exam.Some? then exam.value.description else ""
  }

  /** No entry whatsoever opens an exam whose configured code is blank. */
  lemma BlankCodeBlocks(entered: string, configured: string)
    requires Trim(configured) == ""
    ensures AccessGate(entered, configured) != Passed
  {
  }

  /** Letter case of either code does not matter. */
  lemma GateIgnoresCase(entered: string, configured: string)
    ensures AccessGate(Lower(entered), Lower(configured)) == AccessGate(entered, configured)
  {
    TrimLower(entered);
    TrimLower(configured);
    LowerIdempotent(Trim(entered));
    LowerIdempotent(Trim(configured));
    if Trim(entered) != "" {
      assert Lower(Trim(entered)) != "";
    }
    if Trim(configured) != "" {
      assert Lower(Trim(configured)) != "";
    }
  }

  /** White space typed before or after the code does not matter. */
  lemma GateIgnoresPadding(before: string, entered: string, after: string, configured: string)
    requires forall i :: 0 <= i < |before| ==> IsSpace(before[i])
    requires forall i :: 0 <= i < |after| ==> IsSpace(after[i])
    ensures AccessGate(before + entered + after, configured) == AccessGate(entered, configured)
  {
    TrimPadded(before, entered, after);
  }

  // ---------------------------------------------------------------- clock

  /** Two-digit field, `padStart(2, '0')` (wider numbers are kept whole). */
  function TwoDigits(n: nat): (r: string)
    ensures |r| >= 2 && (n < 100 ==> |r| == 2)
    ensures forall i :: 0 <= i < |r| ==> IsDigit(r[i])
    ensures DecimalValue(r) == n
  {
    var d := NatToString(n);
    var r := PadZeros(d, 2);
    PadZerosFacts(d, 2);
    DecimalValueLeadingZeros(r, d);
    assert n < 100 ==> |d| <= 2 by {
      if n >= 10 && n < 100 {
        assert NatToString(n) == NatToString(n / 10) + [DigitChar(n % 10)];
      }
    }
    r
  }

  /** `formatTime`: hours, minutes and seconds, colon-separated. */
  function FormatTime(seconds: nat): string
  {
    Clock(seconds / 3600, seconds % 3600 / 60, seconds % 60)
  }

  /** The display of hours, minutes and seconds. */
  function Clock(h: nat, m: nat, sec: nat): string
  {
    TwoDigits(h) + [':'] + TwoDigits(m) + [':'] + TwoDigits(sec)
  }

  /** Hours, minutes and seconds counted back in seconds. */
  function Seconds(h: nat, m: nat, sec: nat): nat
  {
    h * 3600 + m * 60 + sec
  }

  /** The three fields: minutes and seconds below 60, and together they make up the input. */
  lemma TimeFieldsExact(seconds: nat)
    ensures seconds % 3600 / 60 < 60 && seconds % 60 < 60
    ensures Seconds(seconds / 3600, seconds % 3600 / 60, seconds % 60) == seconds
  {
    var q, r := seconds / 3600, seconds % 3600;
    var mm, ss := r / 60, r % 60;
    assert r == mm * 60 + ss;
    assert seconds == (q * 60 + mm) * 60 + ss;
    ModOfSum(seconds, q * 60 + mm, ss);
  }

  lemma ModOfSum(x: nat, a: nat, b: nat)
    requires x == a * 60 + b && b < 60
    ensures x % 60 == b
  {
  }

  /** Fields below 100 are shown as `HH:MM:SS`. */
  lemma ClockShape(h: nat, m: nat, sec: nat)
    requires h < 100 && m < 100 && sec < 100
    ensures var r := Clock(h, m, sec); |r| == 8 && r[2] == ':' && r[5] == ':'
  {
    SeparatorsAt(TwoDigits(h), TwoDigits(m), TwoDigits(sec), ':');
  }

  /** Below 100 hours the display is exactly `HH:MM:SS`. */
  lemma FormatTimeShape(seconds: nat)
    requires seconds < 360000
    ensures var r := FormatTime(seconds); |r| == 8 && r[2] == ':' && r[5] == ':'
  {
    HoursBelow(seconds);
    ClockShape(seconds / 3600, seconds % 3600 / 60, seconds % 60);
  }

  lemma HoursBelow(seconds: nat)
    requires seconds < 360000
    ensures seconds / 3600 < 100 && seconds % 3600 / 60 < 100 && seconds % 60 < 100
  {
  }

  predicate AllDigits(s: string)
  {
    forall i :: 0 <= i < |s| ==> IsDigit(s[i])
  }

  /** Reads an `HH:MM:SS` display back into seconds. */
  function ParseTime(s: string): Option<nat>
  {
    ParseFields(Split(s, ':'))
  }

  function ParseFields(parts: seq<string>): Option<nat>
  {
    if |parts| == 3 && AllDigits(parts[0]) && AllDigits(parts[1]) && AllDigits(parts[2]) then
      Some(Seconds(DecimalValue(parts[0]), DecimalValue(parts[1]), DecimalValue(parts[2])))
    else None
  }

  /** The display loses nothing: hours × 3600 + minutes × 60 + seconds is the input,
      with minutes and seconds below 60. */
  lemma FormatTimeRoundTrip(seconds: nat)
    ensures ParseTime(FormatTime(seconds)) == Some(seconds)
  {
    FieldsRoundTrip(seconds / 3600, seconds % 3600 / 60, seconds % 60);
    TimeFieldsExact(seconds);
  }

  /** A display made of the three two-digit fields parses back to their total. */
  lemma FieldsRoundTrip(h: nat, m: nat, sec: nat)
    ensures ParseTime(Clock(h, m, sec)) == Some(Seconds(h, m, sec))
  {
    var x, y, z := TwoDigits(h), TwoDigits(m), TwoDigits(sec);
    NoColonInDigits(x);
    NoColonInDigits(y);
    NoColonInDigits(z);
    Split3(x, y, z, ':');
    assert ParseTime(Clock(h, m, sec)) == ParseFields([x, y, z]);
    FieldsValue(x, y, z);
  }

  lemma FieldsValue(x: string, y: string, z: string)
    requires AllDigits(x) && AllDigits(y) && AllDigits(z)
    ensures ParseFields([x, y, z]) == Some(Seconds(DecimalValue(x), DecimalValue(y), DecimalValue(z)))
  {
  }

  lemma NoColonInDigits(s: string)
    requires AllDigits(s)
    ensures ':' !in s
  {
  }

  // ---------------------------------------------------------------- scoring

  /** A question row as `calculateScore` reads it. */
  datatype ScoredQuestion = ScoredQuestion(id: string, correct: Option<string>, value: Option<real>)

  /** The answer is truthy, the correct answer is truthy, and they agree up to case. */
  predicate Earns(q: ScoredQuestion, answers: map<string, string>)
  {
    q.id in answers && answers[q.id] != "" && q.correct.Some? && q.correct.value != ""
    && EqualsIgnoreCase(answers[q.id], q.correct.value)
  }

  function ExamTotal(qs: seq<ScoredQuestion>): real
  {
    if qs == [] then 0.0 else ExamTotal(qs[..|qs| - 1]) + Weight(qs[|qs| - 1].value)
  }

  function ExamScore(qs: seq<ScoredQuestion>, answers: map<string, string>): real
  {
    if qs == [] then 0.0
    else ExamScore(qs[..|qs| - 1], answers) + (if Earns(qs[|qs| - 1], answers) then Weight(qs[|qs| - 1].value) else 0.0)
  }

  /** `calculateScore`: a failed question fetch gives {0, 0}; otherwise one pass adds
      every weight to the total and the earned ones to the score. */
  method CalculateScore(questions: Option<seq<ScoredQuestion>>, answers: map<string, string>)
    returns (score: real, total: real)
    ensures questions.None? ==> score == 0.0 && total == 0.0
    ensures questions.Some? ==> score == ExamScore(questions.value, answers) && total == ExamTotal(questions.value)
  {
    score, total := 0.0, 0.0;
    if questions.None? {
      return;
    }
    var qs := questions.value;
    var i := 0;
    while i < |qs|
      invariant 0 <= i <= |qs|
      invariant score == ExamScore(qs[..i], answers) && total == ExamTotal(qs[..i])
    {
      assert qs[..i + 1][..i] == qs[..i];
      var w := Weight(qs[i].value);
      total := total + w;
      if Earns(qs[i], answers) {
        score := score + w;
      }
      i := i + 1;
    }
    assert qs[..|qs|] == qs;
  }

  /** With non-negative values the score never exceeds the total. */
  lemma {:induction false} ScoreAtMostTotal(qs: seq<ScoredQuestion>, answers: map<string, string>)
    requires forall k :: 0 <= k < |qs| ==> qs[k].value.None? || qs[k].value.value >= 0.0
    ensures 0.0 <= ExamScore(qs, answers) <= ExamTotal(qs)
  {
    if qs != [] {
      ScoreAtMostTotal(qs[..|qs| - 1], answers);
    }
  }

  /** Without answers nothing is earned: the end-of-exam write, which reads no
      answers, always records score 0. */
  lemma {:induction false} NoAnswersScoreZero(qs: seq<ScoredQuestion>)
    ensures ExamScore(qs, map[]) == 0.0
  {
    if qs != [] {
      NoAnswersScoreZero(qs[..|qs| - 1]);
    }
  }

  // ---------------------------------------------------------------- entry checks

  /** The mount check: no stored admission id goes to login; a submission, then an
      incident with a reason, redirect unless retake is enabled; a page opened
      without an exam goes back to the dashboard. */
  function MountDecision(admissionId: string, examId: string, hasExam: bool, retake: bool,
                         sub: Lookup<Submission>, incident: Lookup<string>): (r: Option<Route>)
    ensures admissionId == "" <==> r == Some(Login)
    ensures r == Some(Submitted(examId)) <==> admissionId != "" && examId != "" && sub.Found? && !retake
    ensures (exists reason :: r == Some(Cancelled(examId, reason))) <==>
      admissionId != "" && examId != "" && !retake && !sub.Found? && incident.Found? && incident.row != ""
    ensures r.Some? && r.value.Cancelled? ==> incident.Found? && r.value.reason == incident.row
  {
    if admissionId == "" then Some(Login)
    else if examId != "" && !retake && sub.Found? then Some(Submitted(examId))
    else if examId != "" && !retake && incident.Found? && incident.row != "" then Some(Cancelled(examId, incident.row))
    else if !hasExam then Some(Dashboard)
    else None
  }

  datatype StartOutcome = InvalidStudent | CheckFailed | AlreadySubmitted | AlreadyCancelled(reason: string) | Begin

  /** `handleStartExam`: any lookup error aborts; a submission, then an incident with a
      reason, redirects; the retake flag is not consulted. */
  function StartDecision(admissionId: string, examId: string, sub: Lookup<Submission>, incident: Lookup<string>): (r: StartOutcome)
    ensures r == Begin <==> admissionId != "" && examId != "" && sub == NotFound && incident.Ok()
                            && !(incident.Found? && incident.row != "")
    ensures r == CheckFailed <==> admissionId != "" && examId != "" && (sub.Failed? || (sub.NotFound? && incident.Failed?))
    ensures r.AlreadyCancelled? ==> incident.Found? && r.reason == incident.row && r.reason != ""
  {
    if admissionId == "" || examId == "" then InvalidStudent
    else if sub.Failed? then CheckFailed
    else if sub.Found? then AlreadySubmitted
    else if incident.Failed? then CheckFailed
    else if incident.Found? && incident.row != "" then AlreadyCancelled(incident.row)
    else Begin
  }

  /** With retake enabled the mount check lets a student with a submission stay on
      the page, but the Start button still sends them to the submitted page. */
  lemma RetakeMountVersusStart(admissionId: string, examId: string, s: Submission, incident: Lookup<string>)
    requires admissionId != "" && examId != ""
    ensures MountDecision(admissionId, examId, true, true, Found(s), incident) == None
    ensures StartDecision(admissionId, examId, Found(s), incident) == AlreadySubmitted
  {
  }

  /** A submission wins over an incident on both paths. */
  lemma SubmissionBeforeIncident(admissionId: string, examId: string, s: Submission, reason: string)
    requires admissionId != "" && examId != ""
    ensures MountDecision(admissionId, examId, true, false, Found(s), Found(reason)) == Some(Submitted(examId))
    ensures StartDecision(admissionId, examId, Found(s), Found(reason)) == AlreadySubmitted
  {
  }

  // ---------------------------------------------------------------- cancellation

  predicate IsEnglish(exam: Option<ExamInfo>)
  {
    exam.Some? && Contains(Lower(exam.value.title), "english")
  }

  /** Six screenshots or six tab switches; nothing else counts. */
  predicate OverThreshold(vs: seq<Violation>)
  {
    CountOf(vs, Screenshot) >= 6 || CountOf(vs, TabSwitch) >= 6
  }

  function CancelReason(vs: seq<Violation>): string
  {
    if CountOf(vs, Screenshot) >= 6 then "taking 6 screenshots" else "switching tabs 6 times"
  }

  /** Copy, paste and fullscreen exits never move the count toward cancellation. */
  lemma UncountedKindsIgnored(vs: seq<Violation>, v: Violation)
    requires v.kind != Screenshot && v.kind != TabSwitch
    ensures OverThreshold(vs + [v]) == OverThreshold(vs)
    ensures CancelReason(vs + [v]) == CancelReason(vs)
  {
    assert (vs + [v])[..|vs + [v]| - 1] == vs;
  }

  /** The reason names screenshots whenever they reached six, even if tab switches did too. */
  lemma ReasonPrefersScreenshots(vs: seq<Violation>)
    requires OverThreshold(vs)
    ensures CancelReason(vs) == (if CountOf(vs, Screenshot) >= 6 then "taking 6 screenshots" else "switching tabs 6 times")
    ensures CountOf(vs, Screenshot) < 6 ==> CountOf(vs, TabSwitch) >= 6
  {
  }

  /** What the page shows: nothing without an exam, then the code form, the start
      screen, the running exam. */
  datatype Screen = NoPage | CodeForm | StartScreen | Running

  /** The input for ending the exam: the fullscreen state, the question fetch for
      scoring (None when it fails) and the outcome of each database call. */
  datatype EndIo = EndIo(fullscreenElement: bool, exitOk: bool, questions: Option<seq<ScoredQuestion>>,
                         lookupOk: bool, insertOk: bool, upsertOk: bool, updateOk: bool)

  /** The payload `handleEndExam` writes for the given answers. */
  function EndPayload(io: EndIo, answers: map<string, string>): Submission
  {
    if io.questions.None? then Submission(0.0, 0.0, answers, Some("completed"))
    else Submission(ExamScore(io.questions.value, answers), ExamTotal(io.questions.value), answers, Some("completed"))
  }

  /** The write branches of `handleEndExam` for one key. */
  function EndWrite(subs: map<Key, Submission>, k: Key, p: Submission, io: EndIo): map<Key, Submission>
  {
    if !io.lookupOk then subs
    else if k in subs then (if io.updateOk then subs[k := Merge(subs[k], p)] else subs)
    else if io.insertOk || io.upsertOk then subs[k := p]
    else subs
  }

  /** Look the key up; update the row found, or insert and fall back to an upsert; a
      failed lookup writes nothing. */
  method WriteSubmission(db: Backend, k: Key, p: Submission, io: EndIo)
    modifies db
    ensures db.submissions == EndWrite(old(db.submissions), k, p, io)
    ensures db.incidents == old(db.incidents) && db.retake == old(db.retake)
  {
    var existing := db.SubmissionLookup(k, io.lookupOk);
    if existing.NotFound? {
      var inserted := db.InsertSubmission(k, p, io.insertOk);
      if !inserted {
        var _ := db.UpsertSubmission(k, p, io.upsertOk);
      }
    } else if existing.Found? {
      db.UpdateSubmission(k, p, io.updateOk);
    }
  }

  /** A successful end-of-exam write leaves a completed row for the key, whatever was
      there before. */
  lemma EndWriteCompletes(subs: map<Key, Submission>, k: Key, p: Submission, io: EndIo)
    requires p.status == Some("completed") && io.lookupOk
    requires (k in subs ==> io.updateOk) && (k !in subs ==> io.insertOk || io.upsertOk)
    ensures var subs' := EndWrite(subs, k, p, io);
      k in subs' && subs'[k].status == Some("completed") && subs'[k].score == p.score
    ensures forall j :: j != k ==> (j in EndWrite(subs, k, p, io) <==> j in subs)
  {
  }

  /** A failed lookup writes nothing, whichever writes would have succeeded. */
  lemma EndWriteNeedsLookup(subs: map<Key, Submission>, k: Key, p: Submission, io: EndIo)
    requires !io.lookupOk
    ensures EndWrite(subs, k, p, io) == subs
  {
  }

  class ExamPage {
    /** The `id` route parameter ("" when missing). */
    const examId: string
    /** The exam carried in the navigation state. */
    const exam: Option<ExamInfo>
    /** The integrity monitor, active exactly while the exam runs. */
    const monitor: Monitor
    var codesEntered: bool
    var examStarted: bool
    var timeRemaining: int
    var isStarting: bool
    var recovered: bool
    /** `cancelledRef`: the session has been cancelled once. */
    var cancelled: bool
    var submittedServer: bool
    /** The `exam_<id>_state` local-storage entry. */
    var snapshot: Option<Snapshot>
    /** The last navigation requested, if any. */
    var route: Option<Route>

    ghost predicate Valid()
      reads this, monitor
    {
      monitor.Valid() && monitor.active == examStarted && monitor.examId == examId
    }

    function ScreenShown(): Screen
      reads this
    {
      if exam.None? then NoPage
      else if !codesEntered && !examStarted then CodeForm
      else if !examStarted then StartScreen
      else Running
    }

    /** The first render: the clock starts at the exam's duration (0 without an exam)
        and a saved snapshot decides whether the exam is already running. */
    constructor (examId: string, exam: Option<ExamInfo>, saved: Option<Snapshot>, fullscreenElement: bool)
      ensures Valid()
      ensures this.examId == examId && this.exam == exam
      ensures examStarted == (saved.Some? && saved.value.examStarted)
      ensures timeRemaining == (if exam.Some? then exam.value.duration * 60 else 0)
      ensures snapshot == saved && route == None
      ensures !codesEntered && !isStarting && !recovered && !cancelled && !submittedServer
      ensures fresh(monitor) && monitor.violations == []
    {
      this.examId := examId;
      this.exam := exam;
      var m := new Monitor(examId, fullscreenElement);
      var started := saved.Some? && saved.value.examStarted;
      if started {
        m.SetActive(true);
      }
      monitor := m;
      codesEntered := false;
      examStarted := started;
      timeRemaining := if exam.Some? then exam.value.duration * 60 else 0;
      isStarting := false;
      recovered := false;
      cancelled := false;
      submittedServer := false;
      snapshot := saved;
      route := None;
    }

    method SubmitCodes(entered: string) returns (r: GateResult)
      requires Valid()
      modifies this
      ensures Valid()
      ensures r == AccessGate(entered, ExpectedCode(exam))
      ensures codesEntered == (old(codesEntered) || r == Passed)
      ensures examStarted == old(examStarted) && timeRemaining == old(timeRemaining) && route == old(route)
      ensures snapshot == old(snapshot) && cancelled == old(cancelled) && isStarting == old(isStarting)
      ensures recovered == old(recovered) && submittedServer == old(submittedServer)
    {
      r := AccessGate(entered, ExpectedCode(exam));
      if r == Passed {
        codesEntered := true;
      }
    }

    /** The mount check against the database; lookup errors count as no row, and
        `pick` is the incident row the unordered lookup returns. */
    method MountCheck(db: Backend, storedId: string, retakeOk: bool, subOk: bool, incOk: bool, pick: nat)
      returns (r: Option<Route>)
      requires Valid()
      modifies this
      ensures Valid()
      ensures var k := Key(examId, Trim(storedId));
        r == MountDecision(Trim(storedId), examId, exam.Some?, db.RetakeEnabled(k, retakeOk),
                           db.SubmissionLookup(k, subOk), db.FirstIncident(k, incOk, pick))
      ensures route == (if r.Some? then r else old(route))
      ensures submittedServer == (old(submittedServer) || (r.Some? && r.value.Submitted?))
      ensures examStarted == old(examStarted) && timeRemaining == old(timeRemaining) && codesEntered == old(codesEntered)
      ensures snapshot == old(snapshot) && cancelled == old(cancelled) && isStarting == old(isStarting)
      ensures recovered == old(recovered)
    {
      var admissionId := Trim(storedId);
      var k := Key(examId, admissionId);
      r := MountDecision(admissionId, examId, exam.Some?, db.RetakeEnabled(k, retakeOk),
                         db.SubmissionLookup(k, subOk), db.FirstIncident(k, incOk, pick));
      if r.Some? {
        route := r;
        if r.value.Submitted? {
          submittedServer := true;
        }
      }
    }

    /** A click on Start: ignored unless the start screen shows and no start is pending. */
    method ClickStart() returns (proceed: bool)
      requires Valid()
      modifies this
      ensures Valid()
      ensures proceed == (old(ScreenShown()) == StartScreen && !old(isStarting))
      ensures isStarting == (old(isStarting) || proceed)
      ensures examStarted == old(examStarted) && timeRemaining == old(timeRemaining) && codesEntered == old(codesEntered)
      ensures snapshot == old(snapshot) && cancelled == old(cancelled) && route == old(route)
      ensures recovered == old(recovered) && submittedServer == old(submittedServer)
    {
      proceed := ScreenShown() == StartScreen && !isStarting;
      if proceed {
        isStarting := true;
      }
    }

    /** The rest of `handleStartExam` once its lookups return: redirect, abort, or enter
        fullscreen and start; the exam starts even if fullscreen is refused. */
    method CompleteStart(db: Backend, storedId: string, subOk: bool, incOk: bool, fullscreenElement: bool, requestOk: bool)
      returns (outcome: StartOutcome)
      requires Valid()
      modifies this, monitor
      ensures Valid()
      ensures var k := Key(examId, Trim(storedId));
        outcome == StartDecision(Trim(storedId), examId, db.SubmissionLookup(k, subOk), db.LatestIncident(k, incOk))
      ensures !isStarting
      ensures examStarted == (old(examStarted) || outcome == Begin)
      ensures route == match outcome
                       case AlreadySubmitted => Some(Submitted(examId))
                       case AlreadyCancelled(reason) => Some(Cancelled(examId, reason))
                       case _ => old(route)
      ensures outcome == Begin ==> monitor.active && monitor.listeners == AllListeners
      ensures monitor.violations == old(monitor.violations) && monitor.incidents == old(monitor.incidents)
      ensures timeRemaining == old(timeRemaining) && codesEntered == old(codesEntered) && snapshot == old(snapshot)
      ensures cancelled == old(cancelled) && recovered == old(recovered) && submittedServer == old(submittedServer)
    {
      var admissionId := Trim(storedId);
      var k := Key(examId, admissionId);
      outcome := StartDecision(admissionId, examId, db.SubmissionLookup(k, subOk), db.LatestIncident(k, incOk));
      isStarting := false;
      match outcome
      case AlreadySubmitted =>
        route := Some(Submitted(examId));
      case AlreadyCancelled(reason) =>
        route := Some(Cancelled(examId, reason));
      case Begin =>
        var _ := monitor.EnterFullscreen(fullscreenElement, requestOk);
        if !examStarted {
          examStarted := true;
          monitor.SetActive(true);
        }
      case _ =>
    }

    /** The threshold effect, run after each change of the violation log. `retakeOk`
        is the outcome of the retake lookup, `insertOk` that of the incident insert. */
    method EvaluateThreshold(db: Backend, storedId: string, retakeOk: bool, insertOk: bool)
      requires Valid()
      modifies this, db
      ensures Valid()
      ensures old(!examStarted || cancelled) ==>
        cancelled == old(cancelled) && route == old(route) && recovered == old(recovered) && db.incidents == old(db.incidents)
      ensures old(examStarted && !cancelled && recovered) ==>
        !recovered && !cancelled && route == old(route) && db.incidents == old(db.incidents)
      ensures old(examStarted && !cancelled && !recovered) ==>
        var vs := monitor.violations;
        var k := Key(examId, storedId);
        var fire := IsEnglish(exam) && OverThreshold(vs)
                    && !(storedId != "" && examId != "" && old(db.RetakeEnabled(k, retakeOk)));
        && recovered == old(recovered)
        && cancelled == fire
        && route == (if fire then Some(Cancelled(examId, CancelReason(vs))) else old(route))
        && db.incidents == (if fire && storedId != "" && insertOk
                            then old(db.incidents)[k := (if k in old(db.incidents) then old(db.incidents)[k] else []) + [CancelReason(vs)]]
                            else old(db.incidents))
      ensures db.submissions == old(db.submissions) && db.retake == old(db.retake)
      ensures examStarted == old(examStarted) && timeRemaining == old(timeRemaining) && codesEntered == old(codesEntered)
      ensures snapshot == old(snapshot) && isStarting == old(isStarting) && submittedServer == old(submittedServer)
    {
      if !examStarted || cancelled {
        return;
      }
      if recovered {
        recovered := false;
        return;
      }
      var vs := monitor.violations;
      if IsEnglish(exam) && OverThreshold(vs) {
        var k := Key(examId, storedId);
        var allowRetake := storedId != "" && examId != "" && db.RetakeEnabled(k, retakeOk);
        if !allowRetake {
          cancelled := true;
          var reason := CancelReason(vs);
          if storedId != "" {
            db.InsertIncident(k, reason, insertOk);
          }
          route := Some(Cancelled(examId, reason));
        }
      }
    }

    /** `handleEndExam`: clear the snapshot (when asked), leave fullscreen, then write
        the submission: update an existing row, insert when the lookup found none
        (upsert if that fails), write nothing when the lookup failed. */
    method EndExam(db: Backend, clearStorage: bool, storedId: string, answers: map<string, string>, io: EndIo)
      requires Valid()
      modifies this, monitor, db
      ensures Valid()
      ensures snapshot == (if clearStorage then None else old(snapshot))
      ensures route == (if clearStorage then Some(Submitted(examId)) else old(route))
      ensures db.submissions ==
        if Trim(storedId) == "" || examId == "" then old(db.submissions)
        else EndWrite(old(db.submissions), Key(examId, Trim(storedId)), EndPayload(io, answers), io)
      ensures db.incidents == old(db.incidents) && db.retake == old(db.retake)
      ensures monitor.violations == old(monitor.violations) && monitor.incidents == old(monitor.incidents)
      ensures examStarted == old(examStarted) && timeRemaining == old(timeRemaining) && codesEntered == old(codesEntered)
      ensures cancelled == old(cancelled) && isStarting == old(isStarting) && recovered == old(recovered)
      ensures submittedServer == old(submittedServer)
    {
      if clearStorage {
        snapshot := None;
      }
      var _ := monitor.ExitFullscreen(io.fullscreenElement, io.exitOk);
      var admissionId := Trim(storedId);
      if admissionId != "" && examId != "" {
        var score, total := CalculateScore(io.questions, answers);
        var payload := Submission(score, total, answers, Some("completed"));
        WriteSubmission(db, Key(examId, admissionId), payload, io);
      }
      if clearStorage {
        route := Some(Submitted(examId));
      }
    }

    /** One second of the countdown while the exam runs: at one second or less the exam
        ends and the clock shows 0, otherwise it goes down by one. */
    method Tick(db: Backend, storedId: string, io: EndIo) returns (ended: bool)
      requires Valid()
      modifies this, monitor, db
      ensures Valid()
      ensures !old(examStarted) ==> (!ended && timeRemaining == old(timeRemaining) && route == old(route)
                                     && db.submissions == old(db.submissions) && snapshot == old(snapshot))
      ensures old(examStarted) ==> ended == (old(timeRemaining) <= 1)
      ensures old(examStarted) ==> timeRemaining == (if ended then 0 else old(timeRemaining) - 1) && timeRemaining >= 0
      ensures ended ==> route == Some(Submitted(examId)) && snapshot == None
      ensures old(examStarted) && !ended ==> (route == old(route) && snapshot == old(snapshot)
                                             && db.submissions == old(db.submissions))
      ensures examStarted == old(examStarted) && codesEntered == old(codesEntered) && cancelled == old(cancelled)
      ensures ended ==> (db.submissions ==
        if Trim(storedId) == "" || examId == "" then old(db.submissions)
        else EndWrite(old(db.submissions), Key(examId, Trim(storedId)), EndPayload(io, map[]), io))
      ensures db.incidents == old(db.incidents) && db.retake == old(db.retake)
      ensures monitor.violations == old(monitor.violations)
      ensures isStarting == old(isStarting) && recovered == old(recovered) && submittedServer == old(submittedServer)
    {
      ended := false;
      if !examStarted {
        return;
      }
      if timeRemaining <= 1 {
        EndExam(db, true, storedId, map[], io);
        timeRemaining := 0;
        ended := true;
      } else {
        timeRemaining := timeRemaining - 1;
      }
    }

    /** The save effect: while the exam runs, the snapshot holds the current clock. */
    method PersistSnapshot()
      requires Valid()
      modifies this
      ensures Valid()
      ensures snapshot == (if examStarted then Some(Snapshot(true, timeRemaining)) else old(snapshot))
      ensures examStarted == old(examStarted) && timeRemaining == old(timeRemaining) && route == old(route)
      ensures cancelled == old(cancelled) && recovered == old(recovered) && codesEntered == old(codesEntered)
      ensures isStarting == old(isStarting) && submittedServer == old(submittedServer)
    {
      if examStarted {
        snapshot := Some(Snapshot(true, timeRemaining));
      }
    }

    /** The recovery effect: a saved running session restarts the exam at the saved
        clock and marks the next threshold evaluation to be skipped. */
    method Recover()
      requires Valid()
      modifies this, monitor
      ensures Valid()
      ensures old(snapshot.Some? && snapshot.value.examStarted) ==>
        examStarted && timeRemaining == old(snapshot.value.timeRemaining) && recovered
      ensures !old(snapshot.Some? && snapshot.value.examStarted) ==>
        examStarted == old(examStarted) && timeRemaining == old(timeRemaining) && recovered == old(recovered)
      ensures snapshot == old(snapshot) && route == old(route) && cancelled == old(cancelled)
      ensures monitor.violations == old(monitor.violations) && monitor.incidents == old(monitor.incidents)
      ensures codesEntered == old(codesEntered) && isStarting == old(isStarting) && submittedServer == old(submittedServer)
    {
      if snapshot.Some? && snapshot.value.examStarted {
        if !examStarted {
          monitor.SetActive(true);
        }
        examStarted := true;
        timeRemaining := snapshot.value.timeRemaining;
        recovered := true;
      }
    }
  }

  /** A reload in the middle of an exam: the saved clock comes back, and the first
      threshold evaluation after recovery cancels nothing even past six screenshots. */
  method ReloadScenario(db: Backend)
    modifies db
  {
    var page := new ExamPage("e1", Some(ExamInfo("English Exam", "code", 120)), Some(Snapshot(true, 300)), false);
    page.Recover();
    assert page.examStarted && page.timeRemaining == 300 && page.recovered;
    page.EvaluateThreshold(db, "7123456", true, true);
    assert !page.cancelled && !page.recovered;
    var ended := page.Tick(db, "7123456", EndIo(false, true, None, true, true, true, true));
    assert !ended && page.timeRemaining == 299;
  }
}
