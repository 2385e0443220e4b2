/** The question player: answers keyed by question id, a set of flagged indices,
    index navigation, the scoring of `performSubmit` and its save chain with the
    local queue of pending submissions. */
module QuizPlayer {
  import opened Base
  import opened Text
  import opened Store

  /** A question row: `options` is None when the row has no options array; the
      correct answer is kept in its string form. */
  datatype Question = Question(id: string, options: Option<seq<string>>, correct: Option<string>, value: Option<real>)

  /** `String(value).trim().toLowerCase()`. */
  function Normalize(s: string): string
  {
    Lower(Trim(s))
  }

  /** `findIndex` by id: the first question with that id, -1 when there is none. */
  function FindIndex(qs: seq<Question>, id: string): (r: int)
    ensures -1 <= r < |qs|
    ensures r == -1 <==> forall k :: 0 <= k < |qs| ==> qs[k].id != id
    ensures r >= 0 ==> qs[r].id == id && forall k :: 0 <= k < r ==> qs[k].id != id
  {
    if qs == [] then -1
    else if qs[0].id == id then 0
    else
      var r := FindIndex(qs[1..], id);
      if r == -1 then -1 else r + 1
  }

  /** The option an answer picks by number: `Number(given)` within the options. */
  function OptionIndex(given: string, count: nat): Option<nat>
  {
    var n := NumberOf(given);
    if n.Some? && n.value < count then n else None
  }

  /** Whether a given answer matches a question that has a correct answer. */
  predicate Matches(q: Question, given: string)
    requires q.correct.Some?
  {
    var expected := Normalize(q.correct.value);
    var g := Normalize(given);
    if q.options.Some? && |q.options.value| > 0 then
      var opts := q.options.value;
      match OptionIndex(given, |opts|)
      case Some(i) => Normalize(opts[i]) == expected
      case None => (exists o | o in opts :: Normalize(o) == g) && g == expected
    else g == expected
  }

  /** What question `idx` adds to the score: nothing when flagged or unanswered. */
  function Points(q: Question, idx: nat, flagged: set<nat>, answers: map<string, string>): real
  {
    if idx in flagged then 0.0
    else if q.correct.Some? && q.id in answers && Matches(q, answers[q.id]) then Weight(q.value)
    else 0.0
  }

  /** The `reduce` over every question, flagged ones included. */
  function QuizTotal(qs: seq<Question>): real
  {
    if qs == [] then 0.0 else QuizTotal(qs[..|qs| - 1]) + Weight(qs[|qs| - 1].value)
  }

  function QuizScore(qs: seq<Question>, flagged: set<nat>, answers: map<string, string>): real
  {
    if qs == [] then 0.0
    else QuizScore(qs[..|qs| - 1], flagged, answers) + Points(qs[|qs| - 1], |qs| - 1, flagged, answers)
  }

  predicate NonNegativeValues(qs: seq<Question>)
  {
    forall k :: 0 <= k < |qs| ==> qs[k].value.None? || qs[k].value.value >= 0.0
  }

  /** With non-negative values the score stays between 0 and the total. */
  lemma {:induction false} ScoreAtMostTotal(qs: seq<Question>, flagged: set<nat>, answers: map<string, string>)
    requires NonNegativeValues(qs)
    ensures 0.0 <= QuizScore(qs, flagged, answers) <= QuizTotal(qs)
  {
    if qs != [] {
      ScoreAtMostTotal(qs[..|qs| - 1], flagged, answers);
    }
  }

  /** Flagging more questions never raises the score. */
  lemma {:induction false} FlaggingNeverRaises(qs: seq<Question>, flagged: set<nat>, more: set<nat>, answers: map<string, string>)
    requires NonNegativeValues(qs)
    requires flagged <= more
    ensures QuizScore(qs, more, answers) <= QuizScore(qs, flagged, answers)
  {
    if qs != [] {
      FlaggingNeverRaises(qs[..|qs| - 1], flagged, more, answers);
    }
  }

  /** With every question flagged the score is 0, whatever the answers. */
  lemma {:induction false} AllFlaggedScoresZero(qs: seq<Question>, flagged: set<nat>, answers: map<string, string>)
    requires forall k :: 0 <= k < |qs| ==> k in flagged
    ensures QuizScore(qs, flagged, answers) == 0.0
  {
    if qs != [] {
      AllFlaggedScoresZero(qs[..|qs| - 1], flagged, answers);
    }
  }

  /** Clicking option `i` stores `String(i)`: it scores exactly when that option's text
      agrees with the correct answer up to case and padding. */
  lemma ClickedOptionMatches(q: Question, i: nat)
    requires q.correct.Some? && q.options.Some? && i < |q.options.value|
    ensures Matches(q, NatToString(i)) <==> Normalize(q.options.value[i]) == Normalize(q.correct.value)
  {
    NumberOfNumeral(i);
  }

  /** `Number` reads a blank answer as 0, so on an option question it picks the first option. */
  lemma BlankAnswerPicksFirstOption(q: Question, given: string)
    requires q.correct.Some? && q.options.Some? && |q.options.value| > 0
    requires Trim(given) == ""
    ensures Matches(q, given) <==> Normalize(q.options.value[0]) == Normalize(q.correct.value)
  {
  }

  /** An answer that is not an option number scores only when it is one of the options. */
  lemma TextAnswerMustBeAnOption(q: Question, given: string)
    requires q.correct.Some? && q.options.Some? && |q.options.value| > 0
    requires NumberOf(given).None?
    requires Matches(q, given)
    ensures exists k :: 0 <= k < |q.options.value| && Normalize(q.options.value[k]) == Normalize(q.correct.value)
  {
    var o :| o in q.options.value && Normalize(o) == Normalize(given);
    var k :| 0 <= k < |q.options.value| && q.options.value[k] == o;
  }

  /** Flipping the membership of one index. */
  function Toggle(s: set<nat>, i: nat): set<nat>
  {
    if i in s then s - {i} else s + {i}
  }

  /** The flag button flips the current index only, and a second press restores the set. */
  lemma ToggleFlipsOne(s: set<nat>, i: nat)
    ensures i in Toggle(s, i) <==> i !in s
    ensures forall j :: j != i ==> (j in Toggle(s, i) <==> j in s)
    ensures Toggle(Toggle(s, i), i) == s
  {
  }

  /** The outcome of an insert call: accepted by the oracle, answered with an error,
      or thrown. */
  datatype InsertCall = InsertCall(ok: bool, throws: bool)

  /** The state a save leaves: the table, whether the submission was recorded and
      whether the payload was queued locally. */
  datatype SaveResult = SaveResult(subs: map<Key, Submission>, saved: bool, queued: bool)

  /** The insert path of the save chain: the first insert, then on an error answer a
      retry and the local queue; a thrown insert is queued without a retry. The
      retry sends the answers as a JSON string; the table here stores the same
      payload `p`, so that change of representation is not modelled. */
  function InsertPath(subs: map<Key, Submission>, k: Key, p: Submission, insert: InsertCall, retryOk: bool): SaveResult
  {
    if insert.throws then SaveResult(subs, false, true)
    else if insert.ok && k !in subs then SaveResult(subs[k := p], true, false)
    else if retryOk && k !in subs then SaveResult(subs[k := p], true, true)
    else SaveResult(subs, false, true)
  }

  /** The save chain of `performSubmit`: an upsert, then the insert path. */
  function SaveChain(subs: map<Key, Submission>, k: Key, p: Submission, upsertOk: bool, insert: InsertCall, retryOk: bool): SaveResult
  {
    if upsertOk then
      SaveResult(if k in subs then subs[k := Merge(subs[k], p)] else subs[k := p], true, false)
    else InsertPath(subs, k, p, insert, retryOk)
  }

  /** A successful upsert attempts no insert and queues nothing. */
  lemma UpsertSkipsInsert(subs: map<Key, Submission>, k: Key, p: Submission, insert: InsertCall, retryOk: bool)
    ensures var r := SaveChain(subs, k, p, true, insert, retryOk);
      r.saved && !r.queued && k in r.subs && r.subs[k].score == p.score && r.subs[k].answers == p.answers
      && forall j :: j != k ==> (j in r.subs <==> j in subs)
  {
  }

  /** Once the first insert is refused, the payload is queued even when the retry
      records it. */
  lemma QueuedEvenWhenRetrySucceeds(subs: map<Key, Submission>, k: Key, p: Submission, retryOk: bool)
    requires k !in subs && retryOk
    ensures var r := SaveChain(subs, k, p, false, InsertCall(false, false), retryOk);
      r.saved && r.queued && r.subs == subs[k := p]
  {
  }

  /** A submission is recorded or queued, never lost; an unrecorded one leaves the
      table as it was, and a recorded one carries the payload's score. */
  lemma SavedOrQueued(subs: map<Key, Submission>, k: Key, p: Submission, upsertOk: bool, insert: InsertCall, retryOk: bool)
    ensures var r := SaveChain(subs, k, p, upsertOk, insert, retryOk);
      && (r.saved || r.queued)
      && (!r.saved ==> r.subs == subs)
      && (r.saved ==> k in r.subs && r.subs[k].score == p.score && r.subs[k].total == p.total)
  {
  }

  class Player {
    const examId: string
    const questions: seq<Question>
    var answers: map<string, string>
    var currentIndex: nat
    var flagged: set<nat>
    var answeredIdxs: set<nat>
    /** `pending_exam_submissions` in local storage. */
    var pending: seq<Submission>

    ghost predicate Valid()
      reads this
    {
      && (|questions| > 0 ==> currentIndex < |questions|)
      && (forall i | i in answeredIdxs :: i < |questions|)
      && (forall i | i in flagged :: i < |questions|)
    }

    constructor (examId: string, questions: seq<Question>)
      ensures Valid()
      ensures this.examId == examId && this.questions == questions
      ensures answers == map[] && currentIndex == 0 && flagged == {} && answeredIdxs == {} && pending == []
    {
      this.examId := examId;
      this.questions := questions;
      answers := map[];
      currentIndex := 0;
      flagged := {};
      answeredIdxs := {};
      pending := [];
    }

    /** `handleSelect`: overwrite the answer of one question and mark its index as
        answered; the answered set only grows, even when the new answer is blank. */
    method HandleSelect(qId: string, value: string)
      requires Valid()
      modifies this
      ensures Valid()
      ensures answers == old(answers)[qId := value]
      ensures var idx := FindIndex(questions, qId);
        answeredIdxs == old(answeredIdxs) + (if idx >= 0 then {idx as nat} else {})
      ensures old(answeredIdxs) <= answeredIdxs
      ensures currentIndex == old(currentIndex) && flagged == old(flagged) && pending == old(pending)
    {
      answers := answers[qId := value];
      var idx := FindIndex(questions, qId);
      if idx >= 0 {
        answeredIdxs := answeredIdxs + {idx as nat};
      }
    }

    /** The flag button on the current question. */
    method ToggleFlag()
      requires Valid() && |questions| > 0
      modifies this
      ensures Valid()
      ensures flagged == Toggle(old(flagged), currentIndex)
      ensures answers == old(answers) && currentIndex == old(currentIndex)
      ensures answeredIdxs == old(answeredIdxs) && pending == old(pending)
    {
      if currentIndex in flagged {
        flagged := flagged - {currentIndex};
      } else {
        flagged := flagged + {currentIndex};
      }
    }

    /** Previous: `Math.max(0, currentIndex - 1)`. */
    method Prev()
      requires Valid()
      modifies this
      ensures Valid()
      ensures currentIndex == if old(currentIndex) == 0 then 0 else old(currentIndex) - 1
      ensures answers == old(answers) && flagged == old(flagged)
      ensures answeredIdxs == old(answeredIdxs) && pending == old(pending)
    {
      if currentIndex > 0 {
        currentIndex := currentIndex - 1;
      }
    }

    /** Next: `Math.min(questions.length - 1, currentIndex + 1)`; the button is only shown
        while there are questions. */
    method Next()
      requires Valid() && |questions| > 0
      modifies this
      ensures Valid()
      ensures currentIndex == if old(currentIndex) + 1 < |questions| then old(currentIndex) + 1 else |questions| - 1
      ensures currentIndex < |questions|
      ensures answers == old(answers) && flagged == old(flagged)
      ensures answeredIdxs == old(answeredIdxs) && pending == old(pending)
    {
      if currentIndex + 1 < |questions| {
        currentIndex := currentIndex + 1;
      } else {
        currentIndex := |questions| - 1;
      }
    }

    /** A button of the question grid. */
    method JumpTo(idx: nat)
      requires Valid() && idx < |questions|
      modifies this
      ensures Valid()
      ensures currentIndex == idx
      ensures answers == old(answers) && flagged == old(flagged)
      ensures answeredIdxs == old(answeredIdxs) && pending == old(pending)
    {
      currentIndex := idx;
    }

    /** The review dialog counts an answer as given only when it is not blank. */
    predicate ReviewAnswered(q: Question)
      reads this
    {
      q.id in answers && Trim(answers[q.id]) != ""
    }

    /** The `forEach` that adds up the earned points. */
    method ScoreAnswers() returns (score: real)
      ensures score == QuizScore(questions, flagged, answers)
    {
      score := 0.0;
      var i := 0;
      while i < |questions|
        invariant 0 <= i <= |questions|
        invariant score == QuizScore(questions[..i], flagged, answers)
      {
        assert questions[..i + 1][..i] == questions[..i];
        score := score + Points(questions[i], i, flagged, answers);
        i := i + 1;
      }
      assert questions[..|questions|] == questions;
    }

    /** `performSubmit`: without a stored admission id nothing happens. Otherwise the
        payload is saved through the chain, queued locally when the chain says so
        (unless local storage cannot be read), and the player always goes on to the
        submitted page. */
    method PerformSubmit(db: Backend, storedId: string, upsertOk: bool, insert: InsertCall, retryOk: bool, storageOk: bool)
      returns (route: Option<Route>, saved: bool)
      requires Valid()
      modifies this, db
      ensures Valid()
      ensures Trim(storedId) == "" ==>
        route == None && !saved && db.submissions == old(db.submissions) && pending == old(pending)
      ensures Trim(storedId) != "" ==>
        var p := Submission(QuizScore(questions, flagged, answers), QuizTotal(questions), answers, None);
        var r := SaveChain(old(db.submissions), Key(examId, Trim(storedId)), p, upsertOk, insert, retryOk);
        && route == Some(Submitted(examId))
        && saved == r.saved
        && db.submissions == r.subs
        && pending == old(pending) + (if r.queued && storageOk then [p] else [])
      ensures db.incidents == old(db.incidents) && db.retake == old(db.retake)
      ensures answers == old(answers) && flagged == old(flagged) && currentIndex == old(currentIndex)
      ensures answeredIdxs == old(answeredIdxs)
    {
      var admissionId := Trim(storedId);
      if admissionId == "" {
        return None, false;
      }
      var score := ScoreAnswers();
      var p := Submission(score, QuizTotal(questions), answers, None);
      var k := Key(examId, admissionId);
      saved := db.UpsertSubmission(k, p, upsertOk);
      if !saved {
        var queue := true;
        if !insert.throws {
          saved := db.InsertSubmission(k, p, insert.ok);
          if saved {
            queue := false;
          } else {
            saved := db.InsertSubmission(k, p, retryOk);
          }
        }
        if queue && storageOk {
          pending := pending + [p];
        }
      }
      route := Some(Submitted(examId));
    }
  }

  /** A blank answer marks the question answered in the grid but not in the review. */
  method BlankAnswerScenario()
  {
    var q := Question("q1", None, Some("paris"), None);
    var pl := new Player("elyonaris", [q]);
    pl.HandleSelect("q1", " ");
    assert 0 in pl.answeredIdxs;
    assert Trim(" ") == "";
    assert !pl.ReviewAnswered(q);
  }
}
