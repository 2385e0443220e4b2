/** The verbal-reasoning practice quiz: one question at a time, Next scores the
    selection, and the last question shows the result. */
module VerbalReasoning {
  datatype Question = Question(text: string, options: seq<string>, correct: string)

  /** The number of the first `|picks|` questions answered with their correct option. */
  function Correct(qs: seq<Question>, picks: seq<string>): (r: nat)
    requires |picks| <= |qs|
    ensures r <= |picks|
  {
    if picks == [] then 0
    else Correct(qs, picks[..|picks| - 1]) + (if picks[|picks| - 1] == qs[|picks| - 1].correct then 1 else 0)
  }

  /** The final score never exceeds the number of questions, and it reaches that
      number exactly when every pick was correct. */
  lemma {:induction false} CorrectAll(qs: seq<Question>, picks: seq<string>)
    requires |picks| <= |qs|
    ensures Correct(qs, picks) == |picks| <==> forall k :: 0 <= k < |picks| ==> picks[k] == qs[k].correct
  {
    if picks != [] {
      var init := picks[..|picks| - 1];
      CorrectAll(qs, init);
      assert forall k :: 0 <= k < |init| ==> init[k] == picks[k];
    }
  }

  class Quiz {
    const questions: seq<Question>
    var index: nat
    var selected: string
    var score: nat
    var showResult: bool
    /** The selections Next has scored, in order. */
    ghost var picks: seq<string>

    ghost predicate Valid()
      reads this
    {
      && |questions| > 0
      && index < |questions|
      && |picks| == index + (if showResult then 1 else 0)
      && score == Correct(questions, picks)
      && (showResult ==> index == |questions| - 1)
    }

    /** The bundled question list is not empty: the first card reads question 0. */
    constructor (qs: seq<Question>)
      requires |qs| > 0
      ensures Valid() && questions == qs
      ensures index == 0 && selected == "" && score == 0 && !showResult && picks == []
    {
      questions := qs;
      index := 0;
      selected := "";
      score := 0;
      showResult := false;
      picks := [];
    }

    /** Clicking an option of the current card. */
    method Select(option: string)
      requires Valid()
      modifies this
      ensures Valid()
      ensures index == old(index) && score == old(score) && showResult == old(showResult) && picks == old(picks)
      ensures selected == if old(showResult) then old(selected) else option
    {
      if !showResult {
        selected := option;
      }
    }

    /** The Next / Finish button, disabled while nothing is selected. */
    method Next()
      requires Valid()
      modifies this
      ensures Valid()
      ensures old(selected) == "" || old(showResult) ==>
        index == old(index) && selected == old(selected) && score == old(score)
        && showResult == old(showResult) && picks == old(picks)
      ensures old(selected) != "" && !old(showResult) ==>
        picks == old(picks) + [old(selected)]
        && score == old(score) + (if old(selected) == questions[old(index)].correct then 1 else 0)
        && (old(index) < |questions| - 1 ==> index == old(index) + 1 && selected == "" && !showResult)
        && (old(index) == |questions| - 1 ==> index == old(index) && showResult)
    {
      if selected == "" || showResult {
        return;
      }
      assert (picks + [selected])[..|picks|] == picks;
      if selected == questions[index].correct {
        score := score + 1;
      }
      picks := picks + [selected];
      if index < |questions| - 1 {
        index := index + 1;
        selected := "";
      } else {
        showResult := true;
      }
    }
  }

  /** The score shown at the end is at most the number of questions. */
  lemma ScoreBound(q: Quiz)
    requires q.Valid()
    ensures q.score <= |q.questions|
  {
  }
}
