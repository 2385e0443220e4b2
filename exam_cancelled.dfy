/** The page shown after an exam is cancelled: which message it shows for the reason
    it was sent, and the countdown to a reload. */
module ExamCancelled {
  import opened Base
  import opened Text

  const DefaultReason := "cheating detected"
  const PriorText := "Sorry — this exam cannot be accessed due to prior cheating/dismissal."
  const CancelledPrefix := "Sorry — your exam has been cancelled due to "

  /** `state?.reason ?? 'cheating detected'`: only a missing reason is replaced, an
      empty one is kept. */
  function Reason(stateReason: Option<string>): string
  {
    if stateReason.Some? then stateReason.value else DefaultReason
  }

  /** The reason points at an earlier cheating or dismissal record. */
  predicate PriorDismissal(reason: string)
  {
    reason != ""
    && (reason == "previous dismissal" || Contains(Lower(reason), "cheat") || Contains(Lower(reason), "dismiss"))
  }

  function MessageFor(reason: string): string
  {
    if PriorDismissal(reason) then PriorText else CancelledPrefix + reason + "."
  }

  /** Any other reason is quoted verbatim between the fixed prefix and a full stop. */
  lemma ReasonEmbedded(reason: string)
    requires !PriorDismissal(reason)
    ensures var m := MessageFor(reason);
      |m| == |CancelledPrefix| + |reason| + 1
      && m[|CancelledPrefix|..|CancelledPrefix| + |reason|] == reason
  {
  }

  /** A reason without capitals that holds a keyword is a prior-dismissal reason. */
  lemma KeywordMakesPrior(reason: string, keyword: string, i: nat)
    requires keyword == "cheat" || keyword == "dismiss"
    requires i + |keyword| <= |reason| && reason[i..i + |keyword|] == keyword
    requires forall k :: 0 <= k < |reason| ==> !('A' <= reason[k] <= 'Z')
    ensures Contains(Lower(reason), keyword) && PriorDismissal(reason)
  {
    LowerOfLowercase(reason);
    assert SliceAt(Lower(reason), keyword, i);
    assert Contains(Lower(reason), keyword);
  }

  /** The exact comparison with "previous dismissal" is covered by the "dismiss" test. */
  lemma PreviousDismissalByKeyword(reason: string)
    requires reason == "previous dismissal"
    ensures Contains(Lower(reason), "dismiss")
  {
    KeywordMakesPrior(reason, "dismiss", 9);
  }

  /** Without a reason the page shows the prior-dismissal text. */
  lemma DefaultReasonIsPrior(stateReason: Option<string>)
    requires stateReason.None?
    ensures MessageFor(Reason(stateReason)) == PriorText
  {
    KeywordMakesPrior(Reason(stateReason), "cheat", 0);
  }

  /** An empty reason is shown as a cancellation with nothing after "due to". */
  lemma EmptyReasonNotPrior(stateReason: Option<string>)
    requires stateReason == Some("")
    ensures MessageFor(Reason(stateReason)) == CancelledPrefix + "."
  {
  }

  /** The reload countdown. */
  class Countdown {
    var secondsLeft: int
    var reloaded: bool

    constructor ()
      ensures secondsLeft == 10 && !reloaded
    {
      secondsLeft := 10;
      reloaded := false;
    }

    /** One run of the effect: at zero or below it reloads the page; otherwise a
        second later it counts down by one. */
    method Step()
      requires !reloaded
      modifies this
      ensures old(secondsLeft) <= 0 ==> reloaded && secondsLeft == old(secondsLeft)
      ensures old(secondsLeft) > 0 ==> !reloaded && secondsLeft == old(secondsLeft) - 1
    {
      if secondsLeft <= 0 {
        reloaded := true;
      } else {
        secondsLeft := secondsLeft - 1;
      }
    }

    /** From the start, ten one-second steps bring the count to zero and the next run
        of the effect reloads. */
    method RunToReload() returns (seconds: nat)
      requires secondsLeft == 10 && !reloaded
      modifies this
      ensures seconds == 10 && reloaded && secondsLeft == 0
    {
      seconds := 0;
      while !reloaded
        invariant 0 <= seconds <= 10
        invariant secondsLeft == 10 - seconds
        invariant reloaded ==> seconds == 10
        decreases 11 - seconds + (if reloaded then 0 else 1)
      {
        var before := secondsLeft;
        Step();
        if before > 0 {
          seconds := seconds + 1;
        }
      }
    }
  }
}
