/**
 * The weekly trivia modal (src/components/Challenges/TriviaModal.tsx): the
 * answer the user picked, the submit handler that judges it, and the points
 * it reports to the challenge engine (150 for a right answer, 0 for a wrong
 * one, nothing without a selection).
 */
module TriviaModal {
  import opened Wrappers
  import opened ChallengeData
  import ProgressSpec

  /** The points a correct answer earns; the same value as the trivia challenge's catalog entry. */
  const CorrectAnswerPoints: int := 150

  /** The points `handleSubmit` hands to `onComplete`, or None when no answer is selected. */
  function SubmitAward(selected: Option<int>, q: TriviaQuestion): (r: Option<int>)
    ensures r.None? <==> selected.None?
    ensures r == Some(CorrectAnswerPoints) <==> selected.Some? && selected.value == q.correctAnswer
    ensures r == Some(0) <==> selected.Some? && selected.value != q.correctAnswer
  {
    match selected
    case None => None
    case Some(answer) => Some(if answer == q.correctAnswer then CorrectAnswerPoints else 0)
  }

  /** The modal's state: the selected option, whether the result is shown, and whether it was right. */
  class TriviaModalState {
    var selectedAnswer: Option<int>
    var showResult: bool
    var isCorrect: bool

    /** A freshly opened modal: nothing selected, no result. */
    constructor ()
      ensures selectedAnswer == None && !showResult && !isCorrect
    {
      selectedAnswer := None;
      showResult := false;
      isCorrect := false;
    }

    /** Clicking the option at `index` of the current question selects it. */
    method SelectAnswer(index: int)
      modifies this
      ensures selectedAnswer == Some(index)
      ensures showResult == old(showResult) && isCorrect == old(isCorrect)
    {
      selectedAnswer := Some(index);
    }

    /**
     * `handleSubmit`, judged against the question the modal displays.
     * That question is chosen when the modal renders, so `now` is the time
     * of the render that showed it, not the time of the click. Without a
     * selection nothing changes and nothing is reported; otherwise the
     * result is shown, `isCorrect` records the verdict and the reported
     * points are 150 or 0.
     */
    method HandleSubmit(now: nat) returns (reported: Option<int>)
      modifies this
      ensures reported == SubmitAward(old(selectedAnswer), CurrentTriviaQuestion(now))
      ensures selectedAnswer == old(selectedAnswer)
      ensures old(selectedAnswer).None? ==> showResult == old(showResult) && isCorrect == old(isCorrect)
      ensures old(selectedAnswer).Some? ==>
        showResult && (isCorrect <==> old(selectedAnswer).value == CurrentTriviaQuestion(now).correctAnswer)
    {
      if selectedAnswer.None? {
        return None;
      }
      var question := CurrentTriviaQuestion(now);
      var correct := selectedAnswer.value == question.correctAnswer;
      isCorrect := correct;
      showResult := true;
      if correct {
        reported := Some(CorrectAnswerPoints);
      } else {
        reported := Some(0);
      }
    }
  }

  /**
   * Reporting a submission to the engine: a right answer adds 150 points and
   * a wrong one adds none, but either completes the trivia challenge for the
   * cycle and stamps the time, when it was available. The points popup is
   * raised for a right answer only.
   */
  lemma SubmissionCompletesTrivia(p: ProgressSpec.UserProgress, q: TriviaQuestion, answer: int, now: int)
    requires ProgressSpec.IsAvailable(p, TriviaId)
    ensures var points := SubmitAward(Some(answer), q).value;
      var r := ProgressSpec.CompleteChallenge(p, TriviaId, points, now);
      && r.totalPoints == p.totalPoints + (if answer == q.correctAnswer then 150 else 0)
      && r.challenges[TriviaId].status == Completed
      && r.lastTriviaCompleted == Some(now)
      && (ProgressSpec.PointsSignalled(points) <==> answer == q.correctAnswer)
  {
    ProgressSpec.CompleteChallengeEffect(p, TriviaId, SubmitAward(Some(answer), q).value, now);
  }

  /**
   * Once the trivia challenge is completed, a further submission in the same
   * cycle, right or wrong, changes nothing: only the weekly reset makes the
   * 150 points earnable again.
   */
  lemma ResubmissionEarnsNothing(p: ProgressSpec.UserProgress, q: TriviaQuestion, answer: int, now: int)
    requires TriviaId in p.challenges && p.challenges[TriviaId].status == Completed
    ensures ProgressSpec.CompleteChallenge(p, TriviaId, SubmitAward(Some(answer), q).value, now) == p
  {
  }
}
