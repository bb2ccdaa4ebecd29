/**
 * The result screen of the Vite version (`src/pages/ResultSummary.tsx`): the
 * rounded score, the pass decision, the message, and the two ways on.
 */
module ResultSummary {
  import opened JsMath

  /** `Math.round((correct / total) * 100)`; a total of 0 would give NaN, so one question at least. */
  function Score(correct: int, total: int): (score: int)
    requires total > 0
    ensures score * (2 * total) <= 200 * correct + total < (score + 1) * (2 * total)
    ensures 0 <= correct <= total ==> 0 <= score <= 100
  {
    RoundPercentBoundsIf(correct, total);
    RoundDiv(100 * correct, total)
  }

  /** `score >= passing` */
  predicate Passed(score: int, passing: int) {
    score >= passing
  }

  /** No correct answer scores 0, all of them 100, and more correct answers never score less. */
  lemma ScoreMonotone(c1: int, c2: int, total: int)
    requires total > 0 && 0 <= c1 <= c2 <= total
    ensures Score(c1, total) <= Score(c2, total)
    ensures Score(0, total) == 0 && Score(total, total) == 100
  {
    RoundPercentBounds(0, total);
    RoundPercentBounds(total, total);
    var r1 := Score(c1, total);
    var r2 := Score(c2, total);
    if r1 > r2 {
      MulMono(r2 + 1, r1, 2 * total);
      assert false;
    }
  }

  /** Whoever passes with some correct answers also passes with more. */
  lemma PassedMonotone(c1: int, c2: int, total: int, passing: int)
    requires total > 0 && 0 <= c1 <= c2 <= total
    ensures Passed(Score(c1, total), passing) ==> Passed(Score(c2, total), passing)
  {
    ScoreMonotone(c1, c2, total);
  }

  datatype Message = PassedMessage | FailedMessage

  datatype Action = StartReviewSession | ConfigureNewTest

  /** The message shown: the only part of the screen after the result line that depends on `passed`. */
  function MessageOf(passed: bool): (m: Message)
    ensures m == PassedMessage <==> passed
  {
    if passed then PassedMessage else FailedMessage
  }

  /** The buttons shown. */
  function ActionsOf(passed: bool): set<Action>
  {
    {StartReviewSession, ConfigureNewTest}
  }

  /** Review and a new configuration are offered whether the test was passed or not. */
  lemma ActionsRegardless(passed: bool)
    ensures ActionsOf(passed) == ActionsOf(!passed)
    ensures StartReviewSession in ActionsOf(passed) && ConfigureNewTest in ActionsOf(passed)
  {
  }
}
