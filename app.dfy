/**
 * The root component of the Vite version (`src/App.tsx`): the screen flow
 * login → configure → test → summary → (review | configure), the list of
 * missed questions built when the test ends, and the totals shown on the
 * summary.
 */
module App {
  import opened Text
  import opened PagesConfigure
  import PagesTest
  import PagesReview
  import ResultSummary

  datatype Screen = Login | Configure | Test | Summary | Review

  /** The settings before any test: ten minutes, ten questions, seventy percent. */
  const DefaultSettings := Config(10, 10, 70)

  // ---------------------------------------------------------------------
  // Ending the test
  // ---------------------------------------------------------------------

  /** `!userAns || userAns !== q.answer`: no answer, the answer 0, or a wrong one. */
  predicate CountsAsIncorrect(answers: map<nat, int>, i: nat, q: MCQ) {
    i !in answers || answers[i] == 0 || answers[i] != q.answer
  }

  /** `userAns ?? -1` */
  function UserAnswerOf(answers: map<nat, int>, i: nat): int
  {
    if i in answers then answers[i] else -1
  }

  /** The first `k` questions that count as incorrect, in question order, each with the answer given. */
  function IncorrectList(questions: seq<MCQ>, answers: map<nat, int>, k: nat): seq<PagesReview.Missed>
    requires k <= |questions|
    decreases k
  {
    if k == 0 then []
    else
      var i := k - 1;
      IncorrectList(questions, answers, i)
        + (if CountsAsIncorrect(answers, i, questions[i]) then [PagesReview.Missed(questions[i], UserAnswerOf(answers, i))] else [])
  }

  /**
   * The list holds exactly the questions without a right answer, each with the
   * answer given; an unanswered question is in it with `-1`, and so is a question answered 0.
   */
  lemma {:induction false} IncorrectListMembers(questions: seq<MCQ>, answers: map<nat, int>, k: nat, m: PagesReview.Missed)
    requires k <= |questions|
    ensures m in IncorrectList(questions, answers, k) <==>
            exists i :: 0 <= i < k && CountsAsIncorrect(answers, i, questions[i])
                        && m == PagesReview.Missed(questions[i], UserAnswerOf(answers, i))
    decreases k
  {
    if k > 0 {
      IncorrectListMembers(questions, answers, k - 1, m);
    }
  }

  /** At most one entry per question: the list is never longer than the questions scanned. */
  lemma {:induction false} IncorrectListBound(questions: seq<MCQ>, answers: map<nat, int>, k: nat)
    requires k <= |questions|
    ensures |IncorrectList(questions, answers, k)| <= k
    decreases k
  {
    if k > 0 {
      IncorrectListBound(questions, answers, k - 1);
    }
  }

  /** Unanswered questions count as incorrect, shown with the answer `-1`. */
  lemma UnansweredIsIncorrect(questions: seq<MCQ>, answers: map<nat, int>, i: nat)
    requires i < |questions| && i !in answers
    ensures PagesReview.Missed(questions[i], -1) in IncorrectList(questions, answers, |questions|)
  {
    IncorrectListMembers(questions, answers, |questions|, PagesReview.Missed(questions[i], -1));
  }

  /**
   * With the parser's non-zero answers, the questions not in the list are
   * exactly those the test page counted as right: the summary's correct
   * total is the test page's score.
   */
  lemma {:induction false} CorrectIsTestScore(questions: seq<MCQ>, answers: map<nat, int>, k: nat)
    requires k <= |questions|
    requires forall i :: 0 <= i < |questions| ==> questions[i].answer != 0
    ensures k - |IncorrectList(questions, answers, k)| == PagesTest.Matches(questions, answers, k)
    decreases k
  {
    if k > 0 {
      CorrectIsTestScore(questions, answers, k - 1);
      IncorrectListBound(questions, answers, k - 1);
    }
  }

  // ---------------------------------------------------------------------
  // The screen flow
  // ---------------------------------------------------------------------

  /** What the user or a child screen can do on each screen. */
  datatype Event = LoginSubmit | StartTestEvent | FinishTest | StartReview | Retry

  /** The handlers each screen passes on (the dispatch at the end of the component). */
  function Offered(s: Screen): set<Event>
  {
    match s
    case Login => {LoginSubmit}
    case Configure => {StartTestEvent}
    case Test => {FinishTest}
    case Summary => {StartReview, Retry}
    case Review => {Retry}
  }

  /**
   * The screen after an event; `filled` says both login fields are filled,
   * `anyMissed` that the list of missed questions is not empty. Review with
   * nothing missed goes back to the configuration.
   */
  function After(s: Screen, e: Event, filled: bool, anyMissed: bool): Option<Screen>
  {
    if e !in Offered(s) then None
    else
      match e
      case LoginSubmit => Some(if filled then Configure else Login)
      case StartTestEvent => Some(Test)
      case FinishTest => Some(Summary)
      case StartReview => Some(if anyMissed then Review else Configure)
      case Retry => Some(Configure)
  }

  /** `onReview` as written: the review screen whatever the list holds. */
  function AfterAsWritten(s: Screen, e: Event, filled: bool): Option<Screen>
  {
    if e == StartReview && e in Offered(s) then Some(Review) else After(s, e, filled, true)
  }

  /**
   * Login leads to the configuration, the configuration to the test, the test
   * to the summary, and the summary to review or back to the configuration;
   * review ends in the configuration, and only with missed questions is it reached.
   */
  lemma ScreenFlow(s: Screen, e: Event, filled: bool, anyMissed: bool)
    ensures var t := After(s, e, filled, anyMissed);
            t.Some? ==>
              (s == Login ==> t.value in {Login, Configure})
              && (s == Configure ==> t.value == Test)
              && (s == Test ==> t.value == Summary)
              && (s == Summary ==> t.value in {Review, Configure})
              && (s == Review ==> t.value == Configure)
    ensures After(s, e, filled, anyMissed) == Some(Review) ==> s == Summary && anyMissed
    ensures After(s, e, filled, anyMissed) == Some(Test) ==> s == Configure
    ensures After(s, e, filled, anyMissed) == Some(Summary) ==> s == Test
    ensures After(s, e, filled, anyMissed).Some? <==> e in Offered(s)
  {
  }

  /** As written, review with nothing missed opens a review screen that has no first question to show. */
  lemma ReviewWithNothingMissedAsWritten()
    ensures AfterAsWritten(Summary, StartReview, true) == Some(Review)
    ensures !PagesReview.Inv(0, PagesReview.Initial)
    ensures After(Summary, StartReview, true, false) == Some(Configure)
  {
  }

  // ---------------------------------------------------------------------
  // The component
  // ---------------------------------------------------------------------

  class AppState {
    var screen: Screen
    var rollNumber: string
    var name: string
    var questions: seq<MCQ>
    var settings: Config
    var userAnswers: map<nat, int>
    var incorrectSet: seq<PagesReview.Missed>

    /**
     * The review screen is shown only with a missed question, the test screen
     * only with a question to show, and the list is no longer than the test.
     */
    predicate Valid()
      reads this
    {
      && (screen == Review ==> |incorrectSet| > 0)
      && (screen == Test ==> PagesTest.Renderable(questions))
      && |incorrectSet| <= |questions|
    }

    function Total(): int
      reads this
    {
      |questions|
    }

    /** `total - incorrectSet.length` */
    function Correct(): int
      reads this
    {
      |questions| - |incorrectSet|
    }

    function Incorrect(): int
      reads this
    {
      |incorrectSet|
    }

    constructor ()
      ensures Valid()
      ensures screen == Login && rollNumber == [] && name == [] && questions == []
      ensures settings == DefaultSettings && userAnswers == map[] && incorrectSet == []
    {
      screen := Login;
      rollNumber := [];
      name := [];
      questions := [];
      settings := DefaultSettings;
      userAnswers := map[];
      incorrectSet := [];
    }

    method SetRollNumber(value: string)
      requires Valid()
      modifies this
      ensures Valid()
      ensures rollNumber == value && name == old(name) && screen == old(screen)
      ensures questions == old(questions) && settings == old(settings)
      ensures userAnswers == old(userAnswers) && incorrectSet == old(incorrectSet)
    {
      rollNumber := value;
    }

    method SetName(value: string)
      requires Valid()
      modifies this
      ensures Valid()
      ensures name == value && rollNumber == old(rollNumber) && screen == old(screen)
      ensures questions == old(questions) && settings == old(settings)
      ensures userAnswers == old(userAnswers) && incorrectSet == old(incorrectSet)
    {
      name := value;
    }

    /** `handleLogin`: on to the configuration only with both fields filled; otherwise the alert. */
    method HandleLogin() returns (alerted: bool)
      requires Valid() && screen == Login
      modifies this
      ensures Valid()
      ensures alerted <==> rollNumber == [] || name == []
      ensures Some(screen) == After(Login, LoginSubmit, !alerted, |incorrectSet| > 0)
      ensures rollNumber == old(rollNumber) && name == old(name)
      ensures questions == old(questions) && settings == old(settings)
      ensures userAnswers == old(userAnswers) && incorrectSet == old(incorrectSet)
    {
      if rollNumber == [] || name == [] {
        return true;
      }
      screen := Configure;
      alerted := false;
    }

    /**
     * `startTest`: the questions and settings are stored, the previous results
     * cleared. The corrected `handleStart` hands over at least one question.
     */
    method StartTest(parsed: seq<MCQ>, config: Config)
      requires Valid() && PagesTest.Renderable(parsed)
      modifies this
      ensures Valid()
      ensures questions == parsed && settings == config
      ensures userAnswers == map[] && incorrectSet == [] && screen == Test
      ensures rollNumber == old(rollNumber) && name == old(name)
    {
      questions := parsed;
      settings := config;
      userAnswers := map[];
      incorrectSet := [];
      screen := Test;
    }

    /** `endTest(answers)`: one pass over the questions collects the missed ones. */
    method EndTest(answers: map<nat, int>)
      requires Valid()
      modifies this
      ensures Valid()
      ensures userAnswers == answers
      ensures incorrectSet == IncorrectList(questions, answers, |questions|)
      ensures screen == Summary
      ensures questions == old(questions) && settings == old(settings)
      ensures rollNumber == old(rollNumber) && name == old(name)
    {
      userAnswers := answers;
      var incorrect: seq<PagesReview.Missed> := [];
      var i := 0;
      while i < |questions|
        invariant i <= |questions|
        invariant incorrect == IncorrectList(questions, answers, i)
      {
        var q := questions[i];
        if i !in answers || answers[i] == 0 || answers[i] != q.answer {
          var userAns := if i in answers then answers[i] else -1;
          incorrect := incorrect + [PagesReview.Missed(q, userAns)];
        }
        i := i + 1;
      }
      IncorrectListBound(questions, answers, |questions|);
      incorrectSet := incorrect;
      screen := Summary;
    }

    /** `retry`: back to the configuration, from the summary or at the end of review. */
    method HandleRetry()
      requires Valid()
      modifies this
      ensures Valid()
      ensures screen == Configure
      ensures questions == old(questions) && settings == old(settings) && userAnswers == old(userAnswers)
      ensures incorrectSet == old(incorrectSet) && rollNumber == old(rollNumber) && name == old(name)
    {
      screen := Configure;
    }

    /** `onReview`: the review of the missed questions, or the configuration when none was missed. */
    method HandleReview()
      requires Valid() && screen == Summary
      modifies this
      ensures Valid()
      ensures Some(screen) == After(Summary, StartReview, true, |incorrectSet| > 0)
      ensures questions == old(questions) && settings == old(settings) && userAnswers == old(userAnswers)
      ensures incorrectSet == old(incorrectSet) && rollNumber == old(rollNumber) && name == old(name)
    {
      if |incorrectSet| > 0 {
        screen := Review;
      } else {
        screen := Configure;
      }
    }
  }

  /**
   * On the summary the correct and incorrect totals add up to the number of
   * questions; with the parser's non-zero answers the correct total is the
   * test page's score, and the summary's percentage is its rounding.
   */
  lemma SummaryTotals(questions: seq<MCQ>, answers: map<nat, int>)
    requires |questions| > 0
    requires forall i :: 0 <= i < |questions| ==> questions[i].answer != 0
    ensures var incorrect := |IncorrectList(questions, answers, |questions|)|;
            var correct := |questions| - incorrect;
            && correct + incorrect == |questions|
            && 0 <= correct == PagesTest.Score(questions, answers)
            && 0 <= ResultSummary.Score(correct, |questions|) <= 100
  {
    CorrectIsTestScore(questions, answers, |questions|);
    IncorrectListBound(questions, answers, |questions|);
  }
}
