/**
 * The timed test of the Next.js version (`src/components/TestInterface.tsx`).
 *
 * The session's React state is the `Session` record; each handler and each
 * interval callback is a transition function on it, and the `TestInterface`
 * class performs the same steps on its fields. Navigation is returned as a
 * `Route`; the clock of the review loop is a parameter in milliseconds.
 */
module TestSession {
  import opened Text
  import opened JsMath
  import opened QuestionParser
  import opened TestConfigStore

  /** `'unanswered'` is never stored: an unanswered question has no record. */
  datatype AnswerStatus = Correct | Incorrect

  datatype AnswerRecord = AnswerRecord(answer: string, status: AnswerStatus)

  datatype TestState = Loading | Running | Paused | Finished | Reviewing | Error

  /** Where the component sends the user: nowhere, to login, or to the configuration page. */
  datatype Route = Stay | ToLogin | ToConfigure

  /** An incorrectly answered question with the answer given. */
  datatype Missed = Missed(question: Question, userAnswer: string)

  /** What the component reads from its stores: the questions, the configuration, whether a user is logged in. */
  datatype Context = Context(questions: seq<Question>, config: TestConfig, userPresent: bool)

  datatype Session = Session(
    currentQuestionIndex: nat,
    selectedAnswer: Option<string>,
    answers: map<nat, AnswerRecord>,
    timeLeft: int,
    testState: TestState,
    showResultModal: bool,
    showExplanationModal: bool,
    isPassed: bool,
    reviewIndex: nat,
    reviewStartMs: Option<int>)

  /** Thirty minutes of review, in milliseconds. */
  const ReviewDurationMs := 30 * 60 * 1000
  /** Each missed question is shown for fifteen seconds (the review tick's period). */
  const ReviewIntervalMs := 15000

  /** JavaScript truthiness of a configuration number: present and not zero. */
  predicate Truthy(n: Option<int>) {
    n.Some? && n.value != 0
  }

  // ---------------------------------------------------------------------
  // The tally and the score (the two memos)
  // ---------------------------------------------------------------------

  /** The number of the first `n` questions answered correctly. */
  function CorrectCount(answers: map<nat, AnswerRecord>, n: nat): nat
    decreases n
  {
    if n == 0 then 0
    else CorrectCount(answers, n - 1) + (if n - 1 in answers && answers[n - 1].status == Correct then 1 else 0)
  }

  /** The first `n` questions answered incorrectly, in question order, each with the answer given. */
  function IncorrectOf(questions: seq<Question>, answers: map<nat, AnswerRecord>, n: nat): seq<Missed>
    requires n <= |questions|
    decreases n
  {
    if n == 0 then []
    else
      var i := n - 1;
      IncorrectOf(questions, answers, i)
        + (if i in answers && answers[i].status == Incorrect then [Missed(questions[i], answers[i].answer)] else [])
  }

  /** Unanswered questions are neither correct nor incorrect, so the two tallies never exceed the count. */
  lemma {:induction false} TallyBound(questions: seq<Question>, answers: map<nat, AnswerRecord>, n: nat)
    requires n <= |questions|
    ensures CorrectCount(answers, n) + |IncorrectOf(questions, answers, n)| <= n
    ensures CorrectCount(answers, n) + |IncorrectOf(questions, answers, n)| == n
            <==> forall i :: 0 <= i < n ==> i in answers
    decreases n
  {
    if n > 0 {
      TallyBound(questions, answers, n - 1);
    }
  }

  /** The incorrect list holds exactly the questions whose record says incorrect, with the answer given. */
  lemma {:induction false} IncorrectMembers(questions: seq<Question>, answers: map<nat, AnswerRecord>, n: nat, m: Missed)
    requires n <= |questions|
    ensures m in IncorrectOf(questions, answers, n) <==>
            exists i :: 0 <= i < n && i in answers && answers[i].status == Incorrect
                        && m == Missed(questions[i], answers[i].answer)
    decreases n
  {
    if n > 0 {
      IncorrectMembers(questions, answers, n - 1, m);
    }
  }

  /** `Math.round(correct / total * 100)` over the whole loaded set, and 0 for no questions. */
  function ScorePercentage(correct: nat, total: nat): (r: int)
    ensures total == 0 ==> r == 0
    ensures correct <= total ==> 0 <= r <= 100
    ensures total > 0 ==> r * (2 * total) <= 200 * correct + total < (r + 1) * (2 * total)
  {
    if total > 0 then
      RoundPercentBoundsIf(correct, total);
      RoundDiv(100 * correct, total)
    else 0
  }

  function MissedQuestions(ctx: Context, s: Session): seq<Missed>
  {
    IncorrectOf(ctx.questions, s.answers, |ctx.questions|)
  }

  function Score(ctx: Context, s: Session): int
  {
    ScorePercentage(CorrectCount(s.answers, |ctx.questions|), |ctx.questions|)
  }

  /** `score >= config.passingPercentage`; a comparison with `undefined` is false. */
  predicate Passes(score: int, passing: Option<int>) {
    passing.Some? && score >= passing.value
  }

  // ---------------------------------------------------------------------
  // Transitions
  // ---------------------------------------------------------------------

  /** The state at mount: `timeLeft` is `config.timer || 0`. */
  function Initial(ctx: Context): Session
  {
    Session(0, None, map[], if Truthy(ctx.config.timer) then ctx.config.timer.value else 0,
            Loading, false, false, false, 0, None)
  }

  /** The set-up effect: the user, then the three settings, then the questions; otherwise start running. */
  function Setup(ctx: Context, s: Session): (Session, Route)
  {
    if !ctx.userPresent then (s, ToLogin)
    else if !Truthy(ctx.config.timer) || !Truthy(ctx.config.questionLimit) || !Truthy(ctx.config.passingPercentage)
    then (s, ToConfigure)
    else if |ctx.questions| == 0 then (s, ToConfigure)
    else (s.(timeLeft := ctx.config.timer.value, testState := Running), Stay)
  }

  /** `handleAnswerSelect` */
  function Select(s: Session, value: string): Session
  {
    s.(selectedAnswer := Some(value))
  }

  /** `finishTest`: only from running; the score and the pass mark decide `isPassed`. */
  function Finish(ctx: Context, s: Session): Session
  {
    if s.testState != Running then s
    else s.(testState := Finished, isPassed := Passes(Score(ctx, s), ctx.config.passingPercentage),
            showResultModal := true)
  }

  /** Whether `handleSubmitAnswer` acts: a non-empty selection, a current question, a running test. */
  predicate CanSubmit(ctx: Context, s: Session) {
    s.selectedAnswer.Some? && s.selectedAnswer.value != [] && s.currentQuestionIndex < |ctx.questions|
    && s.testState == Running
  }

  /** `handleSubmitAnswer` */
  function Submit(ctx: Context, s: Session): Session
  {
    if !CanSubmit(ctx, s) then s
    else
      var i := s.currentQuestionIndex;
      var selected := s.selectedAnswer.value;
      var isCorrect := selected == ctx.questions[i].correctAnswer;
      var s1 := s.(answers := s.answers[i := AnswerRecord(selected, if isCorrect then Correct else Incorrect)],
                   selectedAnswer := None);
      if !isCorrect then s1.(showExplanationModal := true)
      else if i < |ctx.questions| - 1 then s1.(currentQuestionIndex := i + 1)
      else Finish(ctx, s1)
  }

  /** `handleNextQuestion`: close the explanation, then advance or finish. */
  function Next(ctx: Context, s: Session): Session
  {
    var s1 := s.(showExplanationModal := false);
    if s.currentQuestionIndex < |ctx.questions| - 1 then s1.(currentQuestionIndex := s.currentQuestionIndex + 1)
    else Finish(ctx, s1)
  }

  /** The one-second countdown while running: at zero it stops and finishes the test. */
  function Tick(ctx: Context, s: Session): Session
  {
    if s.testState != Running || s.timeLeft <= 0 || |ctx.questions| == 0 then s
    else if s.timeLeft - 1 <= 0 then Finish(ctx, s.(timeLeft := 0))
    else s.(timeLeft := s.timeLeft - 1)
  }

  /** `startReview` at time `nowMs`: review the missed questions, or leave when there are none. */
  function StartReview(ctx: Context, s: Session, nowMs: int): (Session, Route)
  {
    var s1 := s.(showResultModal := false);
    if |MissedQuestions(ctx, s)| > 0 then (s1.(testState := Reviewing, reviewIndex := 0, reviewStartMs := Some(nowMs)), Stay)
    else (s1, ToConfigure)
  }

  /** The fifteen-second review tick at time `nowMs`: next missed question, cyclically, until thirty minutes have passed. */
  function ReviewTick(ctx: Context, s: Session, nowMs: int): (Session, Route)
  {
    var n := |MissedQuestions(ctx, s)|;
    if s.testState != Reviewing || s.reviewStartMs.None? || s.reviewStartMs.value == 0 || n == 0 then (s, Stay)
    else if nowMs - s.reviewStartMs.value >= ReviewDurationMs then (s.(testState := Finished), ToConfigure)
    else (s.(reviewIndex := (s.reviewIndex + 1) % n), Stay)
  }

  /** The radio group and the submit button are disabled while the explanation is open or the test is not running. */
  predicate SelectEnabled(s: Session) {
    !s.showExplanationModal && s.testState == Running
  }

  predicate SubmitButtonEnabled(s: Session) {
    s.selectedAnswer.Some? && s.selectedAnswer.value != [] && SelectEnabled(s)
  }

  // ---------------------------------------------------------------------
  // What the transitions promise
  // ---------------------------------------------------------------------

  /** Answers are recorded for loaded questions only, the index stays on a question, the review index on a missed one. */
  predicate Inv(ctx: Context, s: Session) {
    && (forall i :: i in s.answers ==> i < |ctx.questions|)
    && (s.currentQuestionIndex == 0 || s.currentQuestionIndex < |ctx.questions|)
    && (s.testState == Running ==> |ctx.questions| > 0)
    && (s.testState == Reviewing ==> s.reviewIndex < |MissedQuestions(ctx, s)|)
  }

  lemma InitialInv(ctx: Context)
    ensures Inv(ctx, Initial(ctx))
    ensures Initial(ctx).testState == Loading
  {
  }

  /**
   * The session leaves loading for running only with a user, the three settings
   * non-zero and questions loaded; `timeLeft` is then the configured timer.
   */
  lemma SetupRuns(ctx: Context, s: Session)
    requires Inv(ctx, s) && s.testState == Loading
    ensures Inv(ctx, Setup(ctx, s).0)
    ensures Setup(ctx, s).0.testState == Running <==>
            ctx.userPresent && Truthy(ctx.config.timer) && Truthy(ctx.config.questionLimit)
            && Truthy(ctx.config.passingPercentage) && |ctx.questions| > 0
    ensures Setup(ctx, s).0.testState == Running ==> Setup(ctx, s).0.timeLeft == ctx.config.timer.value
    ensures Setup(ctx, s).1 == Stay <==> Setup(ctx, s).0.testState == Running
  {
  }

  /** `finishTest` twice is `finishTest` once, and it acts only on a running test. */
  lemma FinishIdempotent(ctx: Context, s: Session)
    requires Inv(ctx, s)
    ensures Inv(ctx, Finish(ctx, s))
    ensures Finish(ctx, Finish(ctx, s)) == Finish(ctx, s)
    ensures s.testState != Running <==> Finish(ctx, s) == s
    ensures s.testState == Running ==>
              Finish(ctx, s).testState == Finished
              && (Finish(ctx, s).isPassed <==> Passes(Score(ctx, s), ctx.config.passingPercentage))
  {
  }

  /**
   * Submitting records `{answer, status}` at the current index, correct exactly
   * when the selection is the correct answer, and clears the selection. A correct
   * answer advances or finishes on the last question; an incorrect one stays and
   * opens the explanation. Without a selection, a question or a running test it does nothing.
   */
  lemma SubmitEffect(ctx: Context, s: Session)
    requires Inv(ctx, s)
    ensures Inv(ctx, Submit(ctx, s))
    ensures !CanSubmit(ctx, s) ==> Submit(ctx, s) == s
    ensures CanSubmit(ctx, s) ==>
              var t := Submit(ctx, s);
              var i := s.currentQuestionIndex;
              var correct := s.selectedAnswer.value == ctx.questions[i].correctAnswer;
              && t.answers == s.answers[i := AnswerRecord(s.selectedAnswer.value, if correct then Correct else Incorrect)]
              && t.selectedAnswer.None?
              && (!correct ==> t.currentQuestionIndex == i && t.showExplanationModal && t.testState == Running)
              && (correct && i < |ctx.questions| - 1 ==> t.currentQuestionIndex == i + 1 && t.testState == Running)
              && (correct && i == |ctx.questions| - 1 ==> t.currentQuestionIndex == i && t.testState == Finished)
  {
  }

  /**
   * While the explanation is open neither the options nor the submit button
   * respond; an enabled submit button always records an answer, and a wrong
   * answer disables both until "Next".
   */
  lemma ControlsEnabled(ctx: Context, s: Session)
    requires Inv(ctx, s)
    ensures s.showExplanationModal ==> !SelectEnabled(s) && !SubmitButtonEnabled(s)
    ensures SubmitButtonEnabled(s) ==> CanSubmit(ctx, s) && Submit(ctx, s) != s
    ensures SubmitButtonEnabled(s) && Submit(ctx, s).showExplanationModal ==>
              !SelectEnabled(Submit(ctx, s)) && !SubmitButtonEnabled(Submit(ctx, s))
  {
  }

  /** "Next" closes the explanation and advances, or finishes on the last question. */
  lemma NextEffect(ctx: Context, s: Session)
    requires Inv(ctx, s)
    ensures Inv(ctx, Next(ctx, s))
    ensures !Next(ctx, s).showExplanationModal
    ensures s.currentQuestionIndex < |ctx.questions| - 1 ==> Next(ctx, s).currentQuestionIndex == s.currentQuestionIndex + 1
    ensures s.currentQuestionIndex >= |ctx.questions| - 1 && s.testState == Running ==> Next(ctx, s).testState == Finished
  {
  }

  /** Each tick takes a second off; reaching zero finishes the test, even with the explanation open. */
  lemma TickEffect(ctx: Context, s: Session)
    requires Inv(ctx, s)
    ensures Inv(ctx, Tick(ctx, s))
    ensures s.testState == Running && s.timeLeft > 1 ==> Tick(ctx, s) == s.(timeLeft := s.timeLeft - 1)
    ensures s.testState == Running && s.timeLeft == 1 ==>
              Tick(ctx, s).timeLeft == 0 && Tick(ctx, s).testState == Finished
              && Tick(ctx, s).answers == s.answers
    ensures s.testState != Running ==> Tick(ctx, s) == s
  {
  }

  /** Review starts at the first missed question when there is one, and otherwise leaves for the configuration page. */
  lemma StartReviewEffect(ctx: Context, s: Session, nowMs: int)
    requires Inv(ctx, s)
    ensures Inv(ctx, StartReview(ctx, s, nowMs).0)
    ensures |MissedQuestions(ctx, s)| > 0 <==> StartReview(ctx, s, nowMs).0.testState == Reviewing
    ensures |MissedQuestions(ctx, s)| > 0 ==> StartReview(ctx, s, nowMs).0.reviewIndex == 0 && StartReview(ctx, s, nowMs).1 == Stay
    ensures |MissedQuestions(ctx, s)| == 0 ==> StartReview(ctx, s, nowMs).1 == ToConfigure
  {
  }

  /** The review cycles through the missed questions until thirty minutes have passed, then finishes. */
  lemma ReviewTickEffect(ctx: Context, s: Session, nowMs: int)
    requires Inv(ctx, s) && s.testState == Reviewing && s.reviewStartMs.Some? && s.reviewStartMs.value != 0
    ensures Inv(ctx, ReviewTick(ctx, s, nowMs).0)
    ensures nowMs - s.reviewStartMs.value < ReviewDurationMs ==>
              ReviewTick(ctx, s, nowMs).0.reviewIndex == (s.reviewIndex + 1) % |MissedQuestions(ctx, s)|
              && ReviewTick(ctx, s, nowMs).0.testState == Reviewing
    ensures nowMs - s.reviewStartMs.value >= ReviewDurationMs ==>
              ReviewTick(ctx, s, nowMs) == (s.(testState := Finished), ToConfigure)
  {
  }

  // ---------------------------------------------------------------------
  // The component
  // ---------------------------------------------------------------------

  class TestInterface {
    const ctx: Context
    var currentQuestionIndex: nat
    var selectedAnswer: Option<string>
    var answers: map<nat, AnswerRecord>
    var timeLeft: int
    var testState: TestState
    var showResultModal: bool
    var showExplanationModal: bool
    var isPassed: bool
    var reviewIndex: nat
    var reviewStartMs: Option<int>

    /** The component's state as a record. */
    function State(): Session
      reads this
    {
      Session(currentQuestionIndex, selectedAnswer, answers, timeLeft, testState, showResultModal,
              showExplanationModal, isPassed, reviewIndex, reviewStartMs)
    }

    constructor (questions: seq<Question>, config: TestConfig, userPresent: bool)
      ensures ctx == Context(questions, config, userPresent)
      ensures State() == Initial(ctx)
    {
      ctx := Context(questions, config, userPresent);
      currentQuestionIndex := 0;
      selectedAnswer := None;
      answers := map[];
      timeLeft := if Truthy(config.timer) then config.timer.value else 0;
      testState := Loading;
      showResultModal := false;
      showExplanationModal := false;
      isPassed := false;
      reviewIndex := 0;
      reviewStartMs := None;
    }

    method SetUp() returns (route: Route)
      modifies this
      ensures (State(), route) == Setup(ctx, old(State()))
    {
      if !ctx.userPresent {
        return ToLogin;
      }
      if !Truthy(ctx.config.timer) || !Truthy(ctx.config.questionLimit) || !Truthy(ctx.config.passingPercentage) {
        return ToConfigure;
      }
      if |ctx.questions| == 0 {
        return ToConfigure;
      }
      timeLeft := ctx.config.timer.value;
      testState := Running;
      route := Stay;
    }

    /** The tally memo: one pass over the questions with a counter and a list. */
    method CountAnswers() returns (correctAnswersCount: nat, incorrectAnswers: seq<Missed>)
      ensures correctAnswersCount == CorrectCount(answers, |ctx.questions|)
      ensures incorrectAnswers == MissedQuestions(ctx, State())
    {
      correctAnswersCount := 0;
      incorrectAnswers := [];
      var index := 0;
      while index < |ctx.questions|
        invariant index <= |ctx.questions|
        invariant correctAnswersCount == CorrectCount(answers, index)
        invariant incorrectAnswers == IncorrectOf(ctx.questions, answers, index)
      {
        if index in answers {
          var answerData := answers[index];
          if answerData.status == Correct {
            correctAnswersCount := correctAnswersCount + 1;
          } else if answerData.status == Incorrect {
            incorrectAnswers := incorrectAnswers + [Missed(ctx.questions[index], answerData.answer)];
          }
        }
        index := index + 1;
      }
    }

    method FinishTest()
      modifies this
      ensures State() == Finish(ctx, old(State()))
    {
      if testState != Running {
        return;
      }
      testState := Finished;
      var correct, _ := CountAnswers();
      var finalScorePercentage := ScorePercentage(correct, |ctx.questions|);
      isPassed := Passes(finalScorePercentage, ctx.config.passingPercentage);
      showResultModal := true;
    }

    method HandleAnswerSelect(value: string)
      modifies this
      ensures State() == Select(old(State()), value)
    {
      selectedAnswer := Some(value);
    }

    method HandleSubmitAnswer()
      modifies this
      ensures State() == Submit(ctx, old(State()))
    {
      if selectedAnswer.None? || selectedAnswer.value == [] || currentQuestionIndex >= |ctx.questions|
         || testState != Running {
        return;
      }
      var selected := selectedAnswer.value;
      var isCorrect := selected == ctx.questions[currentQuestionIndex].correctAnswer;
      var status := if isCorrect then Correct else Incorrect;
      answers := answers[currentQuestionIndex := AnswerRecord(selected, status)];
      selectedAnswer := None;
      if !isCorrect {
        showExplanationModal := true;
      } else if currentQuestionIndex < |ctx.questions| - 1 {
        currentQuestionIndex := currentQuestionIndex + 1;
      } else {
        FinishTest();
      }
    }

    method HandleNextQuestion()
      modifies this
      ensures State() == Next(ctx, old(State()))
    {
      showExplanationModal := false;
      if currentQuestionIndex < |ctx.questions| - 1 {
        currentQuestionIndex := currentQuestionIndex + 1;
      } else {
        FinishTest();
      }
    }

    /** One firing of the one-second interval. */
    method TimerTick()
      modifies this
      ensures State() == Tick(ctx, old(State()))
    {
      if testState != Running || timeLeft <= 0 || |ctx.questions| == 0 {
        return;
      }
      var newTime := timeLeft - 1;
      if newTime <= 0 {
        timeLeft := 0;
        FinishTest();
      } else {
        timeLeft := newTime;
      }
    }

    method StartReviewAt(nowMs: int) returns (route: Route)
      modifies this
      ensures (State(), route) == StartReview(ctx, old(State()), nowMs)
    {
      var _, incorrectAnswers := CountAnswers();
      showResultModal := false;
      if |incorrectAnswers| > 0 {
        testState := Reviewing;
        reviewIndex := 0;
        reviewStartMs := Some(nowMs);
        route := Stay;
      } else {
        route := ToConfigure;
      }
    }

    /** One firing of the fifteen-second review interval at time `nowMs`. */
    method ReviewTickAt(nowMs: int) returns (route: Route)
      modifies this
      ensures (State(), route) == ReviewTick(ctx, old(State()), nowMs)
    {
      var _, incorrectAnswers := CountAnswers();
      if testState != Reviewing || reviewStartMs.None? || reviewStartMs.value == 0 || |incorrectAnswers| == 0 {
        return Stay;
      }
      var elapsedTime := nowMs - reviewStartMs.value;
      if elapsedTime >= ReviewDurationMs {
        testState := Finished;
        route := ToConfigure;
      } else {
        reviewIndex := (reviewIndex + 1) % |incorrectAnswers|;
        route := Stay;
      }
    }
  }
}
