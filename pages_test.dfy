/**
 * The test page of the Vite version (`src/pages/TestInterface.tsx`): a
 * countdown, answers that can be revised, and a queue of skipped questions
 * that is revisited once after the last question.
 *
 * The page's state is the `Page` record; each handler and the interval
 * callback is a transition function on it, and the `TestPage` class performs
 * the same steps on its fields. `onFinish(answers)` is recorded in `finished`.
 */
module PagesTest {
  import opened Text
  import opened JsMath
  import opened PagesConfigure

  datatype Page = Page(
    currentIndex: nat,
    userAnswers: map<nat, int>,
    timeLeft: int,
    skipped: seq<nat>,
    reviewingSkipped: bool,
    finished: Option<map<nat, int>>)

  /** The state at mount: the timer's minutes in seconds. */
  function Initial(settings: Config): Page
  {
    Page(0, map[], settings.timer * 60, [], false, None)
  }

  /** `handleSubmit` over `n` questions: next question, else the first skipped one once, else finish. */
  function Submit(n: nat, p: Page): Page
  {
    if p.currentIndex < n - 1 then p.(currentIndex := p.currentIndex + 1)
    else if |p.skipped| > 0 && !p.reviewingSkipped then
      p.(currentIndex := p.skipped[0], skipped := p.skipped[1..], reviewingSkipped := true)
    else p.(finished := Some(p.userAnswers))
  }

  /** `handleSkip`: queue the current question unless it is queued already, then submit. */
  function Skip(n: nat, p: Page): Page
  {
    var queued := if p.currentIndex in p.skipped then p else p.(skipped := p.skipped + [p.currentIndex]);
    Submit(n, queued)
  }

  /** `handleAnswer(ans)`: the current question's answer is `ans`, replacing any earlier one. */
  function Answer(p: Page, ans: int): Page
  {
    p.(userAnswers := p.userAnswers[p.currentIndex := ans])
  }

  /** One firing of the one-second interval: at one second or less it stops at 0 and finishes with the answers. */
  function Tick(p: Page): Page
  {
    if p.finished.Some? then p
    else if p.timeLeft <= 1 then p.(timeLeft := 0, finished := Some(p.userAnswers))
    else p.(timeLeft := p.timeLeft - 1)
  }

  /**
   * The interval callback as written: it was created at mount, so the answers
   * it hands to `onFinish` are the mount-time ones, the empty object.
   */
  function TickAsWritten(p: Page): Page
  {
    if p.finished.Some? then p
    else if p.timeLeft <= 1 then p.(timeLeft := 0, finished := Some(map[]))
    else p.(timeLeft := p.timeLeft - 1)
  }

  /** The submit button is enabled when the current question has an answer; skip always is. */
  predicate SubmitEnabled(p: Page) {
    p.currentIndex in p.userAnswers
  }

  // ---------------------------------------------------------------------
  // Score
  // ---------------------------------------------------------------------

  /** The number of the first `k` questions whose answer is the correct number. */
  function Matches(questions: seq<MCQ>, answers: map<nat, int>, k: nat): nat
    requires k <= |questions|
    decreases k
  {
    if k == 0 then 0
    else Matches(questions, answers, k - 1)
         + (if k - 1 in answers && answers[k - 1] == questions[k - 1].answer then 1 else 0)
  }

  /** `Object.keys(userAnswers).filter(i => userAnswers[i] === questions[i].answer).length` */
  function Score(questions: seq<MCQ>, answers: map<nat, int>): nat
  {
    Matches(questions, answers, |questions|)
  }

  /** The score never exceeds the count, and reaches it exactly when every answer is right. */
  lemma {:induction false} MatchesBound(questions: seq<MCQ>, answers: map<nat, int>, k: nat)
    requires k <= |questions|
    ensures Matches(questions, answers, k) <= k
    ensures Matches(questions, answers, k) == k <==>
            forall i :: 0 <= i < k ==> i in answers && answers[i] == questions[i].answer
    decreases k
  {
    if k > 0 {
      MatchesBound(questions, answers, k - 1);
    }
  }

  /** With no right answer among the first `k`, the score is 0. */
  lemma {:induction false} NoMatches(questions: seq<MCQ>, answers: map<nat, int>, k: nat)
    requires k <= |questions|
    ensures Matches(questions, answers, k) == 0 <==>
            forall i :: 0 <= i < k && i in answers ==> answers[i] != questions[i].answer
    decreases k
  {
    if k > 0 {
      NoMatches(questions, answers, k - 1);
    }
  }

  /**
   * `Math.floor((score / questions.length) * 100)`: rounded down, unlike the
   * round of the other score. The page hands it to TimerBar as `percentage`,
   * a prop TimerBar does not declare, so it is never displayed.
   */
  function FlooredPercentage(score: nat, n: nat): (r: int)
    requires n > 0
    ensures score <= n ==> 0 <= r <= 100
    ensures r * n <= 100 * score < (r + 1) * n
  {
    ScorePercentBounds(score, n);
    FloorDiv(100 * score, n)
  }

  lemma ScorePercentBounds(score: nat, n: nat)
    requires n > 0
    ensures score <= n ==> 0 <= FloorDiv(100 * score, n) <= 100
  {
    var r := FloorDiv(100 * score, n);
    if score <= n && r > 100 {
      MulMono(101, r, n);
      assert false;
    }
  }

  // ---------------------------------------------------------------------
  // What the transitions promise
  // ---------------------------------------------------------------------

  predicate NoDuplicates(s: seq<nat>) {
    forall i, j :: 0 <= i < j < |s| ==> s[i] != s[j]
  }

  /** The index and the queued indices are question indices, and the queue holds each at most once. */
  predicate Inv(n: nat, p: Page) {
    && p.currentIndex < n
    && (forall i :: i in p.userAnswers ==> i < n)
    && (forall k :: 0 <= k < |p.skipped| ==> p.skipped[k] < n)
    && NoDuplicates(p.skipped)
  }

  lemma InitialInv(n: nat, settings: Config)
    requires n > 0
    ensures Inv(n, Initial(settings))
    ensures Initial(settings).timeLeft == settings.timer * 60
  {
  }

  /**
   * Submitting moves to the next question; on the last one it jumps to the
   * first skipped question and drops it from the queue, once; otherwise it
   * finishes with the answers.
   */
  lemma SubmitEffect(n: nat, p: Page)
    requires Inv(n, p)
    ensures p.currentIndex < n - 1 ==> Submit(n, p) == p.(currentIndex := p.currentIndex + 1)
    ensures p.currentIndex == n - 1 && |p.skipped| > 0 && !p.reviewingSkipped ==>
              Submit(n, p).currentIndex == p.skipped[0] && Submit(n, p).skipped == p.skipped[1..]
              && Submit(n, p).reviewingSkipped
    ensures p.currentIndex == n - 1 && (|p.skipped| == 0 || p.reviewingSkipped) ==>
              Submit(n, p).finished == Some(p.userAnswers)
    ensures Submit(n, p).finished.None? ==> Inv(n, Submit(n, p))
    ensures Submit(n, p).userAnswers == p.userAnswers
  {
    if p.currentIndex == n - 1 && |p.skipped| > 0 && !p.reviewingSkipped {
      var q := Submit(n, p);
      forall i, j | 0 <= i < j < |q.skipped|
        ensures q.skipped[i] != q.skipped[j]
      {
        assert q.skipped[i] == p.skipped[i + 1] && q.skipped[j] == p.skipped[j + 1];
      }
    }
  }

  /** The jump back to the skipped questions happens at most once: `reviewingSkipped` is never reset. */
  lemma JumpAtMostOnce(n: nat, p: Page, ans: int)
    requires p.reviewingSkipped
    ensures Submit(n, p).reviewingSkipped && Skip(n, p).reviewingSkipped
    ensures Answer(p, ans).reviewingSkipped && Tick(p).reviewingSkipped
    ensures Submit(n, p).skipped == p.skipped
    ensures Submit(n, p).currentIndex == p.currentIndex + 1 || Submit(n, p).finished.Some?
  {
  }

  /** Skipping queues the current question once, keeping the queue free of duplicates, and then submits. */
  lemma SkipEffect(n: nat, p: Page)
    requires Inv(n, p)
    ensures var queued := if p.currentIndex in p.skipped then p.skipped else p.skipped + [p.currentIndex];
            Skip(n, p) == Submit(n, p.(skipped := queued))
            && Inv(n, p.(skipped := queued))
    ensures Skip(n, p).finished.None? ==> Inv(n, Skip(n, p))
  {
    var queued := if p.currentIndex in p.skipped then p.skipped else p.skipped + [p.currentIndex];
    var p1 := p.(skipped := queued);
    if p.currentIndex !in p.skipped {
      forall i, j | 0 <= i < j < |queued|
        ensures queued[i] != queued[j]
      {
        if j == |queued| - 1 {
          assert queued[j] == p.currentIndex;
          assert queued[i] == p.skipped[i];
        }
      }
    } else {
      assert p1 == p;
    }
    SubmitEffect(n, p1);
  }

  /** Answering sets the current question's answer and enables submit; a second answer replaces the first. */
  lemma AnswerRevises(n: nat, p: Page, a: int, b: int)
    requires Inv(n, p)
    ensures Inv(n, Answer(p, a))
    ensures Answer(p, a).userAnswers[p.currentIndex] == a && SubmitEnabled(Answer(p, a))
    ensures Answer(Answer(p, a), b) == Answer(p, b)
    ensures forall i :: i in p.userAnswers && i != p.currentIndex ==>
              i in Answer(p, a).userAnswers && Answer(p, a).userAnswers[i] == p.userAnswers[i]
  {
  }

  /** Each tick takes a second off; at one second or less the page finishes with the answers given. */
  lemma TickEffect(n: nat, p: Page)
    requires Inv(n, p) && p.finished.None?
    ensures p.timeLeft > 1 ==> Tick(p) == p.(timeLeft := p.timeLeft - 1) && Inv(n, Tick(p))
    ensures p.timeLeft <= 1 ==> Tick(p).timeLeft == 0 && Tick(p).finished == Some(p.userAnswers)
  {
  }

  /** A timeout as written hands over no answers at all, whatever was answered. */
  lemma TimeoutAsWrittenLosesAnswers(questions: seq<MCQ>, p: Page)
    requires p.finished.None? && p.timeLeft <= 1 && |questions| > 0
    requires 0 in p.userAnswers && p.userAnswers[0] == questions[0].answer
    ensures TickAsWritten(p).finished == Some(map[])
    ensures Score(questions, TickAsWritten(p).finished.value) == 0
    ensures Score(questions, Tick(p).finished.value) >= 1
  {
    NoMatches(questions, map[], |questions|);
    FirstMatchCounts(questions, p.userAnswers, |questions|);
  }

  lemma {:induction false} FirstMatchCounts(questions: seq<MCQ>, answers: map<nat, int>, k: nat)
    requires 1 <= k <= |questions| && 0 in answers && answers[0] == questions[0].answer
    ensures Matches(questions, answers, k) >= 1
    decreases k
  {
    if k > 1 {
      FirstMatchCounts(questions, answers, k - 1);
    }
  }

  // ---------------------------------------------------------------------
  // Choosing an option on the question card
  // ---------------------------------------------------------------------

  /** What the card's `onSelect(index)` hands to `handleAnswer` as written: the 0-based index. */
  function ChosenAnswerAsWritten(index: nat): int
  {
    index
  }

  /** The answer a choice means to the parser and to the review screen: the 1-based option number. */
  function ChosenAnswer(index: nat): (ans: int)
    ensures ans >= 1
  {
    index + 1
  }

  /** Every question answered by clicking its correct option, through a given reading of the click. */
  function AllCorrectAsWritten(questions: seq<MCQ>): map<nat, int>
    requires forall i :: 0 <= i < |questions| ==> questions[i].answer >= 1
  {
    map i: nat | i < |questions| :: ChosenAnswerAsWritten(questions[i].answer - 1)
  }

  function AllCorrect(questions: seq<MCQ>): map<nat, int>
    requires forall i :: 0 <= i < |questions| ==> questions[i].answer >= 1
  {
    map i: nat | i < |questions| :: ChosenAnswer(questions[i].answer - 1)
  }

  /** As written, clicking the correct option of every question scores nothing. */
  lemma CorrectClicksScoreNothingAsWritten(questions: seq<MCQ>)
    requires forall i :: 0 <= i < |questions| ==> questions[i].answer >= 1
    ensures Score(questions, AllCorrectAsWritten(questions)) == 0
  {
    NoMatches(questions, AllCorrectAsWritten(questions), |questions|);
  }

  /** With 1-based answers, clicking the correct option of every question scores every question. */
  lemma CorrectClicksScoreAll(questions: seq<MCQ>)
    requires forall i :: 0 <= i < |questions| ==> questions[i].answer >= 1
    ensures Score(questions, AllCorrect(questions)) == |questions|
  {
    MatchesBound(questions, AllCorrect(questions), |questions|);
  }

  // ---------------------------------------------------------------------
  // The component
  // ---------------------------------------------------------------------

  /** The page reads `questions[currentIndex].question` on its first render, so it needs a question. */
  predicate Renderable(questions: seq<MCQ>) {
    |questions| > 0
  }

  /**
   * As written, a loaded set with the Max Questions field cleared (0) starts
   * a test on no questions, and the page throws on its first render.
   */
  lemma ClearedLimitCrashesAsWritten(questions: seq<MCQ>, shuffled: seq<MCQ>)
    requires multiset(shuffled) == multiset(questions) && |questions| > 0
    ensures StartAsWritten(questions, shuffled, 0).Some?
    ensures !Renderable(StartAsWritten(questions, shuffled, 0).value)
  {
    StartAsWrittenSelects(questions, shuffled, 0);
  }

  /** With the corrected start, whatever reaches the test page can be shown. */
  lemma StartRenderable(questions: seq<MCQ>, shuffled: seq<MCQ>, maxQuestions: int)
    requires multiset(shuffled) == multiset(questions)
    ensures Start(questions, shuffled, maxQuestions).Some? ==> Renderable(Start(questions, shuffled, maxQuestions).value)
  {
    StartSelection(questions, shuffled, maxQuestions);
  }

  class TestPage {
    const questions: seq<MCQ>
    const settings: Config
    var currentIndex: nat
    var userAnswers: map<nat, int>
    var timeLeft: int
    var skipped: seq<nat>
    var reviewingSkipped: bool
    var finished: Option<map<nat, int>>

    function State(): Page
      reads this
    {
      Page(currentIndex, userAnswers, timeLeft, skipped, reviewingSkipped, finished)
    }

    /** The page shows `questions[currentIndex]` from the start; the corrected start guarantees one (StartRenderable). */
    constructor (questions: seq<MCQ>, settings: Config)
      requires Renderable(questions)
      ensures this.questions == questions && this.settings == settings
      ensures State() == Initial(settings)
    {
      this.questions := questions;
      this.settings := settings;
      currentIndex := 0;
      userAnswers := map[];
      timeLeft := settings.timer * 60;
      skipped := [];
      reviewingSkipped := false;
      finished := None;
    }

    method HandleSubmit()
      modifies this
      ensures State() == Submit(|questions|, old(State()))
    {
      if currentIndex < |questions| - 1 {
        currentIndex := currentIndex + 1;
      } else if |skipped| > 0 && !reviewingSkipped {
        currentIndex := skipped[0];
        skipped := skipped[1..];
        reviewingSkipped := true;
      } else {
        finished := Some(userAnswers);
      }
    }

    method HandleSkip()
      modifies this
      ensures State() == Skip(|questions|, old(State()))
    {
      if currentIndex !in skipped {
        skipped := skipped + [currentIndex];
      }
      HandleSubmit();
    }

    method HandleAnswer(ans: int)
      modifies this
      ensures State() == Answer(old(State()), ans)
    {
      userAnswers := userAnswers[currentIndex := ans];
    }

    /** A click on the option at `index` of the question card. */
    method SelectOption(index: nat)
      modifies this
      ensures State() == Answer(old(State()), ChosenAnswer(index))
    {
      HandleAnswer(ChosenAnswer(index));
    }

    method TimerTick()
      modifies this
      ensures State() == Tick(old(State()))
    {
      if finished.Some? {
        return;
      }
      if timeLeft <= 1 {
        timeLeft := 0;
        finished := Some(userAnswers);
      } else {
        timeLeft := timeLeft - 1;
      }
    }
  }
}
