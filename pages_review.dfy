/**
 * The review screen of the Vite version (`src/pages/ReviewMode.tsx`): the
 * missed questions one after the other, thirty seconds each, within a
 * thirty-minute budget, without wrap-around.
 *
 * The screen's state is the `Review` record; the two interval callbacks and
 * the buttons are transition functions on it, and the `ReviewPage` class
 * performs the same steps on its fields. `onFinish()` is recorded in `finished`.
 */
module PagesReview {
  import opened Text
  import opened JsMath
  import opened PagesConfigure
  import PagesTest

  /** A missed question with the answer given (`-1` when there was none). */
  datatype Missed = Missed(mcq: MCQ, userAnswer: int)

  datatype Review = Review(index: nat, reviewTimeLeft: int, questionTimer: int, finished: bool)

  /** Thirty minutes for the whole review, in seconds. */
  const ReviewBudget := 30 * 60
  /** Thirty seconds per question. */
  const QuestionTime := 30

  const Initial := Review(0, ReviewBudget, QuestionTime, false)

  /** `nextQuestion` over `n` missed questions: the next one with a fresh thirty seconds, or finish after the last. */
  function Next(n: nat, r: Review): Review
  {
    if r.index + 1 < n then r.(index := r.index + 1, questionTimer := QuestionTime)
    else r.(finished := true)
  }

  /** One second of the overall budget: at one second or less it stops at 0 and finishes. */
  function OverallTick(r: Review): Review
  {
    if r.finished then r
    else if r.reviewTimeLeft <= 1 then r.(reviewTimeLeft := 0, finished := true)
    else r.(reviewTimeLeft := r.reviewTimeLeft - 1)
  }

  /** One second of the question's countdown: at one second or less it moves on and restarts at thirty. */
  function QuestionTick(n: nat, r: Review): Review
  {
    if r.finished then r
    else if r.questionTimer <= 1 then Next(n, r).(questionTimer := QuestionTime)
    else r.(questionTimer := r.questionTimer - 1)
  }

  /** "End Review Early" */
  function EndEarly(r: Review): Review
  {
    r.(finished := true)
  }

  /** The index stays on a missed question; line 59 reads `incorrectQuestions[index]`. */
  predicate Inv(n: nat, r: Review) {
    r.index < n
  }

  /** The review starts at the first missed question with the full budget, and needs one. */
  lemma InitialInv(n: nat)
    requires n > 0
    ensures Inv(n, Initial) && Initial.reviewTimeLeft == 1800 && Initial.questionTimer == 30
  {
  }

  /**
   * `nextQuestion` moves on by one and restarts the question's thirty seconds,
   * or finishes on the last question; it never goes back to the first.
   */
  lemma NextLinear(n: nat, r: Review)
    requires Inv(n, r)
    ensures Inv(n, Next(n, r))
    ensures r.index + 1 < n ==> Next(n, r).index == r.index + 1 && Next(n, r).questionTimer == 30
                                && Next(n, r).finished == r.finished
    ensures r.index + 1 >= n ==> Next(n, r).index == r.index && Next(n, r).finished
    ensures Next(n, r).index >= r.index && Next(n, r).reviewTimeLeft == r.reviewTimeLeft
  {
  }

  /** The ticks and the buttons keep the index on a missed question and never move it backwards. */
  lemma TransitionsKeepIndex(n: nat, r: Review)
    requires Inv(n, r)
    ensures Inv(n, OverallTick(r)) && OverallTick(r).index == r.index
    ensures Inv(n, QuestionTick(n, r)) && QuestionTick(n, r).index >= r.index
    ensures Inv(n, EndEarly(r)) && EndEarly(r).finished
  {
  }

  /** `k` seconds of the overall budget. */
  function OverallTicks(r: Review, k: nat): Review
    decreases k
  {
    if k == 0 then r else OverallTicks(OverallTick(r), k - 1)
  }

  lemma {:induction false} FinishedStays(r: Review, k: nat)
    requires r.finished
    ensures OverallTicks(r, k) == r
    decreases k
  {
    if k > 0 {
      FinishedStays(r, k - 1);
    }
  }

  /** The budget ends the review: with `t` seconds left, `t` ticks finish it. */
  lemma {:induction false} BudgetEnds(r: Review, k: nat)
    requires 1 <= r.reviewTimeLeft <= k
    ensures OverallTicks(r, k).finished
    decreases k
  {
    var r1 := OverallTick(r);
    if r.finished {
      FinishedStays(r, k);
    } else if r.reviewTimeLeft <= 1 {
      FinishedStays(r1, k - 1);
    } else {
      BudgetEnds(r1, k - 1);
    }
  }

  /** `k` seconds of the question's countdown over `n` missed questions. */
  function QuestionTicks(n: nat, r: Review, k: nat): Review
    decreases k
  {
    if k == 0 then r else QuestionTicks(n, QuestionTick(n, r), k - 1)
  }

  /** With `t` seconds left on the question, the `t`-th tick moves to the next question or finishes. */
  lemma {:induction false} QuestionTimeEnds(n: nat, r: Review)
    requires Inv(n, r) && !r.finished && r.questionTimer >= 1
    ensures var s := QuestionTicks(n, r, r.questionTimer);
            (s.index == r.index + 1 && s.questionTimer == 30) || s.finished
    decreases r.questionTimer
  {
    var r1 := QuestionTick(n, r);
    if r.questionTimer > 1 {
      QuestionTimeEnds(n, r1);
      assert QuestionTicks(n, r, r.questionTimer) == QuestionTicks(n, r1, r1.questionTimer);
    }
  }

  // ---------------------------------------------------------------------
  // What the screen shows
  // ---------------------------------------------------------------------

  /** `options[n - 1]`: a 1-based option number looked up; `None` is `undefined`. */
  function OptionShown(options: seq<string>, n: int): (r: Option<string>)
    ensures r.Some? <==> 1 <= n <= |options|
  {
    if 1 <= n <= |options| then Some(options[n - 1]) else None
  }

  /** An answer given by clicking an option shows that option; the missing answer `-1` shows nothing. */
  lemma ChosenOptionShown(options: seq<string>, index: nat)
    requires index < |options|
    ensures OptionShown(options, PagesTest.ChosenAnswer(index)) == Some(options[index])
    ensures OptionShown(options, -1) == None
  {
  }

  /** `formatTime(sec)`: whole minutes, ':', and the remaining seconds padded to two digits. */
  function FormatTime(sec: int): string
  {
    IntToString(FloorDiv(sec, 60)) + ":" + PadStart2(IntToString(JsRem(sec, 60)))
  }

  /** Reading `m:ss` back: the minutes and seconds that `parseInt` finds on either side of the ':'. */
  function ReadTime(t: string): Option<int>
  {
    var parts := Split(t, ':');
    if |parts| == 2 && ParseInt(parts[0]).Some? && ParseInt(parts[1]).Some? then
      Some(60 * ParseInt(parts[0]).value + ParseInt(parts[1]).value)
    else None
  }

  /** A time that is not negative is shown with two-digit seconds and reads back as itself. */
  lemma FormatTimeReads(sec: int)
    requires sec >= 0
    ensures ReadTime(FormatTime(sec)) == Some(sec)
    ensures var parts := Split(FormatTime(sec), ':'); |parts| == 2 && |parts[1]| == 2
  {
    var m := FloorDiv(sec, 60);
    var s := JsRem(sec, 60);
    assert 60 * m + s == sec && m >= 0 && 0 <= s < 60;
    var mt := NatToString(m);
    var st := PadStart2(NatToString(s));
    assert IntToString(m) == mt;
    assert IntToString(s) == NatToString(s);
    assert FormatTime(sec) == mt + [':'] + st;
    SecondsDigits(s);
    ParseIntNatToString(m);
    ParseIntPadStart2(s);
    ReadTimeOf(mt, st, m, s);
  }

  /** Two runs of digits around a ':' split there and read back as minutes and seconds. */
  lemma ReadTimeOf(mt: string, st: string, m: int, s: int)
    requires IsDigits(mt) && IsDigits(st)
    requires ParseInt(mt) == Some(m) && ParseInt(st) == Some(s)
    ensures Split(mt + [':'] + st, ':') == [mt, st]
    ensures ReadTime(mt + [':'] + st) == Some(60 * m + s)
  {
    SplitAtColon(mt, st);
    var parts := Split(mt + [':'] + st, ':');
    assert |parts| == 2 && parts[0] == mt && parts[1] == st;
  }

  lemma SplitAtColon(mt: string, st: string)
    requires IsDigits(mt) && IsDigits(st)
    ensures Split(mt + [':'] + st, ':') == [mt, st]
  {
    NoColonInDigits(mt);
    NoColonInDigits(st);
    SplitPrefix(mt, ':', st);
    SplitNoSeparator(st, ':');
  }

  /** The seconds field is two digits. */
  lemma SecondsDigits(s: nat)
    requires s < 100
    ensures IsDigits(PadStart2(NatToString(s))) && |PadStart2(NatToString(s))| == 2
  {
    var d := NatToString(s);
    ShortNatToString(s);
    if |d| == 1 {
      assert PadStart2(d) == ['0'] + d;
    }
  }

  lemma ShortNatToString(s: nat)
    requires s < 100
    ensures |NatToString(s)| <= 2
  {
    if s >= 10 {
      var t := s / 10;
      assert t < 10;
      assert |NatToString(t)| == 1;
    }
  }

  lemma NoColonInDigits(s: string)
    requires IsDigits(s)
    ensures ':' !in s
  {
  }

  // ---------------------------------------------------------------------
  // The component
  // ---------------------------------------------------------------------

  class ReviewPage {
    const incorrectQuestions: seq<Missed>
    var index: nat
    var reviewTimeLeft: int
    var questionTimer: int
    var finished: bool

    function State(): Review
      reads this
    {
      Review(index, reviewTimeLeft, questionTimer, finished)
    }

    /** The screen reads the first missed question as soon as it shows, so it needs one. */
    constructor (incorrectQuestions: seq<Missed>)
      requires |incorrectQuestions| > 0
      ensures this.incorrectQuestions == incorrectQuestions && State() == Initial
    {
      this.incorrectQuestions := incorrectQuestions;
      index := 0;
      reviewTimeLeft := 30 * 60;
      questionTimer := 30;
      finished := false;
    }

    method NextQuestion()
      modifies this
      ensures State() == Next(|incorrectQuestions|, old(State()))
    {
      if index + 1 < |incorrectQuestions| {
        index := index + 1;
        questionTimer := 30;
      } else {
        finished := true;
      }
    }

    method OverallTickNow()
      modifies this
      ensures State() == OverallTick(old(State()))
    {
      if finished {
        return;
      }
      if reviewTimeLeft <= 1 {
        reviewTimeLeft := 0;
        finished := true;
      } else {
        reviewTimeLeft := reviewTimeLeft - 1;
      }
    }

    method QuestionTickNow()
      modifies this
      ensures State() == QuestionTick(|incorrectQuestions|, old(State()))
    {
      if finished {
        return;
      }
      if questionTimer <= 1 {
        NextQuestion();
        questionTimer := 30;
      } else {
        questionTimer := questionTimer - 1;
      }
    }

    method EndReviewEarly()
      modifies this
      ensures State() == EndEarly(old(State()))
    {
      finished := true;
    }

    /** The missed question on screen and the answer given to it. */
    method Current() returns (m: Missed)
      requires Inv(|incorrectQuestions|, State())
      ensures m == incorrectQuestions[index]
    {
      m := incorrectQuestions[index];
    }
  }
}
