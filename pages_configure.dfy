/**
 * The configuration page of the Vite version (`src/pages/ConfigureTest.tsx`):
 * a positional parser for question files whose answers are 1-based option
 * numbers, and the start handler that limits the question set.
 */
module PagesConfigure {
  import opened Text
  import opened JsMath

  /** A question of this version: the option texts and the 1-based number of the correct one. */
  datatype MCQ = MCQ(question: string, options: seq<string>, answer: int, explanation: string)

  /** The settings handed to the test: minutes, the question limit, the pass mark. */
  datatype Config = Config(timer: int, maxQuestions: int, passing: int)

  const AnswerLabel := "Answer:"
  const ExplanationLabel := "Explanation:"
  const NotAvailable := "Not available"

  // ---------------------------------------------------------------------
  // One block
  // ---------------------------------------------------------------------

  /** `lines.filter(line => line.trim() !== "")` */
  function NonBlank(ls: seq<string>): (r: seq<string>)
    ensures |r| <= |ls|
    ensures forall k :: 0 <= k < |r| ==> Trim(r[k]) != [] && r[k] in ls
    decreases |ls|
  {
    if ls == [] then []
    else (if Trim(ls[0]) != [] then [ls[0]] else []) + NonBlank(ls[1..])
  }

  /** The filter keeps exactly the lines that are not blank. */
  lemma {:induction false} NonBlankMembers(ls: seq<string>, l: string)
    ensures l in NonBlank(ls) <==> l in ls && Trim(l) != []
    decreases |ls|
  {
    if ls != [] {
      NonBlankMembers(ls[1..], l);
      assert ls == [ls[0]] + ls[1..];
    }
  }

  /** The filter works line by line: it keeps order and multiplicity, and keeps one line iff it is not blank. */
  lemma {:induction false} NonBlankAppend(a: seq<string>, b: seq<string>)
    ensures NonBlank(a + b) == NonBlank(a) + NonBlank(b)
    decreases |a|
  {
    if a == [] {
      assert a + b == b;
    } else {
      var ab := a + b;
      assert ab[0] == a[0] && ab[1..] == a[1..] + b;
      NonBlankAppend(a[1..], b);
      NonBlankFirst(ab);
      NonBlankFirst(a);
      AppendAssoc(if Trim(a[0]) != [] then [a[0]] else [], NonBlank(a[1..]), NonBlank(b));
    }
  }

  lemma NonBlankFirst(ls: seq<string>)
    requires ls != []
    ensures NonBlank(ls) == (if Trim(ls[0]) != [] then [ls[0]] else []) + NonBlank(ls[1..])
  {
  }

  /** One line is kept iff it is not blank. */
  lemma NonBlankOne(l: string)
    ensures NonBlank([l]) == if Trim(l) != [] then [l] else []
  {
    assert [l][1..] == [];
  }

  /** A list without blank lines passes the filter unchanged. */
  lemma {:induction false} NonBlankKeeps(ls: seq<string>)
    requires forall k :: 0 <= k < |ls| ==> Trim(ls[k]) != []
    ensures NonBlank(ls) == ls
    decreases |ls|
  {
    if ls != [] {
      NonBlankKeeps(ls[1..]);
      assert [ls[0]] + ls[1..] == ls;
    }
  }

  /** `block.trim().split("\n").filter(line => line.trim() !== "")` */
  function BlockLines(block: string): (ls: seq<string>)
    ensures forall k :: 0 <= k < |ls| ==> Trim(ls[k]) != [] && '\n' !in ls[k]
  {
    NonBlank(Split(Trim(block), '\n'))
  }

  /** The option marker `[\dA-Da-d]`. */
  predicate IsMarker(c: char) {
    IsDigit(c) || 'A' <= c <= 'D' || 'a' <= c <= 'd'
  }

  /** `line.replace(/^([\dA-Da-d])\)\s*\/, "")` */
  function StripMarker(line: string): string
  {
    if |line| >= 2 && IsMarker(line[0]) && line[1] == ')' then TrimStart(line[2..]) else line
  }

  /** One option: the marker removed, then `trim()`. */
  function OptionText(line: string): string
  {
    Trim(StripMarker(line))
  }

  /** A marker and `)` are removed with the white space after them; a line without them is only trimmed. */
  lemma OptionTextMarker(m: char, text: string, line: string)
    requires IsMarker(m)
    ensures OptionText([m, ')'] + text) == Trim(text)
    ensures !(|line| >= 2 && IsMarker(line[0]) && line[1] == ')') ==> OptionText(line) == Trim(line)
  {
    assert ([m, ')'] + text)[2..] == text;
    TrimAfterTrimStart(text);
  }

  /** `lines.slice(1, 5).map(...)` */
  function OptionTexts(ls: seq<string>): (r: seq<string>)
    ensures |r| == |ls|
  {
    seq(|ls|, k requires 0 <= k < |ls| => OptionText(ls[k]))
  }

  predicate StartsWith(s: string, p: string) {
    |p| <= |s| && s[..|p|] == p
  }

  /** The index `lines.find(line => line.startsWith(p))` stops at; `|ls|` when no line does. */
  function FirstStartingWith(ls: seq<string>, p: string): (k: nat)
    ensures k <= |ls|
    ensures k < |ls| ==> StartsWith(ls[k], p)
    ensures forall j :: 0 <= j < k ==> !StartsWith(ls[j], p)
    decreases |ls|
  {
    if ls == [] then 0
    else if StartsWith(ls[0], p) then 0
    else 1 + FirstStartingWith(ls[1..], p)
  }

  /** A line that starts with a prefix ending in ':' contains ':'. */
  lemma LabelHasColon(line: string, prefix: string)
    requires StartsWith(line, prefix) && |prefix| > 0 && prefix[|prefix| - 1] == ':'
    ensures ':' in line
  {
    assert line[|prefix| - 1] == prefix[|prefix| - 1];
  }

  /** `line.split(":")[1]`: the text between the first and the second ':'. */
  function SecondField(line: string): string
    requires ':' in line
  {
    SplitHasSecond(line, ':');
    Split(line, ':')[1]
  }

  /** The field after a prefix is the text up to the next ':', whatever follows it. */
  lemma SecondFieldOf(prefix: string, b: string, rest: string)
    requires ':' !in prefix && ':' !in b && (rest == [] || rest[0] == ':')
    ensures ':' in prefix + [':'] + b + rest
    ensures SecondField(prefix + [':'] + b + rest) == b
  {
    var line := prefix + [':'] + b + rest;
    assert line[|prefix|] == ':';
    assert line == prefix + [':'] + (b + rest);
    SplitPrefix(prefix, ':', b + rest);
    SplitFirstPiece(b, rest, ':');
  }

  /** `answerLine?.split(":")[1]?.trim() || ""` */
  function AnswerText(ls: seq<string>): string
  {
    var k := FirstStartingWith(ls, AnswerLabel);
    if k == |ls| then ""
    else
      LabelHasColon(ls[k], AnswerLabel);
      Trim(SecondField(ls[k]))
  }

  /** `explanationLine ? explanationLine.split(":")[1]?.trim() : "Not available"` */
  function ExplanationText(ls: seq<string>): string
  {
    var k := FirstStartingWith(ls, ExplanationLabel);
    if k == |ls| then NotAvailable
    else
      LabelHasColon(ls[k], ExplanationLabel);
      Trim(SecondField(ls[k]))
  }

  /**
   * The question of a block's lines: six lines at least, an answer that
   * `parseInt` reads as a number other than 0; the question is the first line
   * and the options are lines two to five.
   */
  function ParseLines(ls: seq<string>): Option<MCQ>
  {
    if |ls| < 6 then None
    else
      var answer := ParseInt(AnswerText(ls));
      if answer.None? || answer.value == 0 then None
      else Some(MCQ(ls[0], OptionTexts(ls[1..5]), answer.value, ExplanationText(ls)))
  }

  function ParseBlock(block: string): Option<MCQ>
  {
    ParseLines(BlockLines(block))
  }

  /**
   * A block is kept exactly when it has six non-blank lines and an answer that
   * reads as a non-zero number; it then has four options, and the answer is
   * never checked against them.
   */
  lemma ParseLinesIff(ls: seq<string>)
    ensures ParseLines(ls).Some? <==>
            |ls| >= 6 && ParseInt(AnswerText(ls)).Some? && ParseInt(AnswerText(ls)).value != 0
    ensures ParseLines(ls).Some? ==>
              var q := ParseLines(ls).value;
              && q.question == ls[0]
              && |q.options| == 4
              && (forall k :: 0 <= k < 4 ==> q.options[k] == OptionText(ls[k + 1]))
              && q.answer != 0
              && (FirstStartingWith(ls, ExplanationLabel) == |ls| ==> q.explanation == NotAvailable)
  {
  }

  /** Any non-zero answer number is accepted, also one beyond the four options. */
  lemma AnswerNumberRead(ls: seq<string>, n: nat)
    requires |ls| >= 6 && n >= 1
    requires FirstStartingWith(ls, AnswerLabel) < |ls|
    requires ls[FirstStartingWith(ls, AnswerLabel)] == AnswerLabel + " " + NatToString(n)
    ensures ParseLines(ls).Some? && ParseLines(ls).value.answer == n
  {
    AnswerLineField(n);
    ParseIntNatToString(n);
  }

  /** The field of `Answer: <n>` is the digits of `n`. */
  lemma AnswerLineField(n: nat)
    ensures ':' in AnswerLabel + " " + NatToString(n)
    ensures Trim(SecondField(AnswerLabel + " " + NatToString(n))) == NatToString(n)
  {
    var digits := NatToString(n);
    var field := " " + digits;
    DigitsHaveNoColon(digits);
    assert ':' !in field;
    var line := AnswerLabel + " " + digits;
    assert line == "Answer" + [':'] + field + [];
    SecondFieldOf("Answer", field, []);
    assert Trim(field) == Trim(digits);
    TrimTrimmed(digits);
  }

  lemma DigitsHaveNoColon(s: string)
    requires IsDigits(s)
    ensures ':' !in s && '\n' !in s
  {
  }

  // ---------------------------------------------------------------------
  // The file
  // ---------------------------------------------------------------------

  /** The questions among the results, in order (`filter(Boolean)`). */
  function Kept(rs: seq<Option<MCQ>>): (qs: seq<MCQ>)
    ensures |qs| <= |rs|
    decreases |rs|
  {
    if rs == [] then []
    else Kept(rs[..|rs| - 1]) + (if rs[|rs| - 1].Some? then [rs[|rs| - 1].value] else [])
  }

  /** Keeping the questions of two lists one after the other keeps their order. */
  lemma {:induction false} KeptAppend(a: seq<Option<MCQ>>, b: seq<Option<MCQ>>)
    ensures Kept(a + b) == Kept(a) + Kept(b)
    decreases |b|
  {
    if b != [] {
      var c := b[..|b| - 1];
      KeptAppend(a, c);
      assert (a + b)[..|a + b| - 1] == a + c;
      assert (a + b)[|a + b| - 1] == b[|b| - 1];
      assert b[..|b| - 1] == c;
    } else {
      assert a + b == a;
    }
  }

  /** A question is kept exactly when some block produced it. */
  lemma {:induction false} KeptMembers(rs: seq<Option<MCQ>>, q: MCQ)
    ensures q in Kept(rs) <==> Some(q) in rs
    decreases |rs|
  {
    if rs != [] {
      var init := rs[..|rs| - 1];
      KeptMembers(init, q);
      assert rs == init + [rs[|rs| - 1]];
    }
  }

  function BlockResults(blocks: seq<string>): (rs: seq<Option<MCQ>>)
    ensures |rs| == |blocks|
  {
    seq(|blocks|, k requires 0 <= k < |blocks| => ParseBlock(blocks[k]))
  }

  /** `text.split(/\n\s*\n/).map(parse).filter(Boolean)`, without CRLF normalisation. */
  function ParseFile(text: string): seq<MCQ>
  {
    Kept(BlockResults(SplitBlocks(text)))
  }

  /**
   * The file yields at most one question per block, and exactly the questions
   * its blocks parse to, in the order of the blocks.
   */
  lemma ParseFileMembers(text: string, q: MCQ)
    ensures |ParseFile(text)| <= |SplitBlocks(text)|
    ensures q in ParseFile(text) <==> Some(q) in BlockResults(SplitBlocks(text))
  {
    KeptMembers(BlockResults(SplitBlocks(text)), q);
  }

  // ---------------------------------------------------------------------
  // Writing a question so that it parses back
  // ---------------------------------------------------------------------

  /** The block a question is written as: question, `A)` to `D)` options, answer, explanation. */
  function FormatLines(q: MCQ): seq<string>
    requires |q.options| == 4 && q.answer >= 1
  {
    [q.question,
     "A) " + q.options[0], "B) " + q.options[1], "C) " + q.options[2], "D) " + q.options[3],
     AnswerLabel + " " + NatToString(q.answer),
     ExplanationLabel + " " + q.explanation]
  }

  function Format(q: MCQ): string
    requires |q.options| == 4 && q.answer >= 1
  {
    Join(FormatLines(q), '\n')
  }

  /** The questions that survive being written and read back. */
  predicate Writable(q: MCQ) {
    && |q.options| == 4 && q.answer >= 1
    && q.question != [] && IsTrimmed(q.question) && '\n' !in q.question
    && !StartsWith(q.question, AnswerLabel) && !StartsWith(q.question, ExplanationLabel)
    && (forall k :: 0 <= k < 4 ==> IsTrimmed(q.options[k]) && '\n' !in q.options[k])
    && q.explanation != [] && IsTrimmed(q.explanation) && '\n' !in q.explanation && ':' !in q.explanation
  }

  /** Reading back a written question gives the question. */
  lemma FormatParse(q: MCQ)
    requires Writable(q)
    ensures ParseBlock(Format(q)) == Some(q)
  {
    var ls := FormatLines(q);
    var text := Format(q);
    FormatLinesShape(q);
    JoinEnds(ls, '\n');
    TrimTrimmed(text);
    SplitJoin(ls, '\n');
    NonBlankKeeps(ls);
    assert BlockLines(text) == ls;
    FormatAnswer(q);
    FormatOptions(q);
    FormatExplanation(q);
  }

  lemma FormatLinesShape(q: MCQ)
    requires Writable(q)
    ensures var ls := FormatLines(q);
            && |ls| == 7 && ls[0] != [] && ls[6] != [] && !IsSpace(ls[0][0]) && !IsSpace(ls[6][|ls[6]| - 1])
            && (forall k :: 0 <= k < 7 ==> '\n' !in ls[k] && Trim(ls[k]) != [])
  {
    var ls := FormatLines(q);
    DigitsHaveNoColon(NatToString(q.answer));
    forall k | 0 <= k < 7
      ensures Trim(ls[k]) != []
    {
      TrimEmptyIffAllSpace(ls[k]);
      if k == 0 {
        assert !IsSpace(ls[0][0]);
      } else {
        assert !IsSpace(ls[k][0]);
      }
    }
  }

  lemma FormatAnswer(q: MCQ)
    requires Writable(q)
    ensures FirstStartingWith(FormatLines(q), AnswerLabel) == 5
    ensures ParseInt(AnswerText(FormatLines(q))) == Some(q.answer)
  {
    var ls := FormatLines(q);
    assert StartsWith(ls[5], AnswerLabel);
    forall j | 0 <= j < 5
      ensures !StartsWith(ls[j], AnswerLabel)
    {
      if j > 0 {
        assert ls[j][1] == ')';
      }
    }
    AnswerNumberRead(ls, q.answer);
  }

  lemma FormatOptions(q: MCQ)
    requires Writable(q)
    ensures OptionTexts(FormatLines(q)[1..5]) == q.options
  {
    var ls := FormatLines(q);
    var markers := ['A', 'B', 'C', 'D'];
    forall k | 0 <= k < 4
      ensures OptionText(ls[k + 1]) == q.options[k]
    {
      assert ls[k + 1] == [markers[k], ')'] + (" " + q.options[k]);
      OptionTextMarker(markers[k], " " + q.options[k], ls[k + 1]);
      assert Trim(" " + q.options[k]) == Trim(q.options[k]);
      TrimTrimmed(q.options[k]);
    }
  }

  lemma FormatExplanation(q: MCQ)
    requires Writable(q)
    ensures ExplanationText(FormatLines(q)) == q.explanation
  {
    var ls := FormatLines(q);
    assert StartsWith(ls[6], ExplanationLabel);
    forall j | 0 <= j < 6
      ensures !StartsWith(ls[j], ExplanationLabel)
    {
      if 0 < j < 5 {
        assert ls[j][1] == ')';
      } else if j == 5 {
        assert ls[5][0] == 'A';
      }
    }
    assert FirstStartingWith(ls, ExplanationLabel) == 6;
    assert ls[6] == "Explanation" + [':'] + (" " + q.explanation) + [];
    SecondFieldOf("Explanation", " " + q.explanation, []);
    assert Trim(" " + q.explanation) == Trim(q.explanation);
    TrimTrimmed(q.explanation);
  }

  // ---------------------------------------------------------------------
  // Starting the test
  // ---------------------------------------------------------------------

  /** `shuffled.slice(0, Math.min(maxQuestions, shuffled.length))` */
  function Selected(shuffled: seq<MCQ>, maxQuestions: int): (r: seq<MCQ>)
    ensures multiset(r) <= multiset(shuffled)
    ensures |r| <= |shuffled|
    ensures maxQuestions >= 0 ==> |r| == Min(maxQuestions, |shuffled|)
    ensures maxQuestions >= 1 && |shuffled| >= 1 ==> |r| >= 1
    ensures r == shuffled[..|r|]
  {
    var end := SliceEnd(Min(maxQuestions, |shuffled|), |shuffled|);
    assert shuffled == shuffled[..end] + shuffled[end..];
    shuffled[..end]
  }

  /**
   * What `handleStart` hands to the test as written: nothing when no question
   * is loaded, otherwise the selection, whatever the limit.
   */
  function StartAsWritten(questions: seq<MCQ>, shuffled: seq<MCQ>, maxQuestions: int): Option<seq<MCQ>>
  {
    if |questions| == 0 then None else Some(Selected(shuffled, maxQuestions))
  }

  /**
   * The corrected `handleStart`: a limit below 1 is refused as well as an
   * empty set, because such a limit selects no question or, through the
   * negative `slice` end, a number of questions unrelated to it.
   */
  function Start(questions: seq<MCQ>, shuffled: seq<MCQ>, maxQuestions: int): Option<seq<MCQ>>
  {
    if |questions| == 0 || maxQuestions < 1 then None else Some(Selected(shuffled, maxQuestions))
  }

  /**
   * As written, a loaded set with a cleared (0) or negative limit starts a
   * test; the selection is empty exactly for 0 and for limits at or below
   * minus the count, and a negative limit drops that many questions from the
   * end instead of limiting the count.
   */
  lemma StartAsWrittenSelects(questions: seq<MCQ>, shuffled: seq<MCQ>, maxQuestions: int)
    requires multiset(shuffled) == multiset(questions) && |questions| > 0 && maxQuestions < 1
    ensures StartAsWritten(questions, shuffled, maxQuestions).Some?
    ensures StartAsWritten(questions, shuffled, maxQuestions).value == [] <==> maxQuestions == 0 || maxQuestions <= -|questions|
    ensures maxQuestions < 0 ==>
              |StartAsWritten(questions, shuffled, maxQuestions).value| == if |questions| + maxQuestions > 0 then |questions| + maxQuestions else 0
  {
    assert |shuffled| == |multiset(shuffled)| == |questions|;
  }

  /** The page: the three settings, the chosen file's name and the parsed questions. */
  class ConfigurePage {
    var timer: int
    var maxQuestions: int
    var passing: int
    var fileName: string
    var questions: seq<MCQ>

    constructor ()
      ensures timer == 10 && maxQuestions == 10 && passing == 70
      ensures fileName == [] && questions == []
    {
      timer := 10;
      maxQuestions := 10;
      passing := 70;
      fileName := [];
      questions := [];
    }

    method SetTimer(value: int)
      modifies this
      ensures timer == value
      ensures maxQuestions == old(maxQuestions) && passing == old(passing)
      ensures fileName == old(fileName) && questions == old(questions)
    {
      timer := value;
    }

    method SetMaxQuestions(value: int)
      modifies this
      ensures maxQuestions == value
      ensures timer == old(timer) && passing == old(passing)
      ensures fileName == old(fileName) && questions == old(questions)
    {
      maxQuestions := value;
    }

    method SetPassing(value: int)
      modifies this
      ensures passing == value
      ensures timer == old(timer) && maxQuestions == old(maxQuestions)
      ensures fileName == old(fileName) && questions == old(questions)
    {
      passing := value;
    }

    /**
     * `handleFileUpload` with the chosen file's name and text (`None`: no file):
     * the questions become the file's parse; the count is what the alert reports.
     */
    method HandleFileUpload(file: Option<(string, string)>) returns (loaded: Option<nat>)
      modifies this
      ensures file.None? ==> loaded.None? && unchanged(this)
      ensures file.Some? ==>
                && fileName == file.value.0
                && questions == ParseFile(file.value.1)
                && loaded == Some(|questions|)
                && timer == old(timer) && maxQuestions == old(maxQuestions) && passing == old(passing)
    {
      if file.None? {
        return None;
      }
      fileName := file.value.0;
      var parsed := ParseFile(file.value.1);
      questions := parsed;
      loaded := Some(|parsed|);
    }

    /**
     * `handleStart`, corrected, with `shuffled` the order the random sort
     * leaves the questions in: refuses an empty set or a limit below 1,
     * otherwise hands the first `min(maxQuestions, count)` questions and the
     * settings to the test.
     */
    method HandleStart(shuffled: seq<MCQ>) returns (started: Option<(seq<MCQ>, Config)>)
      requires multiset(shuffled) == multiset(questions)
      modifies this
      ensures Start(old(questions), shuffled, maxQuestions).None? ==> started.None? && unchanged(this)
      ensures Start(old(questions), shuffled, maxQuestions).Some? ==>
                && questions == shuffled
                && started == Some((Start(old(questions), shuffled, maxQuestions).value, Config(timer, maxQuestions, passing)))
      ensures timer == old(timer) && maxQuestions == old(maxQuestions) && passing == old(passing)
      ensures fileName == old(fileName)
    {
      if |questions| == 0 || maxQuestions < 1 {
        return None;
      }
      questions := shuffled;
      var selected := questions[..SliceEnd(Min(maxQuestions, |questions|), |questions|)];
      started := Some((selected, Config(timer, maxQuestions, passing)));
    }
  }

  /**
   * The corrected start goes ahead exactly with questions loaded and a limit
   * of at least 1; then the test receives a non-empty selection of loaded
   * questions, no more than the limit.
   */
  lemma StartSelection(questions: seq<MCQ>, shuffled: seq<MCQ>, maxQuestions: int)
    requires multiset(shuffled) == multiset(questions)
    ensures Start(questions, shuffled, maxQuestions).Some? <==> |questions| > 0 && maxQuestions >= 1
    ensures Start(questions, shuffled, maxQuestions).Some? ==>
              && Start(questions, shuffled, maxQuestions).value == Selected(shuffled, maxQuestions)
              && 1 <= |Selected(shuffled, maxQuestions)| <= maxQuestions
              && |Selected(shuffled, maxQuestions)| == Min(maxQuestions, |questions|)
              && forall q :: q in Selected(shuffled, maxQuestions) ==> q in questions
  {
    assert |shuffled| == |multiset(shuffled)| == |questions|;
    forall q | q in Selected(shuffled, maxQuestions)
      ensures q in questions
    {
      assert q in multiset(Selected(shuffled, maxQuestions));
      assert q in multiset(questions);
    }
  }
}
