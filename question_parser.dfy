/**
 * The question-file parser of the Next.js version (`src/lib/questionParser.ts`).
 *
 * The text is split into blank-line-separated blocks; each block is scanned
 * line by line with a small state machine (unknown, question, options,
 * answer, explanation) and then validated. A block that fails validation is
 * dropped with its diagnostics and parsing carries on with the next block.
 * A question keeps its correct answer as the option TEXT.
 */
module QuestionParser {
  import opened Text

  /** `src/types/question.ts`: `explanation` is `None` for JavaScript `null`. */
  datatype Question = Question(
    id: nat,
    questionText: string,
    options: seq<string>,
    correctAnswer: string,
    explanation: Option<string>)

  /** What every question the parser returns satisfies. */
  predicate WellFormed(q: Question) {
    && q.questionText != [] && IsTrimmed(q.questionText)
    && |q.options| >= 2
    && (forall i :: 0 <= i < |q.options| ==> q.options[i] != [] && IsTrimmed(q.options[i]))
    && q.correctAnswer in q.options
  }

  // ---------------------------------------------------------------------
  // The insertion-ordered `Map<string, string>` of option key to text
  // ---------------------------------------------------------------------

  /** A JavaScript `Map<string, string>`: its keys in insertion order, and the text stored under each. */
  datatype OptionMap = OptionMap(keys: seq<string>, texts: seq<string>)
  {
    /** One text per key, and each key once. */
    predicate Valid() {
      |keys| == |texts| && forall i, j :: 0 <= i < j < |keys| ==> keys[i] != keys[j]
    }

    /** `map.size` */
    function Size(): nat {
      |keys|
    }

    /** `map.get(k)`: the text stored under `k`, or `None` (`undefined`). */
    function Get(k: string): (r: Option<string>)
      requires Valid()
      ensures r.Some? <==> k in keys
      ensures r.Some? ==> r.value in texts
    {
      match Find(keys, k)
      case None => None
      case Some(i) => Some(texts[i])
    }

    /** `map.set(k, v)`: a new key goes last, an existing key keeps its position. */
    function Set(k: string, v: string): (m: OptionMap)
      requires Valid()
      ensures m.Valid()
      ensures k in m.keys && m.Get(k) == Some(v)
      ensures forall k' :: k' != k ==> m.Get(k') == Get(k')
      ensures k in keys ==> m.keys == keys
      ensures k !in keys ==> m.keys == keys + [k]
    {
      match Find(keys, k)
      case None =>
        var m := OptionMap(keys + [k], texts + [v]);
        assert Find(m.keys, k) == Some(|keys|);
        assert forall k' :: k' != k ==> Find(m.keys, k') == Find(keys, k');
        m
      case Some(i) =>
        var m := OptionMap(keys, texts[i := v]);
        assert forall k' :: k' != k && Find(keys, k').Some? ==> Find(keys, k').value != i;
        m
    }

    /** `Array.from(map.values())`: the texts in key-insertion order. */
    function Values(): (vs: seq<string>)
      requires Valid()
      ensures |vs| == Size()
      ensures forall i :: 0 <= i < |keys| ==> Get(keys[i]) == Some(vs[i])
    {
      forall i | 0 <= i < |keys| ensures Find(keys, keys[i]) == Some(i) {
        FindDistinct(keys, i);
      }
      texts
    }
  }

  /** The position of `k` in `keys`, searching from the end. */
  function Find(keys: seq<string>, k: string): (r: Option<nat>)
    ensures r.Some? ==> r.value < |keys| && keys[r.value] == k
    ensures r.None? <==> k !in keys
    decreases |keys|
  {
    if keys == [] then None
    else if keys[|keys| - 1] == k then Some(|keys| - 1)
    else Find(keys[..|keys| - 1], k)
  }

  /** Among distinct keys, `Find` returns the one position of a key. */
  lemma {:induction false} FindDistinct(keys: seq<string>, i: nat)
    requires i < |keys|
    requires forall a, b :: 0 <= a < b < |keys| ==> keys[a] != keys[b]
    ensures Find(keys, keys[i]) == Some(i)
    decreases |keys|
  {
    if i < |keys| - 1 {
      FindDistinct(keys[..|keys| - 1], i);
    }
  }

  const EmptyOptions := OptionMap([], [])

  /** Setting an existing key replaces its text where it stands; the other texts and the order stay. */
  lemma SetKeepsPosition(m: OptionMap, k: string, v: string, i: nat)
    requires m.Valid() && i < |m.keys| && m.keys[i] == k
    ensures m.Set(k, v).keys == m.keys
    ensures m.Set(k, v).Values() == m.Values()[i := v]
  {
    FindDistinct(m.keys, i);
  }

  // ---------------------------------------------------------------------
  // Line classification
  // ---------------------------------------------------------------------

  /**
   * What a line is, judged on its trimmed text, with the source's precedence:
   * `Explanation:` before a whole-line `Answer: <digits>` before `<digits>)`.
   */
  datatype LineKind =
    | Blank
    | ExplanationLine(rest: string)
    | AnswerLine(key: string)
    | OptionLine(key: string, text: string)
    | OtherLine

  /** `/^Answer:\s*(\d+)$/i` on the trimmed line: the digits, if it matches. */
  function AnswerMatch(t: string): (r: Option<string>)
    ensures r.Some? ==> r.value != [] && IsDigits(r.value)
  {
    if StartsWithIgnoreCase(t, "answer:") then
      var u := TrimStart(t[7..]);
      DigitPrefixLongest(u);
      if u != [] && DigitPrefix(u) == u then Some(u) else None
    else None
  }

  /** `/^(\d+)\)\s*(.*)/` on the trimmed line: the key and the option text (`(.*)` trimmed). */
  function OptionMatch(t: string): (r: Option<(string, string)>)
    ensures r.Some? ==> r.value.0 != [] && IsTrimmed(r.value.1)
  {
    var d := DigitPrefix(t);
    if d != [] && |d| < |t| && t[|d|] == ')' then
      Some((d, Trim(TakeLine(TrimStart(t[|d| + 1..])))))
    else None
  }

  function KindOf(line: string): (k: LineKind)
    ensures k.OptionLine? ==> IsTrimmed(k.text)
  {
    var t := Trim(line);
    if t == [] then Blank
    else if StartsWithIgnoreCase(t, "explanation:") then
      ExplanationLine(Trim(t[12..]))
    else if AnswerMatch(t).Some? then AnswerLine(AnswerMatch(t).value)
    else if OptionMatch(t).Some? then OptionLine(OptionMatch(t).value.0, OptionMatch(t).value.1)
    else OtherLine
  }

  /** What `/^Answer:\s*(\d+)$/i` accepts, capturing `d`: the label in any case, white space, digits to the end. */
  predicate AnswerPattern(t: string, d: string) {
    StartsWithIgnoreCase(t, "answer:") && d != [] && IsDigits(d)
    && 7 + |d| <= |t| && t[|t| - |d|..] == d && AllSpace(t[7..|t| - |d|])
  }

  /** The answer matcher accepts exactly the answer pattern and captures its digits. */
  lemma AnswerMatchIff(t: string, d: string)
    ensures AnswerMatch(t) == Some(d) <==> AnswerPattern(t, d)
  {
    if AnswerMatch(t) == Some(d) {
      AnswerMatchSound(t, d);
    }
    if AnswerPattern(t, d) {
      AnswerMatchComplete(t, d);
    }
  }

  lemma AnswerMatchSound(t: string, d: string)
    requires AnswerMatch(t) == Some(d)
    ensures AnswerPattern(t, d)
  {
    AnswerMatchUnfold(t, d);
    var x := t[7..];
    TrimStartSpace(x);
    SuffixSlices(t, 7, |d|);
  }

  lemma AnswerMatchUnfold(t: string, d: string)
    requires AnswerMatch(t) == Some(d)
    ensures StartsWithIgnoreCase(t, "answer:") && d != [] && IsDigits(d) && TrimStart(t[7..]) == d
  {
    DigitPrefixLongest(TrimStart(t[7..]));
  }

  lemma SuffixSlices(t: string, i: nat, n: nat)
    requires i + n <= |t|
    ensures t[i..][..|t| - i - n] == t[i..|t| - n] && t[i..][|t| - i - n..] == t[|t| - n..]
  {
  }

  lemma AnswerMatchComplete(t: string, d: string)
    requires AnswerPattern(t, d)
    ensures AnswerMatch(t) == Some(d)
  {
    var w := t[7..|t| - |d|];
    assert t[7..] == w + d;
    assert !IsSpace(d[0]);
    TrimStartAfterSpace(w, d);
    DigitPrefixAll(d);
  }

  /**
   * What `/^(\d+)\)\s*(.*)/` accepts, capturing the key `k` and, trimmed, the
   * text `x`: digits, `)`, then the rest of the line after white space.
   */
  predicate OptionPattern(t: string, k: string, x: string) {
    k != [] && IsDigits(k) && |k| < |t| && t[..|k|] == k && t[|k|] == ')'
    && x == Trim(TakeLine(TrimStart(t[|k| + 1..])))
  }

  /** The option matcher accepts exactly the option pattern: the key is all the digits before `)`. */
  lemma OptionMatchIff(t: string, k: string, x: string)
    ensures OptionMatch(t) == Some((k, x)) <==> OptionPattern(t, k, x)
  {
    if OptionMatch(t) == Some((k, x)) {
      DigitPrefixLongest(t);
    }
    if OptionPattern(t, k, x) {
      OptionMatchComplete(t, k, x);
    }
  }

  lemma OptionMatchComplete(t: string, k: string, x: string)
    requires OptionPattern(t, k, x)
    ensures OptionMatch(t) == Some((k, x))
  {
    var rest := t[|k|..];
    assert t == k + rest;
    assert rest[0] == ')';
    DigitPrefixStops(k, rest);
  }

  /**
   * Which kind a line is, by the patterns on its trimmed text in the source's
   * order: blank, `Explanation:` (any case), the answer pattern, the option
   * pattern, anything else.
   */
  lemma KindOfIff(line: string)
    ensures KindOf(line).Blank? <==> AllSpace(line)
    ensures KindOf(line).ExplanationLine? <==> StartsWithIgnoreCase(Trim(line), "explanation:")
    ensures forall d :: KindOf(line) == AnswerLine(d) <==>
      !StartsWithIgnoreCase(Trim(line), "explanation:") && AnswerPattern(Trim(line), d)
    ensures forall k, x :: KindOf(line) == OptionLine(k, x) <==>
      !StartsWithIgnoreCase(Trim(line), "explanation:") && (forall d :: !AnswerPattern(Trim(line), d))
      && OptionPattern(Trim(line), k, x)
    ensures KindOf(line).OtherLine? <==>
      !AllSpace(line) && !StartsWithIgnoreCase(Trim(line), "explanation:")
      && (forall d :: !AnswerPattern(Trim(line), d)) && (forall k, x :: !OptionPattern(Trim(line), k, x))
  {
    var t := Trim(line);
    TrimEmptyIffAllSpace(line);
    forall d ensures AnswerMatch(t) == Some(d) <==> AnswerPattern(t, d) {
      AnswerMatchIff(t, d);
    }
    forall k, x ensures OptionMatch(t) == Some((k, x)) <==> OptionPattern(t, k, x) {
      OptionMatchIff(t, k, x);
    }
    if AnswerMatch(t).Some? {
      assert AnswerPattern(t, AnswerMatch(t).value);
    }
    if OptionMatch(t).Some? {
      assert OptionPattern(t, OptionMatch(t).value.0, OptionMatch(t).value.1);
    }
  }

  // ---------------------------------------------------------------------
  // The per-block scan, as a specification
  // ---------------------------------------------------------------------

  datatype ScanState = Unknown | InQuestion | InOptions | InAnswer | InExplanation

  /** The scanner's variables: question lines, options, answer key, explanation lines, state, explanation seen. */
  datatype Scan = Scan(
    questionLines: seq<string>,
    options: OptionMap,
    answerKey: Option<string>,
    explanationLines: seq<string>,
    state: ScanState,
    explanationFound: bool)

  const InitialScan := Scan([], EmptyOptions, None, [], Unknown, false)

  /** What one line before the first `Explanation:` line does to the scanner variables. */
  function StepKind(sc: Scan, kind: LineKind, line: string): Scan
    requires sc.options.Valid()
  {
    match kind
    case Blank => sc
    case ExplanationLine(_) => sc
    case AnswerLine(k) => sc.(state := InAnswer, answerKey := Some(k))
    case OptionLine(k, text) =>
      if text != [] then sc.(state := InOptions, options := sc.options.Set(k, text))
      else sc.(state := InOptions)
    case OtherLine =>
      if sc.state == Unknown || sc.state == InQuestion then
        sc.(state := InQuestion, questionLines := sc.questionLines + [line])
      else sc
  }

  /** Every stored option text is non-empty and trimmed. */
  predicate TextsOk(m: OptionMap) {
    forall i :: 0 <= i < |m.texts| ==> m.texts[i] != [] && IsTrimmed(m.texts[i])
  }

  lemma StepKeepsTexts(sc: Scan, kind: LineKind, line: string)
    requires sc.options.Valid() && TextsOk(sc.options)
    requires kind.OptionLine? ==> IsTrimmed(kind.text)
    ensures StepKind(sc, kind, line).options.Valid() && TextsOk(StepKind(sc, kind, line).options)
  {
    if kind.OptionLine? && kind.text != [] {
      SetKeepsTexts(sc.options, kind.key, kind.text);
    }
  }

  lemma SetKeepsTexts(m: OptionMap, k: string, v: string)
    requires m.Valid() && TextsOk(m) && v != [] && IsTrimmed(v)
    ensures TextsOk(m.Set(k, v))
  {
  }

  /**
   * The scan of the remaining lines `rest` from the scanner variables `sc`:
   * line by line until the first `Explanation:` line, which takes its own
   * remainder (when not empty) and every raw line after it, and stops the scan.
   */
  function ScanFrom(sc: Scan, rest: seq<string>): (r: Scan)
    requires sc.options.Valid() && TextsOk(sc.options)
    ensures r.options.Valid() && TextsOk(r.options)
    decreases |rest|
  {
    if rest == [] then sc
    else
      var kind := KindOf(rest[0]);
      if kind.ExplanationLine? then
        sc.(explanationFound := true, state := InExplanation,
            explanationLines := sc.explanationLines + (if kind.rest != [] then [kind.rest] else []) + rest[1..])
      else
        StepKeepsTexts(sc, kind, rest[0]);
        ScanFrom(StepKind(sc, kind, rest[0]), rest[1..])
  }

  /** The scan of a whole block's lines. */
  function BlockScan(lines: seq<string>): Scan
  {
    ScanFrom(InitialScan, lines)
  }

  /** The diagnostics of a block that is dropped. */
  datatype BlockError =
    | MissingQuestionText
    | TooFewOptions
    | MissingAnswer
    | AnswerNotAnOption(key: string)

  /** `optionsMap.get(answerKey)` when it is a non-empty text (JavaScript truthiness). */
  function CorrectText(sc: Scan): Option<string>
    requires sc.options.Valid()
  {
    if sc.answerKey.Some? && sc.options.Get(sc.answerKey.value).Some? && sc.options.Get(sc.answerKey.value).value != []
    then sc.options.Get(sc.answerKey.value)
    else None
  }

  /** The diagnostics, pushed in the source's order: text, option count, answer, answer among the options. */
  function ErrorsOf(questionText: string, sc: Scan): seq<BlockError>
    requires sc.options.Valid()
  {
    var e1 := if questionText == [] then [MissingQuestionText] else [];
    var e2 := if sc.options.Size() < 2 then e1 + [TooFewOptions] else e1;
    var e3 := if sc.answerKey.None? then e2 + [MissingAnswer] else e2;
    if sc.answerKey.Some? && CorrectText(sc).None? then e3 + [AnswerNotAnOption(sc.answerKey.value)] else e3
  }

  function BlockLines(block: string): seq<string>
  {
    Split(Trim(block), '\n')
  }

  /** The question text: the collected lines, joined by newlines and trimmed at the ends. */
  function QuestionTextOf(block: string): string
  {
    Trim(Join(BlockScan(BlockLines(block)).questionLines, '\n'))
  }

  function ExplanationOf(sc: Scan): Option<string>
  {
    if sc.explanationFound then Some(Trim(Join(sc.explanationLines, '\n')))
    else if |sc.explanationLines| > 0 then Some(Trim(Join(sc.explanationLines, '\n')))
    else None
  }

  /** What the parser makes of one block: the diagnostics, and the question when there are none. */
  function BlockErrors(block: string): seq<BlockError>
  {
    if Trim(block) == [] then []
    else ErrorsOf(QuestionTextOf(block), BlockScan(BlockLines(block)))
  }

  /** The record built from a finished scan whose question text is `text`, unless there are diagnostics. */
  function QuestionOf(text: string, sc: Scan, id: nat): Option<Question>
    requires sc.options.Valid()
  {
    if ErrorsOf(text, sc) != [] then None
    else Some(Question(id, text, sc.options.Values(), CorrectText(sc).value, ExplanationOf(sc)))
  }

  function BlockQuestion(block: string, id: nat): Option<Question>
  {
    if Trim(block) == [] then None
    else QuestionOf(QuestionTextOf(block), BlockScan(BlockLines(block)), id)
  }

  // ---------------------------------------------------------------------
  // The parser itself
  // ---------------------------------------------------------------------

  /** The body of the per-block callback: scan the lines, validate, build the record. */
  method ParseBlock(block: string, id: nat) returns (q: Option<Question>, errors: seq<BlockError>)
    ensures q == BlockQuestion(block, id)
    ensures errors == BlockErrors(block)
  {
    var trimmedBlock := Trim(block);
    if trimmedBlock == [] {
      return None, [];
    }
    var allLines := Split(trimmedBlock, '\n');
    var sc := ScanLines(allLines);

    var questionText := Trim(Join(sc.questionLines, '\n'));
    var explanation := if sc.explanationFound then Some(Trim(Join(sc.explanationLines, '\n')))
                       else if |sc.explanationLines| > 0 then Some(Trim(Join(sc.explanationLines, '\n'))) else None;
    var options := sc.options.Values();
    var correctAnswerText := CorrectText(sc);

    errors := Diagnose(questionText, sc, correctAnswerText);
    assert sc == BlockScan(BlockLines(block)) && questionText == QuestionTextOf(block);

    if errors != [] {
      return None, errors;
    }
    q := Some(Question(id, questionText, options, correctAnswerText.value, explanation));
    assert q == QuestionOf(questionText, sc, id);
  }

  /** The validation pushes of the callback. */
  method Diagnose(questionText: string, sc: Scan, correctAnswerText: Option<string>) returns (errors: seq<BlockError>)
    requires sc.options.Valid() && correctAnswerText == CorrectText(sc)
    ensures errors == ErrorsOf(questionText, sc)
  {
    errors := [];
    if questionText == [] { errors := errors + [MissingQuestionText]; }
    if sc.options.Size() < 2 { errors := errors + [TooFewOptions]; }
    if sc.answerKey.None? { errors := errors + [MissingAnswer]; }
    if sc.answerKey.Some? && correctAnswerText.None? { errors := errors + [AnswerNotAnOption(sc.answerKey.value)]; }
  }

  /** The line loop of the callback, with its mutable scanner variables. */
  method ScanLines(allLines: seq<string>) returns (sc: Scan)
    ensures sc == BlockScan(allLines)
  {
    var questionTextLines: seq<string> := [];
    var optionsMap := EmptyOptions;
    var answerKey: Option<string> := None;
    var explanationLines: seq<string> := [];
    var currentState := Unknown;
    var explanationFound := false;

    var i := 0;
    while i < |allLines|
      invariant i <= |allLines|
      invariant optionsMap.Valid() && TextsOk(optionsMap)
      invariant ScanFrom(Scan(questionTextLines, optionsMap, answerKey, explanationLines, currentState, explanationFound),
                         allLines[i..]) == BlockScan(allLines)
    {
      var line := allLines[i];
      var kind := KindOf(line);
      assert allLines[i..][0] == line && allLines[i..][1..] == allLines[i + 1..];
      StepKeepsTexts(Scan(questionTextLines, optionsMap, answerKey, explanationLines, currentState, explanationFound), kind, line);
      if kind.Blank? {
        i := i + 1;
        continue;
      }
      if kind.ExplanationLine? {
        explanationFound := true;
        currentState := InExplanation;
        if kind.rest != [] {
          explanationLines := explanationLines + [kind.rest];
        }
        explanationLines := AppendLines(explanationLines, allLines, i + 1);
        break;
      } else if kind.AnswerLine? {
        currentState := InAnswer;
        answerKey := Some(kind.key);
      } else if kind.OptionLine? {
        currentState := InOptions;
        if kind.text != [] {
          optionsMap := optionsMap.Set(kind.key, kind.text);
        }
      } else {
        if currentState == Unknown || currentState == InQuestion {
          currentState := InQuestion;
          questionTextLines := questionTextLines + [line];
        }
      }
      i := i + 1;
    }
    sc := Scan(questionTextLines, optionsMap, answerKey, explanationLines, currentState, explanationFound);
  }

  /** The inner loop that takes every line after the `Explanation:` line into the explanation. */
  method AppendLines(acc: seq<string>, lines: seq<string>, from: nat) returns (r: seq<string>)
    requires from <= |lines|
    ensures r == acc + lines[from..]
  {
    r := acc;
    var j := from;
    while j < |lines|
      invariant from <= j <= |lines|
      invariant r == acc + lines[from..j]
    {
      assert lines[from..j + 1] == lines[from..j] + [lines[j]];
      r := r + [lines[j]];
      j := j + 1;
    }
  }

  // ---------------------------------------------------------------------
  // The whole file
  // ---------------------------------------------------------------------

  /** `.filter(block => block.trim())`: the blocks that are not white space only, in order. */
  function NonBlankBlocks(bs: seq<string>): (r: seq<string>)
    ensures |r| <= |bs|
    ensures forall b :: b in r <==> b in bs && Trim(b) != []
    decreases |bs|
  {
    if bs == [] then []
    else
      var rest := NonBlankBlocks(bs[..|bs| - 1]);
      var last := bs[|bs| - 1];
      assert bs == bs[..|bs| - 1] + [last];
      if Trim(last) != [] then rest + [last] else rest
  }

  /** The filter works block by block: it keeps order and multiplicity, and keeps one block iff it is not blank. */
  lemma {:induction false} NonBlankBlocksAppend(a: seq<string>, b: seq<string>)
    ensures NonBlankBlocks(a + b) == NonBlankBlocks(a) + NonBlankBlocks(b)
    decreases |b|
  {
    if b == [] {
      assert a + b == a;
    } else {
      var init := b[..|b| - 1];
      var last := b[|b| - 1];
      var ab := a + b;
      NonBlankBlocksAppend(a, init);
      assert ab[..|ab| - 1] == a + init;
      assert ab[|ab| - 1] == last;
      NonBlankBlocksLast(ab);
      NonBlankBlocksLast(b);
      AppendAssoc(NonBlankBlocks(a), NonBlankBlocks(init), if Trim(last) != [] then [last] else []);
    }
  }

  lemma NonBlankBlocksLast(bs: seq<string>)
    requires bs != []
    ensures NonBlankBlocks(bs) == NonBlankBlocks(bs[..|bs| - 1]) + if Trim(bs[|bs| - 1]) != [] then [bs[|bs| - 1]] else []
  {
  }

  /** One block is kept iff it is not blank. */
  lemma NonBlankBlocksOne(b: string)
    ensures NonBlankBlocks([b]) == if Trim(b) != [] then [b] else []
  {
    assert [b][..0] == [];
  }

  /** The blocks the file is cut into: CRLF normalised, split at blank lines, white-space-only blocks dropped. */
  function QuestionBlocks(fileContent: string): seq<string>
  {
    NonBlankBlocks(SplitBlocks(NormalizeNewlines(fileContent)))
  }

  /**
   * What each of the blocks `bs` yields; the block at index `i` gets the id `firstId + i`.
   * (The source draws a fresh random UUID per question; distinct ids are what matters.)
   */
  function BlockResults(bs: seq<string>, firstId: nat): (rs: seq<Option<Question>>)
    ensures |rs| == |bs|
  {
    seq(|bs|, i requires 0 <= i < |bs| => BlockQuestion(bs[i], firstId + i))
  }

  /** The questions among `rs`, in order. */
  function Present(rs: seq<Option<Question>>): (qs: seq<Question>)
    ensures |qs| <= |rs|
    decreases |rs|
  {
    if rs == [] then []
    else
      var last := rs[|rs| - 1];
      Present(rs[..|rs| - 1]) + (if last.Some? then [last.value] else [])
  }

  /** Taking one more result adds its question, if it has one, at the end. */
  lemma PresentStep(rs: seq<Option<Question>>, i: nat)
    requires i < |rs|
    ensures Present(rs[..i + 1]) == Present(rs[..i]) + (if rs[i].Some? then [rs[i].value] else [])
  {
    assert rs[..i + 1][..i] == rs[..i];
  }

  /** The questions of the blocks `bs`, in block order. */
  function ParseBlocks(bs: seq<string>, firstId: nat): seq<Question>
  {
    Present(BlockResults(bs, firstId))
  }

  /** What the parser logs at the end: nothing, "no valid questions", or the number parsed. */
  datatype ParseReport = Silent | NoValidQuestions | Parsed(count: nat)

  function ReportOf(blocks: nat, parsed: nat): (r: ParseReport)
    ensures r == NoValidQuestions <==> parsed == 0 && blocks > 0
    ensures r.Parsed? <==> parsed > 0
    ensures r.Parsed? ==> r.count == parsed
  {
    if parsed == 0 && blocks > 0 then NoValidQuestions
    else if parsed > 0 then Parsed(parsed)
    else Silent
  }

  /** The callback on the block at `index`, which gets the id `firstId + index`. */
  method ParseBlockAt(bs: seq<string>, firstId: nat, index: nat) returns (q: Option<Question>)
    requires index < |bs|
    ensures q == BlockResults(bs, firstId)[index]
  {
    var errors;
    q, errors := ParseBlock(bs[index], firstId + index);
  }

  /** `parseQuestionsFromFileContent`: every block in turn, keeping the questions of the valid ones. */
  method ParseQuestionsFromFileContent(fileContent: string, firstId: nat)
    returns (questions: seq<Question>, report: ParseReport)
    ensures questions == ParseBlocks(QuestionBlocks(fileContent), firstId)
    ensures report == ReportOf(|QuestionBlocks(fileContent)|, |questions|)
  {
    var questionBlocks := QuestionBlocks(fileContent);
    questions := [];
    ghost var results := BlockResults(questionBlocks, firstId);
    var index := 0;
    while index < |questionBlocks|
      invariant index <= |questionBlocks|
      invariant questions == Present(results[..index])
    {
      var q := ParseBlockAt(questionBlocks, firstId, index);
      PresentStep(results, index);
      if q.Some? {
        questions := questions + [q.value];
      }
      index := index + 1;
    }
    assert results[..index] == results;
    report := ReportOf(|questionBlocks|, |questions|);
  }
}
