/**
 * What the question-file parser promises, each stated against a reference
 * definition that reads the block's lines directly rather than running the scan.
 */
module QuestionParserLemmas {
  import opened Text
  import opened QuestionParser

  // ---------------------------------------------------------------------
  // Reference definitions over a block's lines
  // ---------------------------------------------------------------------

  /** The lines the state machine classifies: those before the first `Explanation:` line. */
  function BeforeExplanation(ls: seq<string>): (r: seq<string>)
    ensures |r| <= |ls|
    decreases |ls|
  {
    if ls == [] || KindOf(ls[0]).ExplanationLine? then []
    else [ls[0]] + BeforeExplanation(ls[1..])
  }

  /** The key of the last `Answer:` line: a later one overrides an earlier one. */
  function LastAnswer(ls: seq<string>): (r: Option<string>)
    decreases |ls|
  {
    if ls == [] then None
    else
      var later := LastAnswer(ls[1..]);
      if later.Some? then later
      else if KindOf(ls[0]).AnswerLine? then Some(KindOf(ls[0]).key)
      else None
  }

  /** The other lines that come before any option or answer line, raw. */
  function LeadingOtherLines(ls: seq<string>): (r: seq<string>)
    decreases |ls|
  {
    if ls == [] then []
    else
      var k := KindOf(ls[0]);
      if k.AnswerLine? || k.OptionLine? then []
      else if k.OtherLine? then [ls[0]] + LeadingOtherLines(ls[1..])
      else LeadingOtherLines(ls[1..])
  }

  /** From the first `Explanation:` line: its non-empty remainder and every raw line after it. */
  function ExplanationTail(ls: seq<string>): (r: Option<seq<string>>)
    decreases |ls|
  {
    if ls == [] then None
    else
      var k := KindOf(ls[0]);
      if k.ExplanationLine? then Some((if k.rest != [] then [k.rest] else []) + ls[1..])
      else ExplanationTail(ls[1..])
  }

  /** The (key, text) pairs of the option lines with a non-empty text, in order. */
  function OptionEntries(ls: seq<string>): (r: seq<(string, string)>)
    decreases |ls|
  {
    if ls == [] then []
    else
      var k := KindOf(ls[0]);
      (if k.OptionLine? && k.text != [] then [(k.key, k.text)] else []) + OptionEntries(ls[1..])
  }

  /** The text of the last entry with key `k`. */
  function LastText(es: seq<(string, string)>, k: string): (r: Option<string>)
    decreases |es|
  {
    if es == [] then None
    else if es[|es| - 1].0 == k then Some(es[|es| - 1].1)
    else LastText(es[..|es| - 1], k)
  }

  /** The keys of the entries, each once, in the order of its first occurrence. */
  function FirstKeys(es: seq<(string, string)>): (r: seq<string>)
    decreases |es|
  {
    if es == [] then []
    else
      var ks := FirstKeys(es[..|es| - 1]);
      if es[|es| - 1].0 in ks then ks else ks + [es[|es| - 1].0]
  }

  /** The entries `set` in turn into `m`. */
  function Build(m: OptionMap, es: seq<(string, string)>): (r: OptionMap)
    requires m.Valid()
    ensures r.Valid()
    decreases |es|
  {
    if es == [] then m
    else Build(m, es[..|es| - 1]).Set(es[|es| - 1].0, es[|es| - 1].1)
  }

  // ---------------------------------------------------------------------
  // The scan against the reference definitions
  // ---------------------------------------------------------------------

  lemma ConsTail<T>(x: T, r: seq<T>)
    ensures ([x] + r)[0] == x && ([x] + r)[1..] == r
  {
  }

  /** Every `Answer:` line overwrites the key, so the last one before `Explanation:` wins. */
  lemma {:induction false} ScanAnswer(sc: Scan, rest: seq<string>)
    requires sc.options.Valid() && TextsOk(sc.options)
    ensures var last := LastAnswer(BeforeExplanation(rest));
            ScanFrom(sc, rest).answerKey == if last.Some? then last else sc.answerKey
    decreases |rest|
  {
    if rest != [] {
      var kind := KindOf(rest[0]);
      if !kind.ExplanationLine? {
        StepKeepsTexts(sc, kind, rest[0]);
        ScanAnswer(StepKind(sc, kind, rest[0]), rest[1..]);
        ConsTail(rest[0], BeforeExplanation(rest[1..]));
      }
    }
  }

  lemma AnswerKeyIsLast(lines: seq<string>)
    ensures BlockScan(lines).answerKey == LastAnswer(BeforeExplanation(lines))
  {
    ScanAnswer(InitialScan, lines);
  }

  /** Other lines join the question text only while no option or answer line has been seen. */
  lemma {:induction false} ScanQuestionLines(sc: Scan, rest: seq<string>)
    requires sc.options.Valid() && TextsOk(sc.options)
    requires sc.state != InExplanation
    ensures ScanFrom(sc, rest).questionLines ==
            if sc.state == Unknown || sc.state == InQuestion
            then sc.questionLines + LeadingOtherLines(BeforeExplanation(rest))
            else sc.questionLines
    decreases |rest|
  {
    if rest == [] {
      assert sc.questionLines + [] == sc.questionLines;
    } else {
      var kind := KindOf(rest[0]);
      if kind.ExplanationLine? {
        assert sc.questionLines + [] == sc.questionLines;
      } else {
        StepKeepsTexts(sc, kind, rest[0]);
        var next := StepKind(sc, kind, rest[0]);
        ScanQuestionLines(next, rest[1..]);
        ConsTail(rest[0], BeforeExplanation(rest[1..]));
        if kind.OtherLine? && (sc.state == Unknown || sc.state == InQuestion) {
          AppendAssoc(sc.questionLines, [rest[0]], LeadingOtherLines(BeforeExplanation(rest[1..])));
        }
      }
    }
  }

  lemma QuestionLinesAreLeading(lines: seq<string>)
    ensures BlockScan(lines).questionLines == LeadingOtherLines(BeforeExplanation(lines))
  {
    ScanQuestionLines(InitialScan, lines);
  }

  /** The first `Explanation:` line stops the scan and takes the rest of the block. */
  lemma {:induction false} ScanExplanation(sc: Scan, rest: seq<string>)
    requires sc.options.Valid() && TextsOk(sc.options)
    ensures ScanFrom(sc, rest).explanationFound == (sc.explanationFound || ExplanationTail(rest).Some?)
    ensures ScanFrom(sc, rest).explanationLines ==
            if ExplanationTail(rest).Some? then sc.explanationLines + ExplanationTail(rest).value
            else sc.explanationLines
    decreases |rest|
  {
    if rest != [] {
      var kind := KindOf(rest[0]);
      if kind.ExplanationLine? {
        assert sc.explanationLines + (if kind.rest != [] then [kind.rest] else []) + rest[1..]
            == sc.explanationLines + ((if kind.rest != [] then [kind.rest] else []) + rest[1..]);
      } else {
        StepKeepsTexts(sc, kind, rest[0]);
        ScanExplanation(StepKind(sc, kind, rest[0]), rest[1..]);
      }
    }
  }

  /** An `Explanation:` line is among the lines exactly when the tail exists. */
  lemma {:induction false} ExplanationTailIff(ls: seq<string>)
    ensures ExplanationTail(ls).Some? <==> exists i :: 0 <= i < |ls| && KindOf(ls[i]).ExplanationLine?
    decreases |ls|
  {
    if ls != [] {
      ExplanationTailIff(ls[1..]);
      if !KindOf(ls[0]).ExplanationLine? {
        if exists i :: 0 <= i < |ls| && KindOf(ls[i]).ExplanationLine? {
          var i :| 0 <= i < |ls| && KindOf(ls[i]).ExplanationLine?;
          assert ls[1..][i - 1] == ls[i];
        }
        if exists i :: 0 <= i < |ls[1..]| && KindOf(ls[1..][i]).ExplanationLine? {
          var i :| 0 <= i < |ls[1..]| && KindOf(ls[1..][i]).ExplanationLine?;
          assert ls[i + 1] == ls[1..][i];
        }
      }
    }
  }

  /**
   * The explanation is `null` exactly when no `Explanation:` line occurs, and is
   * otherwise the label remainder and the following raw lines, joined and trimmed.
   */
  lemma ExplanationIsTail(lines: seq<string>)
    ensures ExplanationOf(BlockScan(lines)).None? <==> forall i :: 0 <= i < |lines| ==> !KindOf(lines[i]).ExplanationLine?
    ensures ExplanationTail(lines).Some? ==> ExplanationOf(BlockScan(lines)) == Some(Trim(Join(ExplanationTail(lines).value, '\n')))
  {
    ScanExplanation(InitialScan, lines);
    ExplanationTailIff(lines);
    if ExplanationTail(lines).Some? {
      assert [] + ExplanationTail(lines).value == ExplanationTail(lines).value;
    }
  }

  /** Setting the entries one by one from `m`, when the first entry is set first. */
  lemma {:induction false} BuildCons(m: OptionMap, e: (string, string), es: seq<(string, string)>)
    requires m.Valid()
    ensures Build(m, [e] + es) == Build(m.Set(e.0, e.1), es)
    decreases |es|
  {
    if es != [] {
      var all := [e] + es;
      assert all[..|all| - 1] == [e] + es[..|es| - 1];
      BuildCons(m, e, es[..|es| - 1]);
    } else {
      assert ([e] + es)[..0] == [];
    }
  }

  /** Only the option lines with a non-empty text ever touch the map, one `set` each. */
  lemma {:induction false} ScanOptions(sc: Scan, rest: seq<string>)
    requires sc.options.Valid() && TextsOk(sc.options)
    ensures ScanFrom(sc, rest).options == Build(sc.options, OptionEntries(BeforeExplanation(rest)))
    decreases |rest|
  {
    if rest != [] {
      var kind := KindOf(rest[0]);
      if !kind.ExplanationLine? {
        StepKeepsTexts(sc, kind, rest[0]);
        var next := StepKind(sc, kind, rest[0]);
        ScanOptions(next, rest[1..]);
        var tail := BeforeExplanation(rest[1..]);
        ConsTail(rest[0], tail);
        if kind.OptionLine? && kind.text != [] {
          BuildCons(sc.options, (kind.key, kind.text), OptionEntries(tail));
        } else {
          assert [] + OptionEntries(tail) == OptionEntries(tail);
        }
      }
    }
  }

  /** A repeated key overwrites the text: each key holds the text of its last non-empty option line. */
  lemma {:induction false} BuildGet(m: OptionMap, es: seq<(string, string)>, k: string)
    requires m.Valid()
    ensures Build(m, es).Get(k) == if LastText(es, k).Some? then LastText(es, k) else m.Get(k)
    decreases |es|
  {
    if es != [] {
      BuildGet(m, es[..|es| - 1], k);
    }
  }

  /** A repeated key keeps its first position: the keys come in the order of their first occurrence. */
  lemma {:induction false} BuildKeys(es: seq<(string, string)>)
    ensures Build(EmptyOptions, es).keys == FirstKeys(es)
    decreases |es|
  {
    if es != [] {
      BuildKeys(es[..|es| - 1]);
    }
  }

  lemma OptionsOfBlock(lines: seq<string>, k: string)
    ensures BlockScan(lines).options.keys == FirstKeys(OptionEntries(BeforeExplanation(lines)))
    ensures BlockScan(lines).options.Get(k) == LastText(OptionEntries(BeforeExplanation(lines)), k)
  {
    ScanOptions(InitialScan, lines);
    BuildKeys(OptionEntries(BeforeExplanation(lines)));
    BuildGet(EmptyOptions, OptionEntries(BeforeExplanation(lines)), k);
  }

  // ---------------------------------------------------------------------
  // Validation
  // ---------------------------------------------------------------------

  /** Each diagnostic is pushed exactly when its condition holds. */
  lemma ErrorsMeaning(text: string, sc: Scan, key: string)
    requires sc.options.Valid() && TextsOk(sc.options)
    ensures MissingQuestionText in ErrorsOf(text, sc) <==> text == []
    ensures TooFewOptions in ErrorsOf(text, sc) <==> sc.options.Size() < 2
    ensures MissingAnswer in ErrorsOf(text, sc) <==> sc.answerKey.None?
    ensures AnswerNotAnOption(key) in ErrorsOf(text, sc) <==> sc.answerKey == Some(key) && key !in sc.options.keys
    ensures ErrorsOf(text, sc) == [] <==>
            text != [] && sc.options.Size() >= 2 && sc.answerKey.Some? && sc.answerKey.value in sc.options.keys
  {
    if sc.answerKey.Some? && sc.answerKey.value in sc.options.keys {
      assert sc.options.Get(sc.answerKey.value).value in sc.options.texts;
    }
  }

  /**
   * A block yields a question exactly when it is not blank, its question text is
   * not empty, it has two option keys or more, and an `Answer:` key that is one of them.
   */
  lemma BlockQuestionIff(block: string, id: nat)
    ensures var sc := BlockScan(BlockLines(block));
            BlockQuestion(block, id).Some? <==>
              Trim(block) != [] && QuestionTextOf(block) != [] && sc.options.Size() >= 2
              && sc.answerKey.Some? && sc.answerKey.value in sc.options.keys
    ensures BlockQuestion(block, id).Some? <==> Trim(block) != [] && BlockErrors(block) == []
  {
    var sc := BlockScan(BlockLines(block));
    ErrorsMeaning(QuestionTextOf(block), sc, "");
  }

  /**
   * A returned question has its id, a non-empty trimmed text, two options or more,
   * all non-empty and trimmed, and the correct answer is the text stored under the answer key.
   */
  lemma BlockQuestionWellFormed(block: string, id: nat)
    requires BlockQuestion(block, id).Some?
    ensures var q := BlockQuestion(block, id).value;
            var sc := BlockScan(BlockLines(block));
            && q.id == id
            && WellFormed(q)
            && q.options == sc.options.Values()
            && Some(q.correctAnswer) == sc.options.Get(sc.answerKey.value)
  {
    var sc := BlockScan(BlockLines(block));
    ErrorsMeaning(QuestionTextOf(block), sc, "");
  }

  // ---------------------------------------------------------------------
  // The whole file
  // ---------------------------------------------------------------------

  /** A question is returned exactly when some block yields it. */
  lemma {:induction false} PresentMembers(rs: seq<Option<Question>>, q: Question)
    ensures q in Present(rs) <==> Some(q) in rs
    decreases |rs|
  {
    if rs != [] {
      PresentMembers(rs[..|rs| - 1], q);
      assert rs == rs[..|rs| - 1] + [rs[|rs| - 1]];
    }
  }

  /** The ids of the present questions, when block `i` has id `firstId + i`, rise strictly in block order. */
  lemma {:induction false} PresentIdsRise(rs: seq<Option<Question>>, firstId: nat)
    requires forall i :: 0 <= i < |rs| && rs[i].Some? ==> rs[i].value.id == firstId + i
    ensures forall j :: 0 <= j < |Present(rs)| ==> firstId <= Present(rs)[j].id < firstId + |rs|
    ensures forall j, k :: 0 <= j < k < |Present(rs)| ==> Present(rs)[j].id < Present(rs)[k].id
    decreases |rs|
  {
    if rs != [] {
      PresentIdsRise(rs[..|rs| - 1], firstId);
    }
  }

  /**
   * Each block yields at most one question, and a question is returned exactly
   * when some block yields it (block `i` with the id `firstId + i`).
   */
  lemma ParseBlocksMembers(bs: seq<string>, firstId: nat, q: Question)
    ensures |ParseBlocks(bs, firstId)| <= |bs|
    ensures q in ParseBlocks(bs, firstId) <==> exists i :: 0 <= i < |bs| && BlockResults(bs, firstId)[i] == Some(q)
  {
    PresentMembers(BlockResults(bs, firstId), q);
  }

  /** Every returned question is well formed, and the ids rise with the block index. */
  lemma ParseBlocksWellFormed(bs: seq<string>, firstId: nat)
    ensures forall j :: 0 <= j < |ParseBlocks(bs, firstId)| ==> WellFormed(ParseBlocks(bs, firstId)[j])
    ensures forall j, k :: 0 <= j < k < |ParseBlocks(bs, firstId)| ==> ParseBlocks(bs, firstId)[j].id < ParseBlocks(bs, firstId)[k].id
  {
    var rs := BlockResults(bs, firstId);
    forall i | 0 <= i < |rs| && rs[i].Some?
      ensures rs[i].value.id == firstId + i && WellFormed(rs[i].value)
    {
      BlockQuestionWellFormed(bs[i], firstId + i);
    }
    PresentIdsRise(rs, firstId);
    forall j | 0 <= j < |Present(rs)| ensures WellFormed(Present(rs)[j]) {
      PresentMembers(rs, Present(rs)[j]);
    }
  }

  /**
   * The blocks are the CRLF-normalised text cut at blank lines: the pieces,
   * glued back with the separators between them, give the text; the blocks
   * kept are the non-blank pieces, and none holds a blank line.
   */
  lemma QuestionBlocksShape(fileContent: string)
    ensures forall b :: b in QuestionBlocks(fileContent) ==> Trim(b) != [] && !HasBlankLine(b)
    ensures forall b :: b in QuestionBlocks(fileContent) <==> b in SplitBlocks(NormalizeNewlines(fileContent)) && Trim(b) != []
    ensures var t := NormalizeNewlines(fileContent);
      |Separators(t)| + 1 == |SplitBlocks(t)|
      && (forall sep :: sep in Separators(t) ==> IsBlankLineRun(sep))
      && Interleave(SplitBlocks(t), Separators(t)) == t
  {
    SplitBlocksNoBlankLine(NormalizeNewlines(fileContent));
    SplitBlocksJoin(NormalizeNewlines(fileContent));
  }
}
