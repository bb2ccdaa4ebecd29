/**
 * The configuration page of the Next.js version (`src/components/ConfigureTest.tsx`):
 * the settings schema, the file guards, and the submission that parses the
 * file, limits the question set and stores it with the configuration.
 */
module ConfigureForm {
  import opened Text
  import opened JsMath
  import opened QuestionParser
  import opened TestConfigStore

  // ---------------------------------------------------------------------
  // The settings schema
  // ---------------------------------------------------------------------

  /** The form's numbers after `z.coerce.number()`: JavaScript numbers, so fractions can occur. */
  datatype FormData = FormData(timer: real, questionLimit: real, passingPercentage: real)

  predicate IsInteger(x: real) {
    x.Floor as real == x
  }

  /** `timer`: `int()`, `positive()` and `min(1)`, in minutes. */
  predicate TimerOk(x: real) {
    IsInteger(x) && x > 0.0 && x >= 1.0
  }

  /** `questionLimit`: `int()`, `positive()` and `min(1)`. */
  predicate QuestionLimitOk(x: real) {
    IsInteger(x) && x > 0.0 && x >= 1.0
  }

  /** `passingPercentage`: `int()`, `min(1)` and `max(100)`. */
  predicate PassingOk(x: real) {
    IsInteger(x) && 1.0 <= x <= 100.0
  }

  predicate SchemaOk(d: FormData) {
    TimerOk(d.timer) && QuestionLimitOk(d.questionLimit) && PassingOk(d.passingPercentage)
  }

  /** On whole numbers `positive()` and `min(1)` accept the same values. */
  lemma PositiveIsAtLeastOne(x: real)
    requires IsInteger(x)
    ensures x > 0.0 <==> x >= 1.0
  {
    if x > 0.0 {
      assert x.Floor >= 1;
    }
  }

  // ---------------------------------------------------------------------
  // Defaults of the form, read back from the store
  // ---------------------------------------------------------------------

  datatype FormDefaults = FormDefaults(timer: real, questionLimit: int, passingPercentage: int)

  /**
   * `configStore.timer / 60 || 10`, `questionLimit || 10`, `passingPercentage || 70`:
   * zero and `undefined` (NaN after the division) fall back to the default.
   */
  function DefaultsOf(c: TestConfig): (r: FormDefaults)
    ensures r.timer != 0.0 && r.questionLimit != 0 && r.passingPercentage != 0
  {
    FormDefaults(
      if c.timer.None? || c.timer.value == 0 then 10.0 else c.timer.value as real / SecondsPerMinute as real,
      if c.questionLimit.None? || c.questionLimit.value == 0 then 10 else c.questionLimit.value,
      if c.passingPercentage.None? || c.passingPercentage.value == 0 then 70 else c.passingPercentage.value)
  }

  /** The initial store gives the form ten minutes, ten questions and seventy percent. */
  lemma InitialDefaults()
    ensures DefaultsOf(InitialConfig) == FormDefaults(10.0, 10, 70)
  {
  }

  // ---------------------------------------------------------------------
  // The file guards
  // ---------------------------------------------------------------------

  /** What the browser reports of a chosen file. */
  datatype FileInfo = FileInfo(mimeType: string, size: int)

  datatype FileProblem = NotOneFile | NotPlainText | TooLarge

  const MaxFileSize := 5 * 1024 * 1024

  /** The guards in order: exactly one file (`None`: not a `FileList`), of type `text/plain`, at most 5 MiB. */
  function FileProblemOf(files: Option<seq<FileInfo>>): (r: Option<FileProblem>)
    ensures r.None? <==> files.Some? && |files.value| == 1 && files.value[0].mimeType == "text/plain"
                         && files.value[0].size <= MaxFileSize
    ensures r == Some(NotOneFile) <==> files.None? || |files.value| != 1
    ensures r == Some(TooLarge) <==> files.Some? && |files.value| == 1 && files.value[0].mimeType == "text/plain"
                                     && files.value[0].size > 5242880
  {
    if files.None? || |files.value| != 1 then Some(NotOneFile)
    else if files.value[0].mimeType != "text/plain" then Some(NotPlainText)
    else if files.value[0].size > MaxFileSize then Some(TooLarge)
    else None
  }

  // ---------------------------------------------------------------------
  // Submission
  // ---------------------------------------------------------------------

  /** What a submission ends in: a rejected file, a read error, no content, no questions, or the test started. */
  datatype SubmitOutcome =
    | Rejected(problem: FileProblem)
    | ReadError
    | EmptyContent
    | NoQuestions
    | Started(loaded: nat, notice: bool)

  /** `Math.min(data.questionLimit, shuffled.length)` */
  function ActualLimit(requested: int, parsed: nat): int
  {
    Min(requested, parsed)
  }

  /** The configuration stored on success: minutes become seconds, the limit is the actual one. */
  function ConfigPartial(d: FormData, actual: int): PartialConfig
  {
    PartialConfig(Value(d.timer.Floor * SecondsPerMinute), Value(actual), Value(d.passingPercentage.Floor))
  }

  /**
   * The outcome of `onSubmit` for the given files and the text the reader delivers
   * (`None` when it fails); the questions get ids from `firstId` on.
   */
  function OutcomeOf(d: FormData, files: Option<seq<FileInfo>>, content: Option<string>, firstId: nat): SubmitOutcome
    requires SchemaOk(d)
  {
    if FileProblemOf(files).Some? then Rejected(FileProblemOf(files).value)
    else if content.None? then ReadError
    else if content.value == [] then EmptyContent
    else
      var parsed := ParseBlocks(QuestionBlocks(content.value), firstId);
      if |parsed| == 0 then NoQuestions
      else
        var actual := ActualLimit(d.questionLimit.Floor, |parsed|);
        Started(actual, actual < d.questionLimit.Floor)
  }

  /**
   * The test starts only with an acceptable file whose text yields a question;
   * it then loads min(requested, parsed) questions, at least one, and the notice
   * shows exactly when the file holds fewer questions than requested.
   */
  lemma OutcomeStarted(d: FormData, files: Option<seq<FileInfo>>, content: Option<string>, firstId: nat)
    requires SchemaOk(d)
    ensures var o := OutcomeOf(d, files, content, firstId);
            o.Started? <==> FileProblemOf(files).None? && content.Some? && content.value != []
                            && |ParseBlocks(QuestionBlocks(content.value), firstId)| > 0
    ensures var o := OutcomeOf(d, files, content, firstId);
            o.Started? ==>
              var n := |ParseBlocks(QuestionBlocks(content.value), firstId)|;
              && 1 <= o.loaded <= n
              && o.loaded as real <= d.questionLimit
              && (o.loaded == n || o.loaded as real == d.questionLimit)
              && (o.notice <==> (n as real) < d.questionLimit)
  {
  }

  /** After a successful submission the form defaults read back the minutes, the actual limit and the pass mark. */
  lemma DefaultsRoundTrip(c: TestConfig, d: FormData, actual: int)
    requires SchemaOk(d) && actual >= 1
    ensures DefaultsOf(Merge(c, ConfigPartial(d, actual))) == FormDefaults(d.timer, actual, d.passingPercentage.Floor)
  {
    var m := d.timer.Floor;
    assert (m * 60) as real / 60.0 == m as real;
  }

  /** The question store: the questions the test runs on. */
  class QuestionStore {
    var questions: seq<Question>

    constructor ()
      ensures questions == []
    {
      questions := [];
    }

    method SetQuestions(qs: seq<Question>)
      modifies this
      ensures questions == qs
    {
      questions := qs;
    }

    method ClearQuestions()
      modifies this
      ensures questions == []
    {
      questions := [];
    }
  }

  /**
   * `onSubmit` with data the schema accepted: the file guards, the read, the
   * parse, the limit, and the writes to the question and configuration stores.
   */
  method OnSubmit(d: FormData, files: Option<seq<FileInfo>>, content: Option<string>, firstId: nat,
                  configStore: ConfigStore, questionStore: QuestionStore)
    returns (outcome: SubmitOutcome)
    requires SchemaOk(d)
    modifies configStore, questionStore
    ensures outcome == OutcomeOf(d, files, content, firstId)
    ensures outcome.Started? ==>
              && questionStore.questions == ParseBlocks(QuestionBlocks(content.value), firstId)[..outcome.loaded]
              && configStore.config == Merge(old(configStore.config), ConfigPartial(d, outcome.loaded))
    ensures outcome.NoQuestions? ==>
              questionStore.questions == [] && configStore.config == old(configStore.config)
    ensures !outcome.Started? && !outcome.NoQuestions? ==>
              questionStore.questions == old(questionStore.questions) && configStore.config == old(configStore.config)
  {
    var problem := FileProblemOf(files);
    if problem.Some? {
      return Rejected(problem.value);
    }
    if content.None? {
      return ReadError;
    }
    var text := content.value;
    if text == [] {
      return EmptyContent;
    }
    var parsedQuestions, report := ParseQuestionsFromFileContent(text, firstId);
    if |parsedQuestions| == 0 {
      questionStore.ClearQuestions();
      return NoQuestions;
    }
    var requested := d.questionLimit.Floor;
    var actualQuestionLimit := ActualLimit(requested, |parsedQuestions|);
    var limitedQuestions := parsedQuestions[..SliceEnd(actualQuestionLimit, |parsedQuestions|)];
    var notice := actualQuestionLimit < requested;
    questionStore.SetQuestions(limitedQuestions);
    configStore.SetConfig(ConfigPartial(d, actualQuestionLimit));
    outcome := Started(actualQuestionLimit, notice);
  }
}
