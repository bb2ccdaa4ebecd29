/**
 * The test-configuration store of the Next.js version (`src/store/testConfigStore.ts`):
 * one configuration cell, replaced by merging a partial configuration over it.
 * A field holds `None` when a partial set it to `undefined` explicitly.
 */
module TestConfigStore {
  import opened Text

  /** The stored configuration; `timer` is in seconds. */
  datatype TestConfig = TestConfig(timer: Option<int>, questionLimit: Option<int>, passingPercentage: Option<int>)

  /** One key of a `Partial<TestConfig>`: left out, present as `undefined`, or present with a number. */
  datatype Entry = Absent | Undefined | Value(v: int)

  datatype PartialConfig = PartialConfig(timer: Entry, questionLimit: Entry, passingPercentage: Entry)

  const SecondsPerMinute := 60

  /** Ten minutes, ten questions, seventy percent to pass. */
  const InitialConfig := TestConfig(Some(10 * SecondsPerMinute), Some(10), Some(70))

  const NoChange := PartialConfig(Absent, Absent, Absent)

  /** What a spread `{ ...field, ...entry }` leaves in one field. */
  function Apply(current: Option<int>, e: Entry): (r: Option<int>)
    ensures e.Absent? ==> r == current
    ensures e.Undefined? ==> r.None?
    ensures e.Value? ==> r == Some(e.v)
  {
    match e
    case Absent => current
    case Undefined => None
    case Value(v) => Some(v)
  }

  /** `{ ...config, ...partial }` */
  function Merge(c: TestConfig, p: PartialConfig): TestConfig
  {
    TestConfig(Apply(c.timer, p.timer), Apply(c.questionLimit, p.questionLimit),
               Apply(c.passingPercentage, p.passingPercentage))
  }

  /** `{ ...a, ...b }` on two partials: the keys of `b` win over those of `a`. */
  function Over(a: PartialConfig, b: PartialConfig): PartialConfig
  {
    PartialConfig(if b.timer.Absent? then a.timer else b.timer,
                  if b.questionLimit.Absent? then a.questionLimit else b.questionLimit,
                  if b.passingPercentage.Absent? then a.passingPercentage else b.passingPercentage)
  }

  /** Exactly the keys present in the partial are overwritten, `undefined` included; the others stay. */
  lemma MergeOverwritesPresentKeys(c: TestConfig, p: PartialConfig)
    ensures !p.timer.Absent? ==> Merge(c, p).timer == (if p.timer.Value? then Some(p.timer.v) else None)
    ensures !p.questionLimit.Absent? ==> Merge(c, p).questionLimit == (if p.questionLimit.Value? then Some(p.questionLimit.v) else None)
    ensures !p.passingPercentage.Absent? ==> Merge(c, p).passingPercentage == (if p.passingPercentage.Value? then Some(p.passingPercentage.v) else None)
    ensures p.timer.Absent? ==> Merge(c, p).timer == c.timer
    ensures p.questionLimit.Absent? ==> Merge(c, p).questionLimit == c.questionLimit
    ensures p.passingPercentage.Absent? ==> Merge(c, p).passingPercentage == c.passingPercentage
  {
  }

  /** `setConfig({})` changes nothing. */
  lemma MergeNothing(c: TestConfig)
    ensures Merge(c, NoChange) == c
  {
  }

  /** Applying the same partial twice is applying it once. */
  lemma MergeIdempotent(c: TestConfig, p: PartialConfig)
    ensures Merge(Merge(c, p), p) == Merge(c, p)
  {
  }

  /** Two merges in a row are one merge of the second partial over the first. */
  lemma MergeTwice(c: TestConfig, a: PartialConfig, b: PartialConfig)
    ensures Merge(Merge(c, a), b) == Merge(c, Over(a, b))
  {
  }

  /** The zustand store: the configuration cell and its setter. */
  class ConfigStore {
    var config: TestConfig

    constructor ()
      ensures config == InitialConfig
    {
      config := InitialConfig;
    }

    /** `setConfig(newConfig)` */
    method SetConfig(newConfig: PartialConfig)
      modifies this
      ensures config == Merge(old(config), newConfig)
    {
      config := Merge(config, newConfig);
    }
  }
}
