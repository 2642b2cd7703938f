# A model of the intake engine, with proofs

This project models the deciding core of an intake engine for German administrative submissions and
proves what its documentation promises.  It covers five connected parts:

* **Fitting a calibration map** (`Sorting`, `Grouping`, `Isotonic`, `Calibration`, `CalibrationFit`):
  equal-frequency groups that never split a tie, pool-adjacent-violators on a stack, bounds without
  duplicates, the calibration error, and the loader's contract for the result.  Scores and accuracies
  are reals.
* **The decision plane** (`Predicates`, `Decision`, `Pipeline`): a first-match table, monotone
  downgrades, the audit draw, source admission, the error rail, and the append-only journal that
  recomputes what the decision did.  The keyed hash is a parameter: any function of case id and salt
  that refuses salts over 64 bytes.
* **Config lint** (`ConfigLint`): the syntactic check that identity-classed fields are only tested for
  presence, against what the policy's seal does to the payload and to what is extracted from it.
* **The letter renderer and its scanner mistakes** (`Letter`, `Corruption`): offsets recorded while
  writing, and disjoint edits applied right to left around protected ranges.
* **Payload trees** (`Payload`, `Paraphrase`, `Forms`, `Segments`): reading and writing dotted paths,
  padding and key shuffling, two readers of one form, and a segmenter that rewrites nothing.  Objects
  are association lists with unique keys, so a shuffle is a real permutation.

`Wrappers` and `Sequences` hold what several modules share.

Every loop of the source is a method with a loop; what it computes is stated by a function or
outright, and the promised properties are lemmas about that.  Objects the source updates in place, the
letter writer and the journal store, are classes.

`dafny verify dfyconfig.toml` checks the whole project.

## Where the code and its documentation part ways

The model follows the code.  Each point below is a theorem here.

* The summary line of `_drop_duplicate_uppers` says it keeps the last confidence of a bound; the code
  keeps the first (`Calibration.DropDuplicatesSpec`).  The two are the same exactly when the first and
  the last bin of every bound agree (`Calibration.KeepsLastIff`), and keeping the first is what leaves
  every looked-up confidence alone (`Calibration.DropKeepsApply`).
* A fitted map passes the loader exactly when no group but the last ends outside [-1, 1]; for cosines
  it always does (`Calibration.FitValidIff`, `Calibration.CosinesFitValid`).  Two samples it does not
  are in `Calibration.BeyondRangeFitIsRefused`.
* `eq` keeps booleans and numbers apart at the top level only: inside list literals `true` equals `1`
  (`Predicates.BooleansAndNumbers`).  It is exact for exactly those literals that are no container or
  hold no boolean, 0 or 1 (`Predicates.EqualIsExactIff`).
* Missing evidence only adds oversight for tables whose tiers rise, and nothing in the schema demands
  that: `Decision.UnorderedTableBetters` is a valid table that breaks the promise.  The one field the
  code can fail to resolve is the extraction confidence, and losing it betters an item exactly under
  the condition of `Decision.ConfidenceLossIff`.  `Decision.LosingTheseIff` says the same of any given
  fields, and `Decision.MissingEvidenceIff` when no loss of any fields whatsoever can help an item.
* A downgrade rule that is called `audit_sample` makes every reader of the journal see an audit draw
  (`Decision.AuditReadersAreRightIff`, with an item in `Decision.FindingReadAsDraw`).
* With a salt the hash refuses, `decide` returns its error record, but the run dies recomputing the
  draw before that record reaches the journal (`Pipeline.ErrorRecordIsNeverJournaled`, with a config in
  `Pipeline.OverlongSaltLosesTheRecord`).  The loader refuses such salts.
* The presence-only lint does not make every linted predicate transparent: at or below a path that is
  sealed as a subtree, presence itself can change (`ConfigLint.PresenceSurvivesSealingIff`).
* Keeping the field paths apart from the decorative ones is not enough for the paraphraser: the meta
  block replaces the whole `meta` object.  The guard stays silent for every fact set exactly when no
  field lies at or below `meta` (`Paraphrase.GuardSilentIff`); the shipped table is fine
  (`Paraphrase.ShippedTableIsPrefixFree`).
* `_joined` promises the string the submission carries, but sorts ties by value where the builder keeps
  form order.  The promise holds, whatever a visitor posts, exactly when every field of the path has a
  join order of its own (`Forms.SameStringIff`); `Forms.TiedReadingsDiffer` is a form for which it does not.

## Model

| member | source | states |
|---|---|---|
| Sorting.StableSortIsUnique | eval/calibration.py:226 | Order, permutation and stability leave exactly one sorted sequence, so `Sort` is what Python's `sorted` with a key returns |
| Sorting.SortPermutes | eval/calibration.py:226 | Sorting keeps every element as often as it occurred |
| Sorting.SortSorted | eval/calibration.py:226 | The result is in order, for any total preorder |
| Sorting.SortStable | eval/calibration.py:226 | Tied elements keep their order |
| Grouping.OrderedIsSorted | eval/calibration.py:155 | The fit works on a sample sorted by score that is a permutation of the input |
| Grouping.CutIsFloor | eval/calibration.py:231-232 | A cut is the largest position that is not beyond `index / count` of the sample |
| Grouping.GroupCountIs | eval/calibration.py:228 | As many slices as asked for, but never more than samples |
| Grouping.CutStep | eval/calibration.py:228-233 | Consecutive cuts at `index * n // count` are n/count apart, rounded down or up |
| Grouping.SlicesNearlyEqual | eval/calibration.py:218-233 | Before merging no group is empty and no two sizes differ by more than one |
| Grouping.GroupsPartition | eval/calibration.py:218-246 | The groups concatenate to the sample, none is empty, no tie is split, there are at most `bin_count`, and a new group starts at exactly those equal-frequency cuts where the score changes |
| Grouping.GroupsRise | eval/calibration.py:235-246 | In a sorted sample every score of a later group is strictly larger than every score of an earlier one |
| Grouping.EqualFrequencyGroups | eval/calibration.py:218-246 | The two loops, slicing and merging in place, compute the specified grouping |
| Isotonic.PoolAdjacentViolators | eval/calibration.py:249-273 | The stack loop returns one value per bin, and it is the isotonic projection of the accuracies; at most as many pops as bins |
| Isotonic.PoolOfPools | eval/calibration.py:261-271 | Pooling a block with a smaller one after it keeps the stack invariant: every prefix of a block averages at least the block's value |
| Isotonic.StackIsProjection | eval/calibration.py:259-273 | A rising stack of such blocks, written out, meets the optimality conditions of the projection |
| Isotonic.ProjectionIsClosest | eval/calibration.py:249-258 | No non-decreasing sequence is closer in weighted least squares |
| Isotonic.ProjectionIsUniqueMinimiser | eval/calibration.py:249-258 | Any non-decreasing sequence that is as close is the same sequence |
| Isotonic.ProjectionIsUnique | eval/calibration.py:249-273 | There is one projection, so the loop's result is determined by the accuracies and the counts alone |
| Isotonic.UnchangedIffMonotone | eval/calibration.py:249-258 | The accuracies come back unchanged exactly when they were already non-decreasing |
| Isotonic.LevelIsWeightedMean | eval/calibration.py:264-270 | Each level's value is the weighted mean of the bins it absorbed |
| Isotonic.MassConserved | eval/calibration.py:264-270 | Total weighted mass is conserved |
| Isotonic.ProjectionInRange | eval/calibration.py:249-273 | No pooled value leaves the range of the input |
| Calibration.CountIsCardinality | eval/calibration.py:297 | The correct samples of a group are counted one by one, wherever they stand |
| Calibration.AccuracyIsShare | eval/calibration.py:294-297 | The accuracy times the size of the group is the number of its correct samples |
| Calibration.LoaderAcceptsIff | engine/config_loader.py:435-453 | The validator as written, sorting, comparing and counting distinct bounds, accepts exactly the maps with strictly rising bounds up to 1.0, confidences that do not fall, and everything in range |
| Calibration.DropDuplicatesSpec | eval/calibration.py:276-291 | Bounds rise strictly afterwards, none is lost, and a bin survives exactly when it is the first of its bound |
| Calibration.KeepsLastIff | eval/calibration.py:279 | The last bin of every bound survives exactly when the first and the last bin of every bound carry the same confidence |
| Calibration.DropKeepsApply | eval/calibration.py:281-286 | De-duplicating changes no looked-up confidence up to the last bound: the first of a bound is the bin that would have been used |
| Calibration.DropDuplicateUppers | eval/calibration.py:276-291 | The dict-filling loop and the sorted read-out compute that |
| Calibration.DropMakesValid | engine/config_loader.py:435-453 | Weakly rising bounds in range that reach 1.0, with rising confidences, become a map the loader accepts |
| Calibration.ApplyCalibration | engine/evidence/classify.py:179-189 | The lookup loop computes `Apply` |
| Calibration.ApplyFinds | engine/evidence/classify.py:179-189 | A score is worth the confidence of the first bin whose bound reaches it, the last bin's beyond |
| Calibration.ApplyIsMonotone | engine/config_loader.py:420-453 | A map the loader accepts never says a better score means less, and never leaves [0, 1] |
| Calibration.FitValidIff | eval/calibration.py:154-166 | The fitted bins pass the loader's validator exactly when no group but the last ends outside [-1, 1] |
| Calibration.CosinesFitValid | eval/calibration.py:154-166 | For every non-empty sample of cosines and every bin count they do |
| Calibration.BeyondRangeFitIsRefused | eval/calibration.py:154-166 | Two samples at 2.0 and 3.0 whose own pooled accuracies give a map the loader refuses |
| CalibrationFit.FitCalibration | eval/calibration.py:135-187 | Both refusals, and otherwise: bins from the projection of the group accuracies, both errors, the group sizes and the number of correct samples; for cosines the map is valid and both errors lie in [0, 1] |
| CalibrationFit.ExpectedCalibrationError | eval/calibration.py:190-215 | The accumulating loop computes the error of the sample's own groups |
| CalibrationFit.ClaimsAddUp | eval/calibration.py:211-213 | What a group claims is the sum of the confidences of its samples |
| CalibrationFit.GroupErrorIs | eval/calibration.py:210-214 | In samples, a group adds the distance between what it claims and how many of its samples are correct |
| CalibrationFit.ClampIsNearest | eval/calibration.py:300-302 | The raw error reads a cosine as the nearest probability |
| CalibrationFit.EceInUnit | eval/calibration.py:190-215 | For confidences in [0, 1] the error lies in [0, 1] |
| CalibrationFit.CosinesEndBelowLast | eval/calibration.py:154-166 | Samples of at most 1.0 fall into groups of which all but the last end below 1.0 |
| CalibrationFit.SamplesMeetTheirBin | eval/calibration.py:190-215 | If all groups but the last end below 1.0, every sample is mapped to the confidence of its own group |
| CalibrationFit.FittedErrorIsPoolingCost | eval/calibration.py:17-25 | For such groups the error after the fit is the weighted sum of what pooling moved, and it is 0 exactly when the group accuracies were already non-decreasing |
| CalibrationFit.Round4IsNearest | eval/calibration.py:85-110 | Rounding gives a whole number of ten-thousandths at most half of one away, at exactly half the even one |
| CalibrationFit.BlockIsClose | eval/calibration.py:85-110 | The block states the error to four decimals, no rounded bound is lost, and every bin is a rounded bin of the fit |
| CalibrationFit.BlockStaysValid | eval/calibration.py:85-110 | Rounded to four decimals and de-duplicated again, an accepted map is still accepted, also when an inner bound rounds up to 1.0 |
| CalibrationFit.BlockIsStable | eval/calibration.py:85-110 | Writing out a pasted block changes nothing |
| Predicates.OperatorsOrder | engine/predicate.py:179-199 | Between two numbers exactly one of below, equal and above holds, the weak operators are made of them, `ne` negates `eq`, and nothing but two numbers is ordered |
| Predicates.InMeans | engine/predicate.py:254-259 | `in` tests a list element by element with `eq`, a text for a substring, and anything else never |
| Predicates.TextOperatorsMean | engine/predicate.py:202-214 | `contains` looks for the folded literal in the folded field, `matches` searches the field with a literal that compiles, and neither holds of anything but texts |
| Predicates.LeafMeans | engine/predicate.py:83-87 | A leaf compares the field, on the left, with its literal; nothing holds of an absent field |
| Predicates.CombinatorsMean | engine/predicate.py:90-107 | One more child can only make `all` false and `any` true; the empty `all` holds and the empty `any` does not |
| Predicates.BooleansAndNumbers | engine/predicate.py:243-251 | Equality and membership never mix a boolean with a number at the top level, and inside list literals they do |
| Predicates.EqualIsExactIff | engine/predicate.py:243-251 | `eq` against a value is equality proper, for every other side, exactly when the value is no container or holds no boolean, 0 or 1 |
| Predicates.KnowledgeIsMonotone | engine/predicate.py:83-107 | Adding fields to a context never turns a true predicate false |
| Predicates.EvaluateCongruence | engine/predicate.py:75-107 | A predicate that agrees on every leaf agrees as a whole |
| Predicates.PrintParses | engine/predicate.py:113-158 | Parsing the printed form of a predicate with compilable patterns gives it back |
| Predicates.DocumentsMean | engine/predicate.py:113-171 | The vocabulary: the keys `all` and `any`, the keys of a leaf, and the operator each of the nine names stands for |
| Predicates.ParsedPrintsBack | engine/predicate.py:113-158 | Whatever parses is the printed form of its result, and its patterns compile |
| Predicates.ParseAcceptsExactly | engine/predicate.py:113-158 | Exactly the printed forms of predicates with compilable patterns are accepted |
| ConfigLint.SilentLint | engine/config_loader.py:1743-1756 | The lint is silent exactly when every leaf on an identity field is a presence test |
| ConfigLint.PayloadLeafReportedIff | engine/config_loader.py:1752-1763 | On a payload path the lint reports exactly the tests for more than presence whose path the policy declares or that sits below a declared subtree |
| ConfigLint.OtherLeafReportedIff | engine/config_loader.py:1764-1766 | On an extracted field it reports exactly such tests of sealed fields, on any other field nothing |
| ConfigLint.ExtractedLeafReportedIff | engine/redact/policy.py:146-157 | With the policy's own sealed ids, a test for the value of an extracted field is reported exactly when the path the field is read from is declared |
| ConfigLint.TreeReports | engine/config_loader.py:1746-1751 | A tree is reported leaf by leaf, in order, whatever its combinators |
| ConfigLint.PresenceTestMeaning | engine/config_loader.py:117 | `eq null` is constantly false and `ne null` is presence |
| ConfigLint.LintedIsTransparent | engine/config_loader.py:1628-1636 | A predicate the lint is silent about evaluates alike in every two contexts that agree up to the non-null values of identity fields |
| ConfigLint.LintIsExact | engine/config_loader.py:1743-1766 | For an `eq` or `ne` leaf the lint complains exactly when two contexts that agree up to identity values tell it apart, so it refuses no harmless one |
| ConfigLint.DeclaredPathIsSealed | engine/redact/seal.py:235-265 | At every declared path a leaf that states something reads as its placeholder and one that states nothing stays; of a subtree with anything in it only the placeholder is left |
| ConfigLint.UndeclaredPathIsKept | engine/redact/seal.py:146-172 | Every other path is kept as it was |
| ConfigLint.PresenceSurvivesSealingIff | engine/redact/seal.py:146-172 | Sealing keeps a path's presence, for every payload, exactly when no subtree entry covers it |
| ConfigLint.ExtractionSurvivesSealing | engine/redact/policy.py:146-157 | Reading a procedure's fields from the sealed payload instead of the original changes values of sealed fields only and the presence of none, if no field's path is covered by a subtree entry |
| ConfigLint.LintedSurvivesSealing | engine/config_loader.py:1623-1652 | A linted predicate whose presence tests keep clear of subtree entries means the same before and after sealing, while the values of sealed extraction fields change too |
| Decision.OnlyConfidenceCanBeMissing | engine/decide/interpreter.py:231-255 | Of all qualifying fields only the extraction confidence can be unresolvable |
| Decision.FieldsCarryEvidence | engine/decide/interpreter.py:249-254 | The two counts, the confidence, the verdict and the two flags reach the rows under the field named for each |
| Decision.QualifyingFieldsMatch | engine/decide/interpreter.py:237-241 | The validator admits a qualifying condition exactly on the fields that are resolved for every item, none of them an anomaly field |
| Decision.ConditionsAsk | engine/decide/interpreter.py:433-439 | What conditions on the counts, the confidence and the flags ask of an item |
| Decision.RowAsksAll | engine/decide/interpreter.py:394-399 | A row holds exactly when each of its conditions does |
| Decision.RoutingIsTheBestAdmitted | engine/decide/interpreter.py:242-248 | The addressee and the confidence the rows test are those of the earliest admitted suggestion with the highest confidence in the list as it came, or none and 0; a rule hit is an admitted rule suggestion |
| Decision.BestIndex | engine/decide/interpreter.py:520-524 | Among admitted suggestions the first with the highest confidence is taken |
| Decision.FirstMatch | engine/decide/interpreter.py:389-407 | The least row whose conditions all hold, or none |
| Decision.EvaluateRows | engine/decide/interpreter.py:389-430 | The row loop returns that row's tier, one FAILED per earlier row in order, then one QUALIFIED or DEFAULTED |
| Decision.EvaluateDowngrades | engine/decide/interpreter.py:263-294 | One outcome per rule in order, applied only when enforcing; none without evidence |
| Decision.DowngradesAsk | engine/decide/interpreter.py:258-282 | What score and flag conditions ask of an anomaly, and that a rule fires exactly when each of its conditions holds |
| Decision.ScoreConditionsValidIff | schemas/config.py:93-107 | On the score, membership aside, the validator admits exactly the conditions that a higher score can never switch off |
| Decision.DrawIs | engine/decide/interpreter.py:136-179 | Sampling is off without a rate above 0 and a salt; a salt of at most 64 bytes draws by case id and salt alone and takes the item when the draw lies below the rate; a longer salt is refused |
| Decision.DecideItem | engine/decide/interpreter.py:297-386 | The step-by-step decision, error rail included, computes `Decide` |
| Decision.OneWayValve | engine/decide/interpreter.py:310 | For any evidence, valid table, mode, rate and salt, an anomaly at least as strong (none being weakest) never leads to a lower tier |
| Decision.SamplingOnlyAdds | engine/decide/interpreter.py:340-351 | Raising the audit rate never lowers the tier |
| Decision.RowsGovern | schemas/decision.py:52-58 | The final tier is never below the row tier; outside the error rail row tier and addressee do not depend on anomaly, mode or sampling |
| Decision.LogOnlyIsInert | engine/decide/interpreter.py:263-294 | In log-only mode no anomaly changes any part of the record |
| Decision.LosingFieldsIff | engine/decide/interpreter.py:389-439 | Losing fields can better a row tier exactly when a later row with a lower tier holds on fields the losing rows can do without |
| Decision.MissingEvidenceIff | engine/decide/interpreter.py:433-439 | The same for the full decision, over every loss of any fields: none can help the item exactly when no such row exists, or something else forces tier 3 |
| Decision.LosingTheseIff | engine/decide/interpreter.py:389-439 | Losing just these fields betters the row tier exactly when some row with a better tier holds without them while every row before it that holds asks for one of them |
| Decision.ConfidenceLossIff | engine/decide/interpreter.py:433-439 | For any evidence, table and setting, losing the extraction confidence lowers the tier exactly when the salt is usable, nothing is applied, the item is not drawn and such a row exists |
| Decision.OrderedTablesAreSafe | schemas/config.py:128-134 | With non-decreasing row tiers, losing any set of fields never lowers the tier |
| Decision.UnorderedTableBetters | schemas/config.py:128-134 | A schema-valid table and an item whose tier gets better when its extraction confidence goes missing |
| Decision.ReasonsReplay | engine/decide/interpreter.py:323-386 | Both tiers can be read back off the reasons and the table |
| Decision.ReasonsTellTheTruth | engine/decide/interpreter.py:323-351 | Outside the error rail the DOWNGRADED reasons are exactly the applied rules in order, SAMPLED appears exactly when the draw moved the item, and a tier above the row tier has such a reason |
| Decision.AuditReadersAreRightIff | engine/decide/interpreter.py:182-204 | Outside the error rail the reader of audit draws classifies every reason rightly exactly when no applied downgrade rule is called `audit_sample` |
| Decision.FindingReadAsDraw | engine/decide/interpreter.py:199-204 | A schema-valid enforcing table under which a fired downgrade reads as an audit draw although nothing was drawn |
| Decision.UnadmittedCannotInterfere | engine/decide/interpreter.py:213-228 | Interleaving any suggestions from sources that are not admitted leaves the whole record unchanged |
| Pipeline.JournalStore.constructor | engine/journal/store.py:120-121 | A new store is well-formed and empty |
| Pipeline.JournalStore.Append | engine/journal/store.py:123-127 | Refuses anything but the next sequence number and a new id, in that order; otherwise appends one event and changes nothing else |
| Pipeline.JournalStore.Emit | engine/journal/store.py:90-114 | Appends exactly one event to its own case, rewriting nothing |
| Pipeline.JournalAnomaly | engine/pipeline.py:264-283 | Scores unless evidence was handed in, and writes the score, the degradation or nothing |
| Pipeline.JournalDecision | engine/pipeline.py:551-637 | Writes the decision with the recomputed downgrades and draw, then the unit if one was chosen; fails, writing nothing, exactly for an unusable salt |
| Pipeline.AnomalyThatDecides | engine/pipeline.py:264-283 | The evidence handed in decides, else what the scorer returned, unchanged, else none; a working scorer writes what a run handed its evidence writes |
| Pipeline.SettingCarriesConfig | engine/pipeline.py:285-296 | The decision gets the config's table, risk and draw, the salt of its scoring, and the flags of procedure and item |
| Pipeline.ClassifierMattersIff | engine/pipeline.py:417-426 | Rules always govern; the classifier governs exactly when enabled, and otherwise any of its suggestions in between leave the whole trace as it is |
| Pipeline.RunPipeline | engine/pipeline.py:150-322 | A run appends exactly its trace to its own case and completes exactly when the salt is usable, with the decision on the evidence it scored |
| Pipeline.StagesInOrder | engine/pipeline.py:3-9 | The stages of a run appear in the documented order, none twice |
| Pipeline.StagesPresent | engine/pipeline.py:3-9 | Which stages appear: the evidence stages always, a tier exactly with a usable salt, a unit exactly when chosen, silence about anomalies exactly when nobody looked |
| Pipeline.JournalAgreesWithDecision | engine/pipeline.py:560-573 | The recomputed downgrades and draw match the record's reasons, and the entry replays to its own tiers |
| Pipeline.FailingScorerIsHarmless | engine/pipeline.py:325-368 | A scorer that raises or degrades leaves the decision as without anomaly evidence and says so in the journal, the same whichever way it failed |
| Pipeline.FailingScorerAgainstEvidence | engine/pipeline.py:264-299 | Against the same item with any evidence: the same evidence entries, a degradation instead of a score, and a decision with the same row tier, addressee and draw, never a higher tier, and the same record unless the evidence applies a downgrade |
| Pipeline.DroppingTheScorerIff | engine/pipeline.py:371-381 | Removing the scoring config of a failing scorer, and the salt with it, leaves the decision as it is exactly when the draw did not move the item |
| Pipeline.ErrorRecordIsNeverJournaled | engine/pipeline.py:569-573 | With an unusable salt the decision is the error record and no tier is ever journaled |
| Pipeline.OverlongSaltLosesTheRecord | engine/decide/interpreter.py:150-154 | A config with a salt of 65 bytes under which every item is decided at tier 3 and no run journals it |
| Letter.Writer.Write | corpus/generator/letter.py:217-220 | The running position is the offset at which the next block will stand |
| Letter.Compose | corpus/generator/letter.py:195-250 | The whole letter text, one line per fact in order whose recorded offsets slice back to its label and value, or the first fact without a label |
| Letter.JoinedAppend | corpus/generator/letter.py:250 | Line breaks stand between the pieces only |
| Letter.QuoteAtLabel | corpus/generator/letter.py:143-151 | The text from the label to the end of the value is the quote |
| Corruption.ProtectedRanges | corpus/generator/letter.py:279-294 | The collecting loop and the sort compute the protected ranges |
| Corruption.ProtectedHas | corpus/generator/letter.py:279-294 | Every detection, every label with its space and every short value is protected |
| Corruption.ClearIff | corpus/generator/letter.py:413-414 | A stretch overlaps no range exactly when every range ends at or before it or begins at or after its end |
| Corruption.FindLiteralMissesNothing | corpus/generator/letter.py:379-384 | Every occurrence of a misreadable pattern is found or overlaps one found before it |
| Corruption.SubstitutionsAreAll | corpus/generator/letter.py:379-384 | The substitutions are exactly the occurrences of all misreadings that overlap no forbidden range |
| Corruption.HyphenationsAreAll | corpus/generator/letter.py:385-389 | The hyphenations are exactly one per run of at least eight lower-case letters, four letters in, that keep a character's distance from every forbidden range |
| Corruption.LongValuesAre | corpus/generator/letter.py:306-310 | The values open to corruption are exactly the places of those of twelve characters or more |
| Corruption.InsideIff | corpus/generator/letter.py:393-402 | An edit is inside a value when it starts in it and ends, or at least splits before a character, in it |
| Corruption.CandidateOrderIs | corpus/generator/letter.py:354-361 | All substitutions inside values come first, then one hyphenation inside a value if there is any, then all substitutions and last all hyphenations in the prose |
| Corruption.LineNumberCounts | corpus/generator/letter.py:365 | The line number of an edit is the number of line breaks before it |
| Corruption.DifferentLinesAreDisjoint | corpus/generator/letter.py:364-371 | No candidate spans a line break, so candidates that start on different lines are disjoint |
| Corruption.PickEdits | corpus/generator/letter.py:338-372 | The loop chooses greedily in the drawn order: at most three, never two on one line, and nothing is left out whose line is free unless three are chosen |
| Corruption.SortedAreDisjoint | corpus/generator/letter.py:311 | The chosen edits in text order are pairwise disjoint |
| Corruption.ApplyRightToLeft | corpus/generator/letter.py:312-313 | Right to left at the old offsets equals one simultaneous substitution |
| Corruption.RangeSurvives | corpus/generator/letter.py:317-335 | A range no edit reaches into reads the same at its place shifted by the edits before it |
| Corruption.ProtectedSurvives | corpus/generator/letter.py:303-313 | Every protected range survives verbatim at its shifted place |
| Corruption.LabelAndValueMoveTogether | corpus/generator/letter.py:324-335 | Label and value are moved by the same amount |
| Corruption.FactSurvives | corpus/generator/letter.py:317-335 | After the edits each fact's shifted offsets still point at its label and space, and at its value if that is short |
| Corruption.LengthChanges | corpus/generator/letter.py:312-313 | The length changes by exactly the sum of what the edits add or remove |
| Corruption.Corrupt | corpus/generator/letter.py:297-314 | The corruption pass makes exactly the chosen edits, and labels, short values and detections survive at their shifted places |
| Corruption.EntryIs | corpus/generator/letter.py:253-276 | A fact is stated in the sidecar, by its own value and quote, exactly when no detection touches its value; otherwise only its name and label are |
| Corruption.RenderLetter | corpus/generator/letter.py:163-192 | Text, fixture and places agree from facts to sidecar: the clean letter or its corruption, one entry per fact, which states the fact's own value and quote exactly when the final scan detects nothing in its value |
| Payload.FindPut | corpus/generator/render.py:272-280 | Setting a key changes what that key reads and nothing else |
| Payload.ResolveWalk | corpus/generator/render.py:283-289 | The segment-by-segment walk computes `Resolve` |
| Payload.SetThenGet | corpus/generator/render.py:272-289 | What is written at a path is read back there |
| Payload.SetLeavesOthers | corpus/generator/render.py:272-289 | Every path that neither leads through it nor is led through by it reads what it read before |
| Payload.SetSucceedsIff | corpus/generator/render.py:275-279 | Writing succeeds exactly when nothing but objects stands on the way |
| Payload.SetWellFormed | corpus/generator/render.py:272-280 | Keys stay unique |
| Payload.StripIs | corpus/generator/render.py:265-268 | Stripping takes white space off both ends, all of it and nothing else |
| Payload.StripPadded | corpus/generator/paraphrase.py:234-235 | White space around a string does not change what is left of it after stripping |
| Payload.ShuffleIsPermutation | corpus/generator/paraphrase.py:239-247 | A shuffled object has the same keys, each once, with their own values, in the order that was drawn |
| Payload.SurfaceKeepsText | corpus/generator/paraphrase.py:228-247 | Padding and shuffling keep the stripped text at every path that holds a string, and the absence at every path that holds nothing |
| Paraphrase.RenderData | corpus/generator/render.py:213-225 | The rendering loop: every fact written in order, then the address, or the first error |
| Paraphrase.RenderingStatesTheFacts | corpus/generator/render.py:255-269 | For any fact set over a prefix-free table, rendering succeeds and the mapper reads exactly the stripped facts |
| Paraphrase.DecoratedSays | corpus/generator/paraphrase.py:131-134 | Decorating writes the note, the date and the wish if there is one, each at its path |
| Paraphrase.GuardNeverFires | corpus/generator/paraphrase.py:123-141 | After the cover note, the meta block, any padding and any key order the mapper still reads exactly the stripped facts, for tables without a field at or below `meta` |
| Paraphrase.GuardSilentIff | corpus/generator/paraphrase.py:170-202 | The guard lets every fact set through exactly when no field lies at or below `meta` |
| Paraphrase.ShippedTableIsPrefixFree | corpus/generator/render.py:39-75 | The shipped field paths are pairwise apart, apart from the decorative paths, and clear of `meta` |
| Paraphrase.ShippedSurfaceIsSafe | corpus/generator/paraphrase.py:123-141 | Every fact set over the shipped fields renders and survives every surface variation |
| Forms.GroupByPath | engine/demo/personas.py:468-483 | The grouping loop lists every path once in order of first appearance, with its non-blank answers in form order |
| Forms.BuildSubmission | engine/demo/personas.py:397-402 | The building loop writes one joined text per path, leaving blank ones out |
| Forms.JoinAppend | engine/demo/personas.py:399 | One space between each two parts, none at the ends |
| Forms.JoinedInOrder | engine/demo/personas.py:382-388 | Two filled-in fields of a path come out in their join order, however they stand on the form |
| Forms.BlankIff | engine/demo/personas.py:399-401 | A path is left out exactly when none of its fields was filled in |
| Forms.AssignThenGet | engine/demo/personas.py:486-496 | What is assigned is read back, even over something that is not an object |
| Forms.AssignLeavesOthers | engine/demo/personas.py:486-496 | Paths apart from the assigned one read what they read before |
| Forms.SubmissionReadsBackIff | engine/demo/personas.py:382-402 | Every path of the submission reads back its joined text, or is absent when blank, for all values a visitor can post, exactly when no path leads through another |
| Forms.FilterSortCommute | engine/demo/gegenpartei.py:467-472 | Dropping blanks after sorting the pairs equals dropping them before |
| Forms.SameStringIff | engine/demo/gegenpartei.py:460-466 | Both readings give the same string for everything a visitor can post exactly when every field of the path has a join order of its own |
| Forms.TiesCanDiffer | engine/demo/gegenpartei.py:467-472 | For any two fields of a path with one join order, answers for which the submission reads `b a` and the letter `a b` |
| Forms.ReadingsAgreeIff | engine/demo/gegenpartei.py:467-472 | For given answers, both readings put a path's parts into the same order exactly when parts with equal join orders already stand in the order of their texts |
| Forms.ReadingsAgree | engine/demo/gegenpartei.py:460-466 | With a join order of its own for every field of a path, both readings give the same string |
| Forms.TiedReadingsDiffer | engine/demo/gegenpartei.py:467-472 | A prefilled form of two fields with the default join order, sent as it is, for which they differ |
| Forms.LetterQuotesSubmission | engine/demo/gegenpartei.py:444-456 | The letter's text for a path is what the built submission carries there |
| Segments.MatchIsPlaceholder | engine/redact/placeholders.py:83-89 | The left-to-right match accepts only the placeholder syntax |
| Segments.PlaceholderMatches | engine/redact/placeholders.py:83-89 | And accepts all of it, with the kind it spells |
| Segments.NoInnerMatch | engine/redact/placeholders.py:83-89 | Placeholders never overlap |
| Segments.FindAllFinds | api/demo.py:1206 | The scan finds every placeholder of the text and nothing else |
| Segments.PlainRuns | api/demo.py:1198-1212 | The loop over the matches computes the runs |
| Segments.PlaceholdersStandAlone | api/demo.py:1198-1212 | In plain runs a stretch is a marked segment of its own, verbatim, exactly when it is a placeholder of that kind |
| Segments.StructuredLineIff | api/demo.py:1195 | A line is structured exactly when it reads as a key, the separator and anything, and the cut is at the leading key |
| Segments.LinesAre | api/demo.py:1234 | No line holds a break, and the lines with a break between each two are the text |
| Segments.PaintLine | api/demo.py:1237-1245 | One line of a structured part: key, separator and the value's runs, or plain runs |
| Segments.Paint | api/demo.py:1215-1246 | Both shapes, line by line |
| Segments.PaintingLosesNothing | api/demo.py:1215-1224 | The segments' texts concatenate to the input, in both shapes |
| Segments.PlaceholdersStayWhole | api/demo.py:1199-1204 | No segment boundary falls inside a placeholder, in both shapes |

## Left out

- Floating point: scores, accuracies and draws are reals, so rounding of sums, NaN and the exact bits of the draw are not modelled; rounding to four decimals is exact, ties to even.
- The keyed hash, the regular-expression engine, case folding and the detector union are parameters; the misreading patterns and the placeholder and key syntax are written out.
- The random source: its choices are parameters (shuffles, paddings, note, dates), over all values.
- Nested dicts that are changed in place (`_set_path`, `_assign`, `apply`) are modelled on values, as association lists; aliasing between a payload and its copy is not captured.
- Dotted paths are lists of segments; splitting a path at its dots is not modelled.
- CalibrationFit.FittedErrorIsPoolingCost: assumes that every group but the last ends below 1.0, as it does for cosines; beyond that the last bin's fixed bound 1.0 no longer comes last.
- CalibrationFit.FitCalibration: leaves out the provenance strings and the text of the emitted block.
- Decision.DecideItem: the only fault the error rail sees is the refused salt; other exceptions inside the decision have no counterpart. Detail strings, versions and time stamps are left out.
- Pipeline.RunPipeline: ingest, text layer, extraction and evidence assembly are one event each and their results are inputs; errors they raise are not modelled.
- Pipeline.JournalStore.Emit: event ids are a counter instead of random, so an id collision inside `emit` cannot occur; `append` itself takes any id; `case_ids` and the file-backed store are left out.
- Forms.SameStringIff: assumes that the field ids of a form are distinct, which the persona loader does not check; two fields with one id always carry one posted answer.
- ConfigLint.PresenceSurvivesSealingIff: payloads are flattened to leaves, so an object that holds nothing but empty objects, which the source seals as a subtree, looks empty here; the depth limit of flattening, keys that contain dots, and the placeholder a resubmitted working copy may already carry are not modelled.
- ConfigLint.LintedSurvivesSealing: covers the seal of the policy's own paths; the sweep that seals further leaves in which a detector finds residue can change values the lint does not guard, and is left out.
- Pipeline.FailingScorerIsHarmless: a scorer is one of its three outcomes; the wrapper that turns an exception into a degradation is that case distinction.
- Corruption.Corrupt: nothing is promised about the end of a long value, which the edits may stretch or shrink; the fixture's offsets do not need it.
- Paraphrase.GuardNeverFires: letter items, whose data is empty and which are not varied, and the guard's comparison of letter text and sidecar are left out; so is the model-written note.
- Forms.BuildSubmission: attachments and the envelope around the data are left out.
- Pairing typed values with placeholders, grouping form rows, and every page, route and template: only easy members there.
- Routing arbitration, completeness, drafting, review, the vault, YAML loading and the command line are not part of this model.
