# MosaicML metadata logger and ICL eval-output logging, in Dafny

This project models two callback plugins of the Composer training library and
proves properties of the model.

- **`MosaicMLLogger`** (`composer/loggers/mosaicml_logger.py`) buffers run
  metadata and flushes it to the MosaicML platform's metadata API. Keys that
  match an fnmatch ignore pattern are dropped. Kept keys are stored under the
  `mosaicml/` prefix with their value normalised to JSON. An unforced flush
  calls the API only when more than `log_interval` seconds have passed since
  the last successful call. A failed call does not record its time, so the
  next call retries. Failed API calls
  spend a budget of three, which regains one after an hour without
  adjustment. When the budget is spent, the logger disables itself.
  - The logger is the class `MetadataLogger.MosaicMLLogger`. Its methods are
    proved against the specification functions `Flush`, `BufferItems` and
    `Log`. The lemmas are stated about those functions.
  - The normaliser `format_data_to_json_serializable` is modelled in module
    `JsonFormat`.
  - The progress strings of `_get_training_progress_metrics` are modelled in
    module `TrainingProgress`.
  - Python's `fnmatch` is modelled in module `Wildcards`.
  - `str(int)` is modelled in module `Decimal`.
- **`EvalOutputLogging`** (`composer/callbacks/eval_output_logging_callback.py`)
  works at the end of each ICL evaluation. It takes each metric's response
  cache as `(columns, rows)` and refuses a cache without a `correct` column.
  If asked, it keeps only the incorrect rows, and then a random sample of
  them. The result is stored per benchmark. At the end of the phase the
  tables go to a file named `eval-outputs-ba{batch}.tsv` in the output
  directory, and the store is emptied.
  - The class is `EvalOutputLogging.EvalOutputLogging`. Its `EvalEnd`
    method is proved against the function `EvalEndFrom`.
  - The row filter and the sample are functions in module `EvalRows`.

Inputs the system reads from its environment are parameters of the model:

- the clock (`now` in the logger, `batch` for the file name);
- the outcome of the remote API call (`remoteOk`);
- the global rank and the `RUN_NAME` environment variable;
- the current directory (`cwd`);
- the random numbers `random.sample` draws (`draws`, `randomness`).

`random.sample` is modelled as removing one position at a time from the pool
of positions, chosen by the next random number. `EvalRows.EverySampleReachable`
proves that every selection of distinct positions of the right size can be
produced this way. So the model leaves sampling entirely to chance, as the
source does.

## Model

| member | source | states |
|---|---|---|
| MetadataLogger.MosaicMLLogger.constructor | composer/loggers/mosaicml_logger.py:62-82 | enabled exactly on global rank 0 with a run name; budget 3, last-logged and adjustment times 0, empty buffer, no dataloader length; the invariant holds |
| MetadataLogger.MosaicMLLogger.FlushMetadata | composer/loggers/mosaicml_logger.py:176-193 | the new state is `Flush` of the old one; the payload is the old buffer exactly when the API is called; the invariant is kept |
| MetadataLogger.MosaicMLLogger.LogMetadata | composer/loggers/mosaicml_logger.py:167-174 | the loop over the items leaves the state `Log` describes: buffer every non-ignored key, prefixed, with its normalised value, then flush unless normalising raised; the payload is the buffer after buffering exactly when nothing raised and an unforced flush is due, and it holds only prefixed, non-ignored keys; the invariant is kept |
| MetadataLogger.MosaicMLLogger.BatchStart | composer/loggers/mosaicml_logger.py:143-145 | the dataloader length is recorded only when known and the logger is enabled |
| MetadataLogger.MosaicMLLogger.LogProgressAndFlush | composer/loggers/mosaicml_logger.py:147-149 | logs the progress metrics, then flushes, forced or not as asked |
| MetadataLogger.MosaicMLLogger.BatchEnd | composer/loggers/mosaicml_logger.py:147-149 | logs the progress metrics, then flushes if due |
| MetadataLogger.MosaicMLLogger.FitEnd | composer/loggers/mosaicml_logger.py:154-156 | logs the progress metrics, then forces a flush |
| MetadataLogger.MosaicMLLogger.EpochEnd | composer/loggers/mosaicml_logger.py:151-152 | flushes if due, nothing else |
| MetadataLogger.MosaicMLLogger.ForceFlush | composer/loggers/mosaicml_logger.py:158-165 | `eval_end`, `predict_end` and `close` force a flush, nothing else |
| MetadataLogger.Ignored | composer/loggers/mosaicml_logger.py:171 | a key is ignored iff the ignore list is given, non-empty, and one of its patterns matches the key under `fnmatch` |
| MetadataLogger.BufferItems | composer/loggers/mosaicml_logger.py:170-173 | the loop of `_log_metadata`: each non-ignored item is stored under `mosaicml/` plus its key with its normalised value; a value the normaliser refuses stops the loop |
| MetadataLogger.Log | composer/loggers/mosaicml_logger.py:167-174 | `_log_metadata`: nothing on a disabled logger; otherwise buffer the items, then run an unforced flush unless normalising raised |
| MetadataLogger.Flush | composer/loggers/mosaicml_logger.py:176-193 | `_flush_metadata`: unless enabled and forced or due, nothing; on success empty the buffer, record the time and regain one unit of budget after an hour; on failure spend one unit and disable at zero |
| MetadataLogger.NothingIgnoredWithoutPatterns | composer/loggers/mosaicml_logger.py:171 | with an ignore list of `None` or `[]`, no key is ignored |
| MetadataLogger.WallClockKeysIgnored | composer/loggers/mosaicml_logger.py:57 | with the pattern `wall_clock/` followed by `*` in the list, every `wall_clock/...` key is ignored |
| MetadataLogger.LiteralPatternIgnoresOnlyItself | composer/loggers/mosaicml_logger.py:54-55 | a pattern without wildcards ignores exactly the key equal to it |
| MetadataLogger.FlushTimeGated | composer/loggers/mosaicml_logger.py:178 | an unforced flush before more than `log_interval` seconds have passed, or one on a disabled logger, calls nothing and changes nothing |
| MetadataLogger.ForcedFlushIgnoresInterval | composer/loggers/mosaicml_logger.py:178 | a forced flush of an enabled logger always calls the API |
| MetadataLogger.FlushSuccess | composer/loggers/mosaicml_logger.py:180-187 | a successful call empties the buffer and records the time; the budget rises by exactly one, with the adjustment time set to now, iff more than 3600 s have passed and the budget is below 3 |
| MetadataLogger.FlushFailure | composer/loggers/mosaicml_logger.py:188-193 | a failed call lowers the budget by one, sets the adjustment time to now and keeps the buffer; afterwards the logger is enabled iff the budget is positive |
| MetadataLogger.SuccessfulFlushWaits | composer/loggers/mosaicml_logger.py:178-182 | after a successful call the next unforced flush is due iff more than `log_interval` seconds have passed since it |
| MetadataLogger.FailedFlushRetries | composer/loggers/mosaicml_logger.py:178-193 | a failed call leaves the last-logged time alone: while still enabled, the next unforced flush is due iff it was due before the failure |
| MetadataLogger.FlushKeepsValid | composer/loggers/mosaicml_logger.py:176-193 | flushing keeps the budget in 0..3, positive while enabled, and the buffer free of ignored keys (the budget of three is set at line 71) |
| MetadataLogger.BufferItemsKeepsValid | composer/loggers/mosaicml_logger.py:170-173 | buffering stores only prefixed keys that no pattern ignores |
| MetadataLogger.LogKeepsValid | composer/loggers/mosaicml_logger.py:167-174 | `_log_metadata` keeps the logger's invariant |
| MetadataLogger.IgnoredKeysNeverBuffered | composer/loggers/mosaicml_logger.py:171-172 | an ignored key never gets a `mosaicml/` entry |
| MetadataLogger.PrefixInjective | composer/loggers/mosaicml_logger.py:173 | two keys get the same prefixed key iff they are equal |
| MetadataLogger.PayloadHasNoIgnoredKeys | composer/loggers/mosaicml_logger.py:171-180 | the buffer sent to the API holds no ignored key |
| MetadataLogger.BufferItemsStores | composer/loggers/mosaicml_logger.py:170-173 | the last non-ignored item with a key is stored under the prefixed key with its normalised value |
| MetadataLogger.BufferItemsUntouched | composer/loggers/mosaicml_logger.py:170-173 | entries for keys no item mentions are neither added, removed nor changed |
| MetadataLogger.LaterInsertOverwrites | composer/loggers/mosaicml_logger.py:173 | buffering a key twice leaves only the later value |
| MetadataLogger.DisabledIsInert | composer/loggers/mosaicml_logger.py:169-178 | a disabled logger's log and flush change nothing and call nothing |
| MetadataLogger.DisabledStaysDisabled | composer/loggers/mosaicml_logger.py:178 | no sequence of flushes changes a disabled logger |
| MetadataLogger.ForcedFailuresDisable | composer/loggers/mosaicml_logger.py:190-193 | as many forced failed calls as the budget holds disable the logger |
| MetadataLogger.ThreeForcedFailuresDisable | composer/loggers/mosaicml_logger.py:190-193 | three forced failed calls in a row always disable the logger, starting from the budget of three set at line 71 |
| MetadataLogger.FailedCallsDisable | composer/loggers/mosaicml_logger.py:178-193 | failed calls that each find the flush due, forced or not, disable the logger once as many of them as the budget holds have been made |
| MetadataLogger.ThreeFailedCallsDisable | composer/loggers/mosaicml_logger.py:178-193 | from any valid state, three failed calls that each find the flush due disable the logger, forced or not |
| MetadataLogger.RunKeepsValid | composer/loggers/mosaicml_logger.py:176-193 | the invariant holds through any sequence of flushes |
| MetadataLogger.ProgressNeverRaises | composer/loggers/mosaicml_logger.py:148-155 | logging the progress strings never raises |
| MetadataLogger.StringsNeverRaise | composer/loggers/mosaicml_logger.py:170-173 | buffering string values never raises |
| TrainingProgress.ProgressMetrics | composer/loggers/mosaicml_logger.py:100-141 | `_get_training_progress_metrics`: no entry when disabled; one `[token=t/max]` or `[batch=b/max]` entry; for epochs a sub-progress entry and an `[epoch=e/max]` entry; none for other units |
| TrainingProgress.DisabledReportsNothing | composer/loggers/mosaicml_logger.py:111-112 | a disabled logger reports no progress |
| TrainingProgress.TokenProgress | composer/loggers/mosaicml_logger.py:115-118 | a token duration reports only `training_progress`, which reads back as `[token=t/max]` |
| TrainingProgress.BatchProgress | composer/loggers/mosaicml_logger.py:119-122 | a batch duration reports only `training_progress`, which reads back as `[batch=b/max]` |
| TrainingProgress.EpochProgress | composer/loggers/mosaicml_logger.py:124-140 | an epoch duration reports `[epoch=e/max]`, with e one more than the completed epochs only while they are below the maximum |
| TrainingProgress.EpochSubProgressAfterFirstEpoch | composer/loggers/mosaicml_logger.py:127-130 | after a completed epoch, the sub-progress reads back as `[batch=b/(batch - batch_in_epoch) // epoch]` |
| TrainingProgress.EpochSubProgressFirstEpoch | composer/loggers/mosaicml_logger.py:131-134 | in the first epoch, the sub-progress reads back as `[batch=b/len]` with the dataloader length when it is known, else as `[batch=b]` |
| TrainingProgress.OtherUnitsReportNothing | composer/loggers/mosaicml_logger.py:123-141 | durations in other units report nothing |
| TrainingProgress.BatchesPerEpochRecovered | composer/loggers/mosaicml_logger.py:128-129 | when every completed epoch had k batches, the batches per epoch computed is k |
| TrainingProgress.DivExact | composer/loggers/mosaicml_logger.py:128-129 | helper for `BatchesPerEpochRecovered`: floor division of an exact multiple gives back the factor |
| TrainingProgress.CounterRoundTrip | composer/loggers/mosaicml_logger.py:117-139 | every `[tag=count/total]` or `[tag=count]` string reads back as its tag and numbers |
| TrainingProgress.NumbersRoundTrip | composer/loggers/mosaicml_logger.py:117-139 | `count/total` and `count` read back as their numbers |
| TrainingProgress.ParseBracketed | composer/loggers/mosaicml_logger.py:117-139 | reading a bracketed counter splits it at the first `=` |
| TrainingProgress.IndexOf | composer/loggers/mosaicml_logger.py:117-139 | finds the first occurrence of a character, or reports that there is none |
| TrainingProgress.IndexOfAfter | composer/loggers/mosaicml_logger.py:117-139 | helper for `ParseBracketed` and `NumbersRoundTrip`: a separator after text free of it is found right after that text |
| TrainingProgress.IntToStringChars | composer/loggers/mosaicml_logger.py:117-139 | a printed integer contains no `/` and no `=` |
| TrainingProgress.CounterShape | composer/loggers/mosaicml_logger.py:117-139 | a counter is `[`, the tag, `=`, the numbers, `]` |
| JsonFormat.Format | composer/loggers/mosaicml_logger.py:196-220 | `format_data_to_json_serializable`: `None` to `'None'`, primitives unchanged, one-element tensors to their item, other tensors to a shape description, mappings and iterables element by element, anything else to its `str` |
| JsonFormat.FormatScalars | composer/loggers/mosaicml_logger.py:206-220 | `None` becomes `'None'`; str, int, float and bool are returned unchanged; any other value becomes its `str` |
| JsonFormat.FormatTensor | composer/loggers/mosaicml_logger.py:210-213 | a tensor with shape `()` or one element normalises as its scalar; any other becomes `'Tensor of shape torch.Size([...])'` |
| JsonFormat.FormatTwoByThreeTensor | composer/loggers/mosaicml_logger.py:213 | a 2 by 3 tensor becomes `'Tensor of shape torch.Size([2, 3])'` |
| JsonFormat.FormatListElementwise | composer/loggers/mosaicml_logger.py:217 | the list comprehension succeeds iff every element normalises, giving a list of the same length whose i-th element is the normalised i-th element |
| JsonFormat.FormatIterable | composer/loggers/mosaicml_logger.py:216-217 | an iterable becomes a same-length list of normalised elements, and fails iff an element fails |
| JsonFormat.KeyIndex | composer/loggers/mosaicml_logger.py:215 | finds the entry of a dict key, or reports that it is absent |
| JsonFormat.DictInsertKeepsValid | composer/loggers/mosaicml_logger.py:215 | inserting into a dict keeps its keys distinct and appends a new key at the end |
| JsonFormat.FormatItemsFails | composer/loggers/mosaicml_logger.py:215 | the dict comprehension succeeds iff every key and value normalises and every key is hashable |
| JsonFormat.FormatMappingFails | composer/loggers/mosaicml_logger.py:214-215 | a mapping fails to normalise iff one of its items does |
| JsonFormat.FormatItemsInsertAll | composer/loggers/mosaicml_logger.py:215 | when every item normalises, the dict comprehension inserts the items' entries in order |
| JsonFormat.InsertAllNewKeys | composer/loggers/mosaicml_logger.py:215 | inserting hashable, pairwise distinct keys that are new to the dict appends them in order |
| JsonFormat.FormatItemsDistinct | composer/loggers/mosaicml_logger.py:215 | with distinct normalised keys, dict entry i is the normalised key and value of item i |
| JsonFormat.FormatMappingDistinctKeys | composer/loggers/mosaicml_logger.py:214-215 | a mapping whose normalised keys are distinct keeps its size, and entry i is the normalised item i |
| JsonFormat.FormatItemsValid | composer/loggers/mosaicml_logger.py:215 | the dict built has hashable, pairwise distinct keys |
| JsonFormat.FormatItemsEntriesFrom | composer/loggers/mosaicml_logger.py:215 | every dict entry is serialisable when the items' normalised keys and values are |
| JsonFormat.FormatSerializable | composer/loggers/mosaicml_logger.py:196-220 | whatever the normaliser returns is JSON-serialisable at every depth |
| Wildcards.Compile | composer/loggers/mosaicml_logger.py:171 | `fnmatch.translate`: `*`, `?`, a closed bracket expression as a set, and every other character as itself; an unclosed `[` is literal |
| Wildcards.Fnmatch | composer/loggers/mosaicml_logger.py:171 | `fnmatch.fnmatch`: the compiled pattern matches the whole name |
| Wildcards.LiteralMatchesOnlyItself | composer/loggers/mosaicml_logger.py:51-55 | a pattern with no `*`, `?` or `[` matches exactly the name equal to it |
| Wildcards.PrefixStarMatchesExtensions | composer/loggers/mosaicml_logger.py:57 | a literal prefix followed by `*` matches exactly the names that extend the prefix |
| Wildcards.WallClockExample | composer/loggers/mosaicml_logger.py:57 | `wall_clock/` followed by `*` matches every name under `wall_clock/`, and not `throughput/samples` |
| Wildcards.StarMatchesAll | composer/loggers/mosaicml_logger.py:51-52 | `*` matches every name |
| Wildcards.QuestionMarkMatchesOneChar | composer/loggers/mosaicml_logger.py:51-52 | `?` matches exactly the one-character names |
| Wildcards.BracketMatchesMember | composer/loggers/mosaicml_logger.py:51-52 | `[...]` matches a one-character name iff it is in the set, when dropping the leading out-of-order ranges leaves no `!` at the head |
| Wildcards.NegatedBracketMatchesNonMember | composer/loggers/mosaicml_logger.py:51-52 | `[!...]` matches a one-character name outside the set |
| Wildcards.BracketToken | composer/loggers/mosaicml_logger.py:171 | the set a bracket body stands for: negated after a leading `!`, or when dropping the leading out-of-order ranges leaves a `!` at the head; a range whose bounds are out of order holds nothing |
| Wildcards.DropReversed | composer/loggers/mosaicml_logger.py:171 | dropping the leading out-of-order ranges leaves a shorter or equal set that does not start with one |
| Wildcards.DropReversedSuffix | composer/loggers/mosaicml_logger.py:171 | what is dropped is exactly the run of out-of-order ranges at the head, and the rest is kept unchanged |
| Wildcards.ReversedRangeThenBang | composer/loggers/mosaicml_logger.py:171 | an out-of-order range dropped from the head of a set leaves a following `!` as a negation: `[z-a!x]` matches every one-character name but `x` |
| Wildcards.ReversedRangeThenBangRange | composer/loggers/mosaicml_logger.py:171 | when the `!` left at the head was the low bound of a range `!-top`, the set is negated and holds `-` and `top` as plain members |
| Wildcards.ReversedRangeExamples | composer/loggers/mosaicml_logger.py:171 | `[z-a!x]` matches `y` and not `x`; `[z-a!]` matches any one character |
| Wildcards.CompileNegated | composer/loggers/mosaicml_logger.py:51-52 | `[!...]` compiles to one negated set token |
| Wildcards.CompileBracket | composer/loggers/mosaicml_logger.py:51-52 | a closed bracket expression compiles to one set token |
| Wildcards.SingleTokenMatch | composer/loggers/mosaicml_logger.py:51-52 | a one-token pattern other than `*` matches exactly the one-character names it accepts |
| Wildcards.FirstClose | composer/loggers/mosaicml_logger.py:51-52 | finds the first `]` from a position on, or reports that there is none |
| Wildcards.FirstCloseAt | composer/loggers/mosaicml_logger.py:51-52 | helper for `CompileBracket`: the `]` right after text free of `]` is the first one |
| Wildcards.BracketEnd | composer/loggers/mosaicml_logger.py:51-52 | where a bracket expression closes, it closes at a `]` after the `[` |
| Wildcards.CompileLiteral | composer/loggers/mosaicml_logger.py:51-52 | a pattern without wildcards compiles to one literal token per character |
| Wildcards.CompileAppend | composer/loggers/mosaicml_logger.py:51-52 | a literal prefix compiles to literal tokens before the rest of the pattern |
| Wildcards.MatchLits | composer/loggers/mosaicml_logger.py:51-52 | literal tokens before a rest match exactly the names that start with those characters and continue with a match of the rest |
| Decimal.IntToString | composer/loggers/mosaicml_logger.py:117-139 | `str(int)` inside the progress strings: an optional `-` and then decimal digits |
| Decimal.NatToString | composer/loggers/mosaicml_logger.py:117 | a natural number prints as a non-empty digit string with no leading zero |
| Decimal.ParseNat | composer/callbacks/eval_output_logging_callback.py:71 | a string reads as a number iff it is a non-empty string of digits |
| Decimal.NatRoundTrip | composer/callbacks/eval_output_logging_callback.py:71 | a printed natural number reads back as itself |
| Decimal.IntRoundTrip | composer/loggers/mosaicml_logger.py:117-121 | a printed integer, negative ones included, reads back as itself |
| Decimal.NatToStringInjective | composer/callbacks/eval_output_logging_callback.py:71 | two natural numbers print alike iff they are equal |
| Decimal.IntToStringInjective | composer/loggers/mosaicml_logger.py:117-121 | two integers print alike iff they are equal |
| EvalOutputLogging.EvalOutputLogging.constructor | composer/callbacks/eval_output_logging_callback.py:52-59 | keeps both options, starts with an empty table, and uses the given output directory unless it is `None` or empty, else the current directory |
| EvalOutputLogging.OutputDirectory | composer/callbacks/eval_output_logging_callback.py:59 | the given directory when non-empty, else the current one |
| EvalOutputLogging.EvalOutputLogging.EvalEnd | composer/callbacks/eval_output_logging_callback.py:124-145 | the loop over the metrics leaves the table and the error that `EvalEndFrom` describes |
| EvalOutputLogging.EvalOutputLogging.StoreOutput | composer/callbacks/eval_output_logging_callback.py:131-145 | for one cache with columns and rows: raises the error `KeptRows` reports and leaves the table, or maps the benchmark to the columns and the kept rows |
| EvalOutputLogging.EvalOutputLogging.EvalAfterAll | composer/callbacks/eval_output_logging_callback.py:103-105 | hands the accumulated tables to the writer with destination `{output_directory}/eval-outputs-ba{batch}.tsv` (the name built at line 71 and the path at line 89), and empties the table |
| EvalOutputLogging.EvalOutputLogging.EvalStandaloneEnd | composer/callbacks/eval_output_logging_callback.py:107-109 | the same as `EvalAfterAll` |
| EvalOutputLogging.KeptRows | composer/callbacks/eval_output_logging_callback.py:131-139 | `ValueError` without a `correct` column; otherwise the rows, filtered to the falsy ones when `print_only_incorrect`, then sampled when `subset_sample > 0` |
| EvalOutputLogging.EvalEndFrom | composer/callbacks/eval_output_logging_callback.py:124-145 | the metric loop of `eval_end`: incomplete caches are skipped, each complete one replaces the benchmark's entry, and the first error ends the loop |
| EvalOutputLogging.FileName | composer/callbacks/eval_output_logging_callback.py:71 | `eval-outputs-ba` followed by the batch number and `.tsv` |
| EvalOutputLogging.Destination | composer/callbacks/eval_output_logging_callback.py:89 | the output directory, `/`, and the file name |
| EvalOutputLogging.ColumnIndex | composer/callbacks/eval_output_logging_callback.py:132-134 | the first position of a column name, present iff the name is among the columns |
| EvalOutputLogging.MissingCorrectColumnRefused | composer/callbacks/eval_output_logging_callback.py:132-133 | a cache without a `correct` column is refused with `ValueError`, whatever the options |
| EvalOutputLogging.MissingCorrectColumnRaises | composer/callbacks/eval_output_logging_callback.py:131-133 | when the first complete cache lacks `correct`, `eval_end` raises before it changes the table |
| EvalOutputLogging.RunSplits | composer/callbacks/eval_output_logging_callback.py:124-145 | the metric loop over all outputs is the loop over those before `k` followed by the loop from `k` on, when the first part raised nothing |
| EvalOutputLogging.FirstErrorRaises | composer/callbacks/eval_output_logging_callback.py:131-139 | the first complete cache whose rows cannot be kept ends `eval_end` with its error, with the table the outputs before it left |
| EvalOutputLogging.ShortRowRefused | composer/callbacks/eval_output_logging_callback.py:136 | with `print_only_incorrect`, a row without a `correct` cell raises `IndexError` |
| EvalOutputLogging.AllRowsKept | composer/callbacks/eval_output_logging_callback.py:135-139 | with neither option set, the rows are kept unchanged |
| EvalOutputLogging.OnlyIncorrectRowsKept | composer/callbacks/eval_output_logging_callback.py:134-136 | with `print_only_incorrect`, the kept rows are exactly those with a falsy `correct` cell, in order, and none is truthy |
| EvalOutputLogging.SampledRowsDistinct | composer/callbacks/eval_output_logging_callback.py:138-139 | with `subset_sample > 0`, exactly `min(len(rows), subset_sample)` rows are kept, from distinct positions of the filtered rows |
| EvalOutputLogging.EverySampleCanBeKept | composer/callbacks/eval_output_logging_callback.py:138-139 | every choice of `min(len(rows), subset_sample)` distinct filtered rows is a possible outcome |
| EvalOutputLogging.IncompleteOutputsSkipped | composer/callbacks/eval_output_logging_callback.py:125-131 | metrics without a formatter, or whose columns or rows are `None`, change nothing |
| EvalOutputLogging.NoCompleteOutputNoChange | composer/callbacks/eval_output_logging_callback.py:124-131 | a benchmark without a complete cache leaves the table as it was and raises nothing |
| EvalOutputLogging.OtherBenchmarksUnchanged | composer/callbacks/eval_output_logging_callback.py:145 | `eval_end` changes no entry but the benchmark's own |
| EvalOutputLogging.LastCompleteOutputStored | composer/callbacks/eval_output_logging_callback.py:145 | after an `eval_end` that raises nothing, the benchmark maps to the columns and kept rows of its last complete cache |
| EvalOutputLogging.FileNameRoundTrip | composer/callbacks/eval_output_logging_callback.py:71 | the batch number reads back from `eval-outputs-ba{batch}.tsv` |
| EvalOutputLogging.FileNameInjective | composer/callbacks/eval_output_logging_callback.py:71 | two batches get the same file name iff they are equal |
| EvalOutputLogging.DestinationParts | composer/callbacks/eval_output_logging_callback.py:89 | the destination is the output directory, then `/`, then a file name that reads back as the batch |
| EvalOutputLogging.ParseFileName | composer/callbacks/eval_output_logging_callback.py:71 | reads the batch number back from a file name |
| EvalRows.Incorrect | composer/callbacks/eval_output_logging_callback.py:136 | the rows whose `correct` cell is falsy, in their original order |
| EvalRows.Sample | composer/callbacks/eval_output_logging_callback.py:139 | `min(len(rows), n)` rows, at positions drawn one at a time from the pool of positions by the random numbers, as `random.sample` does |
| EvalRows.IncorrectSelectsFalsyRows | composer/callbacks/eval_output_logging_callback.py:136 | the filter returns the rows at the falsy positions, in increasing order |
| EvalRows.IncorrectFromSelects | composer/callbacks/eval_output_logging_callback.py:136 | the same, for the rows from a position on |
| EvalRows.FalsyPositions | composer/callbacks/eval_output_logging_callback.py:136 | the positions listed lie within the rows |
| EvalRows.FalsyPositionsExact | composer/callbacks/eval_output_logging_callback.py:136 | the positions listed are strictly increasing, all falsy, and include every falsy position |
| EvalRows.NoKeptRowIsCorrect | composer/callbacks/eval_output_logging_callback.py:136 | no kept row has a truthy `correct` cell |
| EvalRows.Select | composer/callbacks/eval_output_logging_callback.py:136-139 | picks one row per position |
| EvalRows.SelectAt | composer/callbacks/eval_output_logging_callback.py:136-139 | the i-th row picked is the row at the i-th position |
| EvalRows.SelectCons | composer/callbacks/eval_output_logging_callback.py:136 | helper for `IncorrectFromSelects`: picking at `[p] + rest` is the row at p followed by the rows picked at rest |
| EvalRows.PickPositions | composer/callbacks/eval_output_logging_callback.py:139 | draws `min(k, len(pool))` positions, each from the pool |
| EvalRows.PickPositionsDistinct | composer/callbacks/eval_output_logging_callback.py:139 | the positions drawn are distinct when the pool's are |
| EvalRows.DrawIndex | composer/callbacks/eval_output_logging_callback.py:139 | the next random number picks one of the positions still in the pool |
| EvalRows.SamplePositions | composer/callbacks/eval_output_logging_callback.py:139 | the sample takes `min(k, n)` distinct positions below n |
| EvalRows.SampleFromDistinctPositions | composer/callbacks/eval_output_logging_callback.py:139 | a sample has `min(len(rows), n)` rows, each the row at a distinct position |
| EvalRows.EveryChoicePossible | composer/callbacks/eval_output_logging_callback.py:139 | the random numbers `DrawsFor` computes make the draw choose any given distinct positions of the pool |
| EvalRows.EverySampleReachable | composer/callbacks/eval_output_logging_callback.py:139 | every selection of `min(len(rows), n)` distinct positions is a possible sample |
| EvalRows.RemoveAt | composer/callbacks/eval_output_logging_callback.py:139 | the pool without the drawn position keeps the others in order |
| EvalRows.RemoveAtMembers | composer/callbacks/eval_output_logging_callback.py:139 | helper for `PickPositions`: every other position stays in the pool, and none enters it |
| EvalRows.RemoveAtDistinct | composer/callbacks/eval_output_logging_callback.py:139 | from a pool without duplicates, the drawn position leaves and no duplicate appears |
| EvalRows.PickFirst | composer/callbacks/eval_output_logging_callback.py:139 | a first random number d below the pool size draws position d first |
| EvalRows.RemainingChoice | composer/callbacks/eval_output_logging_callback.py:139 | once the first position is drawn, the rest of a distinct choice is still in the pool |

## Left out

- Calls to the MosaicML API (`mcli.update_run_metadata`) are not modelled. Only their success or failure is an input.
- Each flush reads `time.time()` several times (lines 178, 182, 185, 187, 191). The model uses one `now` per flush.
- On ranks other than 0 the source never sets the buffer, the budget or the times. The model gives them rank 0's initial values; a disabled logger never reads them.
- `log_hyperparameters` and `log_metrics` only hand their dict to `_log_metadata`, which `LogMetadata` models; they need no member of their own.
- `after_load` is not modelled: it looks up a WandB callback by `isinstance` and logs a wall-clock timestamp.
- The normaliser's `RuntimeError` fallback to `''` (lines 221-224) is not modelled. It depends on foreign exception behaviour inside torch.
- `JsonFormat.Format` compares dict keys as normalised values. Python also merges keys that compare equal across types (`1`, `1.0`, `True`); the model does not.
- Floats stay opaque primitives: the model does not compute with them, and `torch` tensors are a shape and the scalar `.item()` would give.
- `str(data)` for other values is an input of the model (`Other(repr)`), not computed.
- Python's `dict` iteration order is the order of the items handed to `LogMetadata`. Normalising a dict keeps its insertion order.
- Most of `write_tables_to_output_dir` is left out: hashing, the temporary directory, building and concatenating the pandas table, `unicode_escape`, the TSV writing, the upload or copy, and the clean-up. Only the file name and the destination are modelled. `EvalAfterAll` and `EvalStandaloneEnd` return the tables handed to the writer.
- `prep_response_cache`, `eval_start` and the `hasattr`/`isinstance` checks of `eval_end` are left out. `metric.format_response_cache(tokenizer)` and `destination.log_table` are left out too. `EvalEnd` models the branch for an ICL dataset with a tokenizer and takes each metric's `(columns, rows)` as input.
- The DEBUG `print` calls are left out. This includes the one at line 129, which takes `len(rows)` before the `None` check at line 131 and so raises `TypeError` when `rows` is `None`. The model follows line 131 and skips such a metric.
- Line 146 refers to `benchmark`, which is unbound on datasets that are not ICL datasets with a tokenizer. That branch is outside the model.
- The random numbers `random.sample` draws are an input. The model does not reproduce CPython's exact choice for a given seed; what it guarantees is the size, the distinctness, and that every choice is possible.
- `TrainingProgress.ProgressMetrics` and the logger methods `LogProgressAndFlush`, `BatchEnd` and `FitEnd` require a maximum duration while the logger is enabled. This models the `assert state.max_duration is not None` at line 114 of `composer/loggers/mosaicml_logger.py`; the `AssertionError` it raises otherwise is not modelled.
- A cell of the `correct` column that has no truth value, such as a tensor with several elements, makes `not r[correct_col]` (line 136 of `composer/callbacks/eval_output_logging_callback.py`) raise. The model's cells always have a truth value, so this error is not modelled.
- `fnmatch` applies `os.path.normcase` to the key and the pattern. The model follows POSIX, where `normcase` changes nothing; the Windows case folding and slash conversion are not modelled.
- Default arguments are not modelled: `log_interval=60` (line 64 of `composer/loggers/mosaicml_logger.py`), and `print_only_incorrect=False`, `subset_sample=-1` and `output_directory=None` (lines 53-55 of `composer/callbacks/eval_output_logging_callback.py`). The model's constructors take every argument explicitly.
- The class docstring (line 48) says correct outputs are omitted when `print_only_incorrect=False`. The code does the opposite: it drops the correct rows only when the option is true. The model follows the code.
