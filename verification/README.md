# Training analyses of a horse-training back end, modelled in Dafny

The back end keeps training sessions of horses in a `sessions` collection. Each session
holds a `horseId`, a `horseName`, a `createdAt` timestamp and a `trainings` array. Two
analyses read these sessions and write one document per horse:

* `run_basic_analysis` (basicAnalysis.py) groups every completed, typed training by horse
  and by training type. For each horse it builds a summary: per type, a count and the
  means of four measurements. It also builds two trend series of the heart rate during
  training: monthly means, and daily means over the last seven days. It upserts the
  result into `basicanalyses`.
* `run_overload_analysis` (overloadAnalysis.py) reads one horse's sessions and builds a
  table of its completed trainings. It labels a row overloaded when its rating is at
  most 2, drops rows that lack a measurement, and encodes the text columns. A random
  forest then predicts overload for every row. The counts of predicted overloaded and
  ok rows are stored in `overloadanalyses` and returned.

The model follows the code step by step.

* **Records**: the documents read.
  * A stored value is a `Reading`: a number, or a value of another kind on which
    arithmetic raises.
  * `ValidObjectId` is the check `ObjectId(...)` performs.
  * A stored `horseName` is absent, null or a text. `session.get("horseName", "Unknown")`
    gives "Unknown" only for an absent field; a null name stays `None` in both documents.
* **Dicts**: Python's insertion-ordered `dict` and `defaultdict(list)`, as association lists.
  * `Put` overwrites in place or appends a new key.
  * `GroupBy` is the dict that a sequence of `d[k].append(v)` calls builds.
* **Averages**: exact means. An empty list has no mean, where `np.mean` gives NaN.
* **Strings**: Python's ordering of `str`, and the sorted distinct values. Pandas'
  `groupby` and scikit-learn's `LabelEncoder` both produce these.
* **Calendar**: pandas timestamps, `strftime("%Y-%m")` and `strftime("%Y-%m-%d")`, and
  the whole-day difference `(now - t).days`.
* **BasicGrouping**: the grouping loop (imperative: nested `for` loops updating two
  nested dicts), proved equal to a fold over the list of appends. Lemmas characterise
  which trainings reach the groups.
* **BasicSummary**: `compute_summary`, as a loop proved against `Summary`.
* **BasicTrends**: `compute_trends` and `__average_by_key`.
  * The two trend dicts are the `GroupBy` of the pairs the loop appends. `MonthPick` and
    `WeekPick` say what each record contributes.
  * The lemmas characterise the pairs, the periods, the means, and when the function raises.
* **BasicAnalysis**: the whole basic run. `Documents` is the per-horse loop; the run
  stops at the first horse whose trends raise.
* **OverloadRows**, **OverloadFrame**, **OverloadAnalysis**: the overload run.
  * The row list.
  * The `overloaded` label.
  * `dropna`.
  * Label encoding.
  * The statistics.
  * The order of the guards and the error paths.

Nothing is read from a database, and no time or randomness is observed. These arrive as
parameters:
* `fetched` is what the query returned, or `None` when the read raised.
* `now` is the value of `datetime.now()`.
* `written` says whether the overload upsert succeeded.
* `classify` is the trained classifier.

## Model

| member | source | states |
|---|---|---|
| Dicts.Get | basicAnalysis.py:60 | lookup finds nothing exactly when the key is absent; a found value is stored under the key |
| Dicts.Put | basicAnalysis.py:55-56 | after the assignment the key holds the new value, every other key keeps its value, and a new key goes last in the key order |
| Dicts.GroupByLookup | basicAnalysis.py:122-134 | the list under a key is every value appended under it, in order |
| Dicts.GroupByKeys | basicAnalysis.py:122-134 | the keys are the distinct appended keys, in order of first append |
| Dicts.DedupDistinct | basicAnalysis.py:58 | the key list has no duplicates and holds exactly the appended keys |
| Dicts.GetAtIndex | basicAnalysis.py:60 | with distinct keys, looking up the i-th key gives the i-th value |
| Averages.Mean | basicAnalysis.py:102-105 | no mean exactly for the empty list; otherwise mean times count is the sum |
| Averages.MeanBounds | basicAnalysis.py:102-105 | a mean lies between any lower and upper bound of the values |
| Strings.LessTotal | basicAnalysis.py:145 | any two different strings are ordered one way |
| Strings.LessTransitive | basicAnalysis.py:145 | string order is transitive |
| Strings.LessAsymmetric | basicAnalysis.py:145 | string order is asymmetric |
| Strings.SortedDistinct | overloadAnalysis.py:63 | the classes are strictly ascending and are exactly the values of the column |
| Strings.IndexOfMonotonic | overloadAnalysis.py:63 | in a strictly sorted list, position order is string order and equal positions mean equal strings |
| Calendar.InLastWeekIff | basicAnalysis.py:133 | `(now - t).days <= 7` holds exactly for timestamps less than eight whole days before `now`, and for every future timestamp |
| Calendar.WeekBoundary | basicAnalysis.py:133 | at the same time of day, seven days back is inside the week and eight days back is outside |
| Calendar.MonthLabel | basicAnalysis.py:131 | the month label has 7 characters |
| Calendar.DayLabel | basicAnalysis.py:134 | the day label has 10 characters |
| Calendar.DayLabelExtendsMonthLabel | basicAnalysis.py:131-134 | a day label starts with the month label of the same timestamp |
| Calendar.DigitsOrder | basicAnalysis.py:131 | zero-padded numbers of one width sort as the numbers, and are equal exactly when the numbers are |
| Calendar.MonthLabelOrder | basicAnalysis.py:131 | month labels sort chronologically by (year, month), and are equal exactly for the same month |
| Calendar.DayLabelOrder | basicAnalysis.py:134 | day labels sort chronologically by (year, month, day), and are equal exactly for the same day |
| BasicGrouping.ExtractTrainingData | basicAnalysis.py:85-95 | a record exists exactly when the timestamp converts; it copies the four measurements and the converted time |
| BasicGrouping.GroupSessions | basicAnalysis.py:31-56 | the loop leaves `horses` as the last name per key and both nested dicts equal to the fold of all appends |
| BasicGrouping.GroupTrainings | basicAnalysis.py:45-56 | the inner loop extends the nested dict by the appends of one session's trainings |
| BasicGrouping.GroupTraining | basicAnalysis.py:46-56 | one training is appended to both dicts only when completed, typed and extracted |
| BasicGrouping.TrainingAppendsSound | basicAnalysis.py:45-56 | every append of a session comes from one of its contributing trainings |
| BasicGrouping.TrainingAppendsComplete | basicAnalysis.py:45-56 | every contributing training of a session is appended |
| BasicGrouping.AppendsSound | basicAnalysis.py:35-56 | every grouped record was contributed by a completed, typed training of a session with a key and a `createdAt` |
| BasicGrouping.AppendsComplete | basicAnalysis.py:35-56 | every such training's record is grouped |
| BasicGrouping.AppendsExactly | basicAnalysis.py:35-56 | a record is grouped if and only if some training contributes it |
| BasicGrouping.GroupedKeys | basicAnalysis.py:55 | the horses of the grouped data are the distinct appended horses in order of first append |
| BasicGrouping.GroupedTypes | basicAnalysis.py:55 | a horse's inner dict is the grouping of that horse's (type, record) appends |
| BasicGrouping.GroupedLookup | basicAnalysis.py:55 | the list under (horse, type) is that horse's records of that type, in order, and is never empty |
| BasicGrouping.HorseNameIsLastSeen | basicAnalysis.py:35-39 | a horse's stored name is the `horseName` of its last session: "Unknown" when that session has no such field, `None` when it holds null |
| BasicGrouping.HorseNamesKeys | basicAnalysis.py:35-39 | a key is in `horses` exactly when some session has it |
| BasicSummary.Summarize | basicAnalysis.py:101-117 | an entry exists exactly when no measurement of the group is non-numeric; it carries the type |
| BasicSummary.ComputeSummary | basicAnalysis.py:98-118 | the loop yields `Summary` of its input |
| BasicSummary.PresentEmptyIff | basicAnalysis.py:102-105 | a field has no values exactly when every record lacks it |
| BasicSummary.SummaryEntryFields | basicAnalysis.py:102-113 | count is the number of records (missing fields included); each average is the mean of the present values, absent exactly when every record lacks the field |
| BasicSummary.SummaryLength | basicAnalysis.py:98-118 | at most one entry per type |
| BasicSummary.SummarySound | basicAnalysis.py:98-118 | every entry is the aggregation of some type of the input |
| BasicSummary.SummaryComplete | basicAnalysis.py:98-118 | every type whose aggregation does not raise has its entry |
| BasicSummary.SummaryOrdered | basicAnalysis.py:98-118 | entries keep the order of their types |
| BasicSummary.SummaryTypesDistinct | basicAnalysis.py:98-118 | with dict keys as types, no type has two entries |
| BasicTrends.AverageByKey | basicAnalysis.py:142-150 | the group mean raises exactly when some value is not a number |
| BasicTrends.AverageByKeySorted | basicAnalysis.py:145 | periods are strictly ascending |
| BasicTrends.AverageByKeyLabels | basicAnalysis.py:142-150 | the periods are exactly the labels of the pairs |
| BasicTrends.AverageByKeyMeans | basicAnalysis.py:146 | each point's value is the mean of its period's values |
| BasicTrends.PeriodValues | basicAnalysis.py:145 | a value is averaged into a period exactly when that (period, value) pair was appended |
| BasicTrends.TrendValueBounds | basicAnalysis.py:142-150 | every trend value lies within the bounds of the readings |
| BasicTrends.MonthSeriesChronological | basicAnalysis.py:131-145 | a month series runs in chronological order |
| BasicTrends.DaySeriesChronological | basicAnalysis.py:134-145 | a day series runs in chronological order |
| BasicTrends.AverageAllShape | basicAnalysis.py:136-137 | the comprehension raises exactly when one average raises; otherwise same keys, in order, each with its average |
| BasicTrends.AverageAllKeys | basicAnalysis.py:136-137 | the trend dict has the keys of the pair dict |
| BasicTrends.ComputeTrends | basicAnalysis.py:121-139 | the loops yield `TrendsOf` of their input |
| BasicTrends.TrendRecords | basicAnalysis.py:126-134 | the loop over one type's records extends both pair lists by that type's pairs |
| BasicTrends.TrendRecord | basicAnalysis.py:127-134 | one record adds its month pair when `hr_during` is truthy, and its day pair when it is also from the last week |
| BasicTrends.PairsOfSound | basicAnalysis.py:126-134 | every pair appended for a type comes from a record of that type |
| BasicTrends.PairsOfComplete | basicAnalysis.py:126-134 | every record of a type that yields a pair has it appended under that type |
| BasicTrends.AllPairsSound | basicAnalysis.py:125-134 | every appended pair comes from some record of its type |
| BasicTrends.AllPairsComplete | basicAnalysis.py:125-134 | every record's pair is appended under its type |
| BasicTrends.MonthPairsExactly | basicAnalysis.py:125-131 | a pair is in the month list exactly when a record of that type with a truthy `hr_during` has that month and reading |
| BasicTrends.WeekPairsSound | basicAnalysis.py:125-134 | every day pair comes from a record of the last week with a truthy `hr_during` |
| BasicTrends.WeekPairsComplete | basicAnalysis.py:125-134 | every such record's day pair is in the week list |
| BasicTrends.WeekWithinMonth | basicAnalysis.py:131-134 | every day pair has a 10-character label whose month pair is in the month list |
| BasicTrends.GroupedRaiseHasNonNumeric | basicAnalysis.py:136-137 | if averaging the grouped pairs raises, some appended reading is not a number |
| BasicTrends.NonNumericMakesGroupedRaise | basicAnalysis.py:136-137 | any appended non-numeric reading makes averaging raise |
| BasicTrends.WeekRaiseImpliesMonthRaise | basicAnalysis.py:127-137 | if the week averages raise, so do the month averages |
| BasicTrends.NonNumericRecordRaises | basicAnalysis.py:121-139 | a truthy non-numeric `hr_during` makes `compute_trends` raise |
| BasicTrends.TrendsRaiseIff | basicAnalysis.py:121-139 | `compute_trends` raises exactly when some `hr_during` is truthy and not a number |
| BasicTrends.MonthTypeSound | basicAnalysis.py:125-131 | every type in the month pairs has a record with a truthy `hr_during` |
| BasicTrends.MonthTypeComplete | basicAnalysis.py:125-131 | every type with such a record is in the month pairs |
| BasicTrends.MonthTrendTypes | basicAnalysis.py:125-136 | the month trends have distinct types, exactly those with a truthy `hr_during` |
| BasicTrends.WeekTypeSound | basicAnalysis.py:125-134 | every type in the week pairs has a truthy `hr_during` record from the last week |
| BasicTrends.WeekTypeComplete | basicAnalysis.py:125-134 | every type with such a record is in the week pairs |
| BasicTrends.WeekTrendTypes | basicAnalysis.py:125-137 | the week trends have distinct types, exactly those with such a record |
| BasicTrends.MonthSeriesOf | basicAnalysis.py:136 | each month series is the average of that type's month pairs |
| BasicTrends.WeekSeriesOf | basicAnalysis.py:137 | each week series is the average of that type's day pairs |
| BasicTrends.MonthBucket | basicAnalysis.py:131-146 | a reading is averaged into a type's month exactly when a record of that type and month carries it |
| BasicTrends.WeekBucket | basicAnalysis.py:133-146 | a reading is averaged into a type's day exactly when a record of that type and day, from the last week, carries it |
| BasicTrends.AllPairsBucket | basicAnalysis.py:125-146 | the numbers `groupby` collects for a type and period are that type's records' readings for the period, in loop order, once per record |
| BasicTrends.MonthBucketInOrder | basicAnalysis.py:125-146 | the numbers averaged for a type's month are the truthy `hr_during` readings of that type's records of that month, in order and with repetitions |
| BasicTrends.WeekBucketInOrder | basicAnalysis.py:125-146 | the numbers averaged for a type's day are the truthy `hr_during` readings of that type's records of that day in the last week, in order and with repetitions |
| BasicTrends.MonthPointIsMean | basicAnalysis.py:131-146 | each month point is the mean of that month's readings of its type, every record counted once |
| BasicTrends.DayPointIsMean | basicAnalysis.py:133-146 | each day point is the mean of that day's readings of its type, every record counted once |
| BasicAnalysis.RunBasicAnalysis | basicAnalysis.py:10-82 | the run returns `BasicAnalysis` of its inputs |
| BasicAnalysis.UpsertAll | basicAnalysis.py:58-82 | the per-horse loop yields `Documents` of the grouped data |
| BasicAnalysis.UpsertHorse | basicAnalysis.py:59-82 | one horse: its document when its trends succeed and its key is an ObjectId, an abort when its trends raise |
| BasicAnalysis.AbortSticks | basicAnalysis.py:60 | after an abort nothing more is processed |
| BasicAnalysis.AbortWitness | basicAnalysis.py:60 | an aborted run names a horse whose trends raise |
| BasicAnalysis.RaiseAborts | basicAnalysis.py:60 | a horse whose trends raise aborts the run |
| BasicAnalysis.DocumentsAborted | basicAnalysis.py:58-60 | the run aborts exactly when some grouped horse's trends raise |
| BasicAnalysis.DocumentsSound | basicAnalysis.py:58-82 | every document belongs to a horse with a valid key reached before any abort, and carries its summary and trends |
| BasicAnalysis.DocumentsComplete | basicAnalysis.py:58-82 | every horse with a valid key reached before any abort has its document |
| BasicAnalysis.GroupedDistinct | basicAnalysis.py:58 | the grouped horses are distinct |
| BasicAnalysis.NamesKnown | basicAnalysis.py:68 | every grouped horse has a stored name, so "Unknown" is never used |
| BasicAnalysis.RunDocument | basicAnalysis.py:58-79 | each document carries the horse's stored name (never the "Unknown" fallback of `horses.get`), "training_summary", the summary and trends of its grouped trainings, and a session key |
| OverloadRows.ExtractRows | overloadAnalysis.py:35-50 | the loops yield `Rows` of the sessions |
| OverloadRows.AppendCompleted | overloadAnalysis.py:37-50 | one session's loop appends the rows of its completed trainings |
| OverloadRows.RowsLength | overloadAnalysis.py:35-50 | there are as many rows as completed trainings |
| OverloadRows.RowsAt | overloadAnalysis.py:35-50 | every completed training has its row, at its position among completed trainings |
| OverloadRows.RowsSound | overloadAnalysis.py:35-50 | every row is the row of a completed training at that position |
| OverloadRows.PositionOrder | overloadAnalysis.py:35-50 | rows keep session order, then training order |
| OverloadFrame.Label | overloadAnalysis.py:58 | 1 exactly for a numeric rating at most 2, 0 for a missing rating or one above 2, a raise for a non-numeric rating |
| OverloadFrame.LabelRows | overloadAnalysis.py:58 | the `apply` yields `Labelled` |
| OverloadFrame.LabelledSticks | overloadAnalysis.py:58 | once a row raises, the whole labelling raises |
| OverloadFrame.LabelledExactly | overloadAnalysis.py:58 | labelling raises exactly when some rating is non-numeric; otherwise every row is kept in order, next to its label |
| OverloadFrame.DropMissing | overloadAnalysis.py:59 | no more rows than before, all with the five measurements |
| OverloadFrame.DropNa | overloadAnalysis.py:59 | the in-place drop yields `DropMissing` |
| OverloadFrame.DropMissingExactly | overloadAnalysis.py:59 | the kept rows are exactly the measured rows, in order, unchanged |
| OverloadFrame.DropMissingKeeps | overloadAnalysis.py:59 | a measured row is kept |
| OverloadFrame.DropMissingMeasured | overloadAnalysis.py:59 | a kept row is measured and comes from the frame |
| OverloadFrame.Encode | overloadAnalysis.py:62-63 | one code per value, and each code indexes the value in the sorted classes |
| OverloadFrame.EncodeOrder | overloadAnalysis.py:62-63 | codes follow string order; equal codes exactly for equal strings |
| OverloadFrame.EncodeDense | overloadAnalysis.py:62-63 | every code below the number of classes is used |
| OverloadFrame.Features | overloadAnalysis.py:61-65 | one feature row per frame row |
| OverloadFrame.FeaturesOfRow | overloadAnalysis.py:61-65 | features carry the row's measurements and the classes of its type and intensity |
| OverloadFrame.FeaturesIgnoreRating | overloadAnalysis.py:61 | ratings and labels do not affect the features |
| OverloadAnalysis.Predictions | overloadAnalysis.py:76 | one 0/1 prediction per row, 1 exactly when the classifier says overloaded |
| OverloadAnalysis.StatsConsistent | overloadAnalysis.py:78-81 | the counts are non-negative, at most the total, and sum to it; each is zero exactly when every prediction is the other value |
| OverloadAnalysis.Details | overloadAnalysis.py:87 | one detail per frame row |
| OverloadAnalysis.RunOverloadAnalysis | overloadAnalysis.py:10-114 | the run returns `OverloadAnalysis` of its inputs |
| OverloadAnalysis.MissingIdRaises | overloadAnalysis.py:15-16 | a missing or empty id raises |
| OverloadAnalysis.FewRowsEmpty | overloadAnalysis.py:52-54 | fewer than 5 completed trainings give `{}`, whether or not a write would succeed |
| OverloadAnalysis.ReportedStats | overloadAnalysis.py:76-114 | a report needs a successful write and at least 5 rows; total is between 2 and the row count; the counts split the total; the document carries the stats, id, first session's name, and one detail per counted row |
| OverloadAnalysis.FrameTargets | overloadAnalysis.py:58-66 | every target is the `overloaded` label of its row's rating, and every kept row is a measured row of the data |
| OverloadAnalysis.ReportedDetail | overloadAnalysis.py:58-102 | each detail is row k of the frame the classifier saw: a completed training's measured row, its label (the row's target) and the classifier's verdict on the row's features |
| OverloadAnalysis.TotalCounts | overloadAnalysis.py:78-79 | the sum of 0/1 predictions is the number of details predicted overloaded |
| OverloadAnalysis.ReportedCount | overloadAnalysis.py:78-80 | the reported overloaded count is the number of stored details predicted overloaded, the ok count the number of the others |
| OverloadAnalysis.FiveSessionRows | overloadAnalysis.py:35-50 | a session of five completed trainings gives those five rows in order |
| OverloadAnalysis.FiveDropped | overloadAnalysis.py:59 | dropping from the five rows keeps the two measured ones |
| OverloadAnalysis.GuardBeforeDrop | overloadAnalysis.py:52-59 | the 5-row guard counts rows before `dropna`: five completed trainings with three lacking a measurement report a total of 2 |

## Left out

- The database. The query and its filter (sessions with a non-empty `trainings` array,
  optionally of one horse) belong to the database. `fetched` stands for its result.
- Writes in `run_basic_analysis`. A failing `update_one` is caught and reported, and the
  model does not distinguish it: a horse with a valid key counts as written.
- Writes in `run_overload_analysis` are reduced to the `written` flag.
- `generatedAt`, and every `print`.
- `datetime.now()` is read again for every record in `compute_trends`; the model uses one
  `now` for the whole run.
- Time zones. Timestamps have whole-second resolution.
- What `pd.to_datetime` accepts. A value it cannot convert is `Unparseable`.
- Comparing a time-zone-aware with a naive timestamp, which raises in Python.
- `round(..., 2)` in the summary and in the trends: the means are exact.
- NaN means over empty lists are `None`.
- The random forest, `train_test_split`'s choice of rows, `classification_report`, and the
  `accuracy`, `precision` and `recall` figures. The classifier is a parameter, and its
  prediction for each row is all the model uses.
- OverloadFrame.Features: encodes the two text columns `trainingType` and `intensity`
  only. A numeric column holding a non-numeric value would have object dtype, and
  `LabelEncoder` would encode it as well.
- `ObjectId` also accepts 12-byte values, and it lower-cases the
  hexadecimal text. Only the 24-digit text form is modelled.
- overloadAnalysis.py has no rule-based overload stage: the classifier's prediction
  (overloadAnalysis.py:76) is the only overload signal.
- app.py, config.py, basicAnalysis-OLD.py and overloadAnalysis-OLD.py are not part of this
  model.
