# A verified model of promcore-cpp

promcore-cpp is a C++ client library for Prometheus metrics. This project models its core
and proves what the core promises: the streaming quantile sketch behind summaries and its
sliding window, the text printer, histograms, the lock-free gauge, and the families and the
registry that name and collect everything. `dafny verify dfyconfig.toml` checks the project.

| files | what they hold |
|---|---|
| Basics | options and results, sorting and counting on sequences |
| CkmsSketch, Ckms, CkmsProofs, CkmsQueries, CkmsExact | the CKMS sketch as a value, the class that updates it in place, the partition invariant, what its queries promise, and what every operation leaves, told by its result |
| CkmsGrowth, CkmsFalling, CkmsPasses, CkmsSuccessive | when answers fall: runs of one value at a time, queries of one flushed sample, what a compress pass does to a row of light items, and successive queries |
| WindowModel, TimeWindow, WindowProofs | the ring of sketches, its class, and its agreement with a timestamped log |
| SummaryModel, Summary, ReportOrder | the summary metric, its class, the end-to-end guarantee of every reported value, and the order of the values in a report |
| Metrics, CheckNames, TextFormat, TextParser, TextProofs, TextLayout, TextSerializer | collected data, name checks, the text format, a reader for it, the round trip, the layout of a scrape, and the printer |
| Exposition | the printed lines of everything a histogram or a summary has observed, and where they are in a scrape |
| HistogramModel, Histogram, Instruments | histograms, and the gauge and counter objects they consist of |
| AtomicGauge | the compare-exchange loop under any number of threads |
| Family, Registry, Scrape | families of labelled metrics, the registry of families, and a scrape from end to end |

Classes carry the fields the source updates. Each method is proved to change the value of
those fields as a function on values says; what the source promises is proved about that
function, over all inputs and all runs. Every lemma carries `{:induction false}`: its proof
is the one written, with no induction hypothesis added by the verifier.

## What is proved

**Sketch.** In every reachable state the values inserted since the last reset split into
the buffered ones and one group per sample item. Group i has exactly g(i) members, contains
value(i) and nothing larger. Merging a batch, compressing, querying and resetting keep this.
The batch merge, which resumes its search where the previous value was inserted, leaves the
same values as sorting everything, and never moves back. Compression keeps a subsequence,
all prefix sums of g at the survivors, the maximum, and at least half of the items. Every
query answers with an observation and a lower bound on its rank, or with NaN exactly when
there is nothing.

What the operations leave is also told without them. The error bound is the least bound any
target sets. A flush keeps the items and adds every value of the sorted buffer at a place of
its own, later values behind earlier ones, with delta 0 at two places and the least integer
above the error bound of its rank at the others. A compress pass makes one item of two
neighbours exactly when their weight is within the error bound that holds for the items left
by then. The five hundredth value does what a query of the full buffer would do.

Queries of increasing quantiles need not get increasing answers. A query compresses before it
answers, so a second query sees another sketch than the first. Two successive queries are
answered in the order of their quantiles, in every run, exactly when some target has error 0
and a quantile strictly between 0 and 1, whatever the other targets are
(`CkmsSuccessive.SuccessiveExactly`). With such a target nothing is ever folded. Without one a
run, built in the proof, makes the very same query fall when it is asked twice. Smaller
questions have weaker conditions. Call a target steady when its quantile is below 1 and its
error at most 1 - quantile, or when its error is at least 1/2. With steady targets the rank
bound never falls with the rank, and the answers read off one flushed sample never fall with
the quantile; for a single target both are exact (`CkmsFalling.SampleExactly`). Steady targets
keep successive queries in order where the first one leaves no neighbours to merge, and not in
general: with the steady target (0.25, 0.2), after 4, a query, 2, a query, 1 and 3, the query
for 0.5 is answered 3 and then the one for 0.6 is answered 1. A second query changes the
sketch exactly when two neighbours can still be merged; that the answer to the same query can
change with it, a run shows (2, then 9).

**Window and summary.** After every run the bucket k places after the current one stands for
the insertions of the last `age_buckets - k` rotation epochs. So a query covers everything
at most `(age_buckets - 1)` intervals old and nothing older than `max_age`. Each value in a
summary's report is an observation at most `max_age` old with the rank guarantee for the
window; count and sum cover all observations ever made. The rotation interval is the largest
that fits into `max_age` once per bucket. A report makes one query per target, one after the
other. If one of the targets has error 0 and a quantile strictly between 0 and 1, and no
rotation falls between the queries, its values are in the order of their quantiles. A report of steady targets can be out of order: with (0.65, 1) and (0.75, 0.55), observe 5,
collect, observe 1 to 4, and the next report says 5 and 4. The loop of a rotation ends exactly
when the interval is positive or no rotation is due; so every call ends, whatever the clock
shows, exactly when `max_age` is at least one tick per bucket. With `max_age` 0 the first
tick hangs.

**Text.** Printed documents of collected families read back, name by name, label by label,
value and timestamp, exactly when no help text contains a newline or a backslash, or starts
or ends with a blank or tab: help is printed as it is, where the format has escape sequences
and separates tokens by any number of blanks. Label values are arbitrary. A printed scrape
consists of the lines of every family in turn: help if there is any, type, and the lines of
every metric, each with the number the reader finds in it; nothing is missing and nothing
added. Every printed line has valid label names with room for the added `le` or `quantile`,
pairwise distinct if those of the metric are.

**Histogram.** After every run of observations, tallied batches and resets, bucket i reports
the number of observations up to bound i. For arbitrary batch increments the report adds up
floors, and equals the rounded-down total exactly when the fractions sum to less than one;
two buckets of weight one half are reported as no observation. The printed lines of a run of
observations say, for every bound, how many were at most that; the last of them shows the
number of the count line. These lines are in every scrape of a histogram family.

**Gauge and counter.** In every interleaving the value is the fold of the committed
operations, each thread's operations are committed once and in order, an operation that
returned before another was called is committed before it, and an exchange cannot fail for a
reason more often than operations commit. Left alone, a thread finishes its call in at most
two steps of its loop. Counters never decrease, whatever amounts they are incremented by: a
call with a negative amount returns at once.

**Families and registry.** A rejected addition leaves no trace; the first offending label
decides the error: a name that is malformed, reserved, or the label the printer adds for the
type, before one that is taken. Family names stay valid and distinct across all seven lists,
and all families stay valid, whatever is added or removed. Every populated family is reported
once in type order, with the current data of all its metrics under their labels and its own
type, and with lines the text format can carry. The text of a scrape of any registry reads
back as exactly these entries, on the condition on help texts above.

## Where documentation and code differ

The model follows the code.

- check_names.cc documents the metric name grammar `[a-zA-Z_:][a-zA-Z0-9_:]*`; the code also rejects names that start with two underscores (`CheckNames.MetricNameExactly`).
- histogram.h documents half-open buckets that include their lower end; the code includes the upper end. They differ exactly on values equal to a boundary (`HistogramModel.DocumentedBucketExactly`).
- summary.h promises a tolerated error per quantile; the code computes its error bound from the sample size instead of the number of observations, so no such promise is stated here.
- The text format escapes backslash and line feed in a help text; text_serializer.cc:174-176 prints it unescaped. A help text a\nb with a backslash in it is read back with a line feed (`TextProofs.HelpMisread`).
- text_serializer.cc prints `Nan`, where the exposition format writes `NaN`; the reader here accepts what is printed.

## Model

| member | source | states |
|---|---|---|
| CkmsSketch.NewTarget | core/src/detail/ckms_quantiles.cc:11-15 | for a quantile in [0, 1], which summary.h:54 demands, and a tolerated error that is not negative: the target has the given quantile and error, and (by its type) factors with u(1-q) = 2e and vq = 2e |
| Ckms.CkmsQuantiles.constructor | core/src/detail/ckms_quantiles.cc:20-21 | a new sketch is empty |
| Ckms.CkmsQuantiles.Insert | core/src/detail/ckms_quantiles.cc:23-31 | the value is buffered; the one that fills the buffer flushes and compresses, so the buffer write is always in range |
| Ckms.CkmsQuantiles.Get | core/src/detail/ckms_quantiles.cc:33-61 | flushes, compresses and answers as the sketch function does |
| Ckms.CkmsQuantiles.Reset | core/src/detail/ckms_quantiles.cc:63-67 | the sketch is empty again |
| Ckms.CkmsQuantiles.AllowableErrorAt | core/src/detail/ckms_quantiles.cc:69-86 | the loop computes the least contribution of the targets, at most size + 1 |
| Ckms.CkmsQuantiles.InsertBatch | core/src/detail/ckms_quantiles.cc:88-129 | sorts the buffer in place and merges it in one pass; false exactly when there was nothing to merge |
| Ckms.CkmsQuantiles.MergeValue | core/src/detail/ckms_quantiles.cc:105-125 | the value becomes an item of weight 1 at the place of the resumed search; its delta is 0 at place 1 and before the last item, elsewhere the least integer above the error bound of the next rank |
| Ckms.CkmsQuantiles.CompressSample | core/src/detail/ckms_quantiles.cc:131-150 | the erasing loop stays in bounds, ends, and leaves the compressed sample |
| CkmsExact.ContributionExactly | core/src/detail/ckms_quantiles.cc:73-79 | the bound a target sets at a rank: 2e(size - rank) / (1 - q) up to q size, 2e rank / q beyond, and none where that divides by zero |
| CkmsExact.ErrorExactly | core/src/detail/ckms_quantiles.cc:69-86 | the allowable error is exactly the least bound any target sets, capped at size + 1 |
| CkmsExact.PlaceExactly | core/src/detail/ckms_quantiles.cc:107-114 | the place is exactly the one with only smaller items passed but for one that may be equal, and a larger item there unless one is equal |
| CkmsExact.DeltaExactly | core/src/detail/ckms_quantiles.cc:116-121 | the delta is 0 exactly at place 1 and one before the end; elsewhere it is the least integer above the allowable error of rank place + 1 |
| CkmsExact.MergePassMerges | core/src/detail/ckms_quantiles.cc:102-126 | the pass keeps the items in order and unchanged, and puts the i-th value of the sorted batch as an item of weight 1 at the i-th of increasing places, with the delta of that place among size + i items |
| CkmsExact.FlushExactly | core/src/detail/ckms_quantiles.cc:88-129 | a flush does so with the sorted buffer, and starts an empty sample with the least value at delta 0; count takes the buffer and nothing stays pending |
| CkmsExact.RunSorted | core/src/detail/ckms_quantiles.cc:88-150 | in every run the sample is sorted, which is what the two rows above ask for |
| CkmsExact.CompressExactly | core/src/detail/ckms_quantiles.cc:131-150 | every item left stands for one item, or for two neighbours exactly when their weight and the right one's delta are within the allowable error for the items left by then |
| CkmsExact.BufferExactly | core/src/detail/ckms_quantiles.cc:23-31 | from an empty buffer up to 499 insertions are only buffered, and 500 leave what a query of the full buffer leaves |
| CkmsExact.DesiredExactly | core/src/detail/ckms_quantiles.cc:42 | the desired rank is quantile times count without its fraction |
| CkmsExact.QueryExactly | core/src/detail/ckms_quantiles.cc:33-61 | a query flushes, folds, and answers with the first item whose successor's weight passes the desired rank plus half the allowable error, or with the last |
| CkmsProofs.PlaceSplits | core/src/detail/ckms_quantiles.cc:107-113 | everything before the place found is at most the value, everything from it on at least the value |
| CkmsProofs.MergePassSummarizes | core/src/detail/ckms_quantiles.cc:105-125 | a resumed pass over a sorted batch keeps the sample sorted and adds exactly the batch to the partition |
| CkmsProofs.PlacesIncrease | core/src/detail/ckms_quantiles.cc:102-125 | within a batch every value is placed after the previous one: the cursor never moves back past an insertion |
| CkmsProofs.FlushSortsEverything | core/src/detail/ckms_quantiles.cc:88-129 | the values after a flush are the old values and the buffer, sorted |
| CkmsProofs.CompressCoarsens | core/src/detail/ckms_quantiles.cc:131-150 | compress keeps a subsequence of items with their deltas and prefix sums of g, the last item, the total, and at least half of the items |
| CkmsProofs.CompressFromSummarizes | core/src/detail/ckms_quantiles.cc:144-148 | folding neighbours keeps the partition of the observations |
| CkmsProofs.CompressFromFixpoint | core/src/detail/ckms_quantiles.cc:140-149 | a pass changes nothing exactly when no two neighbours pass the merge test |
| CkmsProofs.RunRepresents | core/src/detail/ckms_quantiles.cc:23-150 | in every run the sketch partitions exactly the values inserted since the last reset |
| CkmsProofs.Conservation | core/src/detail/ckms_quantiles.cc:23-129 | the g's sum to count, count and buffer account for every insert, and the buffer is never full between calls |
| CkmsQueries.ItemRankLow | core/src/detail/ckms_quantiles.cc:33-61 | the total g up to item i is at most the number of observations up to its value; the last item is the maximum |
| CkmsQueries.ItemRankHigh | core/src/detail/ckms_quantiles.cc:33-61 | at least size - i observations are at least the value of item i, which is itself an observation |
| CkmsQueries.ScanFindsFirst | core/src/detail/ckms_quantiles.cc:45-58 | the scan stops before the first item whose weight passes the bound |
| CkmsQueries.QueryGuarantee | core/src/detail/ckms_quantiles.cc:33-61 | every query of every run answers NaN exactly when nothing was inserted, otherwise an observation with lower rank bounds from both sides |
| CkmsQueries.BoundMonotone | core/src/detail/ckms_quantiles.cc:69-86 | rank plus half the allowable error never decreases with the rank, for any list of steady targets |
| CkmsQueries.SteadyExactly | core/src/detail/ckms_quantiles.cc:11-15 | a target keeps the bound monotone for all sample sizes and ranks exactly when it is steady: quantile below 1 and error at most 1 - quantile, or error at least 1/2 |
| CkmsQueries.RunAnswersMonotone | core/src/detail/ckms_quantiles.cc:41-60 | in every run a larger quantile never gets a smaller answer from the same settled sketch, if the targets are steady |
| CkmsGrowth.CannotStay | core/src/detail/ckms_quantiles.cc:131-150 | whatever the values and the targets, inserting one value at a time, each followed by a query, the sample outgrows every size b within b(b + 3) + 1 values |
| CkmsFalling.DescendingFull | core/src/detail/ckms_quantiles.cc:131-150 | with ever smaller values there is a first time the sample passes a size, and then the last query merged nothing |
| CkmsFalling.SampleFalls | core/src/detail/ckms_quantiles.cc:23-150 | for every target that is not steady, a run and two quantiles in [0, 1] whose answers, asked of one flushed sample, fall |
| CkmsFalling.SampleExactly | core/src/detail/ckms_quantiles.cc:41-60 | asked of one flushed sample, the answers of a single target are in the order of the quantiles, in every run and for all quantiles in [0, 1], exactly when the target is steady |
| CkmsFalling.FallingExample | core/src/detail/ckms_quantiles.cc:33-61 | after the values 1 to 5 with the target (1, 0) the query for 0.6 answers 4 and the query for 0.8 answers 2 |
| CkmsPasses.FirstPass | core/src/detail/ckms_quantiles.cc:131-150 | where the bound is at least 4, a compress pass over fifteen items of weight 1 before the last leaves seven items of weight 2 in their place |
| CkmsPasses.SecondPass | core/src/detail/ckms_quantiles.cc:131-150 | the next pass folds the fifth or the sixth of these seven into its neighbour |
| CkmsSuccessive.TightInOrder | core/src/detail/ckms_quantiles.cc:33-61 | with a target of error 0 and quantile strictly between 0 and 1, two successive queries are answered in the order of their quantiles in every run |
| CkmsSuccessive.SettledInOrder | core/src/detail/ckms_quantiles.cc:33-61 | so they are with steady targets, in a run where the first query leaves no neighbours to merge |
| CkmsSuccessive.RepeatFalls | core/src/detail/ckms_quantiles.cc:33-61 | for every list of targets without such a target, a run and a quantile in [0, 1] whose query, asked twice, gets a smaller answer the second time |
| CkmsSuccessive.SuccessiveExactly | core/src/detail/ckms_quantiles.cc:33-61 | for any list of targets, successive queries are answered in the order of their quantiles, in every run and for all quantiles in [0, 1], exactly when some target has error 0 and a quantile strictly between 0 and 1 |
| CkmsSuccessive.SteadyFalls | core/src/detail/ckms_quantiles.cc:33-61 | with the steady target (0.25, 0.2), a run after which the query for 0.5 answers 3 and the query for 0.6 after it 1 |
| CkmsQueries.SecondQueryStable | core/src/detail/ckms_quantiles.cc:33-35 | a second query leaves the sketch alone exactly when no neighbours can still be merged |
| CkmsQueries.SecondQueryDiffers | core/src/detail/ckms_quantiles.cc:131-150 | a run after which the same query answers 2 and then 9 |
| TimeWindow.TimeWindowQuantiles.constructor | core/src/detail/time_window_quantiles.cc:9-16 | all buckets empty, the interval is the share of max_age each bucket gets, without the fraction, for any max_age |
| WindowModel.IntervalExactly | core/src/detail/time_window_quantiles.cc:16 | interval * age_buckets <= max_age < (interval + 1) * age_buckets, and the mirror image below 0, hold of the rotation interval and no other |
| TimeWindow.TimeWindowQuantiles.Rotate | core/src/detail/time_window_quantiles.cc:30-43 | clears and moves on once per whole interval passed; required of the caller is exactly that the loop ends |
| TimeWindow.TimeWindowQuantiles.Insert | core/src/detail/time_window_quantiles.cc:23-28 | rotates, then inserts into every bucket |
| TimeWindow.TimeWindowQuantiles.Get | core/src/detail/time_window_quantiles.cc:18-21 | rotates, then queries the current bucket only |
| WindowProofs.RotateAgrees | core/src/detail/time_window_quantiles.cc:30-43 | rotation ends in the epoch of the current time, with last_rotation = start + epoch * interval, and keeps the ring in agreement with the log |
| WindowProofs.RunAgrees | core/src/detail/time_window_quantiles.cc:18-43 | in every run each bucket stands for exactly the insertions of its range of epochs |
| WindowProofs.WindowGuarantee | core/src/detail/time_window_quantiles.cc:18-21 | every query answers with the rank guarantee for exactly the insertions of the last age_buckets epochs |
| WindowProofs.KeptExactly | core/src/detail/time_window_quantiles.cc:23-28 | the filtered log holds a value exactly when an insertion of it is recent enough |
| WindowProofs.WindowAges | core/src/detail/time_window_quantiles.cc:9-43 | an insertion up to (age_buckets - 1) intervals old is covered, one more than age_buckets intervals old is not |
| WindowProofs.RotateTurns | core/src/detail/time_window_quantiles.cc:30-43 | rotation takes the least number of turns after which the loop condition fails |
| WindowProofs.LoopEnds | core/src/detail/time_window_quantiles.cc:30-43 | from any window and at any time the loop ends exactly when the interval is positive or no rotation is due |
| WindowProofs.RotationEnds | core/src/detail/time_window_quantiles.cc:9-43 | every rotation of a window ends exactly when max_age is at least one tick per bucket |
| WindowProofs.RotationHangs | core/src/detail/time_window_quantiles.cc:9-43 | with max_age 0 the loop goes on after any number of turns, one tick after the construction |
| Summaries.Summary.constructor | core/src/summary.cc:7-10 | nothing observed yet, and the interval is the share of max_age each bucket gets, for any max_age |
| Summaries.Summary.Observe | core/src/summary.cc:17-23 | count, sum and window take the value |
| Summaries.Summary.Collect | core/src/summary.cc:25-41 | one window query per quantile in order, with the lifetime count and sum |
| SummaryModel.Lifetime | core/src/summary.cc:17-41 | count and sum cover all observations ever made |
| SummaryModel.ReportRanks | core/src/summary.cc:25-41 | every reported value has the rank guarantee for the observations in the window at its query |
| SummaryModel.ReportGuarantee | core/src/summary.cc:17-41 | of the window built from max_age and age_buckets: every reported value was observed at most max_age ago; NaN only if nothing was observed in the last (age_buckets - 1) intervals |
| ReportOrder.ReportInOrder | core/src/summary.cc:25-41 | with a target of error 0 and quantile strictly between 0 and 1, the values of a report within one epoch are in the order of their quantiles |
| ReportOrder.SteadyReportFalls | core/src/summary.cc:25-41 | with the steady targets (0.65, 1) and (0.75, 0.55), a run of calls whose report is 5 and then 4 |
| Exposition.HistogramText | core/src/histogram.cc:75-95 | the printed lines of every collected histogram: count, sum, for every bound how many observations since the last reset were at most that, and a last line with the number of the count line |
| Exposition.SummaryText | core/src/summary.cc:25-41 | the printed lines of every collected summary built from max_age and age_buckets: count and sum of all observations, and per target a value at most max_age old, or Nan if nothing recent was observed |
| TextLayout.MetricShown | core/src/text_serializer.cc:89-171 | for every type the lines of a metric have its name and suffix, its labels and at most the one extra, its timestamp, and the numbers the reader finds are its data |
| TextLayout.TypeWordExactly | core/src/text_serializer.cc:177-215 | the type word is counter, gauge (for gauges and infos), summary, untyped or histogram |
| TextLayout.FamilyLayout | core/src/text_serializer.cc:173-217 | a family is printed as help, if it has any, type, and the lines of metric after metric, nothing missing and nothing added |
| TextLayout.ScrapeLayout | core/src/text_serializer.cc:227-229 | a scrape is printed as family after family, nothing missing and nothing added |
| TextLayout.MetricOccurs | core/src/text_serializer.cc:173-229 | the lines of every metric of every family are in the scrape |
| TextLayout.SampleText | core/src/text_serializer.cc:54-87 | braces are printed only around labels, and a timestamp only if it is not zero |
| CheckNames.MetricNameExactly | core/src/check_names.cc:36-56 | accepted names are the documented grammar without names that start with two underscores |
| CheckNames.LabelNameExactly | core/src/check_names.cc:58-84 | the same for label names, without `le` for histograms and `quantile` for summaries |
| TextSerializer.OutStream.WriteDouble | core/src/text_serializer.cc:18-26 | appends the text of a double, with its special values |
| TextSerializer.OutStream.WriteInt | core/src/text_serializer.cc:28-30 | appends the decimal digits of an integer |
| TextSerializer.OutStream.WriteText | core/src/text_serializer.cc:32-52 | appends the escaped string |
| TextSerializer.OutStream.WriteHead | core/src/text_serializer.cc:54-79 | appends name, suffix and all labels with the extra one last, separated by commas, with braces only around labels |
| TextSerializer.OutStream.WriteTail | core/src/text_serializer.cc:81-87 | appends the timestamp unless it is zero, and the newline |
| TextSerializer.OutStream.SerializeCounter | core/src/text_serializer.cc:89-100 | appends the one line of a counter |
| TextSerializer.OutStream.SerializeGauge | core/src/text_serializer.cc:102-113 | appends the one line of a gauge |
| TextSerializer.OutStream.SerializeSummary | core/src/text_serializer.cc:122-138 | appends count, sum and one line per quantile |
| TextSerializer.OutStream.SerializeHistogram | core/src/text_serializer.cc:147-171 | appends count, sum, one line per bucket, and the infinite bucket if it is missing |
| TextSerializer.OutStream.SerializeFamily | core/src/text_serializer.cc:173-217 | appends help, type and the lines of every metric |
| TextSerializer.OutStream.Serialize | core/src/text_serializer.cc:220-234 | appends the lines of every family in order |
| TextProofs.IntRoundTrip | core/src/text_serializer.cc:28-30 | reading a printed integer gives the integer |
| TextProofs.DoubleRoundTrip | core/src/text_serializer.cc:18-26 | the printed special values and finite doubles are told apart |
| TextProofs.EscapeRoundTrip | core/src/text_serializer.cc:32-52 | reading up to the closing quote gives back any label value |
| TextProofs.HeadRoundTrip | core/src/text_serializer.cc:54-79 | reading a head gives back its name and its labels in order |
| TextProofs.HeadsInjective | core/src/text_serializer.cc:54-79 | equal heads have equal names and labels |
| TextProofs.SampleRoundTrip | core/src/text_serializer.cc:54-87 | reading a sample line gives back name, labels, value and timestamp, whatever follows |
| TextProofs.SampleIsOneLine | core/src/text_serializer.cc:32-87 | the only raw newline of a sample line is its terminator |
| TextProofs.IntegerSample | core/src/text_serializer.cc:89-113 | an integer counter or gauge reads back with its value |
| TextProofs.HistogramEndsInfinite | core/src/text_serializer.cc:147-171 | the last line of a histogram is its infinite bucket; it shows the number of the count line exactly when the collected buckets, if they end infinite, count every sample |
| TextProofs.HelpExactly | core/src/text_serializer.cc:174-176 | a help line that is read back as printed has a text that fits its line |
| TextProofs.DocumentRoundTrip | core/src/text_serializer.cc:173-217 | printed entries read back exactly when every help text fits its line: no newline, no backslash, no blank or tab at either end |
| TextProofs.FamilyGood | core/src/text_serializer.cc:173-217 | every line of a well-named family is valid, and has pairwise distinct label names if its metric has |
| TextProofs.ScrapeRoundTrip | core/src/text_serializer.cc:220-234 | a whole scrape of well-named families reads back as what was printed exactly when every help text fits its line, repeated label names included |
| TextProofs.HelpMisread | core/src/text_serializer.cc:174-176 | a family whose help text holds a backslash and an n is read back with a newline in its place |
| HistogramModel.StrictSortedExactly | core/src/histogram.cc:16-21 | the check of neighbours accepts exactly the strictly increasing boundaries |
| HistogramModel.DocumentedBucketExactly | core/include/promcore/histogram.h:52-58 | the documented bucket is the one the code picks exactly when the value is no boundary, and otherwise the next one |
| HistogramModel.BoundaryObserved | core/src/histogram.cc:40-49 | with the boundary 1 an observation of 1 is counted in the first bucket, where the documentation says the second |
| HistogramModel.ObserveCounts | core/src/histogram.cc:40-49 | an observation adds to the counts of exactly the bounds it is at most |
| HistogramModel.CollectRefines | core/src/histogram.cc:67-95 | in every run bucket i reports the number of observations up to bound i since the last reset, the last one all of them, with their sum |
| HistogramModel.BucketsMonotone | core/src/histogram.cc:82-90 | cumulative counts never decrease from one bucket to a later one |
| HistogramModel.BatchEquivalence | core/src/histogram.cc:51-65 | observing a batch through its tally and sum is observing its values one by one |
| HistogramModel.NegativesDropped | core/src/histogram.cc:51-65 | every count grows by its increment, or by nothing if that is negative; the sum takes everything |
| HistogramModel.CumulativeFloors | core/src/histogram.cc:80-91 | the truncating accumulation adds up floors |
| HistogramModel.CountIsFloorExactly | core/src/histogram.cc:80-91 | the reported count is the rounded-down total exactly when the fractions sum to less than one |
| HistogramModel.HalvesUncounted | core/src/histogram.cc:51-95 | after a batch of two halves the buckets weigh one and the reported count is zero |
| Histograms.Histogram.Create | core/src/histogram.cc:25-38 | fails exactly on boundaries that are not strictly increasing |
| Histograms.Histogram.Observe | core/src/histogram.cc:40-49 | one bucket counter and the sum change |
| Histograms.Histogram.ObserveMultiple | core/src/histogram.cc:51-65 | fails without a change exactly on a wrong number of increments |
| Histograms.Histogram.Reset | core/src/histogram.cc:67-73 | all counters and the sum are zero |
| Histograms.Histogram.Collect | core/src/histogram.cc:75-95 | the loop reports the running totals with their bounds |
| Instruments.Gauge.Change | core/src/gauge.cc:29-32 | adds the amount |
| Instruments.Gauge.Decrement | core/src/gauge.cc:20-24 | subtracts the amount |
| Instruments.Counter.Increment | core/src/counter.cc:8-14 | adds the amount unless it is negative |
| Instruments.Counter.Reset | core/src/counter.cc:19-20 | the counter is zero |
| AtomicGauge.Linearizable | core/src/gauge.cc:26-41 | in every interleaving the value is the fold of the committed operations, and every thread's operations are committed once, in order, before its call returns |
| AtomicGauge.FailureMeansCommit | core/src/gauge.cc:36-39 | in every run, an exchange that finds another value means other threads, and only they, have committed since this one last looked |
| AtomicGauge.FailuresBounded | core/src/gauge.cc:36-39 | a thread's exchange fails for a reason at most as often as operations commit |
| AtomicGauge.LogOnlyGrows | core/src/gauge.cc:29-41 | committed operations stay committed |
| AtomicGauge.RealTimeOrder | core/src/gauge.cc:26-41 | the i-th commit of a thread is the i-th operation it called, and an operation that had returned before another one was called is committed before it |
| AtomicGauge.CallsAccepted | core/src/gauge.cc:26-41 | a thread whose operations are all committed can enter every call |
| AtomicGauge.Progress | core/src/gauge.cc:36-39 | left alone, a thread in a call finishes it in at most two steps of its loop and adds its amount |
| AtomicGauge.OtherSteps | core/src/gauge.cc:30-39 | the fetch_add branch adds in one step; an exchange on the current value may fail for no reason and changes nothing |
| AtomicGauge.CounterMonotone | core/src/counter.cc:5-17 | whatever the amounts, a counter never decreases and is the sum of the increments committed, all of them not negative |
| Families.KeysDistinct | core/include/promcore/labels.h:8-9 | a label set has pairwise distinct names |
| Families.LessExactly | core/include/promcore/labels.h:8-9 | label names are ordered character by character, a prefix first |
| Families.TypeOfExactly | core/src/family.cc:99 | a family is collected as counter, gauge, histogram, info or summary exactly if it was instantiated with such a metric |
| Families.AcceptedExactly | core/src/family.cc:25-30 | accepted are the documented label names without two leading underscores, without `le` for a histogram and `quantile` for a summary |
| Families.FirstOffenceExactly | core/src/family.cc:42-52 | the error is that of the first offending label, an invalid name before a constant one |
| Families.NoOffenceExactly | core/src/family.cc:42-52 | the loop over the labels finds no offence exactly when every name is valid and none is a constant label |
| Families.LineLabels | core/src/family.cc:107-122 | constant and own labels together make a line with valid, pairwise distinct names and room for the extra one |
| Families.Family.Create | core/src/family.cc:18-31 | fails exactly on an invalid metric name or constant label, with the error of the first check that fails; all accepted constant labels have names the family's type allows |
| Families.Family.Add | core/src/family.cc:33-58 | returns the stored metric, or inserts the new one, or fails with the first offence and leaves the family as it was; the labels of a new metric have names the family's type allows |
| Families.Family.Remove | core/src/family.cc:60-70 | forgets exactly the given metric |
| Families.Family.CollectMetric | core/src/family.cc:107-122 | the metric's data with the constant labels and then its own |
| Families.Family.Collect | core/src/family.cc:88-105 | nothing for an empty family, otherwise every metric's data once under its labels and the family's type, with names the printer can carry |
| Registries.FamilyNameExistsExactly | core/src/registry.cc:27-38 | the variadic search finds a name exactly when one of the lists has it |
| Registries.OtherTypeExactly | core/src/registry.cc:96-129 | each specialisation finds a name exactly when a list of another type has it |
| Registries.AppendConsistent | core/src/registry.cc:160-163 | appending a family with a new valid name keeps all names valid and distinct across the lists |
| Registries.RemoveConsistent | core/src/registry.cc:203-209 | so does erasing a family |
| Registries.PopulatedExactly | core/src/registry.cc:18-25 | what is collected of a list is exactly its families with metrics, in order |
| Registries.AllInOrder | core/src/registry.cc:46-59 | the families are visited type by type, counters, gauges, histograms, infos, summaries; all of them and no other |
| Registries.FamilyKeeps | core/src/registry.cc:46-59 | adding metrics to a family or removing them leaves all families of the registry valid |
| Registries.Registry.constructor | core/src/registry.cc:41-42 | no families, with the given insert behaviour |
| Registries.Registry.Add | core/src/registry.cc:131-164 | the errors in order, the same family for equal name and labels in merge mode, otherwise a new one at the end of its list; failing changes nothing, and all families stay valid |
| Registries.Registry.Remove | core/src/registry.cc:194-210 | erases the family, found by identity, or reports that it is not there; all families stay valid |
| Registries.Registry.CollectAll | core/src/registry.cc:18-25 | appends the reports of one list: name, help, type, and the data of every metric once under its labels |
| Registries.Registry.Collect | core/src/registry.cc:46-59 | every populated family once, in type order, with the data of every metric once under its labels, as lines the text format can carry |
| Scrapes.SerializeToText | core/src/serializer.cc:7-12 | the text of the entries of all families |
| Scrapes.MetricScraped | core/src/family.cc:95-122 | the lines of every metric of every reported family are in the scrape, with its current data under its labels and its family's type |
| Scrapes.TypeScraped | core/src/family.cc:99 | the type line of a scraped family has the word for the metrics it was instantiated with |
| Scrapes.HistogramScraped | core/src/histogram.cc:75-95 | in a scrape of a histogram family the lines of a metric say how many observations were at most each bound |
| Scrapes.SummaryScraped | core/src/summary.cc:25-41 | in a scrape of a summary family the lines of a metric hold count, sum and the values guaranteed to be at most max_age old |
| Scrapes.Scrape | core/src/registry.cc:46-59 | the text of a scrape of any registry, family after family with nothing missing, which reads back as the entries of every populated family exactly when their help texts fit their lines |

## Left out

- IEEE doubles: rounding, NaN and infinite observations, and the digits chosen for a finite double; values are reals, and a printed finite double is whatever digits the stream writes.
- Integer widths: g, delta, ranks, counts, int64 gauges and timestamps are unbounded integers.
- CkmsSketch.NewTarget: excludes quantiles outside [0, 1], which summary.h:54 demands of the caller, and negative errors, which at quantile 0 or 1 would need an infinite factor; quantiles 0 and 1 themselves, whose factor is a division by zero, are modelled.
- Calls of a window or a summary whose rotation would not end, which takes a max_age of less than one tick per bucket: the methods require that it ends (`WindowModel.Ends`), and the runs of the model have a positive interval.
- The accuracy that summary.h promises and any upper bound on ranks from delta: the code does not give them.
- CkmsQueries.SteadyExactly: for several targets together the condition is sufficient only, because one target's contribution can hide behind another's.
- CkmsFalling.SampleExactly: the same, for queries of one flushed sample; the condition for successive queries, CkmsSuccessive.SuccessiveExactly, is exact for any list of targets.
- ReportOrder.ReportInOrder: sufficient only, because a report asks only for its own quantiles (a single target is always in order); across a rotation two values come from different buckets.
- CkmsQueries.SecondQueryStable: exact for the sketch a second query leaves; its answers may stay the same although the sketch changes.
- Mutexes: every locked method is one step. Only the gauge is modelled in steps of several threads, with sequentially consistent atomics.
- Clocks: time is an argument that never decreases, and SetToCurrentTime is left out.
- Stream locale and precision.
- The type tags that counters and gauges put into collected data, Info, Builder, LabelHasher and hash_combine: they would add only easy members.
- The lifetime of the quantile vector a sketch refers to.
- Other families with colliding printed names, such as a histogram `x` and a counter `x_count`: the code does not prevent them.
- The freedom of the text format that the printer does not use in sample lines (extra blanks, trailing commas), other comments and empty lines: the reader rejects them.
