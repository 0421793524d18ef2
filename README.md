# gamba, modelled in Dafny

gamba is a Python library for studying gambling behaviour from transaction
data. It turns a table of bets (one row per bet, or per player-day for
daily aggregate data) into per-player behavioural measures, builds the
measures tables of the LaBrie and Braverman studies from them, and adds
player labels. It then compares cohorts in tables of label overlaps and
significance markers, and feeds scikit-learn clustering and
classification results into summary tables and plots.

This project models that core as exact arithmetic over plain records:

- A bet is `Measures.Bet`: player id, integer `bet_time` in seconds, bet
  size, payout size and bet count. The calendar day `.date()` is
  `bet_time / 86400` with floor division.
- A data frame is `Tables.Table`: a list of column names and rows, where
  each row has an index key and one cell per column. A cell is a string, an
  exact number, or `NonFinite`, which stands for numpy's inf/nan after a
  division by zero.
- Each way an operation gives up becomes an `Error` in a `Result`:
  - `check_measure_data`'s exception, whose text is `Tables.Message`
  - a pandas `KeyError`
  - an `IndexError` from `iloc[0]` on an empty frame
  - Python's `ZeroDivisionError`
  - a length mismatch when assigning an index
  - reindexing over duplicate labels
  - a percentile outside [0, 100]

The modules follow the source files:

- `Measures`: the per-player measures of `gamba/measures.py`.
  - The frame sorted in place by `duration` and `frequency` is the class
    `Measures.PlayerBets`.
  - `frequency`'s day-counting loop is the method `CountBettingDays`.
- `Studies`: the LaBrie and Braverman table builders of `gamba/studies.py`.
- `Labels`: `top_split` and `get_labelled_groups` of `gamba/labels.py`, over
  numpy's linear-interpolation percentile (`Seqs.Percentile`).
- `Overlap`: `label_overlap_table` of `gamba/tests.py`, with its 2-D frames
  as `array2`.
- `Tests`: the rest of the cohort tables in `gamba/tests.py`.
  - `descriptive_table`'s means and medians.
  - The lower-triangular significance formatting that `spearmans_r` and
    `calculate_walker_matrix` share; both copies are the one method
    `Tests.SignificanceTable`.
  - `add_tables`, over the class `Tests.Frame`, whose column names it
    renames in place.
- `Plots`: the computations inside `gamba/plots.py`.
  - The dendrogram node sizes. `gamba/machine_learning.py:597-606` is an
    identical copy, modelled by the same members.
  - The centile buckets.
  - The running balance of the career plot.
  - The cluster sizes. `gamba/machine_learning.py:568-569` is an identical
    copy.
- `Clustering`: the aggregation around k-means.
  - The `cluster` column copy.
  - `k_means_range` and `k_means_ensemble`. These exist in both
    `gamba/clustering.py` and `gamba/machine_learning.py`, with identical
    logic.
  - `describe_clusters`.
- `MachineLearning`: the odds ratio and precision of `compute_performance`,
  and the 0.5 and one-class thresholds that turn predictions into labels.
- `Tables`, `Seqs` and `Text` are shared vocabulary: frames, filters, sums,
  means, sorting, the percentile, digit strings and half-even rounding.

Library results are inputs to the model:

- a k-means run's labels and scores
- an agglomerative model's `children_`
- the coefficient and p-value matrices of the statistical tests
- the predictions of the fitted classifiers

KMeans is randomised, so a fit is a function parameter
(`fit: (run, clusters) -> Fit`). The model says what the code does with
whatever the library returned.

Iterating over a Python `set` (the distinct players, the cluster ids) is
modelled as some duplicate-free enumeration of the distinct values
(`Seqs.Enumerates`). The source does not fix that order.

## Model

| member | source | states |
|---|---|---|
| Measures.CheckMeasureData | gamba/measures.py:19-24 | succeeds exactly when every required column is present; otherwise fails naming the first missing column in list order |
| Measures.CheckSameColumns | gamba/measures.py:19-24 | the check depends only on which required columns are present |
| Measures.DayMonotone | gamba/measures.py:83 | a later timestamp never has an earlier calendar day |
| Measures.DayShift | gamba/measures.py:101 | adding k whole days to a timestamp adds k to its calendar day |
| Measures.MinTime | gamba/measures.py:80 | the earliest bet time is a bet's time and at most every bet's time |
| Measures.MaxTime | gamba/measures.py:81 | the latest bet time is a bet's time and at least every bet's time |
| Measures.InsertByTimeSorted | gamba/measures.py:77 | inserting a bet into a time-sorted list keeps it sorted and adds exactly that bet |
| Measures.SortByTime | gamba/measures.py:77 | `sort_values("bet_time")` yields a time-sorted permutation of the bets |
| Measures.SortedEnds | gamba/measures.py:80-81 | after sorting, the first and last rows hold the earliest and latest bet times |
| Measures.BetDaysWithin | gamba/measures.py:99-104 | every bet date lies between the first and last bet's dates, and the first bet's date is a bet date |
| Measures.DurationDefined | gamba/measures.py:76-84 | duration succeeds exactly when `bet_time` exists and there is a row; a missing column is reported first, an empty frame as IndexError |
| Measures.DurationPositive | gamba/measures.py:83 | a duration is at least 1 and is the number of calendar days from the first bet's day to the last one's, inclusive |
| Measures.DurationValue | gamba/measures.py:80-83 | duration = last calendar day − first calendar day + 1 |
| Measures.DurationOfSorted | gamba/measures.py:77-83 | the same duration read off the first and last rows of any time-sorted copy |
| Measures.DurationSpan | gamba/measures.py:80-83 | the duration is fixed by any earliest and any latest row |
| Measures.FrequencyValue | gamba/measures.py:106 | frequency = 100 × active days / duration |
| Measures.FrequencyBounds | gamba/measures.py:106 | frequency lies in (0, 100] |
| Measures.FrequencyFull | gamba/measures.py:99-106 | frequency is 100 exactly when every day of the duration holds a bet |
| Measures.FullSpan | gamba/measures.py:99-106 | the active days never outnumber the duration's days, and equal them exactly when no day is skipped |
| Measures.CountBettingDays | gamba/measures.py:99-104 | the day loop counts the days of [first day, first day + duration) that hold a bet |
| Measures.AllDaysCounted | gamba/measures.py:99-104 | over a sorted frame that window holds every bet date, so the loop counts all active days |
| Measures.BetsOnDay | gamba/measures.py:102-103 | the rows selected for a date are non-empty exactly when the date is a bet date |
| Measures.FrequencyFromCount | gamba/measures.py:99-106 | the loop's count divided by the duration, times 100, is the frequency |
| Measures.BettingDaysRecovered | gamba/measures.py:125 | (frequency / 100) × duration gives back the number of active days |
| Measures.AveragePerActiveDay | gamba/measures.py:127 | average_bets_per_day = row count / active days |
| Measures.DailyPerActiveDay | gamba/measures.py:190-191 | average_bets_per_day_daily = Σ bet_count / active days, or number_of_bets_daily's error |
| Measures.AverageBetSize | gamba/measures.py:135-137 | fails exactly when `bet_size` is missing; the mean is nan exactly when there are no rows |
| Measures.TotalWagered | gamba/measures.py:144-145 | fails exactly when `bet_size` is missing, with check_measure_data's error |
| Measures.NetLoss | gamba/measures.py:152-154 | fails exactly when `bet_size` or `payout_size` is missing, naming the first one checked |
| Measures.PercentLoss | gamba/measures.py:162-165 | inf/nan exactly when nothing was wagered; otherwise percent × total wagered = 100 × net loss |
| Measures.NumberOfBetsDaily | gamba/measures.py:176-177 | fails exactly when `bet_count` is missing |
| Measures.AverageBetSizeDaily | gamba/measures.py:201-203 | checks `bet_size` before `bet_count`; inf/nan exactly when Σ bet_count is 0 |
| Measures.FirstMonth | gamba/measures.py:214-216 | the window holds the first row and exactly the bets at most 30 days after the first row's time, each as many times as the frame holds it; it is no longer than the input |
| Measures.IntensityDaily | gamba/measures.py:214-218 | IndexError on an empty frame, KeyError for `bet_time` then `bet_count`, otherwise a number |
| Measures.IntensityBounds | gamba/measures.py:217 | the first-month intensity lies within the bounds of the window's bet counts |
| Measures.FrequencyDaily | gamba/measures.py:226-230 | IndexError on an empty frame, KeyError for `bet_time`; otherwise the window size, between 1 and the row count |
| Measures.FrequencyDailyPositions | gamba/measures.py:226-230 | frequency_daily is the number of positions of the frame whose bet lies at most 30 days after the first row's bet |
| Measures.FirstMonthStatistic | gamba/measures.py:238-242 | variability_daily's error order: IndexError on an empty frame, KeyError for `bet_time`, then for `bet_size` |
| Measures.MeasuresIgnoreOrder | gamba/measures.py:77-78 | every measure is the same for any reordering of the same bets, so sorting in place changes no result |
| Measures.DurationIgnoresOrder | gamba/measures.py:76-84 | duration is the same for any reordering of the same bets |
| Measures.FrequencyIgnoresOrder | gamba/measures.py:91-107 | frequency is the same for any reordering of the same bets |
| Measures.AmountsIgnoreOrder | gamba/measures.py:135-203 | the money and daily-count measures are the same for any reordering of the same bets |
| Measures.DaysIgnoreOrder | gamba/measures.py:96 | the set of bet dates and their count do not depend on row order |
| Measures.PlayerBets.Duration | gamba/measures.py:76-84 | returns the duration; with `bet_time` present it leaves the frame sorted by time, the same bets, and the index reset to 0..n-1; otherwise it changes nothing |
| Measures.PlayerBets.Frequency | gamba/measures.py:91-107 | returns the frequency, sorts and re-indexes the frame as duration does, and adds `bet_date` on success |
| Measures.PlayerBets.AverageBetsPerDay | gamba/measures.py:122-128 | returns average_bets_per_day of the frame as it was; as duration and frequency leave it, the frame is sorted by time with index 0..n-1 when `bet_time` exists (unchanged otherwise) and gains `bet_date` when duration succeeds |
| Measures.PlayerBets.AverageBetsPerDayDaily | gamba/measures.py:185-193 | returns average_bets_per_day_daily of the frame as it was; the frame is left sorted, re-indexed and with `bet_date` exactly as average_bets_per_day leaves it |
| Measures.PlayerBets.RecoveredFrequency | gamba/measures.py:123-125 | the frequency call inside the averages returns the frequency of the original bets |
| Measures.FixtureDays | gamba/tests/test_measures.py:10-16 | the four-day fixture starts at t0, ends three days later and has four bet dates |
| Measures.FixtureBetDays | gamba/tests/test_measures.py:12-14 | the fixture's bet dates are four consecutive days |
| Measures.FixtureDuration | gamba/tests/test_measures.py:19-21 | the fixture's duration is 4 |
| Measures.FixtureFrequency | gamba/tests/test_measures.py:24-26 | the fixture's frequency is 100 |
| Measures.FixtureAverage | gamba/tests/test_measures.py:34-36 | the fixture's average bets per day is 1 |
| Measures.FixtureRates | gamba/tests/test_measures.py:19-36 | together: duration 4, frequency 100, 4 bets, 1 bet per day |
| Measures.FixtureAmounts | gamba/tests/test_measures.py:39-57 | average bet size 2.75, total wagered 11, net loss −1, percent loss −100/11 (≈ −9.1) |
| Studies.RowsOfPlayer | gamba/studies.py:48 | a player's rows are exactly the bets with that id, and are non-empty exactly for ids in the table |
| Studies.PlayerRow | gamba/studies.py:49 | the first of a player's rows carries that player's id |
| Studies.AppendEach | gamba/studies.py:49-62 | each iteration appends one value to every column list |
| Studies.LaBrieRowOf | gamba/studies.py:49-62 | a row has the nine LaBrie columns and starts with the player's id |
| Studies.LaBrieRowChecks | gamba/studies.py:50-62 | a player's row fails exactly when a required column is missing, with the first missing one in call order |
| Studies.DailySwitchesThreeColumns | gamba/studies.py:52-62 | the `daily` flag changes only num_bets, average_bets_per_day and average_bet_size |
| Studies.DailyNeedsMore | gamba/studies.py:52-59 | a row that succeeds in daily mode also succeeds in transaction mode |
| Studies.LaBrieDailyShared | gamba/studies.py:50-62 | a daily LaBrie row holds the duration, Σ bet_count, Σ bet_size / Σ bet_count, Σ bet_size and the net loss |
| Studies.PlayerLaBrie | gamba/studies.py:49-62 | the loop body computes the player's LaBrie row |
| Studies.PlayerCounts | gamba/studies.py:52-59 | the count measures of either mode, over a frame that the sorting measures reorder |
| Studies.PlayerMoney | gamba/studies.py:60-62 | total wagered, net loss and percent loss of the player's bets |
| Studies.NextLaBrieRow | gamba/studies.py:48-62 | filtering by a present id and computing its row fails exactly as the column check does, and otherwise gives that player's row |
| Studies.LaBrieColumnsDistinct | gamba/studies.py:64-72 | the LaBrie column names are distinct |
| Studies.Columns | gamba/studies.py:64-74 | turning the built rows into column lists puts row k's cell c at position k of list c |
| Studies.TableOfRows | gamba/studies.py:74 | the assembled frame has the column order, a 0..n-1 index, the ids as player_id, and row k equal to the k-th built row |
| Studies.LaBrieTableBuilt | gamba/studies.py:64-74 | rows built for an enumeration of the distinct ids form a LaBrie table |
| Studies.CalculateLaBrieMeasures | gamba/studies.py:43-74 | KeyError without `player_id`; otherwise fails exactly when some player exists and a required column is missing; on success one row per distinct player id, each computed from that player's rows only |
| Studies.BravermanRowOf | gamba/studies.py:112-124 | a row has the ten Braverman columns and starts with the player's id |
| Studies.BravermanCheck | gamba/studies.py:114-124 | the Braverman columns needed are those of a daily LaBrie row |
| Studies.BravermanRowChecks | gamba/studies.py:114-124 | a player's row fails exactly when the column check fails, with its error |
| Studies.BravermanShared | gamba/studies.py:120-124 | sum_of_stakes = Σ bet_size, total_num_bets = Σ bet_count, their ratio, the duration and the net loss |
| Studies.BravermanAgreesWithDailyLaBrie | gamba/studies.py:120-124 | those five cells equal the matching cells of the player's daily LaBrie row |
| Studies.PlayerBraverman | gamba/studies.py:112-124 | the loop body computes the player's Braverman row |
| Studies.NextBravermanRow | gamba/studies.py:112-124 | filtering by a present id and computing its row fails exactly as the column check does |
| Studies.BravermanColumnsDistinct | gamba/studies.py:126-135 | the Braverman column names are distinct |
| Studies.BravermanTableBuilt | gamba/studies.py:126-137 | rows built for an enumeration of the distinct ids form a Braverman table |
| Studies.CalculateBravermanMeasures | gamba/studies.py:109-137 | KeyError without `player_id`; otherwise fails exactly when some player exists and the column check fails; on success one row per distinct player id, from that player's rows only |
| Seqs.Sort | gamba/labels.py:27 | numpy's sort step: a sorted permutation |
| Seqs.LinearPercentileBetween | gamba/labels.py:27 | the linear-interpolation percentile lies between the two sorted values around its rank |
| Seqs.PercentileBounds | gamba/labels.py:27 | a percentile lies between the minimum and maximum |
| Seqs.PercentileHundredIsMax | gamba/labels.py:27 | the 100th percentile is the maximum, so no value exceeds it |
| Seqs.PercentileZeroIsMin | gamba/labels.py:27 | the 0th percentile is the minimum |
| Seqs.PercentileMonotone | gamba/labels.py:27 | a higher percentage never gives a lower percentile |
| Labels.TopLabel | gamba/labels.py:33-35 | 1 exactly when the value is strictly above the cutoff, 0 otherwise |
| Labels.TopLabels | gamba/labels.py:27-35 | label k is 1 exactly when value k exceeds the percentile cutoff; all labels are 0 or 1 |
| Labels.SplitValues | gamba/labels.py:27 | KeyError for a missing split column; the column's numbers otherwise |
| Labels.TopSplit | gamba/labels.py:27-41 | the error cases in np.percentile's order: KeyError for a missing column, then PercentileRange for a percentage outside [0, 100], then NotNumeric, then IndexError for no rows; on success a copy with the same rows and keys, every other column unchanged, and `top_<split_by>` holding the labels |
| Labels.TopHundredLabelsNone | gamba/labels.py:27-35 | at percentile 100 no row is labelled 1 |
| Labels.TopMonotone | gamba/labels.py:34-35 | a row whose value is at least that of a row labelled 1 is labelled 1 |
| Labels.TopNested | gamba/labels.py:27-35 | raising the percentile only removes rows from the top group |
| Labels.TopZeroLabelsAboveMin | gamba/labels.py:27-35 | at percentile 0 exactly the values above the minimum are labelled 1 |
| Labels.Group | gamba/labels.py:61 | a group keeps the table's columns |
| Labels.GroupMembers | gamba/labels.py:61 | a group holds exactly the rows whose label equals its value |
| Labels.GroupLabelsAscending | gamba/labels.py:58 | the group values are strictly ascending and are exactly the distinct labels |
| Labels.GetLabelledGroups | gamba/labels.py:58-65 | KeyError or NotNumeric for a bad label column; otherwise one group per distinct label value, in ascending order |
| Labels.GroupsPartition | gamba/labels.py:59-62 | every row lies in exactly one group, the one for its label |
| Labels.GroupSizesCoverTable | gamba/labels.py:59-62 | the group sizes add up to the table's row count |
| Labels.GroupSizesAreCounts | gamba/labels.py:59-62 | the group sizes add up to the occurrences of the listed labels in the label column |
| Overlap.Remove | gamba/tests.py:305-306 | `list.remove` keeps only members of the list and drops a leading occurrence |
| Overlap.Missing | gamba/tests.py:308-313 | names the first label that is not a column, if any |
| Overlap.MissingAt | gamba/tests.py:308-313 | the missing label reported is the first one in list order |
| Overlap.OnlyLabelByFilters | gamba/tests.py:308-314 | filtering the rows with label i by each other label being 0 keeps exactly the rows with label i only |
| Overlap.KeepAll | gamba/tests.py:311-313 | the filter loop fails on the first missing label and otherwise keeps the rows meeting every condition |
| Overlap.SharePercentBounds | gamba/tests.py:316-319 | the rounded percentage of a part of a group lies in 0..100 |
| Overlap.Share | gamba/tests.py:316-320 | an entry is the count's digits followed by " (", the rounded percentage and ")" |
| Text.RoundHalfEven | gamba/tests.py:319 | `round(x)` is within one half of x, and a tie goes to the even integer |
| Text.RoundHalfEvenUnique | gamba/tests.py:319 | it is the only integer with those properties |
| Text.ParseNatToString | gamba/tests.py:404 | reading back `str` of a count gives the count |
| Overlap.DiagonalEntry | gamba/tests.py:304-321 | KeyError for a missing label; ZeroDivisionError exactly when no row has the label; otherwise "k (p)" for the exclusive count over the label's count |
| Overlap.DiagonalEntries | gamba/tests.py:303-321 | one such entry per label, or the first error |
| Overlap.LeftSide | gamba/tests.py:323-328 | a square frame with the diagonal entries and "-" everywhere else |
| Overlap.ReplaceAll | gamba/tests.py:328 | replaces exactly the cells equal to the target and leaves the rest |
| Overlap.FloatText | gamba/tests.py:324 | `str` of a float count ends in ".0" |
| Overlap.FloatTextZero | gamba/tests.py:395 | only a zero count renders as "0.0" |
| Overlap.ReplacedFloatText | gamba/tests.py:395 | replacing "0.0" by "-" blanks exactly the zero counts |
| Overlap.ParseFloatTextOf | gamba/tests.py:404 | `float` parses a rendered count back to the count |
| Overlap.ParseFloatTextOfShare | gamba/tests.py:402-410 | `float` rejects an entry "k (p)" |
| Overlap.Pairs | gamba/tests.py:338-340 | every pair (i, j) has i < j < n |
| Overlap.PairsSize | gamba/tests.py:338-340 | there are n(n−1)/2 pairs, and that equals n only for n = 0 or 3 |
| Overlap.PairsOfThree | gamba/tests.py:338-340 | three labels give the pairs (0,1), (0,2), (1,2) |
| Overlap.IndexOfDistinct | gamba/tests.py:343-344 | `labels.index` of a label that occurs once is its position |
| Overlap.Combinations | gamba/tests.py:336-346 | the pair loop lists the pairs in order with the cell position written for each |
| Overlap.PositionsOfThree | gamba/tests.py:341-346 | three distinct labels write their pairs at (0,0), (0,1) and (1,2) |
| Overlap.PositionsInRange | gamba/tests.py:341-346 | every written position is inside the pair matrix, after Python's negative-index wrap |
| Overlap.OnlyPairByFilters | gamba/tests.py:352-365 | the rows with both labels, filtered by each other label being 0, are exactly the rows with that pair only |
| Overlap.PairEntry | gamba/tests.py:351-370 | a pair's exclusive count and its percentage over the rows with the first label |
| Overlap.PairCounts | gamba/tests.py:349-370 | the counts and percentages of every pair, in pair order |
| Overlap.WrittenAt | gamba/tests.py:374-377 | a cell holds the value of the last pair written to it |
| Overlap.WrittenNowhere | gamba/tests.py:373-377 | a cell no pair writes stays 0 |
| Overlap.PairMatrix | gamba/tests.py:373-377 | the zero matrix with each pair's count written at its position |
| Overlap.FloatTexts | gamba/tests.py:394 | `applymap(str)` renders every count as float text |
| Overlap.AddPercentages | gamba/tests.py:400-410 | cells no pair writes are unchanged; with distinct positions each pair's cell gains its percentage unless it is "-" |
| Overlap.AnnotatedDash | gamba/tests.py:402-410 | a "-" cell stays "-", because `float("-")` fails |
| Overlap.AnnotatedCount | gamba/tests.py:403-408 | a count cell becomes "count (round(percentage))" |
| Overlap.PairFrame | gamba/tests.py:373-410 | the pair frame: "-" where nothing was written, the annotated count where a pair was |
| Overlap.RightSide | gamba/tests.py:336-410 | its cells for each pair: "-" for a zero count, otherwise "count (pct)" over the rows with the pair's first label |
| Overlap.RightOfThree | gamba/tests.py:373-410 | for three distinct labels the pair frame, cell by cell |
| Overlap.AllLabelsByFilters | gamba/tests.py:386-392 | filtering the rows with the first label by each later label being 1 keeps exactly the rows with all labels |
| Overlap.AllLabelsEntry | gamba/tests.py:386-425 | "all labels" is the all-label count and its share of the rows with the first label |
| Overlap.OverlapColumns | gamba/tests.py:330-414 | n `_only` columns, one column per pair, and "all labels" |
| Overlap.ColumnsOfThree | gamba/tests.py:381-414 | the seven column names for three labels |
| Overlap.Joined | gamba/tests.py:427 | the concatenation: each label's row holds its left cells, then its pair cells, then the all-labels entry |
| Overlap.Frames | gamba/tests.py:323-410 | the left side cell by cell; for three distinct labels the right side cell by cell |
| Overlap.OverlapRows | gamba/tests.py:412-427 | joining those cells under the labels gives the three-label table |
| Overlap.LabelOverlapTable | gamba/tests.py:303-429 | KeyError for a missing label, ZeroDivisionError when a label has no rows, IndexError for no labels, a length mismatch unless there are exactly three labels; on success the full three-label table |
| Tests.MeasureNames | gamba/tests.py:21 | the measure names are the columns after the first, in order |
| Tests.DescriptiveTable | gamba/tests.py:21-48 | fails on the first non-numeric measure; otherwise one row per measure, in table order, with its mean and median |
| Tests.SummaryWithin | gamba/tests.py:28-30 | mean and median are numbers exactly for a non-empty column and lie within its bounds |
| Seqs.MedianIsFiftiethPercentile | gamba/tests.py:30 | the median is the 50th linear percentile |
| Seqs.MedianBounds | gamba/tests.py:30 | the median lies between minimum and maximum |
| Tests.Significance | gamba/tests.py:202-209 | "**" exactly when p < 0.01, "*" exactly when 0.01 ≤ p < 0.05, an unmarked value otherwise; the shown value is within 0.005 of the coefficient |
| Text.Round2 | gamba/tests.py:205 | `round(x, 2)` lies within 0.005 of x |
| Tests.StarsMonotone | gamba/tests.py:204-209 | a smaller p-value never gets fewer stars, and there are at most two |
| Tests.Formatted | gamba/tests.py:177-209 | "-" on the diagonal, "" above it, "" for a zero coefficient below it, the marked value otherwise |
| Tests.StrictLower | gamba/tests.py:177 | `np.tril(m, -1)` keeps the strict lower triangle and zeroes the rest |
| Tests.Elements | gamba/tests.py:183 | the frame holds the matrix's numbers |
| Tests.ReplaceZeros | gamba/tests.py:187 | replaces exactly the zero cells with "" |
| Tests.FillDiagonal | gamba/tests.py:188 | writes "-" on the diagonal and nothing else |
| Tests.Clean | gamba/tests.py:193-209 | each cleaned cell is the cell's formatting with its p-value |
| Tests.SignificanceTable | gamba/tests.py:173-213 | the whole pipeline gives the formatted cell at every position |
| Tests.SuffixedDistinct | gamba/tests.py:445 | appending "_2" keeps the names distinct |
| Tests.CombinedNamesDistinct | gamba/tests.py:444-446 | t1's names followed by t2's suffixed names are distinct when t1's names carry no "_2" suffix |
| Tests.Find | gamba/tests.py:446 | the first position of a key, or none exactly when the key is absent |
| Tests.Missing | gamba/tests.py:446 | a key absent from t2 gets an all-nan row |
| Tests.LookupCells | gamba/tests.py:446 | a present key gets the cells of a row with that key, an absent one the nan row |
| Tests.Lookup | gamba/tests.py:446 | one row per requested key, in the requested order |
| Tests.Reindex | gamba/tests.py:446 | a duplicate index fails unless it already equals the target; otherwise the rows follow the target keys |
| Tests.Beside | gamba/tests.py:446 | the columns of the left frame then the right one, row by row |
| Tests.AddTables | gamba/tests.py:444-447 | for any frames with one cell per column (repeated column names allowed), renames t2's columns with "_2" in place when asked, keeping distinct names distinct; the result is t1 beside t2 reindexed to t1's index, or the reindex error |
| Plots.DendrogramCounts | gamba/plots.py:327-336 | IndexError exactly when a child refers past the merges; otherwise counts[i] = Σ over both children of 1 for a sample, the count recorded so far for a merge |
| Plots.CountedOfEarlier | gamba/plots.py:329-336 | when children refer only to earlier merges, a merge's count is the sum of its children's leaf counts |
| Plots.CountsAtLeastTwo | gamba/plots.py:329-336 | then every merge covers at least two leaves |
| Plots.TreeSize | gamba/plots.py:327-329 | a merge tree over n samples has n − 1 merges |
| Plots.RootWeight | gamba/plots.py:329-336 | an additive weight that gives 1 to each sample gives n to the last merge of a tree |
| Plots.LastMergeCountsAll | gamba/plots.py:326-336 | the last of the n − 1 merges counts all n samples |
| Plots.Centiles | gamba/plots.py:54-58 | percentiles 1..100, or 5, 10, …, 95 then 96..100 (24 entries), strictly ascending within (0, 100] |
| Plots.BucketMeans | gamba/plots.py:60-71 | one mean per percentile, each over the values between the previous cutoff (0 at first) and its own cutoff, 0 for an empty bucket |
| Plots.CentileMeans | gamba/plots.py:50-71 | IndexError for an empty measure, otherwise the bucket means for the chosen percentiles |
| Plots.InBucket | gamba/plots.py:64 | a value is in a bucket exactly when previous_cutoff ≤ value < cutoff |
| Plots.BucketsDisjoint | gamba/plots.py:60-65 | no value lies in two buckets |
| Plots.MaximumInNoBucket | gamba/plots.py:62-64 | the maximum lies in no bucket |
| Plots.LowValueInNoBucket | gamba/plots.py:60-64 | a negative value below the first cutoff lies in no bucket |
| Plots.NegativeValueInBucket | gamba/plots.py:60-64 | but a negative value can lie in a later bucket: for [−1, −1, 5] it lies in the 51st |
| Plots.BalanceStep | gamba/plots.py:188-201 | each bet moves the running balance by its own move |
| Plots.CareerStrokes | gamba/plots.py:181-201 | one stroke per bet, from the balance before it to the balance after it, starting at 0 |
| Plots.StrokeDirection | gamba/plots.py:192-199 | a losing bet moves the balance down by its stake, any other bet moves it up by its payout |
| Plots.FinalBalanceIgnoresOrder | gamba/plots.py:181-201 | the final balance does not depend on the order of the bets |
| Plots.TotalOfCounts | gamba/plots.py:366 | the sizes listed per id add up to the total count over those ids |
| Plots.ClusterSizes | gamba/plots.py:365-366 | one size per distinct label, each that label's count and at least 1, adding up to the number of samples |
| Clustering.Clustered | gamba/clustering.py:57-58 | the copy has the same rows and keys, a `cluster` column holding the labels, and every other column unchanged |
| Clustering.RangeLength | gamba/clustering.py:120 | `range(min, max + 1)` has max − min + 1 entries, none when max < min |
| Clustering.KMeansRange | gamba/clustering.py:117-125 | one inertia and one silhouette per cluster count, from min to max in ascending order |
| Clustering.EnsembleRuns | gamba/clustering.py:152-161 | one score list per run, entry c of run x being that run's score for min + c clusters |
| Clustering.RunFits | gamba/clustering.py:156-159 | one fit per run, each run's result for the same cluster count |
| Clustering.Inertias | gamba/clustering.py:167 | the inertia of every run, in run order |
| Clustering.Silhouettes | gamba/clustering.py:170-172 | the silhouette of every run, in run order |
| Clustering.KMeansEnsemble | gamba/machine_learning.py:155-178 | IndexError exactly when there are no runs; otherwise entry c is the mean over the runs of each run's entry c |
| Clustering.EnsembleWithinRuns | gamba/clustering.py:166-168 | an ensemble mean lies within the bounds of the runs' scores |
| Clustering.EnsembleOfEqualRuns | gamba/clustering.py:166-173 | identical runs average to that run's scores |
| Clustering.Members | gamba/clustering.py:225-227 | the members are exactly the rows whose `cluster_col` cell equals the value |
| Clustering.Centroid | gamba/clustering.py:228 | fails on the first non-numeric column; otherwise the mean of each column after the first over the members |
| Clustering.EmptyCentroid | gamba/clustering.py:228 | a cluster without members has a nan centroid |
| Clustering.HeaderInjective | gamba/clustering.py:229 | "n=<size>" names are equal exactly when the sizes are |
| Clustering.Headers | gamba/clustering.py:229 | one "n=<size>" name per cluster, its size being the cluster's row count |
| Text.NatToStringInjective | gamba/clustering.py:229 | `str` of distinct sizes gives distinct text |
| Clustering.Start | gamba/clustering.py:221-222 | the empty table has one row per column after the first, keyed by its name |
| Clustering.Extend | gamba/clustering.py:224-229 | adding one cluster's column keeps the rows and their keys |
| Clustering.Describe | gamba/clustering.py:221-231 | the built table keeps one row per measure, keyed by name |
| Clustering.DescribeSnoc | gamba/clustering.py:224-229 | one more cluster is one more Extend step |
| Clustering.FailurePersists | gamba/clustering.py:224-229 | once a cluster's centroid fails, the whole description fails with that error |
| Clustering.DescribeClusters | gamba/machine_learning.py:226-239 | KeyError without `cluster`; otherwise the distinct values come from `cluster` whatever `cluster_col` is, and the result is the column-by-column description |
| Clustering.ColumnsMembers | gamba/clustering.py:229 | assigning columns by name keeps exactly the names assigned |
| Clustering.ColumnsOfDistinct | gamba/clustering.py:229 | with distinct names the columns appear in assignment order |
| Clustering.DescribeNames | gamba/clustering.py:224-229 | the result's columns are the "n=<size>" names, each at its first assignment |
| Clustering.DescribeHeaders | gamba/clustering.py:224-229 | every cluster's "n=<size>" is a column, and every column is some cluster's |
| Clustering.DescribeLast | gamba/clustering.py:224-229 | the last cluster's column is assigned over the description of the earlier ones |
| Clustering.LastWriterWins | gamba/machine_learning.py:232-237 | a column holds the centroid of the last cluster of that size, so equal-sized clusters overwrite |
| Clustering.ColumnPerCluster | gamba/clustering.py:224-229 | with distinct sizes there is exactly one column per cluster, in iteration order |
| MachineLearning.OddsRatio | gamba/machine_learning.py:526-528 | 0 when fp or fn is 0; otherwise odds × fp·fn = tp·tn; never negative |
| MachineLearning.OddsRatioSymmetric | gamba/machine_learning.py:526-528 | swapping the positive class leaves the odds ratio unchanged |
| MachineLearning.OddsRatioAboveOne | gamba/machine_learning.py:528 | where defined, the odds ratio exceeds 1 exactly when tp·tn > fp·fn |
| MachineLearning.Precision | gamba/machine_learning.py:531 | nan exactly when tp + fp = 0; otherwise precision × (tp + fp) = tp, within [0, 1], and 1 exactly when fp = 0 |
| MachineLearning.PrecisionFalls | gamba/machine_learning.py:531 | more false positives never raise precision |
| MachineLearning.RegressionLabels | gamba/machine_learning.py:346-347 | 0 exactly for outputs below 0.5, 1 exactly for the rest |
| MachineLearning.ProbabilityLabels | gamba/machine_learning.py:274 | 1 exactly for probabilities of at least 0.5, 0 for the rest |
| MachineLearning.CutoffsAgree | gamba/machine_learning.py:456-457 | the `< 0.5 → 0` and `>= 0.5 → 1` thresholds label every finite output alike |
| MachineLearning.LabelsMonotone | gamba/machine_learning.py:346-347 | a larger output never gets the smaller label |
| MachineLearning.OutlierLabels | gamba/machine_learning.py:416 | 1 exactly for negative predictions, 0 for the rest |
| MachineLearning.OutlierFlip | gamba/machine_learning.py:415-416 | on the SVM's −1/+1 outputs the label is (1 − prediction) / 2 |

## Left out

- Reading and writing files (`gamba/data.py`, `to_csv` in the builders), and the `print`, `tqdm` and `display` output. `clustering.describe_clusters` displays its table and returns None. The model returns the table, as the copy in `gamba/machine_learning.py` does.
- Model fitting and the library statistics are inputs or parameters, never computed:
  - KMeans, AgglomerativeClustering, the GLM, the SVMs and the random forests
  - the silhouette score
  - Spearman's r and the Kolmogorov–Smirnov tests
  - `classification_report`, ROC and AUC, and so sensitivity, specificity, accuracy and AUC in `compute_performance`
  - `zscore`, `split_measures_table`'s random sampling, `cohens_d`
  - the std and iqr columns of `descriptive_table`
- Measures.FirstMonthStatistic: `variability_daily` (a standard deviation) and `trajectory_daily` (a regression slope) take the statistic as a parameter, so only the window and the error order are stated.
- Measures.IntensityDaily: states the error cases and that the result is a number; its value is bounded by IntensityBounds rather than restated.
- Floating point is not modelled. Amounts and ratios are exact reals, so there is no rounding error, no inf arithmetic and no NaN propagation; in particular a NaN model output, which `np.where(x < 0.5, 0, 1)` labels 1 and `np.where(x >= 0.5, 1, 0)` labels 0, has no counterpart in MachineLearning.CutoffsAgree. A division by zero of numpy scalars is the single value `NonFinite`.
- pandas' NaN-skipping means and medians: a column holding non-numbers gives `NotNumeric` in the model, where pandas would skip or raise depending on the type.
- Labels.GetLabelledGroups: a label column holding strings fails with `NotNumeric` in the model; the source sorts the distinct strings and returns one group per string, and the model orders only numeric labels.
- Tests.SignificanceTable: the row and column labels of the output frame are not modelled, nor the ValueError that `pd.DataFrame(coef_as_matrix, columns=labels, index=labels)` raises in `calculate_walker_matrix` when the number of labels differs from the number of tables (`gamba/tests.py:256`).
- Clustering.KMeansRange: `fit` is total, so every cluster count in `range(min_clusters, max_clusters + 1)` gets an inertia and a silhouette. The ValueErrors of the library calls at `gamba/clustering.py:48-53` are not modelled: `KMeans` rejects a count below 1 or above the number of samples, and `silhouette_score` needs between 2 and n_samples − 1 clusters. For example, `min_clusters=1` raises in the source but yields two full lists in the model.
- Clustering.EnsembleRuns: built on the same total `fit`, so it drops the same library ValueErrors for every run.
- Clustering.KMeansEnsemble: the only error it states is the IndexError for no runs. The library ValueErrors of each run's `k_means_range` call, which the source raises before any averaging, are dropped as for Clustering.KMeansRange.
- Tests.Significance: `round(x, 2)` is `Text.Round2`, exact half-even rounding of 100·x over the reals, divided by 100. Binary floating point and Python's float-to-string conversion are not modelled, so the two can differ: Python gives `round(2.675, 2) == 2.67` because 2.675 is stored just below itself, where the model gives 2.68. The marker is a separate field, not text appended to the digits.
- The `compute_performance` metrics frame and its rounding to three decimals, and the ravel of a confusion matrix.
- MachineLearning.OddsRatio: the four cells are inputs, so the error numpy raises when the predictions hold only one class (a 1×1 matrix) is not modelled.
- Overlap.LabelOverlapTable: for three labels with a repeated label, the pair cells are not stated (only the names, keys, diagonal and "all labels" cells). The positions `labels.index` produces then collide.
- Overlap.Frames: the right side is stated cell by cell only for three distinct labels, the only case in which the table is returned.
- Overlap.LeftSide: the repeated labels of `np.fill_diagonal` on a numpy view are modelled as an ordinary write to the frame's own cells.
- The builder copies in `gamba/measures.py` (`calculate_labrie_measures` and `calculate_braverman_measures`) cannot run: the local lists shadow the measure functions and `tqdm` is not imported. The builders are modelled from `gamba/studies.py`.
- `standardise_measures_table`, `spending_portions`, `color_matrix`, the radar, pair-plot, histogram and split-career plots: they are library calls or drawing, and several reference undefined names.
- The drawing in every plot function: bar positions, tick labels, colours, the linkage matrix handed to scipy, and the dendrogram distances.
- `payout_time` is read by `plot_player_career` but not used by the balance, so it is not a field of the model's bet.
- Python's integer types are unbounded like Dafny's; numpy's fixed-width counters in `counts` are modelled as unbounded naturals.
