# Verified model of the flight-delay decision core

The flight-delay service predicts whether a scheduled flight arrives late. What may be published is decided by a
small amount of exact logic around the learned models: which rows are sampled, which history a feature may see,
which threshold is chosen, which gates pass, which files may be written once, and what the event table may hold.
This project models that logic in Dafny and proves what it promises, for all inputs and over all runs.

Counts and dates are integers, scores and rates are exact reals, and content digests are injective. Random draws,
fitted models, failures and crashes are arbitrary.

| files | part of the system |
|---|---|
| `Sampling`, `MonthlySample` | stratified monthly sample: allocation of rows to strata, in place |
| `Observations`, `ThresholdSweep`, `ThresholdChoice`, `NovemberGates` | labelled scores, one-pass threshold sweep, choice of the operating point, gates and winner |
| `CalibrationBins`, `Calibration` | bin edges and the calibration errors accumulated over them |
| `Calendar`, `Seasonal` | Gregorian ordinals, holiday anchors, scalar and vectorized distances |
| `HistoryTables`, `HistoricalState`, `ServingTransform`, `TrainingTransform`, `FeatureMeaning`, `StateSerialization` | propensity tables, states, features, training loop, what the features say of the history, stored form |
| `GovernedExecution`, `GovernedRuns`, `GovernedSafety` | one-time development run and December qualification over a file workspace |
| `FinalTest` | one-time final test run by many processes |
| `EventStore`, `DynamoValues` | predictions, feedback revisions and stored values |
| `Promotion` | promotion gates, comparator and selection |
| `Counting`, `Ordering`, `Lexicographic`, `Arithmetic`, `Options` | shared vocabulary |

`dafny verify dfyconfig.toml` checks everything.

Five promises do not hold as they are usually put; each is shown by an input and replaced by its exact condition:

- The allocation keeps the quota rule exactly when nothing is raised, or when the raised rows fit into those lost by
  rounding and every raised stratum with a second row has at least as many open strata ranked ahead of it as rows
  remain (`Sampling.QuotaRuleExactly`, `Sampling.QuotaRuleCanFail`).
- The selector returns nothing although a real threshold is eligible exactly when there is no floor and the rate
  limit lies below the share of the highest score (`ThresholdChoice.MissesExactly`,
  `ThresholdChoice.SelectionCanMiss`).
- A completed marker, of development and of qualification alike, can still turn to failed: exactly when an
  undisturbed run raises while removing the temporary file of its last write and the failure mark can be written
  (`GovernedRuns.DevelopmentAppendsAPrefix`, `GovernedSafety.CompletedMarkerCanFail`;
  `GovernedRuns.DecemberAppendsAPrefix`, `GovernedSafety.CompletedQualificationCanFail`).
- The final test evaluates the bundle that the lock names under every interleaving exactly when the staging alias
  resolves to that bundle for all processes or for none: they share one download directory, which a process that
  will be refused still empties and refills (`FinalTest.EvaluatesTheLockedExactly`).
- The promotion comparator is a total order exactly when no two candidates clash, and it puts an incumbent before
  itself (`Promotion.TotalOrderExactly`, `Promotion.TwoIncumbentsClash`).

## Model

| member | source | states |
|---|---|---|
| Sampling.ShareIsDivision | src/flight_delay/data/sampling.py:12-13 | the whole part and the fraction of a stratum's ideal share are the quotient and remainder of count times cap by the total |
| Sampling.AllocationIsExact | src/flight_delay/data/sampling.py:11-28 | the result sums to the cap, no stratum gets more rows than it has, and every stratum gets one when the cap has room for all |
| Sampling.AllocationInClosedForm | src/flight_delay/data/sampling.py:14-28 | either the bump overshoots and shrinking ends the allocation, or each served stratum gets exactly one row more than its raised floor |
| Sampling.OnePassIsEnough | src/flight_delay/data/sampling.py:20-27 | the repeated key list is never needed: the first pass of the refill exhausts the remainder |
| Sampling.ServedExactly | src/flight_delay/data/sampling.py:19-27 | the refill serves a stratum if and only if it has a row to give and fewer such strata rank ahead of it, by fraction and then place, than rows are left over |
| Sampling.QuotaRuleExactly | src/flight_delay/data/sampling.py:12-28 | every allocation is the floor or the ceiling of its ideal share if and only if a condition on counts, shares and ranks holds that can be checked before allocating |
| Sampling.QuotaRuleCanFail | src/flight_delay/data/sampling.py:14-27 | a stratum of ideal share 0.9 can end with two rows |
| Sampling.LargestRemainders | src/flight_delay/data/sampling.py:21-27 | when nothing was raised, a stratum rounded up has a larger fraction than one rounded down, or the same fraction and an earlier place |
| Sampling.AllocationExplained | src/flight_delay/data/sampling.py:11-28 | the whole allocation of counts and cap alone: raised shares beyond the cap are cut down from the top to one level, earlier strata first; otherwise the rows left over go one each to the strata first in line by fraction and place |
| Sampling.AllocateStrata | src/flight_delay/data/sampling.py:11-28 | the in-place run over one array, shrink and refill loops included, terminates with the specified allocation |
| MonthlySample.StrataPartitionTheMonth | src/flight_delay/data/sampling.py:67-68 | strata are distinct, non-empty and add up to the month, so the allocation is always asked for valid counts |
| MonthlySample.StrataByFirstAppearance | src/flight_delay/data/sampling.py:67-68 | strata are allotted in the order in which they first appear among the month's rows |
| MonthlySample.DeterministicMonthlySample | src/flight_delay/data/sampling.py:31-77 | whole small months, exactly the cap from larger ones, the allotted number from every stratum, original order; refused exactly for the first of four problems: no date column, a cap that is not positive, no stratum column, an invalid date |
| ThresholdSweep.GroupEnds | src/flight_delay/modeling/v1_selection.py:114-117 | the ends cut the sorted scores into maximal runs of equal scores |
| ThresholdSweep.ClosedFormOfFMeasure | src/flight_delay/modeling/v1_selection.py:128-130 | twice the hits over positives plus predicted is the harmonic mean of precision and recall |
| ThresholdSweep.SweepTable | src/flight_delay/modeling/v1_selection.py:107-146 | the sort, cumulate and group pass yields one row per distinct score, high to low, each equal to rescanning every observation |
| ThresholdSweep.SweptRowIsRescanned | src/flight_delay/modeling/v1_selection.py:122-145 | one iteration's counters give the rescanned row of that run's score |
| ThresholdSweep.RowSaysTheCounts | src/flight_delay/modeling/v1_selection.py:122-145 | each number of a row, times what it is a share of, gives the count it is named after, F1 included; precision is zero when nothing is predicted; eligible means within all three limits |
| ThresholdSweep.TableIsUnique | src/flight_delay/modeling/v1_selection.py:107-150 | permuting the (label, score) pairs does not change the table |
| ThresholdChoice.ChoiceIsOptimal | src/flight_delay/modeling/v1_selection.py:153-169 | the choice is the eligible row with the highest F1; on a tie the highest precision, then recall, then the lowest rate, the threshold nearest one half, the highest threshold; missing only without an eligible row |
| ThresholdChoice.EligibleRowsDiffer | src/flight_delay/modeling/v1_selection.py:126-143 | with a positive recall floor two eligible rows of a table never agree on precision and recall |
| ThresholdChoice.OptimumIsUnique | src/flight_delay/modeling/v1_selection.py:153-169 | an eligible row preferred to all others in these six comparisons is the chosen one |
| ThresholdChoice.SelectionIsComplete | src/flight_delay/modeling/v1_selection.py:127-169 | a real threshold, observed or not, is eligible if and only if one is selected or predicting nothing is allowed |
| ThresholdChoice.MissesExactly | src/flight_delay/modeling/v1_selection.py:127-169 | nothing is selected although a real threshold is eligible if and only if neither floor is positive and the rate limit is not negative but below the share of rows at the highest score |
| ThresholdChoice.SelectionCanMiss | src/flight_delay/modeling/v1_selection.py:153-169 | on two tied scores with no floors and a rate limit of one quarter nothing is selected, while a threshold of one is eligible |
| ThresholdChoice.SelectV1Threshold | src/flight_delay/modeling/v1_selection.py:97-169 | refuses exactly the malformed vectors and otherwise returns the table and the eligible row preferred to all others in the six comparisons |
| ThresholdChoice.SearchPoint | src/flight_delay/modeling/v2/selection.py:46-75 | the rescanning search computes the same rows, the eligible one preferred by precision, recall, rate, distance from one half and threshold, and the best F1 under the rate limit |
| ThresholdChoice.SelectorAgreesWithSearch | src/flight_delay/modeling/v2/selection.py:46-75 | the sweep selects if and only if the search's best precision reaches the floor, and never with a better F1 than the search reports |
| NovemberGates.PriorBrierIsVariance | src/flight_delay/modeling/v1_selection.py:71-74 | the Brier score of the constant prior is prevalence times its complement, and positive |
| NovemberGates.BrierMetricsMean | src/flight_delay/modeling/v1_selection.py:71-91 | prevalence counts the positives; the Brier score follows from the second moment of the scores, the scores of the positives and their number; skill is the share of the prior's error that is missing |
| NovemberGates.BrierGatesAgree | src/flight_delay/modeling/v1_selection.py:243-254 | positive Brier skill and a Brier score below the prior are the same condition |
| NovemberGates.OperatingPointGates | src/flight_delay/modeling/v1_selection.py:287-297 | the loop appends the four named gates in order, each with its own comparison, and all pass exactly when all four limits hold |
| NovemberGates.EligiblePassesOperatingGates | src/flight_delay/modeling/v1_protocol.py:101-140 | an eligible threshold under the locked limits has F1 of at least 0.40, above its 0.38 gate, and passes all four gates |
| NovemberGates.WinnerIsLeastPassing | src/flight_delay/modeling/v3/selection.py:291-309 | the winner passed every gate and is preferred to all others that did: precision, average precision and ROC AUC high, log loss and Brier score low, F1 high, rate low, id first in the dictionary |
| NovemberGates.WinnerIgnoresOrder | src/flight_delay/modeling/v3/selection.py:291-309 | with distinct ids the winner does not depend on the order of the finalists, and none means that none passed |
| NovemberGates.RankedFamily | src/flight_delay/modeling/v3/selection.py:71-113 | an accepted advancement ranks the whole family, unique and completed, for the seven statistics of v2 and the eight of v3 |
| NovemberGates.AdvancedAreTheBest | src/flight_delay/modeling/v2/selection.py:126-157 | everybody advanced is preferred to everybody left behind, statistic by statistic in the order of either generation, the id last |
| NovemberGates.AdvancedAreRanked | src/flight_delay/modeling/v3/selection.py:71-113 | the advanced candidates are as many as asked for, each preferred to those after it |
| CalibrationBins.QuantileDividesNeighbours | src/flight_delay/modeling/calibration.py:144-147 | a quantile edge divides the way between two neighbouring sorted scores in the ratio of the remainder, or is a score itself |
| CalibrationBins.FrequencyEdgesAreQuantiles | src/flight_delay/modeling/calibration.py:144-147 | the equal-frequency edges are exactly the quantiles of the sorted scores, ascending, each once, and only a single one is doubled |
| CalibrationBins.WidthEdgesAreEven | src/flight_delay/modeling/calibration.py:140-143 | the equal-width edges divide the unit interval evenly |
| CalibrationBins.EveryRowIsInItsBin | src/flight_delay/modeling/calibration.py:140-147 | a score lies in the interval of a bin if and only if it is assigned to that bin |
| CalibrationBins.BinsFollowScores | src/flight_delay/modeling/calibration.py:140-147 | bins are ordered as scores are, so equal scores are never divided |
| Calibration.BinsPartition | src/flight_delay/modeling/calibration.py:153-155 | the bins' counts and residuals add up to those of the data |
| Calibration.GapEceMceChain | src/flight_delay/modeling/calibration.py:119-179 | for any assignment to bins: mean gap, ECE, MCE and one are in this order |
| Calibration.ErrorsAreOrdered | src/flight_delay/modeling/calibration.py:119-179 | the chain for every accepted input and both strategies |
| Calibration.CalibrationTable | src/flight_delay/modeling/calibration.py:126-179 | rejects exactly the invalid inputs; of the observations inside each interval the table lists mean score, share of positives and their distance, the ECE is the total miss of the bins per observation, the MCE the largest miss per row of a bin; and the chain holds |
| Calibration.TableListsEveryRow | src/flight_delay/modeling/calibration.py:156-178 | the counts in the table add up to the data set although empty bins may be skipped |
| Calendar.DaysBeforeYearInClosedForm | src/flight_delay/modeling/v3/seasonal.py:35-37 | counting leap years year by year gives the calendar's closed form, on which every anchor rests |
| Calendar.DaysBeforeMonthInClosedForm | src/flight_delay/modeling/v3/seasonal.py:126-126 | the days before a month follow one formula of calendar arithmetic, leap years included |
| Calendar.OrdinalsFollowTheCalendar | src/flight_delay/modeling/v3/seasonal.py:126-126 | day ordinals order dates as year, month and day do, and are injective |
| Seasonal.ThanksgivingIsTheFourthThursday | src/flight_delay/modeling/v3/seasonal.py:32-37 | the computed day is a Thursday dated 22 to 28 November with exactly four Thursdays up to it |
| Seasonal.ThanksgivingSpacing | src/flight_delay/modeling/v3/seasonal.py:32-37 | consecutive ones are 364 or 371 days apart |
| Seasonal.NearestSignedDelta | src/flight_delay/modeling/v3/seasonal.py:46-61 | the loop returns the delta of the first nearest anchor |
| Seasonal.NearestOfAllYears | src/flight_delay/modeling/v3/seasonal.py:82-87 | no year's anchor at all is nearer than the nearest of the three, and ties went to the earlier |
| Seasonal.ArgMinIsNearest | src/flight_delay/modeling/v3/seasonal.py:111-116 | the vectorized choice by first minimum is the scalar one |
| Seasonal.AnchorColumns | src/flight_delay/modeling/v3/seasonal.py:98-108 | the lookup built between the extreme years never misses a key and returns each row's three anchors |
| Seasonal.SeasonalFeaturesForDate | src/flight_delay/modeling/v3/seasonal.py:74-95 | the scalar features, refused only for a year without a neighbouring anchor; a single timestamp holds every calendar date |
| Seasonal.WindowsShowInDistances | src/flight_delay/modeling/v3/seasonal.py:64-71 | clipping keeps every distance within thirty days, and both window flags can be read off the clipped distances |
| Seasonal.SeasonalFeaturesMean | src/flight_delay/modeling/v3/seasonal.py:64-95 | the turn is the share of the year's days that have passed; the distances lead, clipped at thirty days, to the nearest fourth Thursday of November and the nearest 25 December of any year, the earlier of two; the flags say whether they lie within the windows |
| Seasonal.DeriveSeasonalFeatures | src/flight_delay/modeling/v3/seasonal.py:119-153 | the batch features equal the scalar ones row for row, refused exactly for no rows, an invalid date or one outside the range of nanosecond timestamps |
| Seasonal.SeasonalFeaturesAreUnique | src/flight_delay/modeling/v3/seasonal.py:74-95 | a date has only one set of seasonal features |
| HistoryTables.AggregateByGroup | src/flight_delay/modeling/v2/features.py:250-256 | the dictionary filled group by group maps every occurring key to its size and positives |
| HistoryTables.TableCountsAreValid | src/flight_delay/modeling/v2/features.py:250-256 | every entry has at least one row and no more positives than rows |
| HistoryTables.TableIgnoresRowOrder | src/flight_delay/modeling/v2/features.py:250-256 | a table depends on its rows only as a multiset |
| HistoryTables.CoarseIsSumOfFine | src/flight_delay/modeling/v2/features.py:31-41 | each entry of a coarser table is the total of the finer entries that project to it |
| HistoryTables.PairsAddUp | src/flight_delay/modeling/v2/features.py:36-40 | the entries of a two-entity table add up to the table of its first entity |
| HistoryTables.SeasonsAddUp | src/flight_delay/modeling/v3/features.py:204-216 | a same-calendar-month table adds up to the month over its entities and to the full table of its entity over the months |
| HistoryTables.FullTablesConserveTotals | src/flight_delay/modeling/v2/features.py:259-281 | the entries of each full table add up to the global counts |
| HistoryTables.RecentNeverExceedsFull | src/flight_delay/modeling/v2/features.py:267-280 | a trailing-window entry exists in the full table and never exceeds it |
| HistoricalState.StateIgnoresRowOrder | src/flight_delay/modeling/v3/features.py:219-239 | the built state, errors included, depends on the history only as a multiset |
| HistoricalState.BuiltStatesAreUsable | src/flight_delay/modeling/v3/features.py:219-239 | a built state ends at its cutoff, has all tables, valid counts and the fixed strength |
| HistoricalState.BuildRefusesExactly | src/flight_delay/modeling/v2/features.py:259-281 | a state is refused exactly for no rows, an invalid row in any column, a label after the cutoff or an empty trailing window |
| HistoricalState.LookupIsGroupCounts | src/flight_delay/modeling/v2/features.py:293-297 | a lookup finds a group's counts, and nothing exactly when the group is empty |
| HistoricalState.SmoothedIsDirect | src/flight_delay/modeling/v2/features.py:284-290 | the fallback for an unseen key is the smoothing formula at zero counts, so one formula covers both |
| HistoricalState.SmoothedSolves | src/flight_delay/modeling/v2/features.py:284-290 | a looked-up rate times the group's size and fifty more equals the group's delays and fifty times the global rate, for seen and unseen groups |
| HistoricalState.SmoothedIsBetween | src/flight_delay/modeling/v2/features.py:284-290 | a smoothed rate lies between the group's own rate and the global rate |
| ServingTransform.TransformOneRow | src/flight_delay/modeling/v3/features.py:251-291 | one row's features, refused exactly for its own year in the state or a year without anchors |
| ServingTransform.AlignedCounts | src/flight_delay/modeling/v3/features.py:294-327 | reshaping a table in any dictionary order and aligning it to keys finds what the lookup finds |
| ServingTransform.BaseHistoricalFrame | src/flight_delay/modeling/v3/features.py:342-400 | every row assembled from the seventeen columns is that flight's serving row |
| ServingTransform.SeasonalHistoricalFrame | src/flight_delay/modeling/v3/features.py:403-429 | the five columns equal the per-row lookups, refused exactly when some row's own year is in the state |
| ServingTransform.TransformBatch | src/flight_delay/modeling/v3/features.py:432-459 | succeeds exactly when the rows are valid, the state ends before every row's month and every row is servable, and then equals the serving transform row for row |
| ServingTransform.FeaturesAreUnique | src/flight_delay/modeling/v3/features.py:280-291 | a flight and a state determine the features, so the two paths agree |
| ServingTransform.EveryRateIsTempered | src/flight_delay/modeling/v2/features.py:284-290 | every rate served from any table lies between the group's rate and the global rate, or is the global rate when the group is unseen |
| ServingTransform.FeaturesAreDirect | src/flight_delay/modeling/v3/features.py:219-291 | features served from a built state are rates and counts read off the history itself, without tables |
| FeatureMeaning.ServedFeaturesMean | src/flight_delay/modeling/v3/features.py:219-291 | every smoothed rate of a served row solves the smoothing equation over the history flights that share exactly the named entities, in the whole history, its last three months or the calendar month; global rate and supports are their counts |
| FeatureMeaning.OwnYearIsRefusedExactly | src/flight_delay/modeling/v3/features.py:258-264 | a flight is refused for its own year if and only if the history holds its calendar month of that year or a later one |
| TrainingTransform.StateExistsExactly | src/flight_delay/modeling/v3/features.py:479-483 | before a month, the cutoff guard never fires and a state exists if and only if one of the three preceding months has a row |
| TrainingTransform.GuardsNeverFire | src/flight_delay/modeling/v3/features.py:258-264 | on the training path neither the as-of guard nor the prior-year guard can refuse a row |
| TrainingTransform.TemporalNonInterference | src/flight_delay/modeling/v3/features.py:479-487 | two runs whose histories agree before a month give its flights the same features |
| TrainingTransform.LaterLabelsAreInvisible | src/flight_delay/modeling/v2/features.py:391-398 | rewriting any labels from the month on, the row's own included, changes none of its features |
| TrainingTransform.SortBackByIndex | src/flight_delay/modeling/v3/features.py:488-490 | sorting the concatenated groups by index puts the row of index k at position k |
| TrainingTransform.TransformTrainingRows | src/flight_delay/modeling/v3/features.py:462-491 | succeeds exactly when inputs are valid, all months are in the period and each has trailing history; row i is then row i's features from the state before its month, beside its own label and date |
| FeatureMeaning.TrainingRowMeans | src/flight_delay/modeling/v3/features.py:462-491 | row i has its own label and date, and its features solve their equations over the history rows of strictly earlier months, the recent ones over those of the three months before |
| FeatureMeaning.TrainableExactly | src/flight_delay/modeling/v3/features.py:462-483 | rows can be trained on if and only if inputs are valid, dates lie from February 2024 to November 2025, and each row has history one to three months before it |
| StateSerialization.TableDocumentIsCanonical | src/flight_delay/modeling/v2/features.py:78-91 | the written table does not depend on the insertion order of the dictionary |
| StateSerialization.WriteDocument | src/flight_delay/modeling/v3/features.py:101-123 | writing yields the sorted items of every table and the other fields |
| StateSerialization.DocumentIsCanonical | src/flight_delay/modeling/v3/features.py:101-136 | one state has one document |
| StateSerialization.DocumentDeterminesState | src/flight_delay/modeling/v3/features.py:135-136 | one document has one state, so a digest of it identifies the state |
| StateSerialization.ReadTable | src/flight_delay/modeling/v2/features.py:156-173 | reading refuses exactly duplicate keys and impossible counts, and otherwise rebuilds the listed table |
| StateSerialization.ReadDocument | src/flight_delay/modeling/v3/features.py:142-193 | reading accepts exactly documents with the fixed strength, the full set of tables and valid counts |
| StateSerialization.RoundTrip | src/flight_delay/modeling/v3/features.py:101-193 | a written state is read back if and only if it is restorable, and then unchanged |
| StateSerialization.BuiltStatesAreRestorable | src/flight_delay/modeling/v3/features.py:219-239 | every state the builder returns survives the round trip |
| GovernedExecution.Workspace.AtomicWrite | src/flight_delay/modeling/v3/execution.py:121-132 | nothing shows before the replacement and everything after it; a write that finishes or raises leaves no new temporary file, and a crash leaves one exactly between its creation and the replacement |
| GovernedExecution.Workspace.UpdateMarker | src/flight_delay/modeling/v3/execution.py:143-146 | read, change and replace, keeping the recorded run and decision |
| GovernedExecution.Workspace.RunDevelopment | src/flight_delay/modeling/v3/execution.py:553-668 | the run over the file tree follows the specified steps for every fault schedule |
| GovernedExecution.Workspace.ValidateHandoff | src/flight_delay/modeling/v3/execution.py:671-696 | the handoff reads a completed winner marker, an unevaluated lock and matching digests of model and state |
| GovernedExecution.Workspace.RunDecember | src/flight_delay/modeling/v3/execution.py:710-832 | the qualification over the file tree follows the specified steps for every fault schedule |
| GovernedExecution.LatestIs | src/flight_delay/modeling/v3/execution.py:121-132 | a file holds what its last replacement wrote |
| GovernedRuns.DevelopmentAppendsAPrefix | src/flight_delay/modeling/v3/execution.py:568-668 | an attempt leaves exactly the steps before its first fault and, if that raised, a failure mark; how it ends follows from its first fault; complete turns to failed in exactly one case |
| GovernedRuns.DecemberAppendsAPrefix | src/flight_delay/modeling/v3/execution.py:720-832 | the same for the qualification, with decoding and scoring among its steps: which faults leave which steps and which end, and the one case in which complete turns to failed |
| GovernedSafety.EveryLogHasAHistory | src/flight_delay/modeling/v3/execution.py:568-570 | over any sequence of attempts the log is at most one development trace of one attempt, followed by at most one December trace of a later attempt from the same code, the second only after a run that hands over |
| GovernedSafety.HandoffExactly | src/flight_delay/modeling/v3/execution.py:671-696 | a development trace hands over if and only if it came through with a winner on the October state |
| GovernedSafety.RefusingWritesOnce | src/flight_delay/modeling/v3/execution.py:121-140 | a write that refuses to replace keeps a file written at most once, whoever writes and whatever goes wrong |
| GovernedSafety.OutputsNeverChange | src/flight_delay/modeling/v3/execution.py:121-132 | between any two moments of any run, an output other than a marker keeps its content once it exists |
| GovernedSafety.AttemptsExtend | src/flight_delay/modeling/v3/execution.py:121-132 | an attempt only ever adds to the log of what happened |
| GovernedSafety.MarkersTurnOnlyForward | src/flight_delay/modeling/v3/execution.py:143-146 | markers turn from started to complete or failed, and from complete to failed only by the very next event |
| GovernedSafety.CompletedMarkerCanFail | src/flight_delay/modeling/v3/execution.py:128-132 | the one fault that turns a completed marker to failed, after which nothing is handed over |
| GovernedSafety.CompletedQualificationCanFail | src/flight_delay/modeling/v3/execution.py:804-832 | whatever winner was handed over and whatever the verdict, the same fault in the last write of the qualification turns its completed marker to failed |
| GovernedSafety.TamperingNeedsTheLock | src/flight_delay/modeling/v3/execution.py:671-696 | while the lock stands, no writes of any kind to a handed-over workspace make it hand over anything else; it hands over exactly while model and state are the old ones and the marker says completed with a winner |
| GovernedSafety.LockTamperingExactly | src/flight_delay/modeling/v3/execution.py:671-761 | a rewritten lock passes exactly when it still names the model and state on the disk and claims no evaluation; another threshold in it goes unnoticed, and December then scores with it |
| GovernedSafety.ConsistentReplacementPasses | src/flight_delay/modeling/v3/execution.py:680-696 | a model replaced together with the digest in its lock is handed over |
| GovernedSafety.EveryWriteIsExplained | src/flight_delay/modeling/v3/execution.py:568-668 | over any sequence of attempts every written content is what its own attempt came to: state, decision, model, and a lock with the winner's own threshold and digests; rows, manifest, result and completed marker of its own verdict |
| GovernedSafety.HandoffHasOneSource | src/flight_delay/modeling/v3/execution.py:635-656 | a successful handoff: one attempt decided on the winner and wrote marker, state, decision, model and lock, and the lock holds that winner's threshold, code, model and state |
| GovernedSafety.DecemberAtMostOnce | src/flight_delay/data/prepare_v3.py:283-294 | over all attempts December is decoded at most once and scored at most once |
| GovernedSafety.DecemberUsesTheFrozenWinner | src/flight_delay/modeling/v3/execution.py:746-761 | at every decoding and scoring a valid handoff stands, and the scoring uses the model, state and threshold its lock freezes |
| GovernedSafety.DecemberScoresTheNovemberWinner | src/flight_delay/modeling/v3/execution.py:501-525 | every scoring in December uses the model, the state and the threshold that an earlier development attempt from the same code came to |
| GovernedSafety.ResultFollowsItsScoring | src/flight_delay/modeling/v3/execution.py:756-812 | a qualification result stands directly behind the scoring of the run that wrote it |
| FinalTest.OneOwner | src/flight_delay/modeling/release.py:479-488 | at every moment of every interleaving the shared state is the work of a single process |
| FinalTest.OnlyOneOpens | scripts/release_model.py:218-349 | at most one process opens the test; result, finished marker and decision come only from it |
| FinalTest.ProductionOnlyAfterPassing | scripts/release_model.py:308-348 | production is linked only when all gates passed and the marker is finished over that result, and the decision reports the link truthfully |
| FinalTest.FirstOwnerForever | src/flight_delay/modeling/release.py:479-488 | once the marker exists, its creator alone may ever open and evaluate the test, all others stay before the marker, and what the creator filled stays, whatever stops where |
| FinalTest.RefusedIsFinal | scripts/release_model.py:206-249 | a process that was refused or stopped never changes anything again |
| FinalTest.EvaluatesTheLockedExactly | scripts/release_model.py:206-252 | under every interleaving the evaluated bundle is the locked one, if and only if the staging alias resolves to it for all processes or for none |
| EventStore.FeedbackIsLinear | src/flight_delay/persistence/dynamodb.py:167-196 | over every interleaving the revision is the initial one plus the accepted writes, those are numbered consecutively, the last is stored, and each judges against the one prediction |
| EventStore.NoLostUpdate | src/flight_delay/persistence/dynamodb.py:170-195 | a write is applied if and only if no other feedback on the record was accepted since its read |
| EventStore.RunGrows | services/api/app/main.py:359-379 | no step removes a record, alters a prediction or lowers a revision |
| EventStore.Repository.PutPrediction | src/flight_delay/persistence/dynamodb.py:96-107 | creates a record exactly when there is none, and otherwise changes nothing |
| EventStore.Repository.UpdateFeedback | src/flight_delay/persistence/dynamodb.py:167-196 | without interference the next revision is written to exactly this record |
| EventStore.Repository.SubmitFeedback | services/api/app/main.py:359-379 | the handler is the three client steps in a row and judges against the stored prediction |
| EventStore.FirstLoadFixesIdentity | src/flight_delay/persistence/dynamodb.py:132-165 | the first load fixes identity and first-loaded time, and the last load of that identity the last-loaded time |
| DynamoValues.RoundTripExactly | src/flight_delay/persistence/dynamodb.py:25-62 | a written value reads back unchanged if and only if it is plain at every depth, and a second trip changes nothing |
| DynamoValues.ReadBackShows | src/flight_delay/persistence/dynamodb.py:25-62 | whatever is written reads back as its own value: numbers by value and whole when they are, moments and days by their text, lists and mappings item by item and key by key |
| DynamoValues.RejectsExactly | src/flight_delay/persistence/dynamodb.py:25-50 | exactly values that are not finite, naive moments and unknown types are rejected, at any depth |
| Promotion.GateReasons | src/flight_delay/promotion/selector.py:31-51 | the reasons returned are exactly the violated gates |
| Promotion.IncumbentPrecedesItself | src/flight_delay/promotion/selector.py:83-90 | compared with itself a preferred incumbent comes first, and anybody else ties |
| Promotion.ComparesAsKeys | src/flight_delay/promotion/selector.py:68-90 | candidates that do not clash compare as values, incumbency and id in this order |
| Promotion.TotalOrderExactly | src/flight_delay/promotion/selector.py:68-90 | the comparator is a strict total order if and only if no two candidates clash |
| Promotion.DistinctIdsAreDistinguishable | src/flight_delay/promotion/selector.py:83-90 | distinct ids and at most one incumbent exclude every clash |
| Promotion.TwoIncumbentsClash | src/flight_delay/promotion/selector.py:83-87 | one incumbent version listed under two ids passes every gate twice, and each listing comes before the other |
| Promotion.InputsArePartitioned | src/flight_delay/promotion/selector.py:101-129 | every input lands in exactly one of eligible and rejected |
| Promotion.SelectCandidates | src/flight_delay/promotion/selector.py:93-175 | the ranked eligible candidates, the rejections, and one of the four outcomes |
| Promotion.RankingIgnoresInputOrder | src/flight_delay/promotion/selector.py:131-141 | ranking, winner and outcome do not depend on the listing order |
| Promotion.EligibleAreRanked | src/flight_delay/promotion/selector.py:68-90 | each eligible candidate outranks all that follow: by the first rule that tells them apart in that rule's direction, then as preferred incumbent, then by id |
| Promotion.IncumbentYieldsOnlyToBetter | src/flight_delay/promotion/selector.py:83-87 | a preferred eligible incumbent is displaced only by a candidate that the first distinguishing rule prefers |

## Left out

- Floating-point rounding, signed zero and dtype coercion: arithmetic is exact.
- Fitting and scoring by the learning libraries, average precision, ROC AUC, log loss and latency: scores and the
  statistics built on them are given values.
- NovemberGates.OperatingPointGates: the remaining gates are single comparisons with constants.
- MonthlySample.DeterministicMonthlySample: the seeded generator is an arbitrary choice of different rows; missing
  stratum values are not represented.
- Seasonal.DeriveSeasonalFeatures: sine and cosine stand as functions of the exact turn.
- ServingTransform.TransformBatch: rows come already stripped of blanks and keep the order given; a support
  feature stands for its count, without the logarithm.
- TrainingTransform.TransformTrainingRows: row labels are positions. The v2 loop, the same but for its period and
  the seasonal tables, has no copy of its own.
- StateSerialization.ReadDocument: works on the value tree; JSON text, the schema strings and the date text are not
  represented, and the order of key texts is a parameter.
- GovernedExecution.Workspace.RunDevelopment: tracking, Git and version checks and the failed stage's name are not
  represented; trouble in a computation counts as trouble in the first phase of the write that follows it.
- GovernedExecution.Workspace.ValidateHandoff: the recovery branch always refuses.
- GovernedExecution.Workspace.RunDecember: the archive and manifest checks are one possible fault before decoding;
  gate values are an arbitrary verdict.
- FinalTest.OneOwner: a process is a sequence of steps rather than one method body, because others act between them;
  a download is one bundle as a whole, and file hashes are possible stops.
- EventStore.NoLostUpdate: the HTTP layer, the prediction cache and the error records are not represented.
- DynamoValues.RoundTripExactly: mapping keys are strings, a decimal stands for its exact value, and a moment for its
  time in UTC as text.
- Promotion.SelectCandidates: a rejection carries its category, not its reason texts; parsing of raw metadata is
  an arbitrary success or failure.
- Concurrent operators on the v1, v2 and v3 markers: their check and replacement is made for one process at a time.
- Route reliability tables, training weights, archive preparation and the split boundaries: column expressions and
  plain branching that would add easy members.
- Protocol validators, feature allowlists, evidence and deployment manifests: constant comparisons.
