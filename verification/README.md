# Market-research algorithms, modelled and proved in Dafny

A model of the research algorithms in `src/dev/` of the market dashboard: the intraday stress pipeline, forward-window
benchmark returns, the bounded-concurrency map and the two resumable caches, gap segmentation, order statistics and
correlation, the five-sensor participation panel, and the transition and run accounting. One module models one source
file (or one part of a long one). Where the source updates variables, arrays or fields step by step, the model is a
method or a class proved against a function; where the source is an expression, the model is that expression.

`dafny verify dfyconfig.toml` checks everything.

Main results:

- **Stress pipeline.** From any bars and any ATR: once the sessions measure without error, the comparison succeeds exactly
  when each session enters once and on both instruments, its evidence checks and its gap check never throw, and at every
  target the effective state judged by the close is at most the original one and at most the safeguarded one
  (`StressStudy.CompareStudy`). The chain: bars to targets (`StressCalculation`), targets to severities
  (`StressSeverity`), severities through hysteresis (`StressRecovery`, a coupling of two runs of the machine), recovery
  in place per session (`StressClarification`), episodes (`StressAnalysis`, read on record fields in `StressDurations`).
  The comparison and the candidate analysis, written separately, list the same states one to one (`StressAgreement`).
- **Returns telescope.** A window has a return exactly when each of its sessions has one of its own, and then they
  compound to it, splits and provider seams included (`BenchmarkReturns.OutcomesTelescope`).
- **Concurrency.** For every interleaving: each index is claimed once and in order, calls in flight are bounded, no
  deadlock, exactly 2 n + workers steps, and the results are the map exactly when the concurrency is at least one or
  there is nothing to do (`ConcurrentMap`). With cached tasks on one shared disk, read when a date is claimed and written
  when its fetch is done: no date is fetched twice, every schedule leaves the same disk, and a second run asks nobody
  (`ResearchRun`).
- **Caches.** Over any history of sessions with any budgets the disk holds only whole answers of the provider; and when
  repeated sessions finish is characterised exactly, for resumed and for refreshing ones (`ParticipationCache`).
- **Gaps.** Two independent run-length loops find the same, exactly maximal, intervals; the online top 25 is the
  offline top 25 (`GapRuns`, `GapAccumulator`); the totals of a revision count sessions between bars (`GapAggregate`).
- **Statistics.** Percentiles are monotone and three interpolations agree; calibrated bands nest; rank inverts
  percentile to within one sample exactly where no value occurs three times; Cauchy-Schwarz and its equality case
  (`Statistics`, `Calibration`).
- **Panel and accounting.** The panel median is a majority vote; transitions obey flow conservation (`PanelMedian`,
  `ParticipationAnalysis`).

Four expectations hold only under a condition. The model keeps the code, states the condition as an if-and-only-if, and
gives an input that fails:

- `mapWithConcurrency` returns the map exactly when the concurrency is positive or there is nothing to do
  (`ConcurrentMap.FinishedRunIsMap`; fails at concurrency 0 with one item, `ConcurrentMap.ZeroConcurrencyFillsNothing`).
- Repeating a session that does not refresh ends with every load answered from disk exactly when every load is answered
  from disk already, or has no file and fits, by itself, into the budget of one session
  (`ParticipationCache.ResumedSessionsFinish`, over any disk). A budget of one never finishes a two-page answer
  (`ParticipationCache.BudgetOfOneNeverFinishes`), and a corrupted file is refused by every repetition
  (`ParticipationCache.CorruptedFileNeverFinishes`). A budget of 5, one whole pagination, leaves only such files in the
  way (`ParticipationCache.WholePaginationIsEnough`), and a refreshing session that fits repairs them
  (`ParticipationCache.RefreshRepairs`). Over a sound disk, finishing means the provider's whole answers
  (`ParticipationCache.FinishedSessionsAnswer`).
- A refreshing session answers everything exactly when all loads fit into its budget together, and repeating it changes
  nothing (`ParticipationCache.RefreshCompletes`, `ParticipationCache.RefreshNeverGetsFurther`; two two-page answers
  never fit a budget of two, `ParticipationCache.RefreshOfTwoNeverFinishes`). Five per load are always enough
  (`ParticipationCache.WholePaginationsAreEnough`).
- Ranking a percentile returns its fraction to within one sample, for every fraction, exactly when no value of the
  sorted sample occurs three times (`Calibration.RankOfPercentile`; three ones fail, `Calibration.ThreeOnes`).

## Reading the model

- Prices, ratios and fractions are `real`; dates and instants are integers or sessions of a list; `null` is `None`; an
  exception is a `Failure`. `Segments` is the reference definition of a maximal run that all run-length loops are
  measured against; `Sorting` a stable sort with its laws; `RealFacts` small facts about multiplication.
- Parameters stand for what is computed elsewhere: `root` for the square root, `etDate` for the exchange date of an
  instant, a market session for the calendar, and in `ParticipationCache` the transport, the reading of a page, the
  evidence checks and the digest.
- The dates of a research run are distinct, as the session plan makes them (src/dev/breadth-research-runner.ts, lines
  55-62: a boundary before an ascending range). The results of `ResearchRun` rest on that:
  `ResearchRun.RepeatedDateIsFetchedTwice` shows a schedule that would fetch a repeated date twice.
- The loops are proved against functions, and the functions against laws: predicates that speak only of the inputs and
  the outputs (`Lawful`, `TargetLaw`, `RecordLaw`, `WindowLaw`, `FetchLaw`, `LoadLaw`, `CorrelationLaw` and others). The
  method that a caller uses ensures its law.
- Ghost fields `calls` and `history` record what happened and do not influence anything.

## Model

| member | source | states |
|---|---|---|
| StressRecovery.Recover | src/dev/intraday-stress-calculation.ts:107-116 | The loop computes the hysteresis machine at every position; its output obeys the law of confirmed falls, stated on readings and outputs alone. |
| StressRecovery.RecoveredIsLawful | src/dev/intraday-stress-calculation.ts:107-116 | Position by position, on outputs: nothing at a gap; the first output and any rise are the reading at once; otherwise the last output e or e - 1, and e - 1 exactly when the latest k readings are consecutive, available and below e, and e was held before them and emitted at each before the last. |
| StressRecovery.LawfulOnce | src/dev/intraday-stress-calculation.ts:107-116 | That law leaves one output sequence for every sequence of readings and every number of confirmations. |
| StressRecovery.RunsStayCoupled | src/dev/intraday-stress-calculation.ts:107-116 | Two runs with the same gaps, lower readings and fewer confirmations on the left: the left level is never higher, and on equal levels the left count is at least as large. |
| StressRecovery.RecoverMonotone | src/dev/intraday-stress-calculation.ts:107-116 | Lower readings and fewer confirmations (any k at most m) never give a higher level anywhere. |
| StressRecovery.RecoverBounds | src/dev/intraday-stress-calculation.ts:110-114 | Unavailable exactly when the reading is; otherwise between the reading and the highest reading so far. |
| StressRecovery.CountedReadings | src/dev/intraday-stress-calculation.ts:110-113 | The counter stays below k and counts exactly the latest consecutive available readings strictly below the level held throughout. |
| StressRecovery.FallsAreConfirmed | src/dev/intraday-stress-calculation.ts:113 | A fall is exactly one level and ends k consecutive available readings below the level. |
| StressRecovery.RecoveryRate | src/dev/intraday-stress-calculation.ts:110-114 | While readings stay at or below a target level, each one uses up exactly one unit of k per level still to fall. |
| StressRecovery.RecoveryCompletes | src/dev/intraday-stress-calculation.ts:110-114 | From an output e, (e - v) * k consecutive readings of at most v bring the output to at most v. |
| StressRecovery.RecoveryNoSooner | src/dev/intraday-stress-calculation.ts:110-114 | Fewer readings than that, less those already counted, leave the output strictly above v. |
| StressCalculation.SlotMeaning | src/dev/intraday-stress-calculation.ts:29-39 | A slot holds a bar exactly when one bar starts there, no other does, and it is valid. |
| StressCalculation.MeasureSession | src/dev/intraday-stress-calculation.ts:24-69 | Each of the three errors exactly when it applies, told from the bars; otherwise one target per slot, computed in one pass, whose fields obey the law of a session: prices from the sole sound bar of each slot, true range as the greatest of three, shock, return, downside, drawdown and ratios by cross-multiplication, rolling movement as the root of the summed squares of the last four reported returns, each issue exactly when its part is missing. |
| StressCalculation.MeasureSlots | src/dev/intraday-stress-calculation.ts:40-68 | The pass with running peak, prefix flag and list of returns produces at every slot what the slots alone determine. |
| StressCalculation.SessionIsLawful | src/dev/intraday-stress-calculation.ts:36-68 | The same law of every target that the slots determine. |
| StressCalculation.PeakOneMore | src/dev/intraday-stress-calculation.ts:41-46 | The running peak stays the highest high while no slot is missing, and is reported exactly then. |
| StressCalculation.TrueRangeAccepts | src/dev/intraday-stress-calculation.ts:49 | Wherever the true range is taken, its inputs are positive and ordered, so the check inside it (src/services/volatility-calculation.ts, lines 36-39) cannot throw; it is at least the bar's own range. |
| StressCalculation.StatusMeaning | src/dev/intraday-stress-calculation.ts:54-60 | A target is VALID exactly when the ATR is positive and no slot up to it is missing; the other issues follow from these two. |
| StressCalculation.AvailabilityIsPrefix | src/dev/intraday-stress-calculation.ts:36-60 | On raw bars: VALID exactly when the prior ATR is positive and every slot up to the target has one valid, unduplicated bar. |
| StressCalculation.ValidTargetEvidence | src/dev/intraday-stress-calculation.ts:41-53 | On a VALID target the peak is the running maximum of the highs, and drawdown is exactly the shortfall of the close from it, in [0, 1). |
| StressCalculation.ValidTargetDownside | src/dev/intraday-stress-calculation.ts:50 | On a VALID target the excursion is exactly the shortfall of the low from the reference price, in [0, 1). |
| StressSeverity.SeverityLevels | src/dev/intraday-stress-calculation.ts:77-88 | SEVERE exactly on a collapse; HIGH and ELEVATED exactly when a channel reaches both, or one, of its bounds (with ordered bounds: the high, or the elevated one) or there is a collapse. |
| StressSeverity.MeasuredEvidence | src/dev/intraday-stress-calculation.ts:7-11 | Measured targets have positive prices, and their closing downside never exceeds their intrabar excursion, in absolute terms or per ATR (lines 49-66 and 90-96 of the same file). |
| StressSeverity.CloseNeverRaises | src/dev/intraday-stress-calculation.ts:77-105 | Judging the acute collapse by the close keeps availability and never raises a severity; no new SEVERE. |
| StressSeverity.SafeguardNeverLowers | src/dev/intraday-stress-calculation.ts:98-105 | The absolute safeguard keeps availability, never lowers a severity and neither makes nor unmakes a SEVERE. |
| StressSeverity.SeverityRange | src/dev/intraday-stress-calculation.ts:74-105 | Severities stay within 0..3. |
| StressSeverity.PairIsWorse | src/dev/intraday-stress-clarification.ts:13 | A pair has a severity exactly when both sides have one, and it reaches a level exactly when one of them does. |
| StressSeverity.ClosingEvidence | src/dev/intraday-stress-calculation.ts:90-96 | The closing downside is the exact shortfall of the close from a positive reference, and its ratio that shortfall in units of a positive ATR. |
| StressSeverity.CurrentCollapseMeaning | src/dev/intraday-stress-calculation.ts:98-105 | The severity by the close, level by level, with the safeguard at its literal bounds. |
| StressClarification.FileTargets | src/dev/intraday-stress-clarification.ts:18-24 | Fails exactly on two relevant targets with the same date, index and symbol; otherwise files every relevant target and nothing else. |
| StressClarification.TwinMeansTaken | src/dev/intraday-stress-clarification.ts:21-23 | A side of a slot is taken exactly when an earlier target has the same date, index and symbol. |
| StressClarification.BuildRows | src/dev/intraday-stress-clarification.ts:25-33 | One row per key with the three raw states; or the error of the first key, in order of first appearance, that has one: no aligned pair, or evidence that changes availability. |
| StressClarification.RowsCarryWorseStates | src/dev/intraday-stress-clarification.ts:26-33 | In every variant the raw state of a row is available exactly when both targets have one and reaches a level exactly when one of them does. |
| StressClarification.SidesTellError | src/dev/intraday-stress-clarification.ts:26-32 | The error of a key's slot is the one the targets themselves determine. |
| StressClarification.SortedRows | src/dev/intraday-stress-clarification.ts:34 | Sorting puts the same rows in strictly increasing order of date and index. |
| StressClarification.SessionStartMeaning | src/dev/intraday-stress-clarification.ts:35-37 | In sorted rows the rows of one date are exactly a contiguous stretch. |
| StressClarification.ScanSession | src/dev/intraday-stress-clarification.ts:37-38 | Finds the end of a session and whether its indices run 1, 2, 3 and so on. |
| StressClarification.RecoverVariant | src/dev/intraday-stress-clarification.ts:40-41 | Overwrites in place the effective state of one variant in one session and nothing else. |
| StressClarification.RecoverSession | src/dev/intraday-stress-clarification.ts:39-42 | All three variants of a session in place; the readings and every other row are untouched. |
| StressClarification.RecoverSessions | src/dev/intraday-stress-clarification.ts:37-43 | Recovers every session from its own start, or reports a gap exactly when some session's indices do not run from 1. |
| StressClarification.SessionsRecoverLawfully | src/dev/intraday-stress-clarification.ts:37-43 | In every session and variant the effective states are the lawful two-confirmation recovery of the raw ones. |
| StressClarification.CandidateBMeaning | src/dev/intraday-stress-clarification.ts:15-17 | Under the recorded candidate, by either evidence: SEVERE exactly on an acute or session collapse, HIGH and ELEVATED at its bounds, all written out as numbers. |
| StressClarification.RecoveryKeepsOrder | src/dev/intraday-stress-clarification.ts:37-43 | Raw states ordered at every row give effective states ordered at every row. |
| StressClarification.RowOrdering | src/dev/intraday-stress-clarification.ts:13-33 | Pairing keeps the order of the three severities; for consistent evidence availability agrees and no SEVERE is new. |
| StressClarification.ComparisonOrdering | src/dev/intraday-stress-clarification.ts:37-52 | Effective states are ordered for any targets (close and safeguard) and for measured targets (close and original), where the severe check cannot fail. |
| StressClarification.SevereCheck | src/dev/intraday-stress-clarification.ts:44-52 | The severe check throws exactly when some pair turns SEVERE by its close without being SEVERE originally. |
| StressClarification.MeasuredAgree | src/dev/intraday-stress-clarification.ts:32-52 | For measured targets both evidence checks hold of themselves. |
| StressClarification.RecoverAndCheck | src/dev/intraday-stress-clarification.ts:34-52 | With rows built: a gap error exactly on a gap, a severe error exactly when a pair turns SEVERE by its close, otherwise the comparison, with the worse states as raw states and lawful recoveries. |
| StressClarification.CompareIntradaySemantics | src/dev/intraday-stress-clarification.ts:14-52 | Succeeds exactly on the recorded candidate with distinct, paired, gapless targets whose evidence agrees; otherwise returns exactly the error of the first failing check (candidate, duplicates, first faulty key, gap, severe); on success the sorted rows of all targets, each raw state the worse of its two targets, each session lawfully recovered, effective states ordered. |
| StressStudy.StudyIsMeasured | src/dev/intraday-stress-data.ts:105-106 | Every target collected from measured sessions carries consistent evidence, whatever the bars. |
| StressStudy.DuplicatesAreClashes | src/dev/intraday-stress-data.ts:105-106 | Collected targets are duplicated exactly when a session of an instrument enters twice. |
| StressStudy.StudyHasNoGap | src/dev/intraday-stress-data.ts:105-106 | Collected targets never have a gap, whatever bars are missing. |
| StressStudy.ComparableMeaning | src/dev/intraday-stress-data.ts:94-106 | Distinct, paired and gapless targets, told from the sessions: each enters once and on both instruments. |
| StressStudy.CollectTargets | src/dev/intraday-stress-data.ts:105-106 | Measures every session in order and collects the targets, or throws the first session's error. |
| StressStudy.CompareStudy | src/dev/intraday-stress-clarification.ts:14-52 | From bars to rows: the first measuring error exactly when a session has one; otherwise success exactly when each SPY or RSP session of two slots or more enters once and on both instruments with the same slots, and no other error than duplication and pairing; each raw state the worse of its two targets, each session lawfully recovered, effective states ordered at every target. |
| StressAgreement.RowHasRecord | src/dev/intraday-stress-analysis.ts:74-80 | Every row of a comparison (src/dev/intraday-stress-clarification.ts, lines 25-43) has its record in the candidate analysis of the same targets: the same pair, the same raw state and the same two-confirmation recovery. |
| StressAgreement.RecordHasRow | src/dev/intraday-stress-analysis.ts:74-80 | Every record of the candidate analysis has its row in the comparison, with the same pair, raw state and two-confirmation recovery. |
| StressAgreement.MatchesOnce | src/dev/intraday-stress-clarification.ts:34 | Two rows never share a record. |
| StressAnalysis.GroupByDate | src/dev/intraday-stress-analysis.ts:71-72 | Groups the non-closing targets by date, dates in order of first appearance. |
| StressAnalysis.GroupOfDate | src/dev/intraday-stress-analysis.ts:71-72 | The group of a date is exactly the targets of that date, in order. |
| StressAnalysis.SessionRecords | src/dev/intraday-stress-analysis.ts:74-80 | The paired records of a session with raw state and both recoveries. |
| StressAnalysis.CandidateRecords | src/dev/intraday-stress-analysis.ts:70-80 | All records of all sessions, and the groups they come from. |
| StressAnalysis.RecordsNested | src/dev/intraday-stress-analysis.ts:77-80 | In every record raw is at most two-confirmation, which is at most three-confirmation; its targets belong to its date. |
| StressAnalysis.EpisodeExtends | src/dev/intraday-stress-analysis.ts:88-91 | Extending an open episode by one record, with its minutes and censoring recomputed, is the episode of the longer block. |
| StressAnalysis.EpisodesGrow | src/dev/intraday-stress-analysis.ts:87-91 | One more record turns the episodes of the blocks so far into those of the blocks with it: unchanged below the floor, the open episode of its session extended, or one started. |
| StressAnalysis.StressRuns | src/dev/intraday-stress-analysis.ts:83-94 | The loop lists the episodes of the blocks: minutes are 15 a bar, less 5 when the close censors the last one. |
| StressAnalysis.BlocksAreMaximal | src/dev/intraday-stress-analysis.ts:86-89 | Those blocks are exactly the maximal contiguous same-session stretches at or above the floor, in order. |
| StressAnalysis.EpisodesAccount | src/dev/intraday-stress-analysis.ts:83-94 | Bars of all episodes are exactly the records at the floor, and minutes exactly theirs. |
| StressAnalysis.StressNests | src/dev/intraday-stress-analysis.ts:83-115 | A higher floor or fewer confirmations never lengthen the total, and each stricter episode lies inside exactly one looser episode. |
| StressDurations.CandidateDurations | src/dev/intraday-stress-analysis.ts:70-115 | From targets to the six durations: the records are lawful, complete and in order; and for each smoothing and floor, on the field of that smoothing, the episodes are exactly the maximal stretches of records at the floor with their bars, minutes and censoring, the bars are the number of such records, and the figures are drawn from them. |
| StressDurations.RecordIsLawful | src/dev/intraday-stress-analysis.ts:74-80 | A record pairs an SPY target with an RSP target of its date and index; its raw state is the worse of the two, its smoothed ones stand at its place in the lawful two- and three-confirmation recoveries of its session. |
| StressDurations.PairIsRecorded | src/dev/intraday-stress-analysis.ts:79 | Every SPY target before the close that has a partner has its record. |
| StressDurations.RecordsAreLawful | src/dev/intraday-stress-analysis.ts:70-80 | All records are lawful, all pairs recorded; the records of a date stand by index, the dates as they are first seen. |
| StressDurations.EpisodesAreStretches | src/dev/intraday-stress-analysis.ts:83-92 | The listed episodes are, in order, exactly the maximal stretches of records at the level, described by their ends, bars, minutes and censoring. |
| StressDurations.BarsAreRecords | src/dev/intraday-stress-analysis.ts:88 | The bars of all episodes are as many as the records at the level. |
| StressAnalysis.FiguresAreLawful | src/dev/intraday-stress-analysis.ts:93 | Counts, sessions, longest and censored figures are those of the listed episodes, median and 95th percentile their quantiles. |
| StressAnalysis.FiguresMeaning | src/dev/intraday-stress-analysis.ts:93 | Median and 95th percentile exist exactly for a list with episodes; median at most 95th percentile at most longest; sessions and censored episodes at most the episodes. |
| BenchmarkReturns.IndexBars | src/dev/breadth-v2-validation.ts:31-35 | Fails exactly on two bars of one date; otherwise files all of them and finds the last date. |
| BenchmarkReturns.IndexSplits | src/dev/breadth-v2-validation.ts:33-34 | Fails exactly on two splits of one date; otherwise files all of them. |
| BenchmarkReturns.WalkWindow | src/dev/breadth-v2-validation.ts:48-69 | The walk with a running factor stops at the first unusable session with its reason, or yields every partial return. |
| BenchmarkReturns.WindowOutcome | src/dev/breadth-v2-validation.ts:40-76 | One row of the table, through all availability branches in their order. |
| BenchmarkReturns.BenchmarkOutcomes | src/dev/breadth-v2-validation.ts:30-80 | The duplicate errors, or every session at the three horizons in order, each outcome lawful on the arguments: one plus the return, times the base close, is the last close times the product of the listed factors (MASSIVE) or of the bars' own (TIINGO); extremes attained; and every unavailable reason under its own condition. |
| BenchmarkReturns.OutcomeIsLawful | src/dev/breadth-v2-validation.ts:37-78 | That law for any session and horizon, over the indexed evidence. |
| BenchmarkReturns.WindowLawOnce | src/dev/breadth-v2-validation.ts:37-78 | The law leaves one outcome: a return exactly in its circumstances and each reason exactly in its own, so every clause is an if-and-only-if. |
| BenchmarkReturns.AvailableIffSteps | src/dev/breadth-v2-validation.ts:41-69 | An h-session window is available exactly when it fits and every one-session window in it is. |
| BenchmarkReturns.WindowGrows | src/dev/breadth-v2-validation.ts:50-66 | A window one session longer is available exactly when the shorter one and the last step are, without a provider seam. |
| BenchmarkReturns.ReturnsTelescope | src/dev/breadth-v2-validation.ts:48-71 | Growth over h sessions is the product of the one-session growths, split factors included. |
| BenchmarkReturns.OutcomesTelescope | src/dev/breadth-v2-validation.ts:37-78 | On reported outcomes: a return exists exactly when all one-session returns in it do, and one plus it is their compounded product. |
| BenchmarkReturns.OutcomeMeaning | src/dev/breadth-v2-validation.ts:70-76 | A return or a reason, never both; drawdown and gain bound the return of every shorter window, enclose zero, and are attained unless zero. |
| Statistics.OrderedAscends | src/dev/breadth-statistics.ts:45-47 | Sorting yields the same values in ascending order. |
| Statistics.PercentileReads | src/dev/breadth-statistics.ts:34-43 | The branches of the percentile read one piecewise linear curve. |
| Statistics.PercentileOnCurve | src/dev/breadth-statistics.ts:34-43 | Outside [0, 1] the percentile fails; of no sample it is nothing; otherwise its value lies on the line through the two places around p * (n - 1). |
| Statistics.PercentileMonotone | src/dev/breadth-statistics.ts:34-43 | On sorted values the percentile grows with the fraction and stays between least and greatest. |
| Statistics.InterpolationsAgree | src/dev/intraday-stress-analysis.ts:5-9 | The three interpolations of the program agree on all values and fractions (also src/dev/breadth-statistics.ts, lines 34-43, and src/dev/participation-calculation.ts, lines 103-109). |
| Statistics.CauchySchwarz | src/dev/breadth-statistics.ts:68-72 | sxy squared is at most sxx * syy, with equality exactly when the deviations lie on one line. |
| Statistics.CorrelationBounded | src/dev/breadth-statistics.ts:64-74 | The coefficient lies in [-1, 1] whenever there is one. |
| Statistics.PearsonCorrelation | src/dev/breadth-statistics.ts:64-74 | Unequal lengths fail; nothing for fewer than two pairs or where one side is constant; otherwise the coefficient whose square times the spreads sum(x * x) - mean(x) * sum(x) of both sides is the square of sum(x * y) - mean(x) * sum(y), with its sign, within [-1, 1]. |
| Statistics.CorrelationIsLawful | src/dev/breadth-statistics.ts:64-74 | That law of the coefficient, on the values alone. |
| Calibration.BandsForAll | src/dev/breadth-v2-calibration.ts:20-29 | Deriving succeeds exactly when each pair of family and horizon has a band, and returns exactly those. |
| Calibration.BandIsLawful | src/dev/breadth-v2-calibration.ts:21-27 | Each band is read off the ascending sample of the shares that the metrics carry for the horizon up to the date, each as often as they carry it, at the two fractions of the family; no band without evidence or where the ends do not ascend. |
| Calibration.BandsNest | src/dev/breadth-v2-calibration.ts:7 | With a narrow band, the tertile and quartile bands exist and nest around it. |
| Calibration.CalibrationSucceeds | src/dev/breadth-v2-calibration.ts:20-29 | Calibration succeeds exactly when each horizon has a narrow band, and then all bands nest. |
| Calibration.ValidationPercentile | src/dev/breadth-v2-calibration.ts:35-40 | The loop returns the rank: n times it is the number of lesser values and half that of the equal ones. |
| Calibration.RankOfPercentile | src/dev/breadth-v2-calibration.ts:35-40 | On every sorted sample: ranking the percentile returns the fraction to within 1 / n, for all fractions, if and only if no value occurs three times. |
| Calibration.ThreeOnes | src/dev/breadth-v2-calibration.ts:35-40 | Three equal values: the rank of the 0 percentile is one half. |
| Calibration.PlateauMisses | src/dev/breadth-v2-calibration.ts:35-40 | On any plateau of three or more, the rank misses the fraction of its first or of its last place. |
| PanelMedian.MediansAgree | src/dev/participation-calculation.ts:12-17 | The two medians of the program agree (also src/dev/breadth-statistics.ts, lines 45-47). |
| PanelMedian.MedianIsMajority | src/dev/participation-calculation.ts:12-17 | For any odd number of values the median is at least c exactly when more than half the values are, and dually. |
| PanelMedian.AgreementDecides | src/dev/participation-calculation.ts:42-48 | An agreement count of three decides on which side of each cut the panel median is, and so ACTIVE and INTENSE. |
| PanelMedian.AgreementOfCut | src/dev/participation-calculation.ts:46-47 | An agreement count of three says on which side of its cut the panel median is. |
| PanelMedian.PanelIsLawful | src/dev/participation-calculation.ts:42-48 | Exactly five values, none negative, make a panel: extremes and range, a median among the values that three are at most and three at least, and at each of the six cuts the number of values on its side. |
| PanelMedian.MedianWithinThree | src/dev/participation-calculation.ts:42-48 | The panel median lies within the range of any three sensors. |
| GapRuns.FirstAndLastReal | src/dev/breadth-v2-calculation.ts:25-27 | The two scans find the first and last session with a bar. |
| GapRuns.ShapeAgrees | src/dev/breadth-v2-calculation.ts:33 | Comparing indices with the first and last bar gives the shape that the surroundings of the run define. |
| GapRuns.MissingRuns | src/dev/breadth-v2-calculation.ts:23-39 | The loop lists one run for each maximal missing interval, in order, with its ends, length, shape by position and bucket by length. |
| GapRuns.RunsAreMaximal | src/dev/breadth-v2-calculation.ts:23-39 | They are exactly the maximal missing intervals, ordered and disjoint. |
| GapRuns.RunShapes | src/dev/breadth-v2-calculation.ts:33 | Each shape exactly from its position: FULL_RANGE alone over everything, LEADING, TRAILING and INTERIOR. |
| GapRuns.LengthsAddUp | src/dev/breadth-v2-calculation.ts:32-34 | Lengths sum to the number of missing sessions. |
| GapRuns.CompactSessionRanges | src/dev/participation-coverage.ts:5-14 | The loop that extends the current range lists one range for each maximal interval of selected sessions, with its ends and its number of sessions. |
| GapRuns.MissingRunsAreCompactRanges | src/dev/participation-coverage.ts:5-14 | Both run-length algorithms give the same intervals on the same sessions. |
| GapAccumulator.RankingIsTotal | src/dev/breadth-v2-calculation.ts:43-58 | Length descending, then symbol, then start is a total preorder. |
| GapAccumulator.TopExamplesMeaning | src/dev/breadth-v2-calculation.ts:56-60 | The kept examples are ordered, all of them were added, and everything left out ranks behind all 25. |
| GapAccumulator.OnlineEqualsOffline | src/dev/breadth-v2-calculation.ts:57-59 | Sorting and cutting after every addition equals sorting everything ever added and cutting once. |
| GapAccumulator.ShapesAddUp | src/dev/breadth-v2-calculation.ts:63-68 | The totals of the four shapes sum to all missing sessions added. |
| GapAccumulator.GapShapeAccumulator.constructor | src/dev/breadth-v2-calculation.ts:46-48 | Starts with nothing added. |
| GapAccumulator.GapShapeAccumulator.AddExample | src/dev/breadth-v2-calculation.ts:57-59 | Turns the top 25 of the entries so far into the top 25 of one interior entry more. |
| GapAccumulator.GapShapeAccumulator.AddCounts | src/dev/breadth-v2-calculation.ts:51-55 | Turns the totals and symbols of all shapes over the entries so far into those of one entry more. |
| GapAccumulator.GapShapeAccumulator.Add | src/dev/breadth-v2-calculation.ts:50-61 | Keeps counts, securities and examples equal to what the whole history of additions determines. |
| GapAccumulator.GapShapeAccumulator.Summary | src/dev/breadth-v2-calculation.ts:63-68 | Interior and other missing sessions together are all those added; the examples are the top 25 of the history; each shape has as many runs as entries, its longest run, and as many securities as symbols. |
| GapAggregate.AggregateGaps | src/dev/breadth-v2-research.ts:120 | Over all securities: the interior total is the number of missing sessions between two bars of their security, the other total that of the remaining missing ones; the examples are the first 25, or all, of the interior gaps, each listed once, longest first, then by symbol text, then by start, and every gap left out comes after them. |
| GapAggregate.GapsListed | src/dev/breadth-v2-research.ts:120 | The entries offered to the examples are exactly the interior gaps of the members, each once, with symbol, ends and length. |
| GapAggregate.TotalsCount | src/dev/breadth-v2-research.ts:120 | The totals of the entries are the numbers of missing sessions, inside and altogether. |
| GapAggregate.TextOrder | src/dev/breadth-v2-calculation.ts:44 | The symbol comparison is lexicographic: the texts agree up to a place where the first ends or has the lesser character. |
| ParticipationAnalysis.AnalyzeTransitions | src/dev/participation-analysis.ts:97-107 | The single loop, on the days: each matrix cell counts the days in one band of the panel median whose day before is in the other, comparable and changed days are counted apart, and the runs are, in order, exactly the maximal stretches of one band with their dates and values. |
| ParticipationAnalysis.CountDay | src/dev/participation-analysis.ts:101-106 | One day updates counters and both matrices for the pair it completes. |
| ParticipationAnalysis.AdvanceRuns | src/dev/participation-analysis.ts:104-105 | Turns the runs of the days so far, maximal blocks of one state, into those of one day more. |
| ParticipationAnalysis.Inflow | src/dev/participation-analysis.ts:100-107 | Each day in a state is entered from the day before or starts a segment. |
| ParticipationAnalysis.Outflow | src/dev/participation-analysis.ts:100-107 | Each day in a state is left for the day after or ends a segment. |
| ParticipationAnalysis.MatrixTotals | src/dev/participation-analysis.ts:103 | Comparable pairs are the matrix total; changes are what is off the diagonal; comparable pairs and segments are all valid days. |
| ParticipationAnalysis.RunCount | src/dev/participation-analysis.ts:104-105 | Runs are the state changes plus the segments. |
| ParticipationAnalysis.RunLengths | src/dev/participation-analysis.ts:123-127 | The sessions of all runs of a state are its days. |
| ParticipationAnalysis.FlowConservation | src/dev/participation-analysis.ts:119-127 | For the loop's result: row sums and column sums with segment ends and starts, run count, run lengths and the off-diagonal matrix all agree. |
| ParticipationAnalysis.ControlAgreement | src/dev/participation-analysis.ts:108-115 | Each cell of the confusion matrix counts the days with the two panels in its two bands; same, adjacent and multi-level agreement are the sums over equal, neighbouring and remaining states. |
| ParticipationAnalysis.RunsAreLawful | src/dev/participation-analysis.ts:104-105 | The listed runs are the maximal stretches of one band, the cuts being 0.75, 1.25 and 1.5. |
| ParticipationAnalysis.DistancesOfPlus | src/dev/participation-analysis.ts:112-114 | Counting one pair moves exactly the counter of its distance. |
| ConcurrentMap.StepKeepsInv | src/dev/breadth-research-cache.ts:63-69 | Every step keeps the invariant: distinct claimed indices, each either in flight or stored correctly, nothing stored beyond the cursor. |
| ConcurrentMap.StepCosts | src/dev/breadth-research-cache.ts:63-69 | Every step lowers the measure by exactly one. |
| ConcurrentMap.EveryRunIsSafe | src/dev/breadth-research-cache.ts:60-72 | In every run the task is called on 0, 1, 2 and so on once each, the workers in flight are at most the lesser of concurrency and items, and nothing wrong is ever stored. |
| ConcurrentMap.RunsContinue | src/dev/breadth-research-cache.ts:63-69 | An unfinished run can be continued. |
| ConcurrentMap.FinishedRunIsMap | src/dev/breadth-research-cache.ts:70-71 | A finished run has exactly 2 n + workers steps, and its results are the map exactly when the concurrency is at least one or there are no items. |
| ConcurrentMap.FinishedRunFills | src/dev/breadth-research-cache.ts:64-71 | Item by item: with a positive concurrency every result is the task's value for its item and index, without one none is filled. |
| ConcurrentMap.ZeroConcurrencyFillsNothing | src/dev/breadth-research-cache.ts:70 | Concurrency 0 with one item: finished at once, the result unfilled. |
| ConcurrentMap.WorkerPool.constructor | src/dev/breadth-research-cache.ts:61-70 | Cursor, results and workers before the first step. |
| ConcurrentMap.WorkerPool.Advance | src/dev/breadth-research-cache.ts:64-68 | One step in place: claim the cursor, or store the awaited result. |
| ConcurrentMap.MapWithConcurrency | src/dev/breadth-research-cache.ts:60-72 | Under any scheduler the pool ends, its run is a legal one, and the results are the map exactly as above. |
| ResearchCache.AttemptsMeaning | src/dev/breadth-research-cache.ts:43-54 | A value comes from the earliest attempt that succeeds; a failure means that all failed, with the last error. |
| ResearchCache.Cache.CachedFetch | src/dev/breadth-research-cache.ts:32-57 | A kept answer is returned without a call; otherwise the attempts decide, and success or failure is kept. |
| ResearchCache.Cache.Resume | src/dev/breadth-research-cache.ts:28-41 | A second run reads the first one's answer, failure included, and calls nothing. |
| ResearchRun.StepRefines | src/dev/breadth-research-runner.ts:112-138 | To the pool, tasks that read and write the shared disk at different steps are a task of the disk at the start. |
| ResearchRun.StepKeeps | src/dev/breadth-research-cache.ts:37-56 | Every step keeps disk, pending reads and fetched dates what the settled dates determine. |
| ResearchRun.RunRefines | src/dev/breadth-research-runner.ts:136-138 | Every run of cached fetches is a run of the pool over a pure task, so all results on the pool carry over. |
| ResearchRun.NoDateIsFetchedTwice | src/dev/breadth-research-runner.ts:136-138 | In every interleaving over distinct dates no date is fetched twice, nor one on disk unless the run refreshes, and calls in flight stay bounded. |
| ResearchRun.FinishedRunsAgree | src/dev/breadth-research-runner.ts:136-138 | Every finished run gives the same results in order and the same disk: for each date the entry on disk or, on a refresh or without one, the earliest successful attempt or the last error; it fetched exactly the dates without an entry, all of them on a refresh, and left every other entry alone. |
| ResearchRun.CompletedOnce | src/dev/breadth-research-cache.ts:47-55 | That disk is the same one whatever the schedule. |
| ResearchRun.SecondRunAsksNobody | src/dev/breadth-research-cache.ts:28-40 | A second run over that disk, under any schedule, concurrency and provider, fetches nothing, changes nothing and gives the same results. |
| ResearchRun.RepeatedDateIsFetchedTwice | src/dev/breadth-research-cache.ts:37-47 | A concrete schedule in which two workers fetch the same date twice when it is listed twice. |
| ParticipationCache.KeysAreDistinct | src/dev/participation-research-data.ts:97 | Different dated requests never share a file. |
| ParticipationCache.KeysAreNamed | src/dev/participation-research-data.ts:97 | The file name of each symbol and kind, spelled out. |
| ParticipationCache.OpenCache | src/dev/participation-research-data.ts:88-95 | Refreshing without fetching and budgets outside 1..300 are refused, everything else is accepted. |
| ParticipationCache.ParticipationCache.constructor | src/dev/participation-research-data.ts:88-95 | Counters start at zero over whatever is on disk. |
| ParticipationCache.ParticipationCache.FetchEvidence | src/dev/participation-research-data.ts:53-86 | The pagination loop under a budget gives the unlimited answer if it fits, and otherwise spends the budget and says so; and, on endpoints and pages alone, its result and its requests are those of the first step that stops it. |
| ParticipationCache.SuccessMeansWholeEvidence | src/dev/participation-research-data.ts:58-85 | A fetch succeeds exactly with distinct endpoints e_0 to e_(n-1), at most five and within the budget, the first the initial one, each giving a page without a rows error that leads to the next, the last without a successor; the evidence is what is retained of the pages in order, passes its checks, and costs n requests. |
| ParticipationCache.FetchLawOnce | src/dev/participation-research-data.ts:58-85 | The law of a fetch leaves one result and one number of requests, so success and each failure by its first failing step are if-and-only-ifs. |
| ParticipationCache.LimitedIsLawful | src/dev/participation-research-data.ts:58-85 | The specification of a fetch obeys that law under any budget. |
| ParticipationCache.AnswerIsLawful | src/dev/participation-research-data.ts:58-125 | The whole answer that sound disks hold is what a lawful fetch with five requests gives, with its digest or its sanitised message, in an envelope of version 1 under its key. |
| ParticipationCache.ParticipationCache.Load | src/dev/participation-research-data.ts:96-132 | Disk, counters and result of one load on every path: the file of version 1 under the key with its own digest, or its error, is a hit; any other file is refused; otherwise NOT_CACHED, an exhausted budget, or a lawful fetch whose evidence or sanitised message is filed under the key, an exhausted budget never. |
| ParticipationCache.CutShortIsBudget | src/dev/participation-research-data.ts:113-125 | A fetch within a budget is the whole answer exactly when that fits, otherwise the budget error, and never overspends. |
| ParticipationCache.LoadIsSound | src/dev/participation-research-data.ts:96-132 | One load keeps the disk sound and the budget respected, loses no file and answers honestly. |
| ParticipationCache.HistoryIsSound | src/dev/participation-research-data.ts:88-132 | Over any sequence of sessions with any configurations: only whole answers on disk, no overspending, every result the whole answer, NOT_CACHED or budget exhaustion. |
| ParticipationCache.Replays | src/dev/participation-research-data.ts:98-105 | A kept file is answered from without a request, under every configuration that does not refresh. |
| ParticipationCache.ExhaustionDoesNotPoison | src/dev/participation-research-data.ts:124-125 | Running out leaves the disk unchanged; every other fetched result is written as the whole answer. |
| ParticipationCache.FetchCompletes | src/dev/participation-research-data.ts:110-131 | A fetch completes exactly when the answer fits in what is left of the budget. |
| ParticipationCache.TamperingIsRefused | src/dev/participation-research-data.ts:101-107 | Evidence that does not match its digest is refused without a request or a write, and a refresh with enough budget replaces it. |
| ParticipationCache.SessionMakesProgress | src/dev/participation-research-data.ts:98-131 | A resumed session whose loads fit one by one has every file or brings at least one more. |
| ParticipationCache.ResumedSessionsFinish | src/dev/participation-research-data.ts:98-131 | Over any disk: repeating a session that does not refresh ends with every load answered from disk if and only if each is already, or has no file and fits into one session's budget; then as many sessions as files are missing are enough. A sound disk stays sound. |
| ParticipationCache.FittingLoadsAreFiled | src/dev/participation-research-data.ts:98-131 | When every load fits, as many sessions as files are missing complete them all. |
| ParticipationCache.OversizedLoadIsNeverFiled | src/dev/participation-research-data.ts:113-125 | A load that does not fit into the budget of one session is never filed, however often the session is repeated. |
| ParticipationCache.WholePaginationIsEnough | src/dev/participation-research-data.ts:58 | With a budget of one whole pagination, repetition finishes exactly when every file already there answers; always over a sound disk. |
| ParticipationCache.ServedMeansHits | src/dev/participation-research-data.ts:98-105 | Loads are answered from disk exactly when a session is all hits; then it asks nobody and changes no file. |
| ParticipationCache.ServedAfter | src/dev/participation-research-data.ts:98-107 | Under sessions that do not refresh, a load is answered from disk exactly when it has a file that answered before, or a new one. |
| ParticipationCache.FinishedSessionsAnswer | src/dev/participation-research-data.ts:98-105 | Over a sound disk, the session after finishing gives the provider's whole answer to every load without a request. |
| ParticipationCache.CorruptedFileNeverFinishes | src/dev/participation-research-data.ts:101-107 | A corrupted file: every repetition answers INVALID_CACHE_USE_REFRESH, for every provider, although no file is missing. |
| ParticipationCache.BudgetOfOneNeverFinishes | src/dev/participation-research-data.ts:110-125 | A concrete provider with two pages: with a budget of one the load is never answered from disk. |
| ParticipationCache.RefreshCompletes | src/dev/participation-research-data.ts:98-131 | A refreshing session answers every load if and only if all loads fit into its budget together. |
| ParticipationCache.RefreshRepairs | src/dev/participation-research-data.ts:98-131 | A refreshing session whose loads fit together leaves the whole answer under every key, whatever stood there. |
| ParticipationCache.WholePaginationsAreEnough | src/dev/participation-research-data.ts:58 | One whole pagination of budget per load is enough for a refreshing session. |
| ParticipationCache.RefreshIgnoresDisk | src/dev/participation-research-data.ts:98-131 | A refreshing session answers, spends and writes the same over any disk. |
| ParticipationCache.RefreshNeverGetsFurther | src/dev/participation-research-data.ts:98-131 | Every repetition of a refreshing session gives the results of the first, complete exactly when all loads fit together, and leaves the disk as the first did. |
| ParticipationCache.RefreshOfTwoNeverFinishes | src/dev/participation-research-data.ts:98-131 | Two two-page answers with a budget of two: a resumed session finishes in two runs, a refreshing one never. |

## Left out

- IEEE rounding, NaN and infinities, and 80-digit decimals: numbers are reals (in `BenchmarkReturns` a close or factor
  may be non-finite, elsewhere the finiteness checks hold of themselves); 1/3 and 2/3 are exact.
- Square roots: `root` is a parameter; only the correlation needs that it is one. The standard deviation, interquartile
  range and descriptive summaries built on it are not modelled.
- Time zones, the exchange calendar and date parsing: dates and instants are integers, sessions are given.
- The summary of the comparison after its checks (frequencies, strata, severe dates, safeguard lists).
- Grouping rows by date through a map in the comparison: the model scans the sorted rows, where each date is contiguous.
- Frequencies by period, unique-high counts, boundary examples, rally and severe lists and representative sessions of the
  candidate analysis.
- `outcomeStatistics`, regime entries and candidate disagreements; parsing of decimal strings in benchmark bars.
- `buildCandidateDays`, the breadth states and the replayed confirmation: their rules live outside these files.
- `calculateParticipation` baselines and reasons, split validation and report validation: the analysis starts from
  validated days.
- Tasks that throw in `mapWithConcurrency`: the task is a total function.
- JSON, the file system with its temporary file and rename, SHA-256, URL checks and retry delays: a disk is a map, the
  digest and the reading of a page are parameters, a write is atomic.
- Symbols are compared by character code; UTF-16 surrogates are not distinguished.
- A provider that itself fails with the text REQUEST_BUDGET_EXHAUSTED: its answer is never kept, so the conditions for
  finishing exclude it; the soundness results include it.
