# A verified model of the benchmarking harness

The harness runs a workload against several arms of a program and decides which interval to
measure, what each number means and whether a cell counts. This project models those decision
kernels, and the two places where it edits or transports data it must not corrupt (the rendered
configuration, the remote command line), and proves what they are for.

Loops and objects that the harness updates in place are methods and classes here, each proved
against a specification function or a relation; lemmas then prove what that specification is worth.
The harness' `float64` is `real`, instants and durations are `int` nanoseconds, and the random source
is an arbitrary stream of indices, so every statement about randomness holds for all of them. Square
roots are avoided by comparing squares.

A method and its specification function share small helpers (a percentage, a band, a selector, a label).
What those helpers mean is stated a second time without them, on the points, samples, cells, rows and
figures themselves, in `Trends`, `Samples`, `Decisions`, `Selection`, `YamlTrails` and the files named
`...Figures`.

| files | what they hold |
|---|---|
| `LeastSquares`, `Series`, `Steady`, `Trends` | sums and line fits, time series, the steady-interval search, and its figures in terms of the points |
| `Histogram`, `History`, `Selection`, `Bracketing` | scraped histograms against the observations behind them, what a selector selects, bracketing scrapes |
| `Text`, `Scanning`, `PromText`, `Measured` | the line scanner, the exposition text, and a whole window measured from scraped texts |
| `Selectors`, `YamlTree`, `YamlTrails`, `YamlNames`, `YamlStrip`, `YamlSet`, `Render`, `RenderTuned`, `TunedFigures` | reading selectors, and locating, deleting and overwriting keys of a configuration tree |
| `Names`, `Campaign`, `CampaignProperties`, `CampaignFigures`, `RollupFigures` | the roll-up of a campaign, its laws, and its figures and contents in terms of the cells |
| `Verdicts`, `VerdictClaims`, `VerdictExamples` | the arms a report lists and the sentence that leads it |
| `Options`, `Lists`, `Integers`, `Reals` | shared helpers |
| `Describe`, `Samples`, `Compare`, `Decisions`, `Pairing`, `GateFigures` | sample statistics, comparisons, the generator-saturation correlation |
| `Knee`, `KneeFigures`, `Ramp`, `Plan`, `ScheduleFigures`, `Stream`, `FrameFigures`, `Clock` | capacity ramps, arm rotation, stream aggregation, clock offsets |
| `Shell`, `ShellEnv`, `SeriesPipe` | the remote command line and its environment, the series pipe between three processes |

## What the proofs found

The properties below fail of the code as one would first state them.  Each entry names the lemma that
says exactly when the code does meet the property, and, where there is one, the lemma with an input that
breaks it.

- Re-windowing a series from one of its own points gives back that suffix if and only if no earlier
  point shares the instant (`WindowIsSuffixIff`). Bucketing guarantees that, so detection is exact.
- Stripping deletes what it located and nothing else if and only if no pair is located twice
  (`DeletionExactIff`, `StripBaseline`); otherwise a neighbouring pair goes too, or the loop runs off the
  end. Two selectors can do that (`OverlapArises`), and so can one, over a list with an aliased element
  (`AliasIsLocatedTwice`).
- Verifying a baseline by name is sound for a tunable if and only if its selector goes through a key of
  that name (`VerifyIsSoundIff`).
- A tuned configuration reads back if and only if every given knob keeps a place outside the values
  overwritten, and no other literal was written there (`TunedReadsBackIff`); the pass itself panics
  exactly when a knob is located in a mapping it has already emptied (`SetTuned`).
- A negative index in a selector is accepted and selects every element, as `[*]` does
  (`NegativeIndexIsWildcard`).
- A sample with a timestamp, which the text format allows, is not read as itself (`SampleReadsIff`).
- The scrape that closes a window is chosen by its stamp, which is taken after its counters were read:
  the window's own observations are all counted, whatever the history, if and only if the reading too
  was no earlier than the window's end (`MeasuredWindowIsSound`).
- Excluded cells leave every conclusion alone if and only if each scenario with usable cells is settled:
  its undeclared baseline does not change, or fewer than two of its arms have usable cells
  (`RollupOfUsable`, `InterferenceIff`). One excluded cell can otherwise remove every comparison
  (`UndeclaredBaselineInterferes`). The shipped caller always declares the first arm
  (harness/cmd/perf/run.go:361-369), so only another caller of `Rollup` can meet this.
- Making a report again from the same cells lists the same arms in the same order if and only if no arms
  are declared or at most one undeclared arm ran (`ListingDeterminedIff`).
- "Every delta that could be decided is inside its noise band" is said of campaigns with an improvement
  (`NoRegressionClaimIff`, `NoRegressionHidesAnImprovement`), and "the other scenarios are inside their
  noise bands" of scenarios about which nothing was concluded (`OthersClaimIff`, `OthersMayBeUndecided`).
- The forward scan that pairs throughput with CPU points finds the nearest ones for every
  throughput series if and only if no CPU timestamp repeats before the last (`ScanIsNearestIff`).
- A campaign that names a scenario twice, which validation allows, plans duplicate cells
  (`PlannedOnceIff`); resuming would then take both for done.
- Loosening the knee's thresholds as written never lowers its rate if and only if no zero is misread: a
  ratio lowered to 0 becomes 0.99, and a latency factor raised from 0 starts at 3 (`LooseningIff`).
- The uncertainty reported with a clock drift bounds its error, for all honest stamps, if and only if one
  round trip is zero and the other even (`ReportedBoundsIff`); twice it always does (`DriftIsSound`).
- If `runner.Run` fails while the reader goroutine has not yet entered `open()`, the wait for it never
  ends (`HangIsReachable`); no other run hangs (`OnlyOneWayToHang`).
- A program whose path holds an equals sign is not run when variables are set; `env` takes the path for
  one more of them (`EnvRunsTheProgramIff`).
- Two guards are unreachable: "nothing to difference" for a window of positive length
  (`NothingBetweenNeedsNoWindow`), and the quantile's empty-bucket division (`ScanFinds`).

## Model

| member | source | states |
|---|---|---|
| `TimeSeries.Window` | harness/internal/series/series.go:63-75 | the loop with its early stop equals the clipping it specifies |
| `TimeSeries.WindowIsSlice` | harness/internal/series/series.go:57-75 | on sorted points the early stop loses nothing: the result is one slice, exactly the points in the closed interval |
| `TimeSeries.WindowIsSuffixIff` | harness/internal/series/series.go:63-75 | windowing from a point to the end is that suffix if and only if no earlier point shares its instant |
| `TimeSeries.Bucket` | harness/internal/series/series.go:120-152 | the streaming pass with its flush equals the grouping into runs |
| `TimeSeries.BucketIsPartition` | harness/internal/series/series.go:116-152 | starts are strictly increasing multiples of the width, every point is in exactly one bucket, each value is the mean of precisely the points inside |
| `TimeSeries.BucketConserves` | harness/internal/series/series.go:120-152 | bucket means weighted by counts sum to the input total |
| `TimeSeries.BucketIdempotent` | harness/internal/series/series.go:120-152 | bucketing twice with one width is bucketing once |
| `TimeSeries.ComputeCVSquared` | harness/internal/series/series.go:232-262 | the coefficient of variation, squared, absent for an empty, single or near-zero-mean series |
| `TimeSeries.Slope` | harness/internal/series/series.go:264-304 | the sums the loop accumulates give the fitted trend |
| `TimeSeries.TrendExistsIff` | harness/internal/series/series.go:264-304 | there is a trend exactly for three points or more that do not all share one instant |
| `TimeSeries.SlopeIsBestLine` | harness/internal/series/series.go:264-304 | no line through the data has a smaller squared error, any other gradient has a larger one, and r squared is in [0,1] |
| `TimeSeries.ShiftKeepsShape` | harness/internal/series/series.go:80-86 | moving a series in time changes neither its values, mean, variation nor trend |
| `TimeSeries.ScaleKeepsShape` | harness/internal/series/series.go:248-304 | a positive change of unit leaves the variation alone and scales the gradient |
| `TimeSeries.Rate` | harness/internal/series/series.go:88-114 | the differentiating loop and its reset count |
| `TimeSeries.RateIntegratesToDelta` | harness/internal/series/series.go:88-114 | every interval is emitted at its later end or counted as a reset; with none the rates integrate back to last minus first |
| `LeastSquares.ComputeMoments` | harness/internal/series/series.go:272-304 | the two accumulation passes shared by slope, correlation and order effect compute means, spreads and covariance |
| `LeastSquares.FitIsOptimal` | harness/internal/series/series.go:264-304 | the fitted line is the unique least-squares minimum over all lines |
| `LeastSquares.CauchySchwarz` | harness/internal/series/series.go:292-304 | the squared covariance never exceeds the product of the spreads, for sequences of any length |
| `LeastSquares.DeterminationIsExplainedShare` | harness/internal/series/series.go:292-304 | r squared is in [0,1] and is the share of the spread that the fit removes |
| `Steady.TooCoarseToCorroborate` | harness/internal/stats/steady.go:134-154 | the resolution as a share of the mean, infinite for no mean, and when it is too coarse to veto |
| `Steady.ComputeSlopePctPerMin` | harness/internal/stats/steady.go:270-282 | the trend as percent of the mean per minute |
| `Steady.DetectSteady` | harness/internal/stats/steady.go:156-244 | the early-exit search returns what judging every start in turn would |
| `Steady.NoLateStarts` | harness/internal/stats/steady.go:180-195 | the starts the loop never visits could not have been accepted first |
| `Steady.EarliestFlatSuffix` | harness/internal/stats/steady.go:156-244 | detection succeeds exactly when some bucketed suffix is long enough, flat and not vetoed, and it returns the earliest, with the prefix it discards |
| `Steady.RelaxingMovesEarlier` | harness/internal/stats/steady.go:134-244 | a looser bound, a coarser known resolution or no corroborator never turns acceptance into rejection and never moves the start later |
| `Steady.DetectionFollowsTheClock` | harness/internal/stats/steady.go:156-244 | moving all series by one offset moves the window by it and nothing else |
| `Steady.RescalingKeepsTrend` | harness/internal/stats/steady.go:270-282 | the percentage trend does not see the unit |
| `Trends.TrendIsRiseInAMinute` | harness/internal/stats/steady.go:270-282 | for every best line through the points, the trend times the size of the mean is a hundred times what that line rises from 0 s to 60 s |
| `Trends.TrendOfALine` | harness/internal/stats/steady.go:270-282 | so points on a line have that line's rise in a minute, as a percentage of their mean |
| `Trends.TrendShareIsExplained` | harness/internal/series/series.go:292-304 | r squared is the share of the squared error about the mean that every best line takes off, and 1 for equal values |
| `Trends.VariationIsBessel` | harness/internal/series/series.go:232-262 | the squared variation is the squared error about the mean over n - 1, as a share of the squared mean, and exists for two points or more with a mean to divide by |
| `Trends.DetectionIs` | harness/internal/stats/steady.go:134-244 | binned or not, an interval is detected if and only if the points from some instant to the last span long enough, stay within the variation and rise within the bound in a minute by every best line, and no corroborator that its resolution lets speak climbs beyond its own; it is the earliest, with its own figures, note and corroboration |
| `Trends.RatesAreRisesPerSecond` | harness/internal/series/series.go:88-114 | each rate times the seconds of the interval before it is what the counter rose in it |
| `Describe.Describe` | harness/internal/stats/describe.go:33-69 | filling and sorting the copies in place yields the described summary |
| `Describe.QuantileMonotone` | harness/internal/stats/describe.go:71-88 | a higher level never gives a lower quantile |
| `Describe.QuantileBetween` | harness/internal/stats/describe.go:71-88 | a quantile lies between the order statistics on either side of its position |
| `Describe.MedianSplits` | harness/internal/stats/describe.go:71-88 | at least half of the values lie on each side of the median |
| `Describe.DescribeForgetsOrder` | harness/internal/stats/describe.go:33-69 | permuting the repetitions changes nothing but the recorded order |
| `Describe.SummaryOrdered` | harness/internal/stats/describe.go:33-69 | minimum, quartiles, median and maximum are ordered and inside the sample |
| `Describe.DrawSample` | harness/internal/stats/describe.go:106-114 | one resample drawn from the shared source and sorted in place |
| `Describe.BootstrapMedianCI` | harness/internal/stats/describe.go:90-119 | the resampling loop and how far it advances the source |
| `Describe.BootstrapInRange` | harness/internal/stats/describe.go:90-119 | for any source the interval is proper and inside the sample's own range |
| `Describe.OrderEffect` | harness/internal/stats/describe.go:121-160 | the fit of value against position |
| `Describe.OrderShareIsAShare` | harness/internal/stats/describe.go:121-160 | its r squared is in [0,1], and exists only when cells had distinct positions |
| `Trends.OrderEffectIsRisePerPlace` | harness/internal/stats/describe.go:121-160 | the order effect is what every best line rises per place, as a percentage of the mean, and exists for three cells or more, not all in one place, with a mean to measure against |
| `Trends.OrderShareIsExplained` | harness/internal/stats/describe.go:121-160 | its r squared is the share of the values' squared error about their mean that every best line takes off, and 1 for equal values |
| `Samples.QuantileIsLinear` | harness/internal/stats/describe.go:71-88 | between two order statistics a quantile is linear in its level |
| `Samples.SummaryIs` | harness/internal/stats/describe.go:33-69 | the count, extremes and quartiles are those of the sorted values, the deviation the median of their distances from the median |
| `Samples.SpreadIsRangeOverMedian` | harness/internal/stats/describe.go:63-69 | the spread times the size of the median is a hundred times the range; it is 0 for a median of 0 |
| `Samples.IntervalIs` | harness/internal/stats/describe.go:90-119 | an interval exists for three values or more, some resamples and a level inside the unit interval, and cuts half of what the level leaves from either end of the medians of resamples drawn one after another |
| `Compare.Compare` | harness/internal/stats/compare.go:74-139 | the stepwise decision, with its early returns and its use of the source |
| `Compare.SignificanceIsHonest` | harness/internal/stats/compare.go:74-139 | Higher only with the new median at or above the baseline's largest repetition, Lower at or below its smallest, and only with enough repetitions and disjoint intervals |
| `Compare.PermutationsNeverDiffer` | harness/internal/stats/compare.go:74-139 | two arms of the same repetitions are never significant, for any source |
| `Compare.SwapNeverAgrees` | harness/internal/stats/compare.go:74-139 | swapping the arms never keeps a direction |
| `Compare.RandomnessOnlyVetoes` | harness/internal/stats/compare.go:74-139 | the source can turn a direction into noise and nothing else |
| `Decisions.DecisionIs` | harness/internal/stats/compare.go:74-139 | Higher if and only if both counts reach the minimum, the median rises by at least the floor and by at least either sample's range relative to its median, and the intervals, if both exist, are apart; Lower likewise; Insufficient if and only if a count falls short |
| `Decisions.FiguresAre` | harness/internal/stats/compare.go:98-112 | the delta is the change of the median as a percentage of the old one, the band the largest of floor and the two spreads |
| `Decisions.IntervalsAre` | harness/internal/stats/compare.go:88-97 | the old sample is resampled first, the new one where that left the source |
| `Names.SortedSubset` | harness/internal/result/campaign.go:773-802 | sorting part of the names keeps the order they have in the whole |
| `Names.LeqIff` | harness/internal/result/campaign.go:773-802 | a name comes before another if it is a prefix of it or smaller where they first differ |
| `Campaign.ComputeMetric` | harness/internal/result/campaign.go:422-440 | one metric over the usable cells that measured it |
| `Campaign.ComputeArm` | harness/internal/result/campaign.go:374-420 | an arm's counts and metrics |
| `Campaign.CompareArms` | harness/internal/result/campaign.go:442-482 | the comparisons of one arm with the baseline, threading the one source |
| `Campaign.ComputeArmOrder` | harness/internal/result/campaign.go:771-791 | declared arms that ran first, the others sorted after them |
| `Campaign.ComputeScenario` | harness/internal/result/campaign.go:331-372 | one scenario's arms and comparisons |
| `Campaign.Conclude` | harness/internal/result/campaign.go:508-541 | findings and evidence counts over all comparisons |
| `Campaign.ComputeRollup` | harness/internal/result/campaign.go:262-329 | the whole roll-up as loops over cells, scenarios and arms |
| `CampaignProperties.ArmOrderVisitsOnce` | harness/internal/result/campaign.go:771-791 | every arm that occurs is visited exactly once |
| `CampaignProperties.BaselineStableIff` | harness/internal/result/campaign.go:337-372 | when excluded cells leave an undeclared baseline alone |
| `CampaignProperties.ScenarioOfUsable` | harness/internal/result/campaign.go:331-372 | a scenario's comparisons are those of its usable cells if and only if the baseline is stable or fewer than two arms have usable cells |
| `CampaignProperties.RollupOfUsable` | harness/internal/result/campaign.go:268-372 | everything concluded is what the usable cells alone conclude if and only if every scenario with usable cells is settled in that sense |
| `CampaignProperties.InterferenceIff` | harness/internal/result/campaign.go:268-372 | two sets of cells with the same usable ones reach the same comparisons if and only if the same scenarios are settled in both |
| `CampaignProperties.ExcludedCellsDoNotInterfere` | harness/internal/result/campaign.go:262-372 | with a declared baseline and one seed, cells that agree on the usable ones reach the same comparisons, findings and evidence, though one source is threaded through all comparisons |
| `CampaignProperties.UndeclaredBaselineInterferes` | harness/internal/result/campaign.go:337-372 | without a declared baseline one excluded cell can remove every comparison |
| `CampaignProperties.CellsAreConserved` | harness/internal/result/campaign.go:268-420 | the three verdicts add up to the cells that ran, and used plus excluded over all scenarios and arms does too |
| `CampaignFigures.ClientFiguresAre` | harness/internal/result/campaign.go:384-402 | throughput and client latencies are compared on the cells' own figures, one each |
| `CampaignFigures.ServerFiguresAre` | harness/internal/result/campaign.go:392-414 | a figure a cell did not measure is left out: the server's mean where there is one, processor time, memory and start-up where they are above 0 |
| `CampaignFigures.ArmIs` | harness/internal/result/campaign.go:374-420 | an arm is summarised over the cells of its scenario and name that no gate excluded, in eight quantities, and fitted against their places |
| `CampaignFigures.ComparedQuantities` | harness/internal/result/campaign.go:442-482 | of six quantities, each that both arms measured is compared once, in a fixed order |
| `CampaignFigures.ComparisonsAre` | harness/internal/result/campaign.go:331-482 | every comparison of a roll-up is of the usable cells of its own scenario and arms: their counts, medians, change and band, decided with three a side, a floor of 2 % and 95 % intervals of 2000 resamples from the seed's source |
| `CampaignFigures.JudgementsAre` | harness/internal/result/campaign.go:484-506 | a comparison is a regression if and only if a direction was found and the arm's median is worse, lower for throughput and higher for anything else; an improvement in the mirror image |
| `CampaignFigures.FindingsAre` | harness/internal/result/campaign.go:508-526 | the findings are the comparisons of their label in report order, with their scenario, arm, quantity and change |
| `CampaignFigures.CountsAre` | harness/internal/result/campaign.go:268-329 | the counts of cells and of decided comparisons are the numbers of those there are |
| `CampaignFigures.ArmsAreInOrder` | harness/internal/result/campaign.go:771-791 | arms come as they are declared, the others after them by name |
| `RollupFigures.RollupIs` | harness/internal/result/campaign.go:262-372 | every scenario that ran is there once, by name; in it every arm that ran, once, in order, rolled up from its own cells; and every contrast with the baseline there is to make, in order |
| `RollupFigures.CellsOfArm` | harness/internal/result/campaign.go:374-383 | an arm's cells are those of its scenario and name, excluded or not |
| `RollupFigures.FlatIs` | harness/internal/result/campaign.go:508-541 | what is counted and reported is every scenario's every comparison, one scenario after the other |
| `Verdicts.ListArms` | harness/internal/result/campaign.go:753-769 | the declared arms that ran, then each other one once in whatever order the map yields, all sorted only when none is declared |
| `Verdicts.ListingDeterminedIff` | harness/internal/result/campaign.go:262-268 | the listing is the same from run to run if and only if nothing is declared or at most one undeclared arm ran |
| `Verdicts.ComputeVerdict` | harness/internal/result/campaign.go:550-618 | the cases of the leading sentence, tried in the source's order, with the counts it prints |
| `Verdicts.VerdictIsTrue` | harness/internal/result/campaign.go:543-618 | each case is given exactly when the cells and comparisons warrant it: want of evidence is never announced as no regression, every regression is announced, and the scenarios counted are those that have one and the rest |
| `VerdictClaims.NoRegressionClaimIff` | harness/internal/result/campaign.go:575-577 | the claim that every decided delta is inside its band holds if and only if nothing improved |
| `VerdictClaims.OthersClaimIff` | harness/internal/result/campaign.go:579-589 | the claim that the other scenarios are inside their bands holds if and only if each was compared, wholly decided, and without improvement |
| `VerdictExamples.NoRegressionHidesAnImprovement` | harness/internal/result/campaign.go:575-577 | six cells for which the first claim is made and false |
| `VerdictExamples.OthersMayBeUndecided` | harness/internal/result/campaign.go:579-589 | seven cells for which the second claim is made and false |
| `Exposition.ComputeTotal` | harness/internal/promx/parse.go:199-222 | the sum over matching samples, absent when none matches |
| `Histograms.ComputeBuckets` | harness/internal/promx/window.go:39-83 | cumulative counts added up per edge over matching series |
| `Histograms.HistogramWindow` | harness/internal/promx/window.go:39-83 | two scrapes differenced bucket by bucket, clamped at zero |
| `Selection.TotalIs` | harness/internal/promx/parse.go:199-222 | a total is the sum over the samples that have every wanted label, absent when none has |
| `Selection.WindowIs` | harness/internal/promx/window.go:39-105 | the window's edges are those of the later scrape that are selected, each with the rise of its count, or 0 where it fell; its sum and count are the rises of theirs, absent after a reset; its observations are those of "+Inf" |
| `Selection.RuledOutCountsForNothing` | harness/internal/promx/parse.go:16-26 | a sample with another value for a wanted label can be deleted without changing total, buckets or edges |
| `Selection.AgreeingAddsItsValue` | harness/internal/promx/parse.go:16-26 | a sample with every wanted label adds its value to the total and to its edge |
| `Histograms.ComputeQuantile` | harness/internal/promx/window.go:107-190 | the bounded quantile is the scan of a sorted listing of the finite edges |
| `Histograms.ScanFinds` | harness/internal/promx/window.go:142-190 | the scan answers from the first edge whose count reaches the target, so the bucket it divides by is never empty |
| `Histograms.InterpolationMeetsTarget` | harness/internal/promx/window.go:170-190 | the interpolated figure lies in its bucket, where the linear count meets the target |
| `Histograms.QuantileIs` | harness/internal/promx/window.go:107-190 | the answer is for the rank that is the quantile's share of the total, at the first edge whose count reaches it, and where the count taken as linear meets it |
| `Histograms.QuantileMonotone` | harness/internal/promx/window.go:107-190 | a higher quantile never gives a lower answer, across all three kinds of answer |
| `History.GroupsCountOnce` | harness/internal/promx/parse.go:199-222 | over the exposed series every matching observation is counted once |
| `History.DifferenceIsWindow` | harness/internal/promx/window.go:11-24 | differencing a counter counts exactly the observations between the scrapes |
| `History.WindowedIsExact` | harness/internal/promx/window.go:39-83 | each windowed bucket is the number of matching observations between the two scrapes at or below its edge |
| `History.MeanIsExact` | harness/internal/promx/window.go:85-105 | count and mean are the observations' own |
| `History.ReachesIff` | harness/internal/promx/window.go:142-170 | a cumulative count reaches the target exactly when the ceil(q n)-th order statistic is at or below the edge |
| `History.OrderStatisticIs` | harness/internal/promx/window.go:107-190 | the true quantile is one of the values, the least that the quantile's share of them is at or below |
| `History.QuantileIsSound` | harness/internal/promx/window.go:107-190 | the true order statistic lies where Below, Above or the interpolated bucket says |
| `History.WindowQuantileIsSound` | harness/internal/promx/window.go:39-190 | the same end to end, from a growing history through two scrapes to the answer |
| `Bracketing.FindBracket` | harness/internal/collect/collect.go:81-127 | the last scrape at or before the start, the first at or after the end, and which refusal applies exactly when |
| `Bracketing.BracketIsNarrowest` | harness/internal/collect/collect.go:81-127 | no pair of scrapes enclosing the window is narrower |
| `Bracketing.NothingBetweenNeedsNoWindow` | harness/internal/collect/collect.go:112-127 | one refusal needs an empty or inverted window |
| `PromText.ParseLabels` | harness/internal/promx/parse.go:113-173 | the character loop with its flags equals the label automaton |
| `PromText.Parse` | harness/internal/promx/parse.go:44-98 | the line loop that appends samples per metric, and its failure on a line beyond the scanner's buffer |
| `Scanning.ScanStopsAtTheFirstTooLong` | harness/internal/promx/parse.go:52-57 | the scanner delivers the longest run of lines that all fit a mebibyte, and fails exactly when that is not all of them |
| `Scanning.FitsIff` | harness/internal/promx/parse.go:61-63 | a line of ASCII fits if and only if it is shorter than 1 MiB |
| `Scanning.ReturnIsDropped` | harness/internal/promx/parse.go:59-66 | a carriage return before the newline is no part of the line |
| `PromText.LabelsRoundTrip` | harness/internal/promx/parse.go:113-173 | printing labels with the escapes of the Prometheus text exposition format 0.0.4 and parsing them gives them back |
| `PromText.LineRoundTrip` | harness/internal/promx/parse.go:59-98 | one printed sample gives back its name, labels and number, whatever characters the label values hold |
| `PromText.PaddedLineRoundTrip` | harness/internal/promx/parse.go:59-98 | so it does with spaces, tabs or a carriage return around it, before its braces or before its number |
| `PromText.MalformedIsSkipped` | harness/internal/promx/parse.go:72-90 | a line that ends in no number is passed over |
| `PromText.SampleReadsIff` | harness/internal/promx/parse.go:72-90 | a printed sample is read as itself if and only if it carries no timestamp, which is otherwise taken for the value |
| `PromText.ScrapeRoundTrip` | harness/internal/promx/parse.go:44-98 | a printed scrape of samples, comments and malformed lines reads back as recording its entries one after another, and is refused if and only if an entry is longer than the scanner's buffer |
| `PromText.ScrapeHoldsEverySample` | harness/internal/promx/parse.go:44-98 | for every name, the samples read are exactly the printed ones of that name, in order, each with its own labels and number; a name without any is absent |
| `PromText.AsMapIsTheList` | harness/internal/promx/parse.go:113-173 | with distinct keys the label map holds exactly the printed pairs |
| `Measured.MeasureWindow` | harness/internal/collect/collect.go:129-144 | the bracketing pair, both texts parsed, and their histograms differenced |
| `Measured.CountsAllIff` | harness/internal/promx/window.go:11-24 | differencing between two instants counts every observation of a window, whatever the history, if and only if the window is empty or lies inside |
| `Measured.MeasuredWindowIsSound` | harness/internal/collect/collect.go:81-144 | from sorted scrapes of one history to the answer: the narrowest bracket, exact counts between its two readings, a quantile that keeps its promise, and exactly when the window's own observations are among those counted |
| `Selectors.ParsePath` | harness/internal/render/path.go:19-54 | which texts are selectors, and of what segments |
| `Selectors.AtoiIs` | harness/internal/render/path.go:36-52 | an index is a sign at most and digits, within 64 bits |
| `Selectors.PathRoundTrip` | harness/internal/render/path.go:19-54 | printing any well-formed segments and parsing them gives them back |
| `Selectors.PathNormalises` | harness/internal/render/path.go:19-54 | every accepted text has well-formed segments, whose printed form means the same |
| `Selectors.RoundTripIff` | harness/internal/render/path.go:19-54 | segments survive their own printing if and only if each is well formed |
| `Selectors.NegativeIndexIsWildcard` | harness/internal/render/path.go:96-110 | a selector with negative indices locates exactly what it does with wildcards in their place |
| `Render.DerefNode` | harness/internal/render/path.go:113-132 | document and alias nodes are unwrapped |
| `Render.FindMatches` | harness/internal/render/path.go:66-111 | the pair loop locates what the selector specifies, in order |
| `Render.KeyPathsNamed` | harness/internal/render/path.go:134-159 | the search for a name anywhere |
| `Render.DeletePairs` | harness/internal/render/render.go:150-152 | the in-place deletions, one after another, on the node heap, and when they run off the end |
| `Render.StripBaseline` | harness/internal/render/render.go:84-153 | the pass leaves every node as it was, less exactly the located pairs, if and only if no pair was located twice, and then no selector locates anything |
| `Render.VerifyBaseline` | harness/internal/render/render.go:189-199 | passes exactly when no tunable's name is a key anywhere |
| `Render.VerifyIsSound` | harness/internal/render/render.go:177-199 | a verified baseline holds nothing that a selector with its tunable's name in it locates |
| `Render.VerifyIsSoundIff` | harness/internal/render/render.go:177-199 | over every document that is so for a tunable if and only if its selector goes through a key of its name |
| `Render.StrippingAgainChangesNothing` | harness/internal/render/render.go:84-153 | a second strip is the identity |
| `Render.OverlapArises` | harness/internal/render/render.go:134-152 | a document and two tunables that locate one pair, so that no order of the deletions is exact |
| `Render.AliasIsLocatedTwice` | harness/internal/render/path.go:113-132 | a document with an aliased list element, in which one tunable alone does |
| `YamlNames.AbsentKeyLocatesNothing` | harness/internal/render/path.go:66-159 | where no key has a name, no selector locates anything that goes through that name |
| `YamlTree.FindIsCovered` | harness/internal/render/path.go:66-159 | every located path is also reported by the search for its last key |
| `YamlTree.DeletionIsExact` | harness/internal/render/render.go:134-152 | deleting distinct pairs in globally descending position order removes exactly them, however ties fall |
| `YamlTree.DuplicatesOverdelete` | harness/internal/render/render.go:134-152 | a pair located twice breaks that, always |
| `YamlTree.DeletionExactIff` | harness/internal/render/render.go:134-152 | deletion is exact if and only if no pair is located twice |
| `YamlTree.FindLocates` | harness/internal/render/path.go:66-111 | every match is a key/value pair of a mapping of the document |
| `YamlTrails.FindIff` | harness/internal/render/path.go:66-132 | a selector locates exactly the pairs that some trail of steps follows it to, through documents and aliases, with the path that spells the trail |
| `YamlTrails.NoneReportedIff` | harness/internal/render/path.go:134-159 | the search for a name reports nothing exactly when no trail through values and elements leads to a key of that name |
| `YamlStrip.FindGone` | harness/internal/render/render.go:134-152 | a selector all of whose matches were removed locates nothing afterwards |
| `YamlStrip.StrippedAnswers` | harness/internal/render/render.go:134-152 | after a strip any selector at all locates what the search of the original does when it passes over the removed pairs, in the same order |
| `YamlStrip.UntouchedIff` | harness/internal/render/render.go:134-152 | so it locates the same as before if and only if that search loses nothing |
| `YamlSet.RetunedAnswers` | harness/internal/render/render.go:111-127 | after the writes any selector at all locates what the search of the original does when it stays out of the overwritten values |
| `YamlSet.FindUnchanged` | harness/internal/render/render.go:111-127 | a selector that locates nothing inside an overwritten value, whatever that value was, locates the same pairs as before |
| `RenderTuned.SetScalar` | harness/internal/render/render.go:252-263 | a node becomes a plain literal, without tag, style, anchor, alias or content |
| `RenderTuned.SetTuned` | harness/internal/render/render.go:86-133 | the pass turns the located values of the given knobs into their literals, touches nothing else, succeeds exactly when each given knob is located, and panics exactly when one is located in a mapping already emptied |
| `TunedFigures.WritesAre` | harness/internal/render/render.go:86-133 | overwritten are the nodes that follow the keys of the pairs which the given knobs are located at, each with the literal of the last such knob |
| `RenderTuned.VerifyTuned` | harness/internal/render/render.go:200-220 | passes exactly when each given knob, through its declared selector or the default one, is located and reads its literal everywhere |
| `TunedFigures.ReadsIff` | harness/internal/render/render.go:200-220 | a selector reads a literal when it locates a pair and what follows the key of every pair it locates says so |
| `RenderTuned.DefaultSelectorIs` | harness/internal/render/render.go:276-285 | a knob that no tunable declares is looked for in every root flow |
| `RenderTuned.VerifyIsTunedOk` | harness/internal/render/render.go:200-250 | for values of declared knobs, that is what every knob's own selector reads |
| `RenderTuned.TunedReadsBackIff` | harness/internal/render/render.go:111-220 | after the pass, reading back succeeds if and only if every given knob keeps a match outside the overwritten values and each such match holds its own literal |
| `RenderTuned.ApartReadsBackIff` | harness/internal/render/render.go:111-220 | with no knob inside another's value, if and only if every given knob is located and no two want different literals at one place |
| `Shell.RemoteCommand` | harness/internal/exec/ssh.go:148-196 | the builder writes the quoted directory, environment, path and arguments |
| `Shell.QuoteIsOneWord` | harness/internal/exec/ssh.go:465-480 | a quoted string is read by the shell as one word holding exactly that string |
| `Shell.RemoteRoundTrip` | harness/internal/exec/ssh.go:148-196 | tokenised by the rules of POSIX.1-2017 XCU sections 2.2 and 2.3 the command yields exactly its parts, unless it carries a NUL |
| `Shell.EnvironmentIsWhole` | harness/internal/exec/ssh.go:485-492 | one assignment per variable, in ascending order of name |
| `ShellEnv.EnvRunsTheProgramIff` | harness/internal/exec/ssh.go:165-196 | with variables set, the far end's `env` runs the program with its arguments and exactly its environment if and only if every name can be set and the path holds no equals sign |
| `ShellEnv.PathBecomesAVariable` | harness/internal/exec/ssh.go:182-196 | a path that holds one becomes a variable, and the first argument is looked at in its place |
| `Pairing.ComputePairs` | harness/internal/gate/gates.go:177-191 | the forward-only scan, on any series |
| `Pairing.ScanFindsNearest` | harness/internal/gate/gates.go:177-191 | on sorted series each throughput point is held against the leftmost globally nearest CPU point |
| `Pairing.ScanIsNearestIff` | harness/internal/gate/gates.go:177-191 | it is so for every sorted throughput series if and only if no CPU timestamp repeats before the last |
| `Pairing.NegativeCorrelation` | harness/internal/gate/gates.go:170-200 | the gate fires exactly when at least five pairs of nearest points within 1.5 s correlate at -0.7 or below, and gives the moments the coefficient is the quotient of |
| `Pairing.CorrelationInUnit` | harness/internal/gate/gates.go:202-221 | Pearson's r is in [-1,1], and is at most -0.7 exactly when the squares say so |
| `GateFigures.GateFiresIff` | harness/internal/gate/gates.go:170-221 | the gate, on instants and values: five points of either series, five pairs with the nearest CPU point within 1.5 s, and Pearson's r of the pairs, by its root, at -0.7 or below |
| `Knee.FindKnee` | harness/internal/stats/knee.go:107-200 | the answer is the longest held prefix: all rungs reported but the last hold, the rate is the last held one, the failure is the first |
| `KneeFigures.VerdictIs` | harness/internal/stats/knee.go:107-200 | a rung's verdict is the first that applies of: nothing observed, dropped more than allowed, failed more than the allowed share of its requests, fell short of its share of the offered rate, slower than its multiple of the first latency seen |
| `KneeFigures.HeldIff` | harness/internal/stats/knee.go:107-200 | a rung holds if and only if none of them applies, read from the points inside its window |
| `Knee.KneeIsUnique` | harness/internal/stats/knee.go:107-200 | that description fixes the whole answer |
| `Knee.NothingLaterMatters` | harness/internal/stats/knee.go:107-200 | neither rungs after the failure nor observations outside the examined windows matter, whether or not a rung failed |
| `Knee.LooseningNeverLowers` | harness/internal/stats/knee.go:70-79 | on an ascending ramp looser effective thresholds never lower the rate and never find a knee where there was none |
| `Knee.LooseningIff` | harness/internal/stats/knee.go:70-79 | loosening as written never lowers the rate, on any ascending ramp and run, if and only if it loosens the thresholds after defaults, which is to say no zero ratio or factor is misread |
| `Knee.ChosenWithinFraction` | harness/internal/stats/knee.go:95-105 | the chosen rate is the largest whole number within the fraction, never above the knee |
| `Ramp.RampStages` | harness/internal/stats/knee.go:202-230 | a transition and a dwell per target |
| `Ramp.TargetsRise` | harness/internal/stats/knee.go:209-230 | with the start at or below the peak, targets rise within both and end at the peak |
| `Ramp.StepWindows` | harness/internal/stats/knee.go:238-258 | the windows the cursor lays out |
| `Ramp.PlanRamp` | harness/internal/campaign/calibrate.go:125-172 | window i is exactly the dwell stage of rung i less its last nanosecond, at that stage's rate |
| `Ramp.WindowsSeeOnlyTheirDwell` | harness/internal/stats/knee.go:238-258 | no instant of a window belongs to a transition or to any other stage |
| `Ramp.WindowsDisjoint` | harness/internal/stats/knee.go:238-258 | windows are pairwise disjoint |
| `Ramp.ScheduleTakesItsDuration` | harness/internal/spec/spec.go:291-296 | the stages sum to the announced duration |
| `RampFigures.ScheduleIs` | harness/internal/spec/spec.go:272-296 | every stage of the schedule, with its defaults in figures: a twentieth of the peak to start from, ten rungs of 15 s, 1 s between them, a warm-up as long as a rung |
| `RampFigures.TargetsAreEven` | harness/internal/stats/knee.go:202-230 | each target is within one of the straight line from start to peak, and a single one is the peak |
| `Plan.ArmOrder` | harness/internal/plan/plan.go:126-147 | the slots of a repetition, with Go's signed remainder, are a rotation by the mathematical residue |
| `Plan.EachArmOnce` | harness/internal/plan/plan.go:126-147 | a repetition gives every arm one slot |
| `Plan.LatinSquare` | harness/internal/plan/plan.go:126-147 | over n consecutive repetitions each arm takes each slot exactly once, for any seed |
| `Plan.SlotsBalance` | harness/internal/plan/plan.go:126-147 | over any number of repetitions slot counts differ by at most one |
| `PlanFigures.RotationIs` | harness/internal/plan/plan.go:126-147 | which arm each slot of a repetition runs: the slot moved on by the repetition before it and, where the order says so, by the seed |
| `Plan.Expand` | harness/internal/plan/plan.go:73-124 | the cell loop, and exactly when it refuses |
| `Plan.CellsAreTheProduct` | harness/internal/plan/plan.go:89-120 | ordinals equal indices and the cells are exactly the product of scenarios, arms and repetitions |
| `PlanFigures.CellsInTurn` | harness/internal/plan/plan.go:89-120 | every cell sits in the slot its place in the plan gives it and runs that slot's arm |
| `PlanFigures.RefusedIff` | harness/internal/plan/plan.go:73-88 | a campaign is refused if and only if something it needs is missing, an arm is named twice, or a scenario has no load |
| `Plan.PlannedOnceIff` | harness/internal/plan/plan.go:89-120 | each is planned once if and only if no scenario is named twice |
| `Plan.ScenariosAreContiguous` | harness/internal/plan/plan.go:89-120 | scenarios are never interleaved |
| `Plan.Remaining` | harness/internal/plan/plan.go:149-160 | the filter over the plan |
| `Plan.LeftIsTheComplement` | harness/internal/plan/plan.go:149-160 | what is left is what is not done, each as often as planned |
| `Plan.LeftKeepsOrder` | harness/internal/plan/plan.go:149-160 | in the plan's order |
| `Plan.ResumeComposes` | harness/internal/plan/plan.go:149-160 | resuming a resumed plan is resuming with both sets done |
| `Stream.Aggregator.Add` | harness/internal/loadgen/stream.go:95-124 | a row updates its second's bucket, keeping every bucket the grouping of the rows seen |
| `Stream.Aggregator.Consume` | harness/internal/loadgen/stream.go:51-93 | reading a text appends the rows of the lines that were scanned, counts every one that is not blank, and fails exactly on a line that is too long |
| `Stream.Aggregator.BuildFrame` | harness/internal/loadgen/stream.go:131-192 | the frame is the one group-by-second specifies |
| `Stream.Aggregator.ObservedMaxVUs` | harness/internal/loadgen/stream.go:194-207 | the rounded largest pool size of the whole stream |
| `Stream.RowsTogether` | harness/internal/loadgen/stream.go:57-93 | rows and counts of lists of lines add up |
| `Stream.CutStream` | harness/internal/loadgen/stream.go:57-93 | cutting the stream after any newline changes neither rows, counts nor failure |
| `Stream.FrameAnyOrder` | harness/internal/loadgen/stream.go:57-192 | any reordering of the rows gives the same frame |
| `Stream.CountsAreConserved` | harness/internal/loadgen/stream.go:136-192 | each count series sums to the stream's total of its metric |
| `Stream.FrameTimesIncrease` | harness/internal/loadgen/stream.go:136-192 | times are strictly increasing and no series is empty |
| `FrameFigures.FrameIs` | harness/internal/loadgen/stream.go:131-192 | each second in which rows arrived has, in every series it is due one, a point at that second with the total, the mean or the largest of its metric's values there; there is no other point |
| `FrameFigures.RowIs` | harness/internal/loadgen/stream.go:57-93 | a line of three columns or more is a row of its first three, if the second and third are numbers |
| `FrameFigures.PoolIs` | harness/internal/loadgen/stream.go:194-207 | the pool size is the whole number nearest to the largest seen, a half going up |
| `Clock.MeasureClock` | harness/internal/campaign/clock.go:23-78 | the estimate is that of the first usable probe with the smallest round trip, absent exactly when none is usable |
| `Clock.EstimateIs` | harness/internal/campaign/clock.go:57-78 | in milliseconds, the uncertainty is half the round trip and the offset of an honest stamp is off by no more than that and a nanosecond |
| `Clock.UsableIff` | harness/internal/campaign/clock.go:36-60 | a probe counts if and only if it answered before the context was cancelled |
| `Clock.ProbeError` | harness/internal/campaign/clock.go:57-67 | a stamp taken within the round trip puts the midpoint off by at most half of it plus the nanosecond of halving |
| `Clock.ProbeErrorIsTight` | harness/internal/campaign/clock.go:57-67 | and by exactly that at worst |
| `Clock.OffsetWithinUncertainty` | harness/internal/campaign/clock.go:23-78 | the reported uncertainty bounds the error up to one nanosecond and no other probe promises less |
| `Clock.DriftBetween` | harness/internal/campaign/clock.go:114-130 | measured exactly when both estimates are; errors within the two uncertainties leave the drift within twice the one it reports |
| `Clock.DriftIsSound` | harness/internal/campaign/clock.go:114-130 | from the probes to the drift: the error is within twice the reported uncertainty up to rounding |
| `Clock.ReportedBoundsIff` | harness/internal/campaign/clock.go:126-128 | for all honest stamps the reported uncertainty alone bounds the error if and only if one round trip is zero and the other even |
| `SeriesPipe.StepKeepsInv` | harness/internal/loadgen/k6.go:217-264 | what every step of reader, k6 and harness keeps |
| `SeriesPipe.CompleteMeansEverything` | harness/internal/loadgen/k6.go:217-264 | a run reported complete has consumed every byte k6 wrote, in order |
| `SeriesPipe.EndMeansEverything` | harness/internal/loadgen/k6.go:222-230 | end of stream is seen only when k6 is gone and nothing is left |
| `SeriesPipe.RunsAreBounded` | harness/internal/loadgen/k6.go:217-264 | no run goes on for ever |
| `SeriesPipe.OnlyOneWayToHang` | harness/internal/loadgen/k6.go:236-264 | every run ends with the harness returned, unless runner.Run failed and the reader had not entered open() at the release |
| `SeriesPipe.StuckForGood` | harness/internal/loadgen/k6.go:248-251 | in that state no participant can move |
| `SeriesPipe.HangIsReachable` | harness/internal/loadgen/k6.go:248-251 | and some run reaches it |
| `SeriesPipe.BoundedWaitReturns` | harness/internal/loadgen/k6.go:253-264 | every run that has come to rest and in which k6 did not fail has returned |
| `SeriesPipe.LateIff` | harness/internal/loadgen/k6.go:236-246 | the reader is late exactly when the release came before it entered open() |
| `SeriesPipe.PromptReaderReadsEverything` | harness/internal/loadgen/k6.go:310-326 | in every run that has come to rest, a reader that was in time and met no error has seen end of stream with every byte consumed, and the harness has returned |
| `SeriesPipe.PromptReaderIsNeverBlocked` | harness/internal/loadgen/k6.go:305-326 | while the harness awaits a reader that was in time, that reader can move |
| `SeriesPipe.OnlyTheHarnessCanFree` | harness/internal/loadgen/k6.go:236-246 | with k6 gone before it opened the pipe, only the release frees the reader |

## Left out

- IEEE-754 rounding, NaN and infinities, and overflow of `int64` in arithmetic: it is exact over `real` and `int`.
- Square roots: the coefficient of variation is compared squared, and Pearson's r through `CorrelationInUnit`.
- The seeded generator itself: the source is any stream of indices.
- Cycles of aliases in a configuration tree, on which the harness' searches would not end.
- Encoding and decoding YAML: verification reads the edited tree, where the harness reads its encoding back.
- RenderTuned.TunedReadsBackIff: requires that no overwritten value is itself a mapping's key, which a tree rules out.
- The line numbers of nodes, and the list of changes with its sort.
- PromText.Parse: number syntax is a parameter, and a read that fails for another reason than a long line is not modelled.
- Stream.Aggregator.Consume: number syntax is a parameter, and a read that fails for another reason than a long line is not modelled.
- Measured.MeasuredWindowIsSound: scraping itself is given by the instants at which counters were read, each between the stamp before and its own.
- Shell.RemoteRoundTrip: that a NUL ends the reading is this model's choice, POSIX leaving it open; no expansion occurs, since nothing is left unquoted.
- ShellEnv.EnvRunsTheProgramIff: what `env` does with an option of its own, or with a variable without a name, is only that it does not run the program.
- SeriesPipe.PromptReaderReadsEverything: says nothing of timing, so that the harness' timer may fire on a reader that is merely slow; k6 opens the pipe at most once.
- Clock.MeasureClock: the three stamps of a probe are parameters; reading `date` output is not modelled.
- Campaign.ComputeRollup: the ledger, the gate calibration and the warnings are not modelled; the listed arms and the verdict are computed beside it, by `Verdicts.ListArms` and `Verdicts.ComputeVerdict`.
- Verdicts.ComputeVerdict: the sentence's cases and counts, not its words, nor the clauses about undecided comparisons and excluded cells that follow.
- CounterDeltaByLabel, ByLabel, Labels.Key and the summary accessors, which would add easy members.
- Notes, sentences and `String` methods.
- Fixed windows, pool sizing, gate thresholds, load merging and validation beyond what the ramp needs.
- Processes, ssh sessions, HTTP, files, k6's script and summary, samplers and their scheduling.
