# F1 race dashboard: a verified model of its data core

This project models, in Dafny, the data-processing core of a Streamlit
Formula 1 dashboard. The dashboard loads a FastF1 session, builds a lap table
for the selected drivers and draws charts and tables from it. The model
covers these parts:

- **Lap table** (`utils/data_loading.py`, module `DataLoading`):
  - `get_lap_data`: per-driver lap collection, dropping untimed laps,
    personal-best flags, gap to the fastest lap, and per-driver tyre age
    (`calculate_tyre_age` applied to each `groupby('Driver')` group, the
    groups visited in sorted key order and their rows written back at
    their own index labels, so the table keeps its row order);
  - `get_strategy_data` and its own tyre-age loop;
  - `format_lap_time`.
- **Teammate colours** (`utils/plotting.py`, module `Colors`):
  `TEAM_COLORS` and `get_driver_color`. The second driver of a team is
  darkened by 20 % per channel with `int(c * 0.8)`.
- **Gap chart** (`utils/plotting.py`, module `GapAnalysis`):
  `plot_gap_analysis`. This covers how the reference driver is chosen
  (the requested driver, then the one who led most laps, then the lowest
  mean), the cumulative-gap loop over shared lap numbers, and the loop
  that emits one series per driver with its teammate colour index.
- **Summary metrics** (`utils/plotting.py`, module `SummaryMetrics`):
  `create_summary_metrics`, i.e. the fastest lap (first minimum), the
  fastest average and the most consistent driver (lowest sample variance).
- **Strategy statistics** (`app.py`, module `StrategyStats`): the table of
  compounds used, pit stops and longest stint per selected driver.
- **Result times** (`app.py`, module `ResultTimes`): removing
  `"0 days "` and cutting fractions to milliseconds.
- **Tyre simulator** (`app.py`, module `Simulator`): feature rows, skill
  factor, degradation statistics, performance cliff, delta to fresh tyres,
  cumulative time lost and the confidence band.

Two shared modules support the rest. `Common` holds Option/Result, driver
and compound names, and Python's string order. `Aggregates` holds sums,
means, variances, `unique()` and pandas' `idxmin` over a sorted group
index.

Design choices that shape the model:

- **Value and state.** Loops in the source that build rows or lists step by
  step are methods with loop invariants, proved equal to a specification
  function. The properties are proved about that function. DataFrames are
  immutable sequences of records.
- **Python `None` for missing compounds.** A missing tyre compound is
  `None`. The strategy loop compares with `!=` only, so it continues a stint
  across two consecutive missing compounds. The lap-table loop checks
  `pd.isna` first and restarts the count. Both behaviours are modelled, and
  `TyreAgeCopiesDiffer` states exactly where they diverge.
- **Errors become results.** An exception the source catches becomes an
  empty table, `None` or `Err`, as the code at that point does.

## Model

| member | source | states |
|---|---|---|
| DataLoading.TyreAgeAt | utils/data_loading.py:102-117 | the lap-table tyre age of a row lies between 1 and the row's position plus one |
| DataLoading.StrategyTyreAgeAt | utils/data_loading.py:182-192 | the strategy tyre age of a row lies between 1 and the row's position plus one |
| DataLoading.TyreAgeCountsStint | utils/data_loading.py:108-115 | the tyre age is the length of the current stint: the run of equal, known compounds ending at that lap, started by a change or a missing compound |
| DataLoading.TyreAgeCopiesAgreeOnKnownCompound | utils/data_loading.py:109 | on a lap with a known compound the lap-table and strategy counters agree |
| DataLoading.TyreAgeCopiesDiffer | utils/data_loading.py:186-189 | the two counters differ exactly on a lap whose compound and predecessor's compound are both missing |
| DataLoading.CalculateTyreAge | utils/data_loading.py:102-117 | every row is kept, in order, with only its tyre age set to the stint counter |
| DataLoading.PickDriver | utils/data_loading.py:81 | the picked laps are exactly the session laps of that driver |
| DataLoading.Collected | utils/data_loading.py:80-88 | every collected row is a session lap of a selected driver with a roster entry, labelled with that driver's team |
| DataLoading.CollectedStaysFailed | utils/data_loading.py:80-88 | once a driver lookup has raised, the whole collection fails |
| DataLoading.CollectedRowsAreComplete | utils/data_loading.py:80-91 | every session lap of a selected driver is collected |
| DataLoading.CollectedFailsIff | utils/data_loading.py:80-88 | collection fails exactly when a selected driver has laps but no roster entry |
| DataLoading.CollectDriverLaps | utils/data_loading.py:80-88 | the collection loop yields the collected laps, or the failure |
| DataLoading.DropMissingTimes | utils/data_loading.py:94-95 | the rows with a lap time are kept, converted to seconds; untimed ones are dropped |
| DataLoading.DriverTimes | utils/data_loading.py:98 | the lap times of one driver, and only those |
| DataLoading.MarkPersonalBests | utils/data_loading.py:98 | a row is flagged exactly when its time is its driver's minimum; nothing else changes |
| DataLoading.AddGapToFastest | utils/data_loading.py:99 | each row gains its time minus the fastest time of the table; nothing else changes |
| DataLoading.Annotated | utils/data_loading.py:94-99 | one row per timed collected row, in order, differing from it only in the flag and gap columns, which obey the personal-best and gap rules |
| DataLoading.OfDriver | utils/data_loading.py:120 | the rows of one driver group |
| DataLoading.WithoutDriver | utils/data_loading.py:120 | the rows outside that group |
| DataLoading.SplitByDriver | utils/data_loading.py:120 | a group and the rest together are the table, as a multiset |
| DataLoading.FirstGroup | utils/data_loading.py:120 | the first group key is a driver of the table and is not greater than any other |
| DataLoading.Positions | utils/data_loading.py:120 | a group's index labels: strictly increasing, each holding the matching row of the group |
| DataLoading.PositionsCover | utils/data_loading.py:120 | every row of the driver sits at one of the group's labels |
| DataLoading.PositionsRank | utils/data_loading.py:120 | the j-th label of a group has exactly j rows of that driver before it |
| DataLoading.Rank | utils/data_loading.py:120 | a row's place within its driver's group, which holds that row there |
| DataLoading.AgedByDriver | utils/data_loading.py:120-123 | every row keeps its place and every column except the tyre age |
| DataLoading.GroupAgeAtLabel | utils/data_loading.py:102-120 | the row at a group's j-th label gets the j-th tyre age `calculate_tyre_age` gives that group |
| DataLoading.AgedByDriverGroups | utils/data_loading.py:102-120 | each driver's rows of the aged table are `calculate_tyre_age` of that driver's rows |
| DataLoading.WriteBack | utils/data_loading.py:120 | the aged rows land at the group's labels; every other row is unchanged |
| DataLoading.GroupWrittenBack | utils/data_loading.py:120 | once a group is written back its rows hold their final value and the others are unchanged |
| DataLoading.ApplyTyreAgeByDriver | utils/data_loading.py:120-123 | visiting the groups in key order and writing each back gives the aged table in the original row order |
| DataLoading.LapTable | utils/data_loading.py:91-123 | a failed lookup gives the empty table; otherwise the annotated rows in collection order, with only the tyre age added |
| DataLoading.GetLapData | utils/data_loading.py:72-130 | no session or no drivers gives an empty table; otherwise the lap table of the session |
| DataLoading.TimedRowsInSelectionOrder | utils/data_loading.py:80-95 | with each driver selected once, the timed collected rows come in selection order |
| DataLoading.LapTableSelectionOrder | utils/data_loading.py:80-123 | with each driver selected once, the rows come in selection order, each driver's rows in one block |
| DataLoading.LapTableTimedRows | utils/data_loading.py:91-123 | row k of the table is the k-th timed collected row, up to the derived columns |
| DataLoading.LapTableRows | utils/data_loading.py:80-123 | every row comes from a timed session lap of a selected driver, and every such lap appears |
| DataLoading.AgedKeepsRules | utils/data_loading.py:98-120 | setting the tyre age keeps the personal-best and gap rules |
| DataLoading.LapTableBestAndGap | utils/data_loading.py:98-120 | the personal-best and gap rules hold of the returned table |
| DataLoading.LapTableTyreAge | utils/data_loading.py:102-120 | each driver's rows carry, in table order, the counter of `calculate_tyre_age` over them |
| DataLoading.LapTablePersonalBest | utils/data_loading.py:98 | a row is a personal best iff no lap of that driver is faster; every driver with a row in the table has one |
| DataLoading.LapTableGapToFastest | utils/data_loading.py:99 | every gap to the fastest lap is non-negative and equals the time minus the table minimum |
| DataLoading.StrategyMatchesCollected | utils/data_loading.py:172-197 | the strategy collection fails or succeeds with the lap collection, on the same laps in the same order |
| DataLoading.StrategyTyreAgeCountsRun | utils/data_loading.py:182-192 | the strategy tyre age is the length of the run of equal compounds, missing ones included |
| DataLoading.StrategyTyreAges | utils/data_loading.py:182-192 | the loop gives every lap the strategy tyre age, in order |
| DataLoading.GetStrategyData | utils/data_loading.py:163-202 | no session, no drivers or a failed lookup gives an empty table; otherwise the aged laps |
| DataLoading.StrategyStaysFailed | utils/data_loading.py:172-194 | once a lookup has raised, the strategy collection fails |
| DataLoading.FormatLapTime | utils/data_loading.py:223-230 | "N/A" exactly for a missing or non-positive time; otherwise minutes and seconds below 60 that add back to the time |
| Colors.HexByte | utils/plotting.py:48 | two lower-case hex digits whose value is the byte |
| Colors.RgbColor | utils/plotting.py:48 | a "#rrggbb" text whose channels read back as the given values |
| Colors.TeamColorsAreColors | utils/plotting.py:14-25 | every team colour is a "#rrggbb" text |
| Colors.BaseColor | utils/plotting.py:38 | a known team's colour, otherwise six hex digits of the name's hash modulo 0xFFFFFF |
| Colors.Darkened | utils/plotting.py:47 | the channel times 0.8, rounded down, smaller than the channel unless it is 0 |
| Colors.DriverColor | utils/plotting.py:36-50 | the first driver gets the base colour; a later one gets each channel darkened |
| Colors.TeammateIsDarker | utils/plotting.py:41-48 | a teammate's channel never exceeds the base channel and is below it when that is non-zero |
| Colors.TeamColorsAreNotBlack | utils/plotting.py:14-25 | no team colour is black, so a team's two drivers always differ |
| Colors.TeammatesShareColorIff | utils/plotting.py:36-50 | a team's first two drivers share a colour iff the team is unknown and its hash is 0 modulo 0xFFFFFF |
| GapAnalysis.Available | utils/plotting.py:427 | the distinct drivers of the table, each once, starting with the first row's |
| GapAnalysis.AvailableInFirstAppearanceOrder | utils/plotting.py:427 | the drivers come in the order of their first row in the table |
| GapAnalysis.MostFrequent | utils/plotting.py:433-434 | a candidate whose count is not below any other candidate's |
| GapAnalysis.LeaderColumn | utils/plotting.py:433 | the drivers of the rows in position 1 |
| GapAnalysis.ResolveReference | utils/plotting.py:429-441 | the reference driver is in the table; a requested driver in the table is kept |
| GapAnalysis.ReferenceByLeadLaps | utils/plotting.py:432-434 | with positions, the reference led the most laps, or is the first driver when nobody led |
| GapAnalysis.ReferenceByMean | utils/plotting.py:436-438 | without positions, the reference has the lowest mean time, ties to the first name |
| GapAnalysis.SortedDistinct | utils/plotting.py:463 | the distinct lap numbers in strictly increasing order |
| GapAnalysis.FirstTimeAtFirstRow | utils/plotting.py:464-468 | a lap's time is taken from that lap's first row and exists iff the lap does |
| GapAnalysis.MatchedMembers | utils/plotting.py:467 | a lap is kept iff both drivers have a row for it |
| GapAnalysis.RunningSumsSteps | utils/plotting.py:469-470 | each cumulative gap adds that lap's gap to the previous one; the last is the sum |
| GapAnalysis.LoopStepMatched | utils/plotting.py:467-472 | a lap both drivers have is emitted, its running gap the previous one plus that lap's difference |
| GapAnalysis.LoopStepSkipped | utils/plotting.py:467-470 | a lap missing on either side changes nothing |
| GapAnalysis.CumulativeGap | utils/plotting.py:460-472 | the loop yields the shared laps and their running gap sums |
| GapAnalysis.CumulativeGapProperties | utils/plotting.py:460-472 | laps are increasing, exactly those both drivers drove, with gaps summing lap by lap |
| GapAnalysis.DriverPoints | utils/plotting.py:452-474 | a line exists only for a driver other than the reference with laps on both sides |
| GapAnalysis.PlotGapAnalysis | utils/plotting.py:385-528 | no rows gives the empty chart; otherwise the series emitted for the available drivers against the resolved reference, or the no-data notice when none qualify |
| GapAnalysis.DrawLines | utils/plotting.py:448-519 | the driver loop emits the series of the available drivers in order; none gives the no-data notice |
| GapAnalysis.DriverLine | utils/plotting.py:451-494 | one pass adds the driver's line, numbered by its team's earlier lines, or nothing, and keeps the team counter in step |
| GapAnalysis.EmittedLines | utils/plotting.py:452-494 | every series belongs to a listed driver and carries that driver's points, team and colour |
| GapAnalysis.EmittedNumbering | utils/plotting.py:479-483 | a series' colour index counts the earlier series of its team |
| GapAnalysis.EmittedComplete | utils/plotting.py:452-494 | every driver with at least two shared laps gets a series |
| GapAnalysis.ChartLines | utils/plotting.py:452-494 | every series skips the reference, has at least two increasing laps, one gap per lap |
| GapAnalysis.NoGapDataIff | utils/plotting.py:497-519 | the no-data notice appears iff no available driver has two shared laps |
| SummaryMetrics.FastestRow | utils/plotting.py:555-556 | the first row holding the minimum lap time |
| SummaryMetrics.Groups | utils/plotting.py:589 | the distinct drivers with at least one timed lap |
| SummaryMetrics.Means | utils/plotting.py:589 | one mean lap time per listed driver |
| SummaryMetrics.Spreads | utils/plotting.py:601 | the sample variance of each listed driver with at least two timed laps |
| SummaryMetrics.FastestLapOf | utils/plotting.py:554-585 | the fastest lap's driver, time and lap number, taken from the first minimum row |
| SummaryMetrics.FastestAverage | utils/plotting.py:588-597 | a timed driver and the mean of that driver's times |
| SummaryMetrics.MostConsistent | utils/plotting.py:600-609 | when present, a driver with two or more laps and their variance |
| SummaryMetrics.CreateSummaryMetrics | utils/plotting.py:530-550 | no metrics exactly when the table is empty, lacks the time column or has no timed lap |
| SummaryMetrics.FastestLapIsFirstMinimum | utils/plotting.py:554-585 | the reported lap is no slower than any lap and is the first such lap |
| SummaryMetrics.FastestAverageIsMinimal | utils/plotting.py:588-597 | no driver has a lower mean; ties go to the first driver name |
| SummaryMetrics.MostConsistentMissingIff | utils/plotting.py:600-609 | the consistency entry has no value iff no driver has two timed laps |
| SummaryMetrics.MostConsistentIsMinimal | utils/plotting.py:600-609 | no driver with two laps has a lower variance; ties go to the first name |
| StrategyStats.RowsOf | app.py:267 | the strategy rows of one driver |
| StrategyStats.Known | app.py:270 | the compounds that appear |
| StrategyStats.CountOf | app.py:271 | how many laps used a compound; positive iff it appears |
| StrategyStats.MaxCount | app.py:277 | the largest lap count of any compound used |
| StrategyStats.DriverStats | app.py:268-277 | the line fails exactly when a compound is missing, as joining it raises |
| StrategyStats.DriverStatsProperties | app.py:268-277 | compounds used are exactly those that appear, once each; pit stops are one less; the longest stint is the largest compound count |
| StrategyStats.DriverStatsInFirstUseOrder | app.py:270-275 | the joined compounds come in the order the driver first used them, as unique() gives |
| StrategyStats.DistinctAtMostChanges | app.py:270 | a sequence of compounds holds at most one more distinct compound than it has changes |
| StrategyStats.PitStopsAtMostChanges | app.py:271 | the pit-stop count never exceeds the number of compound changes |
| StrategyStats.StrategyStatistics | app.py:265-277 | the loop builds the table line by line for the selected drivers |
| StrategyStats.StrategyTableStaysFailed | app.py:265-277 | once a line raises, the table fails with that error |
| StrategyStats.StrategyTableFailsIff | app.py:265-277 | the table fails iff some selected driver has a lap without a compound |
| StrategyStats.StrategyTableLines | app.py:265-277 | each line is of a selected driver who has strategy rows |
| StrategyStats.WithRows | app.py:266-268 | the selected drivers that have strategy rows |
| StrategyStats.StrategyTableOkLines | app.py:265-277 | a table that builds has one line per selected driver with rows, in selection order, each that driver's statistics |
| ResultTimes.RemoveAll | app.py:401-402 | removal never lengthens the text |
| ResultTimes.RemoveZeroDaysLength | app.py:401-402 | each removed "0 days " occurrence shortens the text by seven |
| ResultTimes.RemoveAllWithoutOccurrence | app.py:401-402 | a text without the prefix is unchanged |
| ResultTimes.RemoveZeroDaysPrefix | app.py:401-402 | a sub-day duration text loses exactly its "0 days " prefix |
| ResultTimes.IndexOf | app.py:404-405 | the first index of a character, absent iff the character is |
| ResultTimes.TruncateFraction | app.py:404-407 | the text is kept as it is when it has no '.' or at most three characters follow the first '.' up to the next one; when more follow, it is cut to the first '.' plus exactly three characters, none of them a '.' |
| ResultTimes.TruncateFractionIdempotent | app.py:404-407 | cutting again changes nothing |
| ResultTimes.CleanedTime | app.py:396-466 | a "+" gap after a winner shows the reformatted text, or the cleaned text when that raises; the winner's time and every other time show the text without "0 days ", cut to three decimals (a prefix of it) |
| ResultTimes.CleanedTimesShow | app.py:393-466 | every row shows that: its time without "0 days " and cut to three decimals, or its reformatted gap |
| ResultTimes.CleanedTimesAt | app.py:393-466 | the k-th text is row k's cleaned time, given the winner state of the rows before it |
| ResultTimes.CleanedTimesStep | app.py:393-468 | the text of the next row is computed with the winner state of the rows before it |
| ResultTimes.CleanResultTimes | app.py:389-471 | without a time column nothing is rewritten; otherwise one text per row, in order |
| ResultTimes.NoGapBeforeWinner | app.py:419 | before the first winner row, no gap is reformatted |
| Simulator.BuildFeatureRows | app.py:623-637 | one row per stint lap: tyre age k and race lap 10 + k |
| Simulator.SkillFactor | app.py:644-648 | the skill factor is positive |
| Simulator.ApplySkill | app.py:644-648 | the average driver's predictions are unchanged, and their number is kept |
| Simulator.SkillScalesUniformly | app.py:644-648 | every prediction is scaled by the same factor, so their order is kept |
| Simulator.LapToLap | app.py:698 | one lap-to-lap change fewer than laps |
| Simulator.TotalDegradationTelescopes | app.py:698 | total degradation is the sum of the lap-to-lap changes |
| Simulator.FirstAbove | app.py:707 | the first index whose time exceeds the threshold, or none iff no time does |
| Simulator.CliffLap | app.py:707-711 | the first lap more than one second slower than the first, or none iff no such lap |
| Simulator.DeltaToFresh | app.py:720 | one delta per lap, 0 on the first and the total degradation on the last |
| Simulator.DeltaToFreshOrder | app.py:720 | the deltas order the laps as their predicted times do |
| Simulator.TimeLost | app.py:721 | one value per lap, 0 on the first, each the previous one plus that lap's delta |
| Simulator.TimeLostNeverDecreases | app.py:720-721 | when no lap beats the first, the deltas are non-negative and time lost never falls |
| Simulator.Statistics | app.py:694-705 | fresh and end times, degradation as their difference, average per lap, and a window of min(15, laps) |
| Simulator.FlatCurve | app.py:694-721 | a constant prediction shows no degradation, no cliff and no time lost |
| Simulator.ConfidenceBand | app.py:666-669 | the band surrounds every prediction, with the same width everywhere |
| Simulator.BandGrowsWithDeviation | app.py:666-669 | a larger deviation widens the band; zero collapses it onto the predictions |
| Simulator.RunSimulation | app.py:621-731 | a prediction error, or a prediction vector whose length is not the stint's, is reported; otherwise the statistics of the skill-adjusted predictions, one delta and time lost per stint lap |
| Aggregates.IdxMin | utils/plotting.py:438 | the entry of lowest value; ties go to the first name in sorted order |
| Aggregates.Unique | utils/plotting.py:427 | the distinct values, each once |
| Aggregates.FirstIndex | utils/plotting.py:427 | the first position of a value |
| Aggregates.UniqueInFirstAppearanceOrder | utils/plotting.py:427 | the distinct values come in the order of their first occurrence |
| Aggregates.SampleVariance | utils/plotting.py:601 | the sample variance (divisor n - 1) is non-negative |
| Aggregates.ConstantHasZeroVariance | utils/plotting.py:601 | equal lap times have no spread |

## Left out

- **UI and I/O.** Streamlit rendering, plotly figures, `st.*` messages and
  `print` are left out. So are FastF1 loading, caching and the other session
  helpers (`get_available_years`, `get_race_schedule`, `load_race_data`,
  `get_driver_list`, `get_telemetry_data`, `get_race_results`,
  `get_session_info`). The session is a value: a list of laps and a roster
  from driver to team.
- **Names.** The `DriverName` column (first and last name) is not modelled.
  Only the roster lookup that can raise is kept.
- **Floating point.** Times are exact reals. Rounding in
  `total_seconds()`, the `:06.3f` / `:.3f` formatting of the summary metrics
  and the simulator, and `format_time_safe` are not modelled.
  `FormatLapTime` returns the minutes and seconds rather than the text.
- **Standard deviation.** The square root in `std()` is not modelled:
  `MostConsistent` ranks by sample variance, which orders drivers the same
  way. `ConfidenceBand` takes the deviation as a parameter and is not tied
  to `np.std(predictions) * 0.1`.
- **Python's `hash` of a team name** is random per process. `BaseColor` and
  `DriverColor` take its value as a parameter.
- **Missing compounds as NaN.** Missing compounds are Python `None`. If the
  column holds NaN instead, NaN != NaN makes the strategy counter restart at
  each missing compound, as the lap-table counter does.
- **GapAnalysis.MostFrequent** does not state a tie rule for drivers who
  led equally many laps. The order of pandas `value_counts` ties is not
  fixed, so the model takes the first leader in row order.
- **Missing columns in the gap chart.** The branches of `plot_gap_analysis`
  for missing `Driver`/`LapNumber` columns, a `LapTime`-only table, and the
  more-than-ten-drivers notice (lines 395-422 and 446-447) are not modelled.
  The input is `get_lap_data`'s output, which always has those columns. A
  missing `Team` column is modelled (`"Unknown"`); a missing `Position`
  column selects the mean-time reference.
- **Fallback columns in the summary.** The `Abbreviation`/`Lap` columns of
  `create_summary_metrics` and its missing-`Driver`-column branches are not
  modelled. The `race_info` entry copies its input unchanged and is not
  modelled.
- **Gap text reformatting** in the result times (app.py:419-452): the float
  parsing and formatting are a parameter returning the shown text, or
  nothing when the parse raises.
- **Time truthiness.** Whether a result's `Time` is truthy (a non-zero
  duration) is given as a field of the row.
- **Prediction model.** The preprocessor and model of the simulator are one
  prediction parameter that may fail. The simulator's sliders and select
  boxes are parameters; the stint length keeps the slider's range 5-50.
- Simulator.RunSimulation: when the prediction vector's length differs from
  the stint's, the dashboard draws the chart and the metrics before building
  the lap-by-lap table raises. The model reports only the error, because
  partial rendering is display and is not modelled.
- DataLoading.LapTableSelectionOrder and
  DataLoading.TimedRowsInSelectionOrder assume each driver is selected once,
  as the multiselect widget that supplies the list guarantees. With a repeated
  driver, `pick_drivers` collects that driver's laps twice, and the order
  statement is not made for that case.
- **Tyre-age order within a driver.** `calculate_tyre_age` walks a group in
  table order, which for one driver is the session order of `pick_drivers`.
  The model counts in table order (`LapTableTyreAge`) and does not state the
  session order separately.
- **Other app parts.** The other tabs of `app.py` (pace, telemetry and
  position charts, the tyre-strategy chart, the model information) are
  display only and are not modelled.
