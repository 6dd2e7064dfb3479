# Mouse power analyzer: time-range analysis and result management, in Dafny

This project models the computational core of the mouse power analyzer. The
analyzer is a tool that loads CSV recordings of a wireless mouse's voltage,
current and power, and lets the user do the following:

- pick a time range of a recording and preview its statistics;
- save each analysed range as a labelled result;
- compare saved results;
- import, export and bulk-delete saved results.

The model covers these parts:

- **Measurement data** (`utils.dfy`, `analyzer.dfy`):
  - the battery-life projection with its infinity sentinel;
  - mode detection from a file name;
  - the unit choice of the duration display;
  - the cleaning of a loaded file;
  - the statistics of a table and the comparison of modes against the lowest average power.
- **Input checks and the error log** (`error_handler.dfy`).
- **Time-range analysis** (`time_range_analyzer.dfy`):
  - cleaning a time column and deriving its range metadata;
  - the validator's fixed order of checks;
  - inclusive filtering and the preview statistics.
- **The result store** (`result_manager.dfy`):
  - the result record and its dict form;
  - the session-held list, as a class whose methods change it in place;
  - the label helpers.
- **The time-range interface** (`time_range_ui.dfy`):
  - the time display;
  - the preset ranges;
  - the values the selector returns;
  - the preview memo keyed by the range rounded to six decimals.
- **The comparison views** (`comparison_ui.dfy`):
  - filtering the stored results;
  - the statistical summary;
  - the recommendations;
  - the 0-100 scaling of the radar chart.
- **The management panel** (`result_controls.dfy`):
  - the settings of the latest analysis;
  - which results an export lists;
  - label de-duplication on import;
  - the batch-delete and selective-clear loops.
- **Shared helpers** (`wrappers.dfy`, `numbers.dfy`, `text.dfy`, `datetimes.dfy`, `tables.dfy`, `collections.dfy`):
  - Option and Result;
  - sums, means and extremes over `real`, and Python's floor division and modulo;
  - decimal digits, `strip`, `lower` and substring tests;
  - `datetime` with its ISO format and parse;
  - a sort by key;
  - comprehension-style `map`/`filter` over sequences.

Representation choices:

- Physical quantities are mathematical reals.
- Python's `float('inf')` is an explicit `ExtReal` in the battery-life projection and the recommendation scan, and an interval without an upper end in the comparison filters. A NaN is a `None`. The result store holds finite battery figures only (see "## Left out").
- Ids, clocks and the standard deviation are parameters.
- Objects that the source changes in place are classes:
  - `AnalysisResultManager`;
  - `ErrorHandler`;
  - `TimeRangeSelector`;
  - `RealTimePreview`;
  - the controllers that act on the store.
- The Streamlit session list is the `results` field of `AnalysisResultManager`.

## Model

| member | source | states |
|---|---|---|
| Utils.CalculateBatteryLife | src/mouse_power_analyzer/utils.py:66-114 | echoes capacity, voltage and power; hours and days are +infinity exactly when the power is not positive |
| Utils.BatteryLifeEnergyBalance | src/mouse_power_analyzer/utils.py:79-84 | for positive power, hours x power x 3600 equals the battery energy mAh x V x 3.6, and days are hours / 24 |
| Utils.BatteryLifeAntitone | src/mouse_power_analyzer/utils.py:79-84 | drawing more power never lengthens the projected life |
| Utils.DefaultBatteryExample | src/mouse_power_analyzer/utils.py:66-84 | the default battery of 1000 mAh at 3.7 V lasts 74 hours at 50 mW |
| Utils.DetectModePriority | src/mouse_power_analyzer/utils.py:42-63 | the detected mode is a key of the mode-name table, and each mode is chosen exactly when its keywords occur in the lower-cased name and no earlier mode's keywords do |
| Utils.DetectModeCaseInsensitive | src/mouse_power_analyzer/utils.py:52-53 | detection gives the same mode for a name and its lower-cased form |
| Utils.FormatTimeDuration | src/mouse_power_analyzer/utils.py:211-231 | the unit is chosen by the thresholds 60, 3600 and 86400 s, the value times the unit's seconds is the input, and the value lies in [1, 60) for minutes and hours |
| ErrorHandling.ErrorHandler.constructor | src/mouse_power_analyzer/error_handler.py:22-25 | the error log starts empty |
| ErrorHandling.ErrorHandler.LogError | src/mouse_power_analyzer/error_handler.py:35-53 | appends exactly one entry with the type, message, details (`{}` by default), time and trace; earlier entries are unchanged |
| ErrorHandling.ValidateTimeRange | src/mouse_power_analyzer/error_handler.py:242-269 | the verdict is the first failing check of: start before end, start within data, end within data, span of at least 1 ms; each verdict is characterised both ways |
| ErrorHandling.ValidateBatterySettings | src/mouse_power_analyzer/error_handler.py:272-299 | valid iff no error iff capacity in [100, 10000] and voltage in [1, 12]; at most one capacity error and one voltage error, in that order |
| ErrorHandling.ValidateCsvFile | src/mouse_power_analyzer/error_handler.py:191-239 | an absent or empty table gives the single empty-file error; otherwise valid iff no error iff at least four columns, ten rows and none of the four named columns more than half missing |
| ErrorHandling.ValidateCsvFileAsWritten | src/mouse_power_analyzer/error_handler.py:215-218 | the check as written raises exactly on a non-empty table with more than four columns; otherwise it agrees with the intended check |
| ErrorHandling.FiveColumnFileRejected | src/mouse_power_analyzer/error_handler.py:215-218 | a clean ten-row file with a fifth column is acceptable, yet the renaming raises on it |
| TimeRangeAnalysis.DropMissingTime | src/mouse_power_analyzer/time_range_analyzer.py:64-70 | keeps exactly the rows whose time is known |
| TimeRangeAnalysis.DropNegativeTime | src/mouse_power_analyzer/time_range_analyzer.py:74-75 | keeps exactly the rows with a non-negative time |
| TimeRangeAnalysis.CleanTimeDataSpec | src/mouse_power_analyzer/time_range_analyzer.py:54-80 | the cleaned table is sorted by time, all its times are non-negative, it is a permutation of the admitted rows, and a row is in it iff it came from an input row with a known non-negative time |
| TimeRangeAnalysis.CleanedEmptyIff | src/mouse_power_analyzer/time_range_analyzer.py:46-49 | cleaning leaves nothing iff no input row has a known non-negative time |
| TimeRangeAnalysis.CalculateTimeRangeInfo | src/mouse_power_analyzer/time_range_analyzer.py:82-109 | min <= max, both are times of the table and bound all of them, duration = max - min, data points = row count |
| TimeRangeAnalysis.Build | src/mouse_power_analyzer/time_range_analyzer.py:29-52 | refuses an absent or empty table, then a table without `Time`, then a table cleaning empties, each iff its condition holds; a built analyzer holds the sorted cleaned rows and their metadata |
| TimeRangeAnalysis.GapSum | src/mouse_power_analyzer/time_range_analyzer.py:97-99 | for ascending times the positive gaps add up to last minus first |
| TimeRangeAnalysis.GapsAddUpToDuration | src/mouse_power_analyzer/time_range_analyzer.py:93-99 | the positive gaps of a built analyzer add up to its total duration |
| TimeRangeAnalysis.ResolutionDefined | src/mouse_power_analyzer/time_range_analyzer.py:96-101 | the resolution is 0 for one row, the positive mean of the positive gaps when there is one, and a NaN (None) iff several rows have no positive gap |
| TimeRangeAnalysis.ResolutionPerGap | src/mouse_power_analyzer/time_range_analyzer.py:96-101 | the resolution is the gap total shared out over the positive gaps, so total duration = resolution x number of positive gaps |
| TimeRangeAnalysis.ValidateRange | src/mouse_power_analyzer/time_range_analyzer.py:132-161 | the first failing check decides: start >= end, start < min, end > max, span < 2 x resolution; each verdict is characterised both ways |
| TimeRangeAnalysis.FullRangeValidIff | src/mouse_power_analyzer/time_range_analyzer.py:145-161 | the whole recorded range passes iff the cleaned table has at least two strictly positive gaps |
| TimeRangeAnalysis.AgreesWithInputValidator | src/mouse_power_analyzer/time_range_analyzer.py:145-155 | the analyzer's validator and the input validator agree on the three bound checks |
| TimeRangeAnalysis.SelectCounts | src/mouse_power_analyzer/time_range_analyzer.py:183-184 | the inclusive mask keeps every row in [start, end] as often as it occurs, and no other row |
| TimeRangeAnalysis.SelectSorted | src/mouse_power_analyzer/time_range_analyzer.py:183-184 | the mask keeps a sorted table sorted |
| TimeRangeAnalysis.FilterByTimeRange | src/mouse_power_analyzer/time_range_analyzer.py:163-194 | refuses with the validator's verdict iff it rejects; the no-data error iff a valid range holds no row; otherwise a non-empty sorted table with exactly the rows in range |
| TimeRangeAnalysis.Summarize | src/mouse_power_analyzer/time_range_analyzer.py:238-276 | min <= mean <= max, min and max are values of the column and bound all of them |
| TimeRangeAnalysis.ColumnSummary | src/mouse_power_analyzer/time_range_analyzer.py:237-276 | a column's figures are present iff the column exists and has a known value |
| TimeRangeAnalysis.PreviewOf | src/mouse_power_analyzer/time_range_analyzer.py:220-276 | the requested span and duration, both counts, the percentage, and the milli figures equal to 1000 x the SI ones |
| TimeRangeAnalysis.GetPreviewStats | src/mouse_power_analyzer/time_range_analyzer.py:195-277 | fails iff filtering fails, with the same error; otherwise it is the preview of exactly the filtered rows |
| TimeRangeAnalysis.Percentage | src/mouse_power_analyzer/time_range_analyzer.py:233 | the filtered share in percent lies in (0, 100], and percent x total = 100 x count |
| PowerAnalyzer.KeptSamplesMembers | src/mouse_power_analyzer/analyzer.py:74-75 | a sample is kept iff some row is complete, has non-negative power and reads as it |
| PowerAnalyzer.CleanSamplesSpec | src/mouse_power_analyzer/analyzer.py:74-76 | cleaned samples are sorted by time, have non-negative power and are a permutation of the kept rows |
| PowerAnalyzer.LoadCsvFile | src/mouse_power_analyzer/analyzer.py:46-82 | loads iff the file is readable with at least four columns, under the given or detected mode and its display name |
| PowerAnalyzer.LoadCsvFileSpec | src/mouse_power_analyzer/analyzer.py:58-78 | a loaded table is sorted, has no negative power and holds exactly the complete rows with non-negative power |
| PowerAnalyzer.LoadCsvFileAsWritten | src/mouse_power_analyzer/analyzer.py:61-62 | as written, a file loads iff it has exactly four columns, and then it agrees with the intended loader |
| PowerAnalyzer.FiveColumnFileNotLoaded | src/mouse_power_analyzer/analyzer.py:61-62 | a clean file with a fifth column is loaded by the intended loader and refused as written |
| PowerAnalyzer.TrapzConstant | src/mouse_power_analyzer/analyzer.py:95 | under constant power the trapezoid energy is the power times the elapsed time |
| PowerAnalyzer.TrapzNonNegative | src/mouse_power_analyzer/analyzer.py:95 | non-negative power over ascending times gives non-negative energy |
| PowerAnalyzer.CoefficientOfVariationScales | src/mouse_power_analyzer/analyzer.py:114 | for a positive mean, cv x mean = std and cv >= 0 when std >= 0 (cv is 0 for a non-positive mean) |
| PowerAnalyzer.TimeSpanSpec | src/mouse_power_analyzer/analyzer.py:94 | no two rows lie further apart than the duration, and two rows lie exactly that far apart |
| PowerAnalyzer.CalculateStatistics | src/mouse_power_analyzer/analyzer.py:84-117 | fails iff the table is empty (`iloc[0]`) |
| PowerAnalyzer.CalculateStatisticsAverages | src/mouse_power_analyzer/analyzer.py:102-106 | the average power, voltage and current are each their column's sum divided by the row count, and each lies between its column's least and greatest value |
| PowerAnalyzer.CalculateStatisticsSpec | src/mouse_power_analyzer/analyzer.py:94-114 | mode, row count and span; power bounds that every row respects and some row attains, with the average between them; every milli field is 1000 x its SI field; the given std, the trapezoid energy and the guarded cv |
| PowerAnalyzer.DurationWithinRange | src/mouse_power_analyzer/analyzer.py:94 | for rows that all lie in [a, b] the duration is at most b - a: it is the table's own span |
| PowerAnalyzer.DurationOfSorted | src/mouse_power_analyzer/analyzer.py:94 | on a sorted table the duration is the last time minus the first |
| PowerAnalyzer.LoadedMinPowerNonNegative | src/mouse_power_analyzer/analyzer.py:75-109 | a loaded table never reports a negative minimum power |
| PowerAnalyzer.IncreasePercentScales | src/mouse_power_analyzer/analyzer.py:185-188 | against a positive baseline, percent x baseline = (p - baseline) x 100, and the percent is non-negative at or above the baseline |
| PowerAnalyzer.BaselinePercents | src/mouse_power_analyzer/analyzer.py:182-188 | against the lowest average power every percentage is present and non-negative, and the baseline's own is 0 |
| PowerAnalyzer.GetComparisonStatistics | src/mouse_power_analyzer/analyzer.py:163-190 | one entry per table with its statistics; no percentages for a single table; otherwise every percentage is taken against the lowest average power |
| PowerAnalyzer.AgainstBaseline | src/mouse_power_analyzer/analyzer.py:180-188 | the loop finds a mode of least average power and annotates every entry against it |
| PowerAnalyzer.StoreLoads | src/mouse_power_analyzer/analyzer.py:136-143 | the loop stores each load under its mode, in file order, and stops at the first loaded table without rows |
| PowerAnalyzer.StoredAfterStored | src/mouse_power_analyzer/analyzer.py:136-143 | every loaded mode is present, each holding the last table loaded under it, and nothing else |
| PowerAnalyzer.AnalyzeFiles | src/mouse_power_analyzer/analyzer.py:119-161 | on the corrected loader: fails iff some file loads without rows; otherwise the map holds each loaded mode with its last table |
| PowerAnalyzer.AnalyzeFilesAsWritten | src/mouse_power_analyzer/analyzer.py:119-161 | on `load_csv_file` as written: the same contract over the as-written loads, so a file with more than four columns is never stored |
| PowerAnalyzer.FiveColumnRunStoresNothing | src/mouse_power_analyzer/analyzer.py:61-62 | a run over the clean five-column file stores one table with the corrected loader and none with the loader as written |
| DateTimes.IsoRoundTrip | src/mouse_power_analyzer/result_manager.py:35-48 | `fromisoformat(isoformat(t)) == t` for every valid timestamp |
| DateTimes.IsoFormatInjective | src/mouse_power_analyzer/result_manager.py:35-42 | distinct timestamps have distinct ISO strings |
| ResultManager.FromDict | src/mouse_power_analyzer/result_manager.py:43-48 | fails with the missing-timestamp error iff there is no timestamp key; a dict with extra keys is refused |
| ResultManager.DictRoundTrip | src/mouse_power_analyzer/result_manager.py:35-48 | `from_dict(to_dict(r))` rebuilds every field of r |
| ResultManager.DictFromRoundTrip | src/mouse_power_analyzer/result_manager.py:35-48 | an accepted dict is `to_dict` of its result, up to a timestamp given as the datetime or any string that parses to it |
| ResultManager.GetPowerInfo | src/mouse_power_analyzer/result_manager.py:54-61 | each figure is the stats or battery entry when present, else 0.0 |
| ResultManager.IndexOfId | src/mouse_power_analyzer/result_manager.py:142-147 | the first position carrying the id, or none iff no result carries it |
| ResultManager.DefaultLabelInjective | src/mouse_power_analyzer/result_manager.py:113-115 | the default label "結果 n" depends on the count only, so equal labels mean equal counts |
| ResultManager.SummaryMembers | src/mouse_power_analyzer/result_manager.py:225-271 | a non-empty summary counts every result and lists exactly the modes and files that occur |
| ResultManager.SummaryRanges | src/mouse_power_analyzer/result_manager.py:225-271 | the power range is ordered and bounds every average power; the time range covers every result's span |
| ResultManager.ImportExported | src/mouse_power_analyzer/result_manager.py:272-311 | importing an export gives back the exported results, all of them, in order |
| ResultManager.ImportedAtMostRows | src/mouse_power_analyzer/result_manager.py:297-310 | at most one result per row, and one per row iff every row is accepted |
| ResultManager.AnalysisResultManager.constructor | src/mouse_power_analyzer/result_manager.py:67-81 | an existing session list is kept, otherwise the store starts empty |
| ResultManager.AnalysisResultManager.AddResult | src/mouse_power_analyzer/result_manager.py:82-136 | appends exactly one result at the end and returns its id; duration = end - start, default label "結果 n+1", default metadata `{}` |
| ResultManager.AnalysisResultManager.GetResultById | src/mouse_power_analyzer/result_manager.py:142-147 | the first result with the id, none iff no result has it |
| ResultManager.AnalysisResultManager.GetResultByIndex | src/mouse_power_analyzer/result_manager.py:149-155 | a result iff 0 <= index < count, the one at that index |
| ResultManager.AnalysisResultManager.UpdateResultLabel | src/mouse_power_analyzer/result_manager.py:156-172 | true iff the id exists; then only the first such result's label changes, otherwise nothing changes |
| ResultManager.AnalysisResultManager.DeleteResult | src/mouse_power_analyzer/result_manager.py:173-189 | true iff the id exists; then exactly the first such result goes and the rest keep their order, otherwise nothing changes |
| ResultManager.AnalysisResultManager.DeleteResultByIndex | src/mouse_power_analyzer/result_manager.py:190-205 | true iff the index is in range; then exactly that result goes, otherwise nothing changes |
| ResultManager.AnalysisResultManager.ClearAllResults | src/mouse_power_analyzer/result_manager.py:206-216 | returns the prior count and empties the store |
| ResultManager.AnalysisResultManager.HasResults | src/mouse_power_analyzer/result_manager.py:217-223 | true iff the count is positive |
| ResultManager.AnalysisResultManager.GetResultsSummary | src/mouse_power_analyzer/result_manager.py:225-271 | the loop's summary is the summary of the store |
| ResultManager.AnalysisResultManager.ExportResultsToDict | src/mouse_power_analyzer/result_manager.py:272-286 | the count is the number of rows and of stored results, and the rows import back to the store |
| ResultManager.AnalysisResultManager.ImportResultsFromDict | src/mouse_power_analyzer/result_manager.py:287-311 | without `results` nothing changes and 0 is returned; otherwise the accepted rows are appended in order and counted |
| ResultManager.AnalysisResultManager.GetComparisonData | src/mouse_power_analyzer/result_manager.py:312-345 | one row per result, in store order |
| ResultManager.AnalysisResultManager.FindResultsByMode | src/mouse_power_analyzer/result_manager.py:346-358 | exactly the results of that mode, each as often as stored |
| ResultManager.AnalysisResultManager.FindResultsByFile | src/mouse_power_analyzer/result_manager.py:359-371 | exactly the results of that file, each as often as stored |
| ResultManager.AnalysisResultManager.GetPowerStatistics | src/mouse_power_analyzer/result_manager.py:372-397 | none iff the store is empty; otherwise min <= mean <= max of the average powers, and a non-negative range |
| ResultManager.SuffixedInjective | src/mouse_power_analyzer/result_manager.py:516-520 | different counters give different "base (n)" candidates |
| ResultManager.TimeDescription | src/mouse_power_analyzer/result_manager.py:423-428 | "短時" iff under 10 s, "長時" iff at least 60 s |
| ResultManager.ResultLabelManager.constructor | src/mouse_power_analyzer/result_manager.py:401-408 | holds the given store |
| ResultManager.ResultLabelManager.GenerateAutoLabel | src/mouse_power_analyzer/result_manager.py:410-431 | the label starts with the mode, a dash and the duration class |
| ResultManager.ResultLabelManager.SuggestLabels | src/mouse_power_analyzer/result_manager.py:432-476 | three "mode-…" suggestions, or the division by zero iff the duration is positive and start + duration is 0 |
| ResultManager.PositionByStart | src/mouse_power_analyzer/result_manager.py:465-473 | for a non-negative start and positive duration, the third suggestion is the start class iff 9 x start < duration, and the end class iff start > 4 x duration |
| ResultManager.ResultLabelManager.ValidateLabel | src/mouse_power_analyzer/result_manager.py:477-499 | blank, then over 50 characters after stripping, then already a stored label; each verdict is characterised both ways |
| ResultManager.ResultLabelManager.GetUniqueLabel | src/mouse_power_analyzer/result_manager.py:500-520 | never a stored label; the base when free, otherwise "base (n)" for the smallest free n >= 1 |
| ResultManager.FreeCounter | src/mouse_power_analyzer/result_manager.py:516-518 | the first counter from n whose candidate is free: every counter before it is taken |
| ResultManager.UniqueLabelSpec | src/mouse_power_analyzer/result_manager.py:512-520 | the settled label is free; it is the base when free, otherwise the smallest free "base (n)" |
| ResultManager.UniqueAgainst | src/mouse_power_analyzer/result_manager.py:512-520 | the counter loop ends on the settled label |
| TimeRangeUI.FormatTimeDisplay | src/mouse_power_analyzer/time_range_ui.py:48-68 | seconds only iff t < 60, minutes and seconds iff 60 <= t < 3600, hours otherwise |
| TimeRangeUI.FormatTimeDisplaySpec | src/mouse_power_analyzer/time_range_ui.py:58-68 | the parts add back up to t: h x 3600 + m x 60 + s or m x 60 + s, with m and s below 60 and the leading part at least 1 |
| TimeRangeUI.PresetWithinData | src/mouse_power_analyzer/time_range_ui.py:217-263 | every preset is min + duration x f at both ends, with f among 0, .1, .25, .5, .75, .9 and 1, and lies in [min, max] |
| TimeRangeUI.RenderPresetButtons | src/mouse_power_analyzer/time_range_ui.py:203-265 | a range iff data is loaded and a button is pressed, the range of that button |
| TimeRangeUI.TimeRangeSelector.constructor | src/mouse_power_analyzer/time_range_ui.py:19-28 | no analyzer, metadata or current range yet |
| TimeRangeUI.TimeRangeSelector.RenderCompleteSelector | src/mouse_power_analyzer/time_range_ui.py:267-321 | when the analyzer cannot be built, (0, 0, false) and nothing changes; otherwise the number inputs are returned and stored, with the analyzer's verdict on them |
| TimeRangeUI.Rendered6Close | src/mouse_power_analyzer/time_range_ui.py:472-483 | equal six-decimal renderings mean values less than a millionth apart |
| TimeRangeUI.NearbyRangesShareKey | src/mouse_power_analyzer/time_range_ui.py:472-483 | two different ranges can share a cache key |
| TimeRangeUI.ComputePreview | src/mouse_power_analyzer/time_range_ui.py:502-528 | valid iff filtering succeeds; then the statistics and the filtered rows, otherwise no statistics, no rows and the error |
| TimeRangeUI.RealTimePreview.constructor | src/mouse_power_analyzer/time_range_ui.py:460-470 | the cache starts empty |
| TimeRangeUI.RealTimePreview.CalculatePreviewData | src/mouse_power_analyzer/time_range_ui.py:485-528 | a hit returns the stored entry and changes nothing; a miss computes the preview and stores it only when it succeeded |
| TimeRangeUI.RealTimePreview.ClearCache | src/mouse_power_analyzer/time_range_ui.py:780-782 | empties the cache |
| TimeRangeUI.HitIsNearbyPreview | src/mouse_power_analyzer/time_range_ui.py:494-500 | a cache hit is always a successful preview of a range within a millionth of the requested one |
| ComparisonUI.FoundLength | src/mouse_power_analyzer/comparison_ui.py:808-812 | at most one result per id, and none iff no id is known |
| ComparisonUI.FoundInStore | src/mouse_power_analyzer/comparison_ui.py:808-812 | every visited result is a stored one |
| ComparisonUI.FilteredIdsMembers | src/mouse_power_analyzer/comparison_ui.py:357-392 | an id is kept iff a result carrying it passes the mode, file, power and duration tests |
| ComparisonUI.FilteredIdsAppend | src/mouse_power_analyzer/comparison_ui.py:367-392 | filtering keeps store order |
| ComparisonUI.MissingSelectionKeepsNothing | src/mouse_power_analyzer/comparison_ui.py:372-376 | a filter without modes or without files keeps nothing |
| ComparisonUI.ResultSelector.constructor | src/mouse_power_analyzer/comparison_ui.py:201-208 | holds the given store |
| ComparisonUI.ResultSelector.ApplyFilters | src/mouse_power_analyzer/comparison_ui.py:357-392 | the loop returns the ids of the passing results, in store order |
| ComparisonUI.NormalizeBounds | src/mouse_power_analyzer/comparison_ui.py:706-713 | a value inside its column's range scales into [0, 100], the minimum to 0 and the maximum to 100 |
| ComparisonUI.RangesOfBound | src/mouse_power_analyzer/comparison_ui.py:686-694 | every stored result lies inside each column's range |
| ComparisonUI.RadarInRange | src/mouse_power_analyzer/comparison_ui.py:705-716 | a result inside the ranges scores in [0, 100] on all four axes, efficiency included |
| ComparisonUI.RadarChartInRange | src/mouse_power_analyzer/comparison_ui.py:686-724 | every trace for a known id names its result and has all scores in [0, 100] |
| ComparisonUI.ComparisonVisualizer.constructor | src/mouse_power_analyzer/comparison_ui.py:398-405 | holds the given store |
| ComparisonUI.ComparisonVisualizer.CreateRadarChart | src/mouse_power_analyzer/comparison_ui.py:671-739 | no traces for no ids, the `min([])` error for an empty store, otherwise one trace per known id in id order |
| ComparisonUI.StatsOfSpec | src/mouse_power_analyzer/comparison_ui.py:824-844 | min and max are values of the column, min <= mean <= max, and range = max - min >= 0 |
| ComparisonUI.SummaryOfMembers | src/mouse_power_analyzer/comparison_ui.py:814-823 | the summary lists exactly the modes and files of the found results |
| ComparisonUI.SummaryOfStats | src/mouse_power_analyzer/comparison_ui.py:824-844 | each column's statistics are ordered with a non-negative range |
| ComparisonUI.ComparisonReportGenerator.constructor | src/mouse_power_analyzer/comparison_ui.py:744-751 | holds the given store |
| ComparisonUI.ComparisonReportGenerator.GenerateStatisticalSummary | src/mouse_power_analyzer/comparison_ui.py:789-845 | `{}` iff no id is found; otherwise the summary of the found results, with the count of all ids given |
| ComparisonUI.MinScanSpec | src/mouse_power_analyzer/comparison_ui.py:869-883 | the strict running minimum from infinity ends at the first position of the minimum |
| ComparisonUI.MaxScanSpec | src/mouse_power_analyzer/comparison_ui.py:870-891 | the strict running maximum from 0 moves iff some value exceeds 0, and then ends at the first position of the maximum |
| ComparisonUI.BestPowerIsFirstMin | src/mouse_power_analyzer/comparison_ui.py:881-883 | the best-power result is the first result of least power, and exists iff something was found |
| ComparisonUI.WorstPowerIsFirstMax | src/mouse_power_analyzer/comparison_ui.py:885-887 | the worst-power result is the first result of greatest power, and exists iff that power is positive |
| ComparisonUI.BestBatteryIsFirstMax | src/mouse_power_analyzer/comparison_ui.py:889-891 | the best-battery result is the first result of longest life, and exists iff that life is positive |
| ComparisonUI.LevelOf | src/mouse_power_analyzer/comparison_ui.py:917-927 | the marked bucket iff above 50 %, the moderate one iff in (20, 50] |
| ComparisonUI.SpreadNonNegative | src/mouse_power_analyzer/comparison_ui.py:914-915 | for a finite minimum the difference is max - min and its percentage is not negative |
| ComparisonUI.BestAtBothIff | src/mouse_power_analyzer/comparison_ui.py:931-939 | the "best at both" message appears iff best power and best battery exist and share an id |
| ComparisonUI.FoundRecommendations | src/mouse_power_analyzer/comparison_ui.py:898-915 | once something is found, the first message names the least power, and the spread and its percentage are not negative |
| ComparisonUI.ComparisonReportGenerator.GenerateRecommendations | src/mouse_power_analyzer/comparison_ui.py:848-941 | exactly the "need two" message for fewer than two ids, otherwise the messages from the extremes of the found results |
| ComparisonUI.ExtremesStep | src/mouse_power_analyzer/comparison_ui.py:874-895 | one more visited result updates the extremes as one pass of the loop does |
| ResultControls.LatestIsFirstMax | src/mouse_power_analyzer/result_controls.py:118 | `max` by timestamp picks a latest result, the first of them |
| ResultControls.NewAnalysisController.constructor | src/mouse_power_analyzer/result_controls.py:23-30 | holds the given store |
| ResultControls.NewAnalysisController.GetLastAnalysisSettings | src/mouse_power_analyzer/result_controls.py:105-125 | none iff the store is empty; otherwise the settings of the first result with the greatest timestamp |
| ResultControls.SelectedForExportSpec | src/mouse_power_analyzer/result_controls.py:595-602 | the selection holds every stored result whose id is listed, as often as stored, and nothing else |
| ResultControls.ResultExportController.constructor | src/mouse_power_analyzer/result_controls.py:457-465 | holds the given store |
| ResultControls.ResultExportController.GenerateExportData | src/mouse_power_analyzer/result_controls.py:574-684 | an error iff the format is not json, csv or markdown; JSON of all results or of the selection with a matching count; CSV and Markdown of the results the ids name |
| ResultControls.SkippedCounts | src/mouse_power_analyzer/result_controls.py:816-824 | skipping drops exactly the rows whose label the store has, and keeps every copy of the others |
| ResultControls.RenameRowsShape | src/mouse_power_analyzer/result_controls.py:826-839 | renaming changes only labels: one row per row, a text label for every labelled or unlabelled row, other rows unchanged |
| ResultControls.RenamedLabelsDistinct | src/mouse_power_analyzer/result_controls.py:826-839 | after renaming no imported label is a stored one and no two imported labels are equal |
| ResultControls.ResultImportController.constructor | src/mouse_power_analyzer/result_controls.py:735-743 | holds the given store |
| ResultControls.ResultImportController.ImportDocument | src/mouse_power_analyzer/result_controls.py:769-844 | without `results` nothing changes; otherwise the store is cleared on overwrite, the rows are skipped or renamed against the stored labels, and the rest are appended and counted |
| ResultControls.SkipTakenLabels | src/mouse_power_analyzer/result_controls.py:816-824 | the skip loop keeps exactly the skipping function's rows |
| ResultControls.RenameTakenLabels | src/mouse_power_analyzer/result_controls.py:826-839 | the in-place rename loop produces the renaming function's rows |
| ResultControls.AfterDeletesMembers | src/mouse_power_analyzer/result_controls.py:978-987 | deleting listed ids removes only entries with a listed id and keeps every other; with distinct ids no listed id remains |
| ResultControls.ClearedIdsMembers | src/mouse_power_analyzer/result_controls.py:1002-1017 | an id is passed to `delete_result` iff some matching result carries it |
| ResultControls.ClearRemovesMatching | src/mouse_power_analyzer/result_controls.py:1002-1017 | with distinct ids, selective clear removes exactly the matching results |
| ResultControls.ClearDeletesWrongDuplicate | src/mouse_power_analyzer/result_controls.py:1002-1017 | with two results sharing an id, clearing the matching second one deletes the first one, and the match stays |
| ResultControls.CopiesClearAlike | src/mouse_power_analyzer/result_controls.py:1002-1017 | two copies of one exported result (same id, mode, file and time) are cleared alike by id and by position: both go or both stay |
| ResultControls.KeptAfterClearCounts | src/mouse_power_analyzer/result_controls.py:1002-1017 | clearing by position removes every matching result and keeps every copy of the others |
| ResultControls.ResultManagementUI.constructor | src/mouse_power_analyzer/result_controls.py:861-872 | holds the given store |
| ResultControls.ResultManagementUI.BatchDelete | src/mouse_power_analyzer/result_controls.py:978-987 | the store after `delete_result` on each chosen id, with the count equal to the number removed |
| ResultControls.ResultManagementUI.SelectiveClear | src/mouse_power_analyzer/result_controls.py:995-1020 | as written: the store after `delete_result` on the id of each matching result, with the count equal to the number removed |
| ResultControls.ResultManagementUI.SelectiveClearByPosition | src/mouse_power_analyzer/result_controls.py:995-1020 | corrected: exactly the results matching no condition remain, in order, with the count equal to the number removed |

## Left out

- Rendering is not modelled:
  - the Streamlit widgets, the Plotly and matplotlib charts and the page layout;
  - the text that messages, labels and reports are formatted into (`.1f`, `.2f`, `.3f`, f-strings).

  The model keeps the values these would show. The `.1f` label text is a parameter of `GenerateAutoLabel`.
- The standard deviation (`np.std`, `Series.std`) involves a square root. It is a parameter wherever it appears.
- `np.trapz` is modelled as the trapezoid rule over exact reals.
- Floating-point rounding, overflow and float32 storage are not modelled.
- Python floats are treated as follows:
  - a NaN is `None`, as for the resolution of a table without a positive gap;
  - `float('inf')` is an explicit value in three places. The first is `Utils.CalculateBatteryLife`. The second is the `min_power = float('inf')` start of the recommendation scan, which is `PosInf` in `ComparisonUI.MinScan`, in the `minPower` field of `ComparisonUI.Extremes` and in `ComparisonUI.Spread`. The third is the `(0, float('inf'))` default of the power and duration filters, which is a `ComparisonUI.Interval` with no upper end. Stored results hold finite reals only.
- The fresh id (`uuid4`), the current time, the traceback and the logger are parameters, or left out.
- Log lines and `print` output are not modelled.
- `st.session_state` is the `results` field of `AnalysisResultManager`.
- CSV parsing and `pd.to_numeric` are not modelled. A table is a sequence of rows that are already numeric, with `None` for a missing cell.
- JSON text is not modelled:
  - `json.dumps`/`json.loads`, `save_to_json` and `load_from_json` are not modelled; the model works on the parsed document;
  - `ResultManager.FromDict` accepts only the two timestamp shapes `isoformat()` writes. It refuses a date alone, a space for the `T`, a time without seconds, a three-digit fraction and a UTC offset, which `datetime.fromisoformat` accepts. So `ResultManager.AnalysisResultManager.ImportResultsFromDict` and `ResultControls.ResultImportController.ImportDocument` drop such hand-written rows. Exports always use `isoformat()`, so their round trip is unaffected;
  - `ResultManager.FromDict` also refuses, as a field mismatch, a timestamp that is neither a string nor a `datetime`, where the dataclass would store it unchecked (the other fields are in the line on `ResultManager.AnalysisResultManager.AddResult` below);
  - the text of a malformed upload is out, and so is the warning printed for a rejected row.
- `TimeRangeAnalysis.CleanTimeDataSpec`: pandas' default sort is not stable. The contract states only "sorted by time and a permutation of the admitted rows", not the order of rows with equal times.
- `PowerAnalyzer.CleanSamplesSpec`: for the same reason, the order of rows with equal times is not stated.
- `TimeRangeAnalysis.PreviewOf` states the percentage and the unit scaling. It leaves the mean, maximum and minimum to `Summarize`, and they are not restated per column. The `std_*` fields and the `.3f` texts of the preview are left out.
- `ResultManager.ResultLabelManager.GenerateAutoLabel`: the decimal rendering of the duration comes from the `formatOneDecimal` parameter. The contract fixes the mode, the dash and the duration class.
- `ResultManager.ResultLabelManager.SuggestLabels`: the first two suggestions are stated only as starting with the mode and a dash. Their classes are the functions `PhaseSuggestion` and `PowerSuggestion`.
- `ResultControls.ResultImportController.ImportDocument`: a row whose label is present but not text passes the skip and rename steps unchanged, and `ResultManager.FromDict` then refuses it, so it is not imported. The source imports it, and rename turns a repeated one into its `str` form.
- The JSON round trip of the import document (`json.dumps` then `load_from_json`) is modelled as handing the rows over unchanged.
- `ResultControls.ResultExportController.GenerateExportData` does not model the following:
  - the CSV and Markdown text of a selection, of which only the results listed and their order are modelled;
  - the full reports of the storage manager (`generate_csv_report`, `generate_markdown_report`);
  - the file names and MIME types.
- `ComparisonUI.ComparisonReportGenerator.GenerateRecommendations`: the worst-battery result is computed by the source but never shown, and the model leaves it out.
- `generate_comparison_table` and the bar charts of the comparison view are rendering.
- `ResultManager.AnalysisResultManager.AddResult`, `ResultManager.FromDict`, `ResultManager.AnalysisResultManager.ImportResultsFromDict` and `ResultControls.ResultImportController.ImportDocument` narrow the kinds of field value a result holds:
  - `stats` and `battery_life` hold numbers only. The text entries `mode` and `mode_cn` that `calculate_statistics` puts in every stats dict are not kept, so an export's `stats` carries only its numeric entries. No modelled operation reads those two entries from a stored result.
  - `metadata` holds text values only.
  - Every other field has one kind: text for the id, label, file name, mode and theme, a number for the times, a map for `stats`, `battery_life` and `metadata`. `from_dict` (`cls(**data)`) stores a value of any kind unchecked, such as a null or numeric label, a string `start_time` or a null `metadata`. `ResultManager.FromDict` refuses such a row as a field mismatch, and the two imports drop it.
- `ResultManager.AnalysisResultManager.AddResult`: the battery figures of a result are finite reals. `calculate_battery_life` gives `float('inf')` hours and days when the average power is not positive, for instance a file whose power is zero throughout. A stored result cannot hold that value. So `ResultManager.GetPowerInfo`, `ComparisonUI.BestBatteryIsFirstMax`, `ComparisonUI.RadarChartInRange` and the comparison views never see an infinite battery life.
- `PowerAnalyzer.AnalyzeFiles` runs on the corrected loader, so it stores a file with more than four columns. `PowerAnalyzer.AnalyzeFilesAsWritten` is the run as the source behaves, which skips that file.
- `Utils.CalculateBatteryLife` leaves out the optional `time_range_info` argument and the `time_range_analysis` and `analysis_note` entries it adds. Those entries only echo the argument.
- `Utils.DetectModeCaseInsensitive`: `str.lower` is modelled for the ASCII letters only. The mode keywords are ASCII words or Chinese characters, which have no case.
- `InputValidator.validate_csv_file` reads only the shape of the table. The file name argument is not used and is not modelled.
- `load_and_process_csv` of the web app is not part of this model. Its cleaning is covered by `analyzer.dfy` and `time_range_analyzer.dfy`.
- The launchers, the CLI, the GUI and the user guide are not part of this model.

## Findings

| source | as written | input that shows it | evidently intended | confidence | as-written member | corrected member |
|---|---|---|---|---|---|---|
| src/mouse_power_analyzer/error_handler.py:215-218 | the renaming assigns `expected_columns[:len(df.columns)]`, only four names, so a table with more than four columns raises | a clean ten-row table with a fifth column | any table with at least four columns, ten rows and none of the four named columns more than half missing is valid, with its first four columns renamed | not executed | ErrorHandling.ValidateCsvFileAsWritten | ErrorHandling.ValidateCsvFile |
| src/mouse_power_analyzer/analyzer.py:61-62 | the guard admits four or more columns, but four names are assigned to all of them, which raises for more than four and gives `None` | the same clean five-column file | a file with at least four columns is loaded with its first four columns | not executed | PowerAnalyzer.LoadCsvFileAsWritten | PowerAnalyzer.LoadCsvFile |
| src/mouse_power_analyzer/result_controls.py:1002-1017 | selective clear passes each matching result's id to `delete_result`, which removes the first result with that id | a hand-edited import document holding two records with one id but different modes, with the mode condition matching only the second; a double import of one export does not show it, since the copies match alike | exactly the matching results are removed | not executed | ResultControls.ClearDeletesWrongDuplicate | ResultControls.ResultManagementUI.SelectiveClearByPosition |
