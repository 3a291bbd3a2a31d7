# GPX multi-file analyzer: model

This project models the analysis core of a browser-side GPX analyzer. The
analyzer comes as two pages that share almost all of their code: a desktop
page (`gpx-multi2.js`) and a mobile page (`gpx-mobile-ui.js`). The user picks
several GPX files and sets a few options, such as the moving-speed threshold,
the lap distance, the climb threshold, the speed cap and the calorie method.
For each file the analyzer then:

- parses the trackpoints and sorts them by time;
- drops repeated timestamps;
- turns consecutive pairs of points into segments;
- computes distance, times, speeds, climb and heart-rate statistics;
- cuts the track into laps of fixed distance;
- estimates calories.

It keeps one summary row per file, folds the running `agg` totals into a total
row, and can export both tables as CSV.

The two pages differ in a few lines. The model covers both through
`Track.Variant` (`Desktop` or `Mobile`):

- **Climb on a segment.** The mobile page reads a missing elevation as 0. The
  desktop page reads the segment's climb as 0 when either end has no
  elevation.
- **Laps.** The mobile page computes laps only for a batch of one file. The
  desktop page computes them for every file.
- **A file that throws.** The desktop page catches the error per file and
  goes on with the next one. The mobile page has only the handler's outer
  catch, so the first such file ends the batch: the files before it keep their
  rows, and there is no total row.

Modules:

- `Common`: `Option`, maxima, guarded division, rounding.
- `Text`: decimal rendering, zero padding, split and join, ASCII lower case.
- `Calories`: MET table, Keytel formula, the two estimators and
  `computeCaloriesForSegment`.
- `Track`: points, segments, options, variant.
- `GpxParse`:
  - the `parseGpxText` clean-up, i.e. the filter, a stable in-place sort by
    time and the de-duplication;
  - the file's calorie total.
- `Analyze`: `analyzePoints`, as a loop over pairs, proved against a fold
  over the points.
- `Laps`: `makeDistanceLaps`.
- `Format`: `secToHMS`, `paceMinPerKm` and `toCSV`.
- `Selection`: the selected-file list.
- `Batch`: the analyze handler.

Numbers are `real`s. A JavaScript `null`, `NaN` or infinity is `None`.
Timestamps are integer milliseconds.

## Model

| member | source | states |
|---|---|---|
| `Common.Max0` | gpx-multi2.js:267 | `Math.max(0, x)` is at least 0 and at least `x`, and is one of the two |
| `Common.MaxOpt` | gpx-multi2.js:253-254 | `Math.max(acc ?? x, x)` over optional readings: defined iff either side is, at least each defined side, and equal to one of them |
| `Common.GuardedDiv` | gpx-multi2.js:273-274 | dividing by `d`, or by `Infinity` when `d` is 0: the quotient times `d` is `n` when `d` is not 0, and the result is 0 when `d` is 0 |
| `Common.Round` | gpx-multi2.js:631-633 | `Math.round` lands within half a unit of its argument |
| `Common.RoundMonotone` | gpx-multi2.js:696 | rounding keeps the order of its arguments |
| `Text.NatToString` | gpx-multi2.js:115 | `String(v)` of a natural number is a non-empty string of digits, one digit long exactly below 10; with `Text.NatToStringNoLeadingZero` and `Text.DecimalOfNatToString` this is exactly the decimal numeral |
| `Text.NatToStringNoLeadingZero` | gpx-multi2.js:115 | `String(n)` starts with the digit 0 only for 0 itself: no leading zeros |
| `Text.DecimalOfNatToString` | gpx-multi2.js:115 | reading the digits of `String(n)` back gives `n` |
| `Text.NatToStringInjective` | gpx-multi2.js:13-15 | different numbers render differently |
| `Text.Pad2` | gpx-multi2.js:115 | `padStart(2, "0")` keeps the string as its suffix, fills only with zeros, and is at least two characters long |
| `Text.PaddedDecimal` | gpx-multi2.js:115 | a padded rendering is still all digits and reads back as the same number |
| `Text.SplitJoin` | gpx-multi2.js:115 | splitting `join(sep)` at a separator no part contains gives back the parts |
| `Text.LastFieldUnique` | gpx-multi2.js:13-15 | when two strings each end in a bar followed by a last field that has no bar, they are equal only if their heads agree and their last fields agree |
| `Text.LowerChar` | gpx-multi2.js:165 | an upper-case ASCII letter becomes the lower-case letter 32 code points later; every other character stays as it is |
| `Text.Lower` | gpx-multi2.js:165 | `toLowerCase` keeps the length and maps each upper-case ASCII letter to lower case, leaving every other character alone |
| `Calories.MetFromSpeedKmh` | gpx-multi2.js:133-141 | the MET value of each speed band: 1.2 without a positive speed, then 4, 6, 8, 10, 12 and 16 at 16/19/22/25/30 km/h |
| `Calories.MetMonotone` | gpx-multi2.js:133-141 | a faster speed never gets a lower MET value |
| `Calories.KcalPerMinKeytel` | gpx-multi2.js:127-132 | the Keytel rate is defined iff weight and age are numbers and the sex is "male" or "female"; a missing heart rate does not make it undefined, because `isFinite(null)` passes |
| `Calories.KeytelMissingHrIsZero` | gpx-multi2.js:128-130 | a missing heart rate gives exactly the rate of heart rate 0 |
| `Calories.KeytelMonotoneInHr` | gpx-multi2.js:129-130 | for either sex a higher heart rate gives at least the same rate |
| `Calories.EstimateCaloriesHR` | gpx-multi2.js:142-145 | defined iff the Keytel rate is, so also without a heart rate; then it is that per-minute rate times the duration in minutes |
| `Calories.EstimateCaloriesMET` | gpx-multi2.js:146-150 | defined iff the weight is a number; then it is MET times weight times hours |
| `Calories.ComputeCaloriesForSegment` | gpx-multi2.js:350-372 | per method: no estimate for "none" or an unknown method; "hr" and "met" give their estimators (for "hr" also without a heart rate); "auto" prorates a positive file total over the elapsed time, otherwise takes a positive HR estimate and falls back to MET |
| `Calories.AutoWithoutHrIsMet` | gpx-multi2.js:358-361 | "auto" without file calories or heart rate is the "met" estimate whenever the Keytel rate at heart rate 0 is not positive or not defined |
| `Calories.AutoWithoutHrMayUseKeytel` | gpx-multi2.js:358-359 | for a man of 200 kg and 80 years without heart rate, "auto" takes the positive Keytel estimate at heart rate 0 over one minute instead of the MET estimate |
| `Calories.NoHrEstimateIsNegative` | gpx-multi2.js:127-145 | without heart rate, a man of 70 kg and 30 years gets a negative heart-rate estimate for one hour |
| `Calories.EstimateCaloriesHRWithReading` | gpx-multi2.js:142-145 | the corrected heart-rate estimate: defined iff there is a heart rate, weight and age are numbers and the sex is known, and then equal to the page's estimate |
| `Calories.AutoPrefersPositiveHr` | gpx-multi2.js:359 | "auto" with a positive HR estimate and nothing to prorate is the "hr" estimate |
| `Calories.AutoDefinedWithWeight` | gpx-multi2.js:354-362 | "auto" always yields calories once the weight is known |
| `Calories.ProrateAdditive` | gpx-multi2.js:355-357 | prorated calories add up over adjacent spans, and prorating over the whole elapsed time gives the file total back |
| `GpxParse.FirstHr` | gpx-multi2.js:179-187 | the first `hr` element with a numeric value under `extensions`, `None` iff there is none |
| `GpxParse.ExtractHr` | gpx-multi2.js:180-187 | the loop with `break` finds that first reading |
| `GpxParse.ToPoint` | gpx-multi2.js:190-194 | a trackpoint is kept iff its latitude, longitude and time are all present |
| `GpxParse.ValidPointsMembers` | gpx-multi2.js:171-195 | `map(...).filter(Boolean)` keeps exactly the points some trackpoint converts to |
| `GpxParse.SortedByTimeIsSorted` | gpx-multi2.js:198 | the sort by time yields non-decreasing timestamps |
| `GpxParse.SortedByTimeIsPermutation` | gpx-multi2.js:198 | the sort keeps every point, as a multiset |
| `GpxParse.SortedByTimeIsStable` | gpx-multi2.js:198 | points with equal timestamps keep their input order |
| `GpxParse.InsertStep` | gpx-multi2.js:198 | one insertion step in the array puts the next point into the sorted prefix and leaves the rest alone |
| `GpxParse.SortByTime` | gpx-multi2.js:198 | the in-place array sort ends with the stable sort of the old contents |
| `GpxParse.DedupStrictlyIncreasing` | gpx-multi2.js:199-202 | after de-duplication, timestamps strictly increase |
| `GpxParse.DedupSubset` | gpx-multi2.js:199-202 | de-duplication keeps only points of its input |
| `GpxParse.DedupKeepsTimes` | gpx-multi2.js:199-202 | every timestamp of the input is still present |
| `GpxParse.DedupKeepsFirstOfEach` | gpx-multi2.js:199-202 | of each run of equal timestamps it is the first point that stays |
| `GpxParse.DedupSorted` | gpx-multi2.js:199-202 | the loop over the sorted array computes that de-duplication |
| `GpxParse.CalorieValuesNonEmpty` | gpx-multi2.js:162-169 | some calories were found iff some element is a `calories` element with a numeric value |
| `GpxParse.SumFileCalories` | gpx-multi2.js:162-169 | the file total is the sum of those values, and `null` iff there are none |
| `GpxParse.ParseGpxText` | gpx-multi2.js:153-204 | returns the cleaned points and the file's calorie total |
| `GpxParse.CleanPoints` | gpx-multi2.js:197-203 | the clean-up never has more points than the valid trackpoints, and keeps at least one when there is one |
| `GpxParse.CleanPointsIncreasing` | gpx-multi2.js:197-203 | the cleaned points have strictly increasing timestamps |
| `GpxParse.CleanPointsFromInput` | gpx-multi2.js:171-203 | each cleaned point is a valid trackpoint of the file |
| `GpxParse.CleanPointsKeepTimes` | gpx-multi2.js:197-203 | every timestamp of a valid trackpoint survives the clean-up |
| `GpxParse.CleanPointsFirstOfEach` | gpx-multi2.js:197-203 | for each timestamp the surviving point is the first valid trackpoint in file order with it |
| `Analyze.ElevUp` | gpx-multi2.js:267 | a segment's climb is never negative; it is the positive part of the rise when both ends have an elevation, and 0 on the desktop page when either end lacks one; the mobile page takes a missing elevation as 0 and keeps the positive part of that difference |
| `Analyze.HrAvg` | gpx-multi2.js:256-261 | a segment's heart rate exists iff both ends have one, and lies between the two |
| `Analyze.PairSegment` | gpx-multi2.js:235-269 | a pair becomes a segment iff its time step lies in (0, 3600] s and its speed is within the cap; the segment's fields are those of the pair |
| `Analyze.Segs` | gpx-multi2.js:233-270 | at most one segment per pair, each within the bounds the filter enforces |
| `Analyze.AppendSegment` | gpx-multi2.js:244-260 | each running sum grows by exactly the new segment's share |
| `Analyze.TallyStepKept` | gpx-multi2.js:244-268 | an accepted pair extends the running tally by its segment, its climb and its heart rates |
| `Analyze.TallyStepDropped` | gpx-multi2.js:237-242 | a rejected pair leaves the tally unchanged |
| `Analyze.Accumulate` | gpx-multi2.js:244-268 | the loop body's updates compute that extension |
| `Analyze.AddPair` | gpx-multi2.js:234-269 | one iteration of the loop turns the tally of a prefix into the tally of the prefix one point longer |
| `Analyze.AnalyzePoints` | gpx-multi2.js:207-293 | the loop computes the analysis the fold over the points defines |
| `Analyze.Summarize` | gpx-multi2.js:272-292 | the returned object is assembled from the final tally |
| `Analyze.AnalysisOf` | gpx-multi2.js:207-293 | the analysis counts every point; a track of fewer than two points gives the all-zero result with no heart rate, no segments and no first or last coordinates; a longer one starts and ends at its first and last points |
| `Analyze.SumsNonNegative` | gpx-multi2.js:244-260 | distance and heart-rate time are not negative; moving time lies between 0 and the segment time, and so does the heart-rate time |
| `Analyze.MaxVBounds` | gpx-multi2.js:246 | the maximum speed bounds every segment's speed, is 0 or some segment's speed, and stays under the cap |
| `Analyze.SegmentTimeWithinElapsed` | gpx-multi2.js:272 | on time-sorted points the segments' total time fits in the elapsed time |
| `Analyze.GainNonNegative` | gpx-multi2.js:248-251 | with a non-negative threshold the climb total is never negative |
| `Analyze.DesktopGainMatchesSegments` | gpx-multi2.js:248-267 | on the desktop page, summing each segment's climb above the threshold gives the climb total |
| `Analyze.MobileGainDiverges` | gpx-mobile-ui.js:311 | a two-point track shows where the mobile page's segment climb (10 m) departs from its climb total (0 m) and from the desktop page |
| `Analyze.SegmentHrBelowMax` | gpx-multi2.js:253-261 | every segment heart rate is at most the maximum heart rate, and there is none without one |
| `Analyze.SegmentHrWithin` | gpx-multi2.js:256-261 | readings within `[lo, hi]` give segment heart rates within `[lo, hi]` |
| `Analyze.HrSumAtMost` | gpx-multi2.js:259-260 | the heart-rate weight is at most `hi` times its time base |
| `Analyze.HrSumAtLeast` | gpx-multi2.js:259-260 | the heart-rate weight is at least `lo` times its time base |
| `Analyze.AnalysisDistanceTime` | gpx-multi2.js:272-281 | the analysis counts every point; the distance is not negative; the moving time lies between 0 and the elapsed time |
| `Analyze.AnalysisClimbNonNegative` | gpx-multi2.js:285 | the reported climb is not negative |
| `Analyze.AnalysisAverageSpeeds` | gpx-multi2.js:273-283 | each average speed times its time is the distance (in km/h units) whenever that time is not 0 |
| `Analyze.AnalysisMaxWithinCap` | gpx-multi2.js:284 | the reported maximum speed never exceeds the cap |
| `Analyze.AnalysisAvgHrBelowMax` | gpx-multi2.js:275 | an average heart rate exists iff some heart-rate time was counted, and then it does not exceed the maximum |
| `Analyze.AnalysisHrSums` | gpx-multi2.js:290-291 | the exported `hrTimeSum` lies between `lo` and `hi` times `hrTimeDen` when every reading lies in `[lo, hi]` |
| `Analyze.AnalysisAvgHrWithin` | gpx-multi2.js:275 | the average heart rate lies within the range of the readings |
| `Laps.HrSpan` | gpx-multi2.js:306 | every segment heart rate lies between the lowest and the highest |
| `Laps.PosCoversAnalysis` | gpx-multi2.js:302-308 | the moving segments cover the analysis distance exactly and at most its segment time |
| `Laps.CloseLap` | gpx-multi2.js:323-337 | a closed lap's distance, time, climb and heart rate are those accumulated, and its speed, its pace text (the page's `paceMinPerKm`, as written) and its calories agree with them |
| `Laps.LapsLengthIsProduct` | gpx-multi2.js:330 | n laps of length L are n times L long |
| `Laps.Capacity` | gpx-multi2.js:308 | some number of laps is longer than any distance, which bounds the lap loop |
| `Laps.LapCountBound` | gpx-multi2.js:308-343 | the laps closed so far cannot outnumber that bound |
| `Laps.ShareAtBoundary` | gpx-multi2.js:317-320 | splitting at a boundary divides time and climb into non-negative parts that add back up |
| `Laps.FeedSegment` | gpx-multi2.js:303-344 | feeding one segment through the inner loop keeps the progress invariant, with that segment's distance, time and climb added |
| `Laps.FeedStep` | gpx-multi2.js:309-343 | one turn of the inner loop keeps the loop invariant, and either uses up the segment or closes exactly one more lap |
| `Laps.FeedAll` | gpx-multi2.js:302-346 | the loop over all segments ends with the progress invariant for the whole moved distance, time and climb |
| `Laps.AddWhole` | gpx-multi2.js:310-315 | a remainder that fits is added whole to the open lap |
| `Laps.CloseAtBoundary` | gpx-multi2.js:316-342 | a remainder that crosses the boundary closes one full lap, carries the rest over, and preserves the totals |
| `Laps.Push` | gpx-multi2.js:328-337 | the pushed lap keeps the numbering and its lap distance |
| `Laps.MakeDistanceLaps` | gpx-multi2.js:296-347 | laps are numbered 1, 2, … and are each exactly the lap distance, with consistent speed, the page's pace text and calories, and heart rates within the segments' range; n laps fall short of the moved distance while n+1 reach it; there are none without movement; their time falls short of the moved time and their climb stays within the moved climb |
| `Laps.NonPositiveLapNeverEnds` | gpx-multi2.js:308-343 | with a lap distance of 0 or less and some distance left of a segment, the inner loop as written is still running after any number of turns, with the open lap empty, at least that distance left and one lap pushed per turn |
| `Laps.MakeDistanceLapsGuarded` | gpx-multi2.js:296-347 | with a lap distance of 0 or less there are no laps; otherwise the laps are those `Laps.MakeDistanceLaps` states |
| `Laps.ProgressFinal` | gpx-multi2.js:345-346 | at the end of the loop the laps cover all moved distance short of one more lap, and at most the moved time and climb |
| `Format.WholeSeconds` | gpx-multi2.js:111 | `Math.max(0, Math.round(s))`: within half a second of `s` when `s` is not negative, and 0 below -0.5 |
| `Format.HMS` | gpx-multi2.js:112-114 | hours, minutes and seconds add back up to the seconds, with minutes and seconds below 60 |
| `Format.SecToHMS` | gpx-multi2.js:110-116 | the clock text reads back as the rounded, non-negative seconds, so no field overflows; it has three fields, hours at least two characters wide, minutes and seconds exactly two |
| `Format.ClockTextRoundTrip` | gpx-multi2.js:112-115 | the hours, minutes and seconds written as padded fields read back as the whole seconds |
| `Format.ClockTextShape` | gpx-multi2.js:115 | the padded fields have the widths of the clock text |
| `Format.PaceMinPerKmAsWritten` | gpx-multi2.js:117-123 | the page's pace text is empty exactly without a positive speed |
| `Format.PaceTextFields` | gpx-multi2.js:122 | "m:ss" splits into the minutes and the padded seconds, both digits, reading back as the two numbers |
| `Format.PaceAsWrittenFields` | gpx-multi2.js:119-122 | the page's two pace fields read back as numbers that add up to the rounded seconds per kilometre, even when the seconds field says 60 |
| `Format.PaceFieldsAt12012` | gpx-multi2.js:119-121 | at 12.012 km/h the page's fields come out as 4 minutes and 60 seconds |
| `Format.PaceAsWrittenShowsSixtySeconds` | gpx-multi2.js:117-123 | the published pace renders 12.012 km/h as "4:60" |
| `Format.PaceMinPerKm` | gpx-multi2.js:117-123 | the corrected pace: empty exactly without a positive speed, and otherwise reading back as the rounded seconds per kilometre, its seconds field always below 60 |
| `Format.PaceAgreesBelowSixty` | gpx-multi2.js:120-122 | the corrected pace equals the published one whenever its seconds do not round up to 60 |
| `Format.CellsOf` | gpx-multi2.js:381 | one quoted cell per header, for that header's value |
| `Format.Lines` | gpx-multi2.js:381 | one CSV line per row |
| `Format.UnescapeEscape` | gpx-multi2.js:378 | doubling quotes is undone by halving them |
| `Format.CellRoundTrip` | gpx-multi2.js:378-381 | a cell is quoted, and its inside reads back as the value, with empty for `null` |
| `Format.ToCSV` | gpx-multi2.js:375-384 | the export is empty exactly for no rows, and otherwise starts with the header line of the first row's keys and a line break |
| `Format.ToCSVLines` | gpx-multi2.js:375-383 | for rows without line breaks the text has one header line of the first row's keys followed by one line per row |
| `Selection.FileKey` | gpx-multi2.js:13-15 | the key starts with the file name and a bar |
| `Selection.FileKeyInjective` | gpx-multi2.js:13-15 | two files with the same key have the same name, size and date |
| `Selection.DistinctKeysDistinctFiles` | gpx-multi2.js:13-15 | distinct keys amount to distinct files |
| `Selection.SomeHasKey` | gpx-multi2.js:21 | `some(x => fileKey(x) === key)` finds a file with the key iff there is one |
| `Selection.AppendNewPrefix` | gpx-multi2.js:16-27 | adding keeps the selected files in place and in order |
| `Selection.AppendNewDistinct` | gpx-multi2.js:16-27 | adding never repeats a key |
| `Selection.AppendNewCovers` | gpx-multi2.js:16-27 | afterwards every old and new key is selected, and nothing else was added |
| `Selection.AppendNewKnown` | gpx-multi2.js:16-27 | a batch of already-selected files changes nothing |
| `Selection.AppendNewIdempotent` | gpx-multi2.js:16-27 | adding the same batch twice is adding it once |
| `Selection.SpliceStart` | gpx-multi2.js:28-31 | the start of `splice(idx, 1)`: a negative index counts from the end, and an index past either end is clamped to it |
| `Selection.RemoveAt` | gpx-multi2.js:28-31 | `splice(idx, 1)` removes exactly the element at that start, or nothing past the end |
| `Selection.RemoveAtSubsequence` | gpx-multi2.js:28-31 | removal keeps keys distinct, adds nothing, and drops the key at an in-range index |
| `Selection.FileSelection.constructor` | gpx-multi2.js:11 | the list starts empty |
| `Selection.FileSelection.AddFiles` | gpx-multi2.js:16-27 | the list becomes the old one plus the new files (nothing for a missing list), keys stay distinct, and `added` counts the new files |
| `Selection.FileSelection.RemoveFileByIndex` | gpx-multi2.js:28-31 | the list loses the element at the splice index, keeping keys distinct |
| `Selection.FileSelection.ClearSelected` | gpx-multi2.js:32-37 | the list is emptied |
| `Batch.FileCaloriesKcal` | gpx-multi2.js:596-605 | under "auto" a file's own declared total is its calories; an unknown method gives none; "hr" and "met" give their estimators over the whole file; "auto" with a known weight always gives a number |
| `Batch.FileCaloriesIsWholeFile` | gpx-multi2.js:596-605 | the file's total is the per-segment estimate over the whole file, except for "auto" with declared calories and no elapsed time |
| `Batch.AddFile` | gpx-multi2.js:607-617 | one file's `agg` update: the top speed becomes the larger of the two and the highest heart rate the larger of those present; a file without calories leaves the calorie total alone |
| `Batch.TotalsOfConcat` | gpx-multi2.js:607-617 | folding two batches in turn combines their totals |
| `Batch.TotalsMaxKmh` | gpx-multi2.js:613 | the batch maximum speed bounds each file's and is 0 or one of them |
| `Batch.TotalsHrWeighted` | gpx-multi2.js:615-616 | the batch heart-rate weight stays between `lo` and `hi` times its time base |
| `Batch.TotalsHrWithin` | gpx-multi2.js:696 | the batch average heart rate stays within the files' common range |
| `Batch.TotalsTimeWithin` | gpx-multi2.js:609-611 | the batch distance is not negative, and its moving time lies between 0 and its elapsed time |
| `Batch.AddToTotals` | gpx-multi2.js:607-617 | the `agg` updates add one file's analysis and calories to the totals |
| `Batch.RoundedIfTruthy` | gpx-multi2.js:631-632 | `x ? Math.round(x) : ""` leaves the cell empty exactly for a missing or zero value, and otherwise holds `Math.round(x)` |
| `Batch.SummaryOf` | gpx-multi2.js:620-634 | a file's summary row carries its name and point count, a pace that is empty exactly without a positive average speed, average and highest heart-rate cells that are `Math.round` of the file's values, empty when missing or zero, a pace cell that is the page's `paceMinPerKm` of the average speed, clock cells that read back as the rounded elapsed and moving seconds, and calories exactly when the file has a total, rounded |
| `Batch.SummariesOf` | gpx-multi2.js:620-634 | one summary row per analysed file, in order, each the file's `SummaryOf` row with the cells stated there; its pace and calories are the page's as written (see Findings) |
| `Batch.SummaryAt` | gpx-multi2.js:620-634 | the row at position k is the summary of the k-th analysed file |
| `Batch.KmhOver` | gpx-multi2.js:692-693 | the distance divided by the time, or by `Infinity` when the time is 0, times 3.6: the speed in km/h over that time, and 0 without time |
| `Batch.TotalRow` | gpx-multi2.js:692-712 | the total row carries the label and the point total, clock cells that read back as the batch's rounded times, average speeds that are the distance over those times in km/h (0 without elapsed or without moving time), a pace cell that is the page's `paceMinPerKm` of the elapsed average speed, a heart-rate cell exactly when heart-rate time was counted holding the rounded time-weighted average, a highest heart rate that is the rounded batch maximum, and calories exactly when their sum is not 0, holding the rounded sum |
| `Batch.LapRows` | gpx-multi2.js:656-668 | one lap row per lap of the file, carrying the file's name and that lap |
| `Batch.LapsOfLapRows` | gpx-multi2.js:656-668 | the lap rows of a file show exactly its laps |
| `Batch.ConcatSnoc` | gpx-multi2.js:656-668 | appending one file's block of lap rows extends the lap table by that block |
| `Batch.LapTableSnoc` | gpx-multi2.js:562-689 | the lap table of the files scanned so far, one block per file, grows by the next file's block |
| `Batch.FileContribution` | gpx-multi2.js:566-579 | a file contributes at most one summary, and none with fewer than two clean points |
| `Batch.ContributionsOf` | gpx-multi2.js:562-689 | a batch has at most one contribution per file |
| `Batch.FailureDiverges` | gpx-mobile-ui.js:568-572 | a file that throws is skipped on the desktop page but ends the batch on the mobile page |
| `Batch.ContributionsTimeWithin` | gpx-multi2.js:562-689 | every analysed file's moving time lies between 0 and its elapsed time |
| `Batch.BatchTimeWithin` | gpx-multi2.js:692-703 | the same holds for the batch totals behind the total row |
| `Batch.ContributionsHrWeighted` | gpx-multi2.js:615-616 | readings within `[lo, hi]` in every file keep each file's heart-rate weight in range |
| `Batch.BatchHrWithin` | gpx-multi2.js:696 | the total row's average heart rate lies between the rounded bounds of all readings |
| `Batch.AnalyzeFile` | gpx-multi2.js:566-605 | one file's parse, analysis, laps and calories give its contribution; laps are numbered from 1 with the lap distance, and there are none when laps are off, the file is too short or the lap distance is not positive; otherwise they are the distance laps of the file's segments under its own calorie parameters, as `Laps.MakeDistanceLaps` states them (n laps short of the moved distance and n+1 reaching it, none without movement) |
| `Batch.TakeFile` | gpx-multi2.js:563-684 | one loop iteration extends the totals and summary rows by that file's contribution |
| `Batch.FoldAtMostOne` | gpx-multi2.js:607-634 | appending a file's contribution, if any, folds it into the totals and appends its summary row |
| `Batch.FoldFile` | gpx-multi2.js:607-634 | the `agg` and summary statements for one file compute that fold |
| `Batch.Step` | gpx-multi2.js:562-689 | one iteration either handles the file or ends the batch, keeping the loop invariant |
| `Batch.StepFailed` | gpx-multi2.js:684-687 | a file that throws is listed as failed; the desktop page adds an empty lap block for it and goes on with the next file, while the mobile page stops there (gpx-mobile-ui.js:568-572) |
| `Batch.StepRead` | gpx-multi2.js:563-683 | a readable file adds its contribution to the totals and summaries and its lap rows as the next block, keeping the loop invariant |
| `Batch.AnalyzeFiles` | gpx-multi2.js:556-689 | the loop leaves the totals and summaries of the contributions of all files in order; it aborts iff a file throws on the mobile page; its lap table is one block per file scanned, each holding that file's laps |
| `Batch.ScannedStart` | gpx-multi2.js:556-562 | before the first file the loop invariant holds with empty totals and rows |
| `Batch.ScannedEnd` | gpx-multi2.js:562-689 | when the loop stops, the scanned contributions are the batch's, and it stopped early exactly when the mobile page met a file that throws; the lap blocks cover every file, or every file before the one that stopped the mobile page |
| `Batch.AnalyzeBatch` | gpx-multi2.js:514-742 | with no files the previous tables stay; otherwise the rows are the files' summaries followed by the total row, present iff the batch was not aborted and covered some time or distance; the mobile page has no lap rows for several files; the lap table is the concatenation of one block per file scanned, each the rows of that file's distance laps as `Laps.MakeDistanceLaps` states them and empty for a file that throws; every lap row is one lap distance long; pace cells are the page's `paceMinPerKm` text and calories the page's estimate |

## Left out

- Reading files (`file.text()`, asynchronous), the XML parser (`DOMParser`, a
  `parsererror` throw) and any other exception: a file's document is given as
  already parsed, and a file that throws is one whose document is missing.
- Leaflet maps, track layers, colours, chips, toasts, the progress overlay,
  table cells, the placeholder row for a file with too few points, button
  states and `downloadCSV`: user interface and I/O with no bearing on the
  numbers.
- A map-drawing error inside the per-file loop: it counts as the file
  throwing, which on the desktop page matches because drawing comes before any
  `agg` update.
- The haversine trigonometry: the distance is a parameter function, assumed
  only to be non-negative, because the model has no floating-point
  trigonometry.
- `round(n, d)` (`toFixed`): the summary and lap rows keep unrounded numbers,
  because decimal rounding of binary floating point is outside a model over
  reals.
- Rendering numbers as strings inside CSV cells beyond `String` of natural
  numbers: cells are given as strings.
- Floating-point behaviour in general (overflow, rounding error, `NaN`
  arithmetic): numbers are exact reals.
- `parseFloat` and `Date` parsing: elevations and heart rates arrive as
  optional numbers, and times as optional integer milliseconds.
  - A `Date` of bad text is truthy, so the source keeps such a point. That
    case is not modelled: a present time is always a number.
  - An elevation that fails to parse (NaN) is modelled like a missing one on
    the desktop page. On the mobile page the model reads it as 0, like a
    missing one; the source would make the climb NaN there.
- Reading the options with `parseFloat(... || default)`: `Batch.Settings`
  holds the numbers that come out.
- Both handlers begin by merging the native file input into the selection
  again (gpx-multi2.js:517-520 on the desktop page, gpx-mobile-ui.js:403 on
  the mobile page). That step is an `addFiles` call, which
  `Selection.FileSelection.AddFiles` models; `Batch.AnalyzeBatch` takes the
  selection it produces as its input.
- `Text.Lower` lowercases ASCII letters only, not full Unicode case mapping.
- File sizes and dates are natural numbers, and `splice` receives an integer
  index.
- `Laps.MakeDistanceLaps` requires a positive lap distance: with 0 or less
  the source's inner loop never ends on a moving segment (see Findings).
  The batch calls `Laps.MakeDistanceLapsGuarded` instead, which gives no
  laps there, so for such a lap distance `Batch.AnalyzeBatch` finishes where
  the page would hang.
- Metrics the code does not compute are absent from the model: there is no
  elevation smoothing or hysteresis (the climb is a per-pair threshold,
  gpx-multi2.js:248-251), no cadence or power, no rolling maximum speed (the
  maximum is over single segments, gpx-multi2.js:246), and no NP, IF or TSS.
  A file's calories are the one estimate `computeCaloriesForSegment` picks
  (gpx-multi2.js:596-605), and the total row sums them (gpx-multi2.js:617).
- Laps: the desktop page computes them for every file (gpx-multi2.js:594),
  the mobile page only for a batch of one file (gpx-mobile-ui.js:461).
  `Track.Variant` carries the difference.

## Findings

| source | as written | input that shows it | evidently intended | confidence | as-written member | corrected member |
|---|---|---|---|---|---|---|
| gpx-multi2.js:117-123 | the seconds of the pace are rounded separately from the minutes, so a fraction of a minute that rounds up to 60 seconds prints as `m:60` | 12.012 km/h (4.995 min/km) prints "4:60" | carry the 60 seconds into the minutes and print "5:00" (the same code is at gpx-mobile-ui.js:10-14) | not executed | `Format.PaceAsWrittenShowsSixtySeconds` | `Format.PaceMinPerKm` |
| gpx-multi2.js:308-343 | `makeDistanceLaps` cuts laps in `while (remain > 0)` with `need = lapDistM - accDist`; nothing guards the lap distance, so with 0 or less every turn closes a lap of `need` and leaves `remain - need`, which is not less than `remain` | lap distance 0 (or -1) km and any segment that moves: the loop pushes laps without end and the page hangs (the same loop is at gpx-mobile-ui.js:331-346) | refuse a lap distance of 0 or less and give no laps | not executed | `Laps.NonPositiveLapNeverEnds` | `Laps.MakeDistanceLapsGuarded` |
| gpx-multi2.js:127-132 | the guard uses the global `isFinite`, which accepts `null` as 0, so a file or lap with no heart rate gets the Keytel rate at 0 bpm, which is negative for typical riders | method "hr", a man of 70 kg and 30 years, no heart rate, one hour: about -504 kcal in the summary and the total | no heart-rate estimate without a reading, as `Number.isFinite(hr)` would give (the same guard is at gpx-mobile-ui.js:215-220) | not executed | `Calories.NoHrEstimateIsNegative` | `Calories.EstimateCaloriesHRWithReading` |

The rows, laps and totals of `Batch` and `Laps` follow the code as written:
they use `Format.PaceMinPerKmAsWritten` and the page's heart-rate estimator.
The corrected members stand beside them with their intended properties
proved. The lap loop is the exception: a loop that never ends has no result
to model, so the batch cuts laps with `Laps.MakeDistanceLapsGuarded`.
