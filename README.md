# Cosmic Dance in Dafny

Cosmic Dance cross-references the Dst geomagnetic index with the TLE
(two-line element) histories of satellites, mostly Starlink. Its data
processing is a set of small sequential routines over ordered
`(timestamp, value)` tables:

- storm windows are extracted from the hourly Dst series;
- a satellite's TLE table is queried for the last TLE before an instant,
  the first after it, the TLEs between two instants and the median altitude
  before an instant;
- four post-event measurers log how far a satellite's altitude moved in the
  days after a solar event;
- the after-effect traces are classified as a minor/no impact, station
  keeping, a permanent decay or undecidable;
- the Kyoto WDC-style Dst text is parsed;
- NORAD catalog number lists are read, written and updated;
- TLE files are cleaned up and stripped of their orbit-raising phase;
- daily drag and tracking insights are computed;
- the plotting helpers compute CDFs and time-axis tick marks.

This project models those routines and proves what they promise.

Representation:

- An instant (`DataProcessor.Instant`) is an `int` count of seconds.
- Altitudes, drags and intensities are `real`, so 0.05 km, 1 km and 5 km
  are exact.
- A DataFrame is a `seq` of row datatypes in file order (`DataProcessor.Tle`,
  `Trace.TraceRow`, `StormWindows.Sample`).
- Python's `None`, and a pandas NaN from an aggregate over no rows, are
  `Wrappers.Option.None`.
- A Python dict handed to `CSV_logger` is a `Records.Record`: a sequence of
  key/cell pairs in insertion order. A key that is assigned again keeps its
  position.
- Python's `int()`, `str.strip`, `str.split` and slicing are in `Text`.
- The median, mean, minimum and maximum of pandas are in `Stats`, for
  finite values. The median is the middle element of the sorted values, or
  the mean of the two middle ones.

Module layout:

- The CSV logger, on a file modelled by its lines, is the class
  `Io.CsvFile`. Its `Log` method appends a header on the first call and one
  row on every call.
- Each imperative routine is a `method` with a loop, proved equal to a
  specification function. The properties of that function are proved as
  lemmas.
- Every routine that raises keeps that path. It returns `None` where
  Python's `int()` raises, where `pd.to_datetime` rejects a Dst timestamp
  text, where `iloc[-1]` raises on an empty table, or where indexing the
  empty window of a negative observation day raises. `Crashed` and `Raised`
  are the results for these paths. Which timestamp texts `pd.to_datetime`
  accepts is the parameter `accepts` of the Dst parser.
- The `change_thershold` of `compute_absolute_change` and
  `track_satellite_altitude_change`, 5.0 km by default, is their parameter
  `threshold`.
- `Trace` holds the day-0-plus-follow-up trace shared by
  `absolute_altitude_change` and `track_satellite_altitude_change`. Both
  measurers are thin callers of it, in `AfterEffects` and `Measurement`.
- `ForIntensity` models `compute_absolute_change`.
- `AltitudeDecay` models `compute_abs_decay` and `compute_decay`. Both go
  through one function, `DecayCall`, which is parametrised by the measure,
  by whether the Gen2 check is on, and by a `KeyStyle`. With `AsWritten` a
  day without a later TLE stores its 0 under the float key
  `KM_after_DAY_<d>.0`, as the program does; with `Corrected` it stores it
  under the observed-day key `KM_after_DAY_<d>` (see Findings). Every
  decay operation takes the style as a parameter.

## Model

| member | source | states |
|---|---|---|
| DataProcessor.LastBefore | cosmic_dance/data_processor.py:159-163 | None exactly when no row has EPOCH strictly before the date; otherwise a row with EPOCH < date after which no row in file order is before the date |
| DataProcessor.FirstAfter | cosmic_dance/data_processor.py:172-176 | None exactly when no row has EPOCH strictly after the date; otherwise a row with EPOCH > date before which no row in file order is after the date |
| DataProcessor.LastBeforeIsLatest | cosmic_dance/data_processor.py:159-162 | in EPOCH-sorted rows the returned row has the greatest EPOCH among the rows before the date |
| DataProcessor.FirstAfterIsEarliest | cosmic_dance/data_processor.py:172-175 | in EPOCH-sorted rows the returned row has the least EPOCH among the rows after the date |
| DataProcessor.FirstAfterAntitone | cosmic_dance/data_processor.py:172-176 | a satellite with a TLE after a date has one after every earlier date |
| DataProcessor.Between | cosmic_dance/data_processor.py:110-117 | None exactly when no row lies in the inclusive window sdate <= EPOCH <= edate (of the given cat id, if any); otherwise a non-empty selection holding exactly those rows |
| DataProcessor.BetweenIsSubsequence | cosmic_dance/data_processor.py:112-113 | the selection keeps the rows in file order |
| DataProcessor.BetweenHoldsEnds | cosmic_dance/data_processor.py:113 | both bounds are inclusive: the rows at either end are selected |
| DataProcessor.RowsBefore | cosmic_dance/data_processor.py:167-168 | the rows strictly before end_date, or all rows without one |
| DataProcessor.MedianAltitude | cosmic_dance/data_processor.py:166-169 | the median is defined (not NaN) exactly when some row is before end_date |
| DataProcessor.MedianAltitudeBounds | cosmic_dance/data_processor.py:169 | the median lies between the least and the greatest KM of those rows |
| DataProcessor.LastBeforeGivesMedian | cosmic_dance/data_processor.py:159-169 | a TLE before the date makes the median before it defined |
| DataProcessor.SatelliteAgeInDays | cosmic_dance/data_processor.py:85-87 | defined exactly for a non-empty table (`iloc` raises otherwise), never negative for EPOCH-sorted rows |
| StormWindows.Run | cosmic_dance/data_processor.py:125-143 | the scan state after feeding samples in order to the loop from a given state; `RunConcat` splits it, `CountBound`, `IdleWhileClosed` and `HoldWhileOpen` bound it |
| StormWindows.Extract | cosmic_dance/data_processor.py:120-146 | the windows the loop emits from the closed state, in order; `ExtractCount`, `ExtractIsOrdered`, `ExtractIsSustained` and `TrailingWindowDropped` state what they are |
| StormWindows.Step | cosmic_dance/data_processor.py:127-143 | a sample equal to the threshold changes nothing; a window is emitted exactly when an open window closes, and both markers are then reset |
| StormWindows.ExtractTimespanAboveIntensity | cosmic_dance/data_processor.py:120-146 | the loop returns the windows of the scan `Extract` |
| StormWindows.RunConcat | cosmic_dance/data_processor.py:125-143 | scanning a + b is scanning b from the state after a |
| StormWindows.IdleWhileClosed | cosmic_dance/data_processor.py:127 | no window opens while the samples stay at or below the threshold |
| StormWindows.HoldWhileOpen | cosmic_dance/data_processor.py:130 | an open window stays open while the samples stay at or above the threshold |
| StormWindows.OpenThenClose | cosmic_dance/data_processor.py:127-143 | a window opens at the first sample above the threshold and closes at the next one below it; it is emitted with those two timestamps and the scan is closed again |
| StormWindows.EqualSampleIsInert | cosmic_dance/data_processor.py:127-130 | removing a sample equal to the threshold does not change the result |
| StormWindows.CountBound | cosmic_dance/data_processor.py:125-143 | every emitted window used two samples, and an open one used one more |
| StormWindows.ExtractCount | cosmic_dance/data_processor.py:125-143 | at most n/2 (rounded down) windows come out of n samples |
| StormWindows.ExtractOrdered | cosmic_dance/data_processor.py:125-143 | with strictly increasing timestamps the windows are ordered, and none ends after the last sample or after the start of the open one |
| StormWindows.ExtractIsOrdered | cosmic_dance/data_processor.py:125-143 | with strictly increasing timestamps each window starts before it ends and ends before the next one starts |
| StormWindows.ExtractSustained | cosmic_dance/data_processor.py:127-132 | every sample strictly inside a window, or after the start of the open one, is at or above the threshold |
| StormWindows.ExtractIsSustained | cosmic_dance/data_processor.py:127-132 | every sample strictly between an emitted window's start and end is at or above the threshold |
| StormWindows.TrailingWindowDropped | cosmic_dance/data_processor.py:136-146 | a window still open when the samples run out is not among the emitted ones |
| StormWindows.DurationHours | cosmic_dance/data_processor.py:153-155 | DURATION_HOURS is positive exactly when the window starts before it ends |
| StormWindows.ExtractedDurationsPositive | cosmic_dance/data_processor.py:149-156 | every extracted window has a positive duration |
| Trace.MeasuredTrace | cosmic_dance/measurement.py:36-99 | the rows one satellite logs: none when it is skipped, else the day-0 row from its last TLE before the event, then the follow-up rows; `MeasuredTraceShape`, `MeasuredTraceStop` and `LogTrace` are about it |
| Trace.TraceRecord | measurements/timeseries/capture_solar_event_after_effects.py:55-67 | the logged dict has the keys CAT_ID, DAYS, EPOCH, MEDIAN_BEFORE, ALTITUDE_CHANGE_KM, nT in that order |
| Trace.TraceRecords | cosmic_dance/measurement.py:60-99 | one dict per trace row, in order |
| Trace.EventBaseline | cosmic_dance/measurement.py:38-53 | no TLE before the event skips the satellite; an accepted one has the last TLE before the event, the median before it and a change under the threshold |
| Trace.EventBaselineOf | cosmic_dance/measurement.py:39-53 | with a TLE before the event the median is defined, and the satellite is skipped exactly when the change is at least the threshold (equality skips) |
| Trace.BaselineSkips | cosmic_dance/measurement.py:49-53 | a skipped satellite with a TLE before the event is at least the threshold off its median |
| Trace.BaselineBounds | cosmic_dance/measurement.py:39-46 | the baseline TLE is a row before the event, and its median lies between the least and greatest altitude before the event |
| Trace.FollowUp | cosmic_dance/measurement.py:82-99 | a day yields a row exactly when a TLE exists strictly after it; the row has that DAYS, the common median, a change of at least 0 and the TLE's EPOCH after the day |
| Trace.FollowUps | cosmic_dance/measurement.py:77-99 | at most one row per observation day |
| Trace.FollowUpsRows | cosmic_dance/measurement.py:77-99 | the follow-up rows are for days 1, 2, ..., k with no day skipped, all with the same MEDIAN_BEFORE |
| Trace.FollowUpsOneSatellite | cosmic_dance/measurement.py:86 | for a one-satellite file every row carries that satellite's NORAD_CAT_ID |
| Trace.FollowUpsFull | cosmic_dance/measurement.py:77-83 | a TLE after the last observation day gives a row for every day |
| Trace.FollowUpsStop | cosmic_dance/measurement.py:77-83 | when the rows stop short, the satellite has no TLE after the first missing day |
| Trace.MeasuredTraceShape | cosmic_dance/measurement.py:38-99 | no rows exactly when a guard fails; otherwise rows for days 0..k, at most one more than the observation days, with the day-0 row before the event and under the threshold |
| Trace.MeasuredTraceStop | cosmic_dance/measurement.py:77-83 | once a day has no later TLE, no later day can have one |
| Trace.LogFollowUps | cosmic_dance/measurement.py:77-99 | the day loop appends exactly the follow-up rows to the file |
| Trace.LogDay | cosmic_dance/measurement.py:81-99 | one pass of the day loop appends that day's follow-up row, if any, and nothing else |
| Trace.LogGuarded | cosmic_dance/measurement.py:43-99 | with the last TLE before the event known, a satellite at least the threshold off its median appends nothing (equality skips), any other appends exactly its trace |
| Trace.LogTrace | cosmic_dance/measurement.py:60-99 | an accepted satellite's file gains exactly its trace: the day-0 row, then the follow-ups |
| AfterEffects.CatIdOfFileName | measurements/timeseries/capture_solar_event_after_effects.py:33 | `int()` of the file name before its first dot, a raise where that is no integer; `FileNameRoundTrip` inverts it |
| AfterEffects.ObservedDays | measurements/timeseries/capture_solar_event_after_effects.py:27-30 | `range(1, next_observation_days)` has next_observation_days − 1 days, and none when that is 1 or less |
| AfterEffects.CapturedRows | measurements/timeseries/capture_solar_event_after_effects.py:33-92 | a raise when the file name is not a number, else the measured trace for the file's CAT_ID with the 5.0 km threshold over the observed days (`CapturedShape`) |
| AfterEffects.FileNameRoundTrip | measurements/timeseries/capture_solar_event_after_effects.py:33 | the file `<NORAD_CAT_ID>.csv` yields its number |
| AfterEffects.CapturedShape | measurements/timeseries/capture_solar_event_after_effects.py:27-92 | no rows exactly when a guard fails; otherwise days 0..k with k below next_observation_days (the last day is cut off by `range`), all with the file's CAT_ID |
| AfterEffects.AbsoluteAltitudeChange | measurements/timeseries/capture_solar_event_after_effects.py:10-92 | raises, writing nothing, exactly when the file name does not start with a number; otherwise appends exactly the captured rows |
| AfterEffects.CaptureSatellite | measurements/timeseries/capture_solar_event_after_effects.py:37-92 | the guarded logging appends the measured trace of the satellite |
| Measurement.TrackedDays | cosmic_dance/measurement.py:77 | `range(1, next_observation_days + 1)` has next_observation_days days, and none when that is not positive |
| Measurement.TrackedRows | cosmic_dance/measurement.py:36-99 | the measured trace with each row's CAT_ID taken from its TLE (`TrackedShape`, `TrackedUntilVanished`) |
| Measurement.TrackedShape | cosmic_dance/measurement.py:36-99 | no rows exactly when a guard fails; otherwise days 0..k with k up to next_observation_days inclusive, each CAT_ID that of the TLE |
| Measurement.TrackedUntilVanished | cosmic_dance/measurement.py:77-83 | a trace shorter than the observation days ends because the satellite has no TLE after the next day |
| Measurement.TrackSatelliteAltitudeChange | cosmic_dance/measurement.py:7-99 | appends exactly the tracked rows to the output file |
| OrbitalShifts.Changes | measurements/timeseries/detect_orbital_shifts.py:36-38 | the ALTITUDE_CHANGE_KM column, row by row |
| OrbitalShifts.MinorNoImpact | measurements/timeseries/detect_orbital_shifts.py:36-50 | the first and last changes are within 0.05 km of the median and the median within 1 km of the largest change (`ConstantIsMinor`, `MinorMaxNearMedian`) |
| OrbitalShifts.StationKeeping | measurements/timeseries/detect_orbital_shifts.py:70-76 | the first and the last change both lie below the median (`KeepingNeedsThreeRows`) |
| OrbitalShifts.PermanentDecay | measurements/timeseries/detect_orbital_shifts.py:95-101 | the median exceeds the first change, and the last change the median, each by more than 0.05 km (`DecayRises`, `DecayExcludesKeeping`, `DecayExcludesMinor`) |
| OrbitalShifts.Classify | measurements/timeseries/detect_orbital_shifts.py:127-139 | the kind of the first test a trace passes in the order minor/no impact, station keeping, permanent decay, else undecidable (`GroupLandsIn`, `MinorShadowsKeeping`) |
| OrbitalShifts.DecayExcludesKeeping | measurements/timeseries/detect_orbital_shifts.py:74-99 | no trace is both a permanent decay and station keeping |
| OrbitalShifts.DecayExcludesMinor | measurements/timeseries/detect_orbital_shifts.py:48-99 | no trace is both a permanent decay and a minor/no impact |
| OrbitalShifts.ConstantIsMinor | measurements/timeseries/detect_orbital_shifts.py:36-50 | a trace whose changes are all equal, a single row included, is a minor/no impact and is classified as one |
| OrbitalShifts.KeepingNeedsThreeRows | measurements/timeseries/detect_orbital_shifts.py:70-76 | station keeping needs at least three rows |
| OrbitalShifts.DecayRises | measurements/timeseries/detect_orbital_shifts.py:95-101 | a permanent decay rises by more than 0.1 km from the first row to the last |
| OrbitalShifts.MinorMaxNearMedian | measurements/timeseries/detect_orbital_shifts.py:44-48 | in a minor/no impact the largest change is less than 1 km above the median |
| OrbitalShifts.Group | measurements/timeseries/detect_orbital_shifts.py:124 | the rows of one CAT_ID, and only those |
| OrbitalShifts.CatIds | measurements/timeseries/detect_orbital_shifts.py:123 | the CAT_ID column, row by row |
| OrbitalShifts.GroupNonEmpty | measurements/timeseries/detect_orbital_shifts.py:123-124 | a CAT_ID of the file has a non-empty group |
| OrbitalShifts.DetectShiftType | measurements/timeseries/detect_orbital_shifts.py:116-139 | the loop over unique CAT_IDs fills the four lists with the groups of each kind, in order of first appearance |
| OrbitalShifts.GroupsPartition | measurements/timeseries/detect_orbital_shifts.py:123-139 | the four lists together have one group per CAT_ID |
| OrbitalShifts.GroupsClassified | measurements/timeseries/detect_orbital_shifts.py:123-139 | every group in a list is a non-empty one-satellite trace classified as that list's kind |
| OrbitalShifts.GroupLandsIn | measurements/timeseries/detect_orbital_shifts.py:127-139 | a satellite's group is in a list exactly when the first test it passes is that list's |
| OrbitalShifts.MinorShadowsKeeping | measurements/timeseries/detect_orbital_shifts.py:127-131 | a group passing both the minor/no impact and the station-keeping test is recorded only as a minor/no impact |
| OrbitalShifts.DetectedCounts | measurements/timeseries/detect_orbital_shifts.py:123-139 | the four list lengths add up to the number of distinct CAT_IDs |
| OrbitalShifts.Exported | measurements/timeseries/detect_orbital_shifts.py:141-152 | a list is written to a file exactly when it is non-empty |
| DstIndex.DataLines | cosmic_dance/dst_index.py:34 | the last three lines of the text are dropped and the others kept in order |
| DstIndex.TimestampText | cosmic_dance/dst_index.py:46-48 | the text handed to `pd.to_datetime` for hour h: "20" + line[3:5], "-", line[5:7], "-", line[8:10], a space, h padded to two digits and ":00:00" |
| DstIndex.HourRecord | cosmic_dance/dst_index.py:44-57 | hour h yields a record exactly when `pd.to_datetime` accepts its timestamp text and the field's int() succeeds; that record is the one of hour h with the field's integer; otherwise the hour raises |
| DstIndex.HourParts | cosmic_dance/dst_index.py:45 | one part per hour, 24 of them |
| DstIndex.LineParts | cosmic_dance/dst_index.py:36 | one part per line, in order |
| DstIndex.TextParts | cosmic_dance/dst_index.py:29 | one part per fetched text, in URL order |
| DstIndex.LineRecords | cosmic_dance/dst_index.py:39-57 | the records of one line: the 24 hour records in hour order, or a raise when any hour raises (its shape is `LineShape`) |
| DstIndex.ParseLine | cosmic_dance/dst_index.py:36-57 | the loop over columns 20, 24, ..., 112 computes the line's records, or raises at the first hour whose timestamp is rejected or whose field is not an integer |
| DstIndex.HourStep | cosmic_dance/dst_index.py:45-57 | one pass of the hour loop appends the record of that hour |
| DstIndex.ParseText | cosmic_dance/dst_index.py:34-57 | the loop over the data lines of one text computes that text's records in line order, or raises |
| DstIndex.DstRecords | cosmic_dance/dst_index.py:27-57 | the records of all fetched texts in URL order, then line order, or a raise when any hour of any data line raises (`RecordCount`, `BlankFieldFails`, `MalformedDateFails`) |
| DstIndex.ParseDstIndex | cosmic_dance/dst_index.py:27-57 | the loop over the fetched texts computes the records of all texts in URL order, then line order, or raises |
| DstIndex.LineShape | cosmic_dance/dst_index.py:39-57 | a parsed line had all 24 timestamp texts accepted by `pd.to_datetime` and gives exactly 24 records, hours 00 to 23 in order, each with the year "20" + line[3:5], month line[5:7], day line[8:10] and the integer of its four-column field |
| DstIndex.IgnoresTail | cosmic_dance/dst_index.py:45-49 | columns from 116 on are never read |
| DstIndex.BlankFieldFails | cosmic_dance/dst_index.py:49 | a blank hour field anywhere makes the whole parse raise |
| DstIndex.MalformedDateFails | cosmic_dance/dst_index.py:46-48 | a timestamp text that `pd.to_datetime` rejects, in any hour of any data line, makes the whole parse raise |
| DstIndex.RecordCount | cosmic_dance/dst_index.py:29-57 | the record count is 24 times the number of data lines over all texts |
| Io.Appended | cosmic_dance/io.py:105-112 | a log gains one line of values, after a header of the record's keys when the file did not exist |
| Io.AppendedWellFormed | cosmic_dance/io.py:105-112 | appending keeps the header as the first line and only there |
| Io.AppendedAllWellFormed | cosmic_dance/io.py:105-112 | after any number of appends the header appears once, from the first record, and the old lines stay in front |
| Io.AppendedAllConcat | cosmic_dance/io.py:105-112 | logging a + b is logging a, then b |
| Io.CsvFile.Log | cosmic_dance/io.py:93-112 | `CSV_logger` writes the header only to a new file and appends exactly one row |
| Io.CatalogText | cosmic_dance/io.py:238-240 | the content written for the ids in a given order: each id followed by a newline (`CatalogTextSnoc`, `CatalogTextIsJoin`, `WriteReadRoundTrip`) |
| Io.ParseAll | cosmic_dance/io.py:218-219 | the pieces parse exactly when every piece is an integer |
| Io.Elements | cosmic_dance/io.py:219 | the set of a list's elements |
| Io.ParseLines | cosmic_dance/io.py:217-219 | the loop adding each parsed id to a set computes `ParseAll` |
| Io.ReadCatalogNumberList | cosmic_dance/io.py:206-224 | raises exactly when a line is not an integer; otherwise the set of the ids, or with in_order the ascending duplicate-free list of exactly those ids |
| Io.SortedList | cosmic_dance/io.py:221-222 | `sorted(list(set))` is strictly ascending and holds exactly the set's elements |
| Io.WriteCatalogNumberList | cosmic_dance/io.py:227-240 | the content is every id of the set, once each, each followed by a newline |
| Io.CatalogTextSnoc | cosmic_dance/io.py:239-240 | writing one more id appends it and a newline |
| Io.CatalogTextIsJoin | cosmic_dance/io.py:238-240 | the written content is the ids joined by newlines, plus a final newline |
| Io.StripCatalogText | cosmic_dance/io.py:218 | stripping the written content removes only the final newline |
| Io.ReadCatalogText | cosmic_dance/io.py:206-240 | reading back a written list gives the set of its ids |
| Io.WriteReadRoundTrip | cosmic_dance/io.py:206-240 | read(write(S)) == S for every non-empty set S, whatever order the set is written in |
| Io.EmptyDoesNotRoundTrip | cosmic_dance/io.py:217-219 | the empty set is written as empty content, and reading empty content raises |
| Text.ParseInt | cosmic_dance/io.py:219 | `int()` on ASCII text: surrounding whitespace, an optional sign and one or more digits give their value, anything else raises (`IntRoundTrip`, `BlankIsNotAnInt`); see Left out |
| Text.Strip | cosmic_dance/io.py:218 | `str.strip()` for ASCII whitespace: no whitespace is left at either end, and a text without any there is unchanged (`StripNoSpace`) |
| Text.Split | cosmic_dance/io.py:218 | `str.split(sep)`: at least one piece, none holding the separator; `SplitJoin` inverts joining |
| Text.SplitJoin | cosmic_dance/io.py:218 | splitting a join of separator-free pieces gives the pieces back |
| Text.IntRoundTrip | cosmic_dance/io.py:219 | `int(str(n)) == n` for every integer |
| Text.BlankIsNotAnInt | cosmic_dance/dst_index.py:49 | `int()` of a blank string raises |
| Text.PySlice | cosmic_dance/dst_index.py:39-41 | a Python slice takes the characters from i, clamped at the string's end |
| CatalogUpdates.UpdateCatalogNumbers | cosmic_dance/TLEs.py:34-41 | the new set is current minus old and the old one becomes old plus current; the new set is disjoint from the old one and inside the updated one |
| CatalogUpdates.FindNewCatalogNumbers | cosmic_dance/TLEs.py:6-53 | raises exactly when the old list does not parse; otherwise writes the new ids and the updated old ids, each id once |
| CatalogUpdates.ParsedIsNonEmpty | cosmic_dance/io.py:217-219 | a list that parses is never empty |
| CatalogUpdates.RerunFindsNothing | cosmic_dance/TLEs.py:34-41 | using the same current numbers against the updated old list finds no new ids |
| StackPlots.Cdf | cosmic_dance/stack_plots.py:25-27 | `get_CDF`: the data sorted and the heights i/n (`CdfShape`, `HeightsShape`) |
| StackPlots.Heights | cosmic_dance/stack_plots.py:26 | one height per data point |
| StackPlots.CdfShape | cosmic_dance/stack_plots.py:25-27 | x is the data in ascending order, a permutation of it; y is i/n from 0, strictly increasing and below 1; both have length n |
| StackPlots.HeightsShape | cosmic_dance/stack_plots.py:26 | every height lies in [0, 1) and times n is its index, and the heights increase strictly |
| StackPlots.DateMarks | cosmic_dance/stack_plots.py:48-53 | the marks start with sdate; a non-positive delta is excluded only where the loop does not end |
| StackPlots.MarksStep | cosmic_dance/stack_plots.py:51-53 | consecutive marks are exactly time_delta apart |
| StackPlots.MarksCover | cosmic_dance/stack_plots.py:50-53 | every mark but the last is at or before edate and the last is past it; there is one mark exactly when sdate is past edate |
| StackPlots.MarksClosedForm | cosmic_dance/stack_plots.py:51-53 | the i-th mark is sdate + i * time_delta |
| StackPlots.GetDateMarks | cosmic_dance/stack_plots.py:48-55 | the while loop returns the marks `DateMarks` describes |
| Stats.Sort | cosmic_dance/stack_plots.py:25 | `np.sort`: the values in ascending order, same length; `SortSorted` proves it sorted and a permutation |
| Stats.Mean | solar_superstorm/starlink/drag_anomaly.py:52 | `Series.mean()`: NaN exactly for no values; `MeanBounds` bounds it |
| Stats.SortSorted | cosmic_dance/stack_plots.py:25 | sorting gives an ascending permutation |
| Stats.Median | cosmic_dance/data_processor.py:169 | the median is NaN exactly for no values |
| Stats.MedianBounds | cosmic_dance/data_processor.py:169 | the median lies between the minimum and the maximum |
| Stats.MeanBounds | solar_superstorm/starlink/drag_anomaly.py:52 | the mean lies between the minimum and the maximum |
| Stats.ConstantMedian | measurements/timeseries/detect_orbital_shifts.py:36-46 | equal values have that value as minimum, maximum and median |
| Cleanup.Operational | starlink/build_dataset/preprocess/TLEs/cleanup.py:37 | the rows below 650 km, and only those |
| Cleanup.CleanUp | starlink/build_dataset/preprocess/TLEs/cleanup.py:19-41 | fewer than 10 rows removes the file whatever its age; otherwise it is removed exactly when its age is under 30 days |
| Cleanup.CleanUpExports | starlink/build_dataset/preprocess/TLEs/cleanup.py:37-41 | a kept file has at least 10 rows and 30 days, and is rewritten with exactly its rows below 650 km, in file order |
| Cleanup.AllOperationalUnchanged | starlink/build_dataset/preprocess/TLEs/cleanup.py:37-41 | a kept file all below 650 km is written back unchanged |
| Cleanup.CleanUpIdempotent | starlink/build_dataset/preprocess/TLEs/cleanup.py:19-41 | cleaning a cleaned file again removes it or leaves it as it is |
| OrbitRaise.Matches | starlink/build_dataset/preprocess/TLEs/remove_orbit_raise_maneuver.py:27 | the orbit-raise rows of that launch date, and only those |
| OrbitRaise.After | starlink/build_dataset/preprocess/TLEs/remove_orbit_raise_maneuver.py:34 | the TLEs strictly after the completion instant, and only those |
| OrbitRaise.StripOrbitRaise | starlink/build_dataset/preprocess/TLEs/remove_orbit_raise_maneuver.py:21-43 | raises exactly on an empty file; otherwise the file is removed exactly when the launch date of its last row has zero or several orbit-raise rows |
| OrbitRaise.StripKeeps | starlink/build_dataset/preprocess/TLEs/remove_orbit_raise_maneuver.py:30-35 | with one matching row the file keeps the TLEs strictly after its completion, in order; a TLE at or before it is dropped |
| OrbitRaise.StripTwice | starlink/build_dataset/preprocess/TLEs/remove_orbit_raise_maneuver.py:21-43 | stripping a stripped one-launch file again leaves it as it is, or raises when the first pass emptied it |
| DragAnomaly.Positive | solar_superstorm/starlink/drag_anomaly.py:27 | the TLEs with positive drag, and only those |
| DragAnomaly.Negative | solar_superstorm/starlink/drag_anomaly.py:28 | the TLEs with negative drag, and only those |
| DragAnomaly.Zero | solar_superstorm/starlink/drag_anomaly.py:29 | the TLEs with zero drag, and only those |
| DragAnomaly.PartitionCounts | solar_superstorm/starlink/drag_anomaly.py:27-29 | the positive, negative and zero counts add up to the number of TLEs |
| DragAnomaly.DragObservation | solar_superstorm/starlink/drag_anomaly.py:36-45 | the observation row: DAY, TOTAL_TLE and the positive, negative and zero drag counts (`ObservationAddsUp`) |
| DragAnomaly.PositiveDragStats | solar_superstorm/starlink/drag_anomaly.py:48-58 | the statistics row: DAY, then the median, mean, maximum and minimum of the positive drags, each `nan` when there are none, and P95 (`NoPositiveDrag`, `PositiveDragBounds`) |
| DragAnomaly.ObservationAddsUp | solar_superstorm/starlink/drag_anomaly.py:36-45 | the observation row holds TOTAL_TLE and the three sign counts, and POSITIVE_DRAG + NEGATIVE_DRAG + ZERO_DRAG = TOTAL_TLE |
| DragAnomaly.StatCell | solar_superstorm/starlink/drag_anomaly.py:51-55 | a statistic is written as a number when defined and as `nan` otherwise |
| DragAnomaly.MaxOf | solar_superstorm/starlink/drag_anomaly.py:53 | `max()` is NaN exactly for no values |
| DragAnomaly.MinOf | solar_superstorm/starlink/drag_anomaly.py:54 | `min()` is NaN exactly for no values |
| DragAnomaly.NoPositiveDrag | solar_superstorm/starlink/drag_anomaly.py:48-54 | without positive drags MEDIAN, MEAN, MAX and MIN are all `nan` |
| DragAnomaly.PositiveDragBounds | solar_superstorm/starlink/drag_anomaly.py:48-54 | with positive drags 0 < MIN <= MEDIAN <= MAX and MIN <= MEAN <= MAX |
| DragAnomaly.GenerateDragInsight | solar_superstorm/starlink/drag_anomaly.py:36-58 | exactly one observation row goes to one file and one statistics row to the other (both, in that order, when the two are one file) |
| TrackingAnomaly.CatIds | solar_superstorm/starlink/tracking_anomaly.py:46 | the NORAD_CAT_ID column, row by row |
| TrackingAnomaly.UniqueCatIds | cosmic_dance/data_processor.py:102-103 | `get_unique_cat_ids`: the distinct NORAD_CAT_IDs in order of first appearance (`TrackedCounts`) |
| TrackingAnomaly.SatTracked | solar_superstorm/starlink/tracking_anomaly.py:31-38 | the tracked row: DAY, TOTAL_TLE_UPDATE the number of TLEs, UNIQUE_SAT the number of distinct ids (`TrackedCounts`) |
| TrackingAnomaly.TlesOf | solar_superstorm/starlink/tracking_anomaly.py:42-49 | one satellite's row: DAY, its id and the number of its TLEs that day (`PerSatCounts`) |
| TrackingAnomaly.TlesPerSat | solar_superstorm/starlink/tracking_anomaly.py:41-49 | one per-satellite row for each id, in order |
| TrackingAnomaly.TrackedCounts | solar_superstorm/starlink/tracking_anomaly.py:24-38 | UNIQUE_SAT counts the distinct NORAD_CAT_IDs (each once, every one of the day) and is at most TOTAL_TLE_UPDATE |
| TrackingAnomaly.PerSatCounts | solar_superstorm/starlink/tracking_anomaly.py:41-49 | every per-satellite TOTAL_TLE is at least 1, and together they add up to TOTAL_TLE_UPDATE |
| TrackingAnomaly.GenerateTrackingInsight | solar_superstorm/starlink/tracking_anomaly.py:24-49 | the tracked row goes to one file, then one row per distinct satellite in order of first appearance to the other |
| ForIntensity.Deviations | measurements/altitude_change/for_intensity.py:81-83 | the absolute change from the median, row by row |
| ForIntensity.AbsDrags | measurements/altitude_change/for_intensity.py:80 | the absolute drag, row by row |
| ForIntensity.KeysDistinct | measurements/altitude_change/for_intensity.py:51-87 | the per-day keys never collide with the fixed keys or each other, and different days have different keys |
| ForIntensity.AbsoluteChange | measurements/altitude_change/for_intensity.py:37-89 | the outcome of one call: skipped on a guard, raised where a day's window is empty, else the logged record (`SkippedOnGuards`, `RaisedStays`, `NonNegativeDaysLog`, `LoggedRecord`) |
| ForIntensity.MeasureDay | measurements/altitude_change/for_intensity.py:59-87 | one pass for a day: KM_after_DAY_d = 0 when the satellite has vanished, a raise for an empty window, else the window maxima of the change and of the drag (`WindowMaxima`) |
| ForIntensity.MeasureDays | measurements/altitude_change/for_intensity.py:51-87 | the record after the loop over the days, or a raise once any day raises (`MeasureDaysShape`) |
| ForIntensity.SkippedOnGuards | measurements/altitude_change/for_intensity.py:37-48 | nothing is logged exactly when there is no TLE before the event or the last altitude is at least change_thershold off the median (equality skips) |
| ForIntensity.RaisedStays | measurements/altitude_change/for_intensity.py:73-87 | once one day raises, the whole call raises |
| ForIntensity.NonNegativeDaysLog | measurements/altitude_change/for_intensity.py:58-89 | an accepted satellite with non-negative observation days is logged, never raises |
| ForIntensity.MeasureDaysShape | measurements/altitude_change/for_intensity.py:51-87 | the record starts with EVENT_DATE, NORAD_CAT_ID, LAUNCH_DATE; each day has KM_after_DAY_d = 0 and no DRAG key when the satellite has vanished, else the window maxima of the change and of the drag |
| ForIntensity.LoggedRecord | measurements/altitude_change/for_intensity.py:51-89 | the logged record has that shape for the baseline TLE and median, with at most two keys per day |
| ForIntensity.WindowMaxima | measurements/altitude_change/for_intensity.py:73-87 | KM_after_DAY_d is at least the change of every TLE in [before.EPOCH, after.EPOCH], the first TLE after the day included, and DRAG_after_DAY_d at least every absolute drag there; both are at least 0 |
| ForIntensity.MeasureObservationDays | measurements/altitude_change/for_intensity.py:58-87 | the loop over observation_days builds the record `MeasureDays` describes |
| ForIntensity.ComputeAbsoluteChange | measurements/altitude_change/for_intensity.py:11-89 | logs the record once when the guards pass and no day raises, writes nothing otherwise, and reports a raise |
| AltitudeDecay.Differences | measure_decay/altitude_decay.py:93 | last KM minus each window KM, row by row |
| AltitudeDecay.StemOf | measure_decay/altitude_decay.py:15 | `tle_CSV.split('.')[0].split('/')[-1]`: the id returned without a TLE before sdate (`RejectedOnGuards`) |
| AltitudeDecay.DayValue | measure_decay/altitude_decay.py:46-49 | an observed day's value over its window: for `compute_abs_decay` the largest deviation from the median, for `compute_decay` max(KM) − last KM when that is positive, else 0.0 (lines 93-97); bounds in `AbsoluteChangeBounds` and `RiseIsHighestAboveLast` |
| AltitudeDecay.DecayDay | measure_decay/altitude_decay.py:37-49 | one pass for a day: 0 under the style's vanished-day key, a raise for an empty window, else the day's value under `KM_after_DAY_<d>` (`DayEntryOf`) |
| AltitudeDecay.DecayDays | measure_decay/altitude_decay.py:30-49 | the record after the loop over edates, or a raise once any day raises (`DecayDaysShape`, `DecayRaisedStays`, `NonNegativeDaysAccepted`) |
| AltitudeDecay.DecayCall | measure_decay/altitude_decay.py:8-100 | one call of either function: the guards in order, then the loop (`RejectedOnGuards`, `AcceptedRecord`, `AcceptedColumns`, `AsWrittenVanishedColumn`) |
| AltitudeDecay.RejectedOnGuards | measure_decay/altitude_decay.py:13-28 | without a TLE before sdate the call returns False and the file's stem; otherwise it returns False exactly for a launch before the Gen2 start (where checked) or a last altitude at least 5 km off the median (exactly 5 rejects), with the TLE's NORAD_CAT_ID |
| AltitudeDecay.RiseIsHighestAboveLast | measure_decay/altitude_decay.py:93-97 | `compute_decay` stores max(window KM) − last KM, never negative, and 0.0 exactly when no window TLE is above the last one |
| AltitudeDecay.AbsoluteChangeBounds | measure_decay/altitude_decay.py:46-49 | `compute_abs_decay` stores a value of at least 0 and at least the change of every window TLE |
| AltitudeDecay.FloatKeyIsNoDayKey | measure_decay/altitude_decay.py:40-49 | the vanished-day key `KM_after_DAY_<d>.0` differs from every observed-day key `KM_after_DAY_<d>` |
| AltitudeDecay.KmKeys | measure_decay/altitude_decay.py:49 | one observed-day key per day, in order |
| AltitudeDecay.KmKeyIn | measure_decay/altitude_decay.py:49 | a day's key is among the columns exactly when the day is among the days |
| AltitudeDecay.DecayRaisedStays | measure_decay/altitude_decay.py:43-49 | once one day raises, the whole call raises |
| AltitudeDecay.NonNegativeDaysAccepted | measure_decay/altitude_decay.py:36-49 | with non-negative days no window is empty and the call never raises |
| AltitudeDecay.DecayDaysShape | measure_decay/altitude_decay.py:30-49 | the record starts with NORAD_CAT_ID, LAUNCH_DATE, EVENT_DATE and holds for every day its zero or its window value; with the corrected key its columns are exactly the fixed ones and one per distinct day |
| AltitudeDecay.AcceptedColumns | measure_decay/altitude_decay.py:30-52 | an accepted call's record has exactly the fixed columns and one column per distinct day, in edates order |
| AltitudeDecay.AsWrittenVanishedColumn | measure_decay/altitude_decay.py:39-41 | as written, a vanished day has no `KM_after_DAY_<d>` column and a 0 under `KM_after_DAY_<d>.0` |
| AltitudeDecay.RiseOfDays | measure_decay/altitude_decay.py:83-97 | in either key style, each observed day of `compute_decay` holds how far the highest window TLE lies above the last TLE before the event |
| AltitudeDecay.DayEntryOf | measure_decay/altitude_decay.py:36-49 | the record holds each day's entry as the loop pass for that day writes it |
| AltitudeDecay.WindowHoldsLast | measure_decay/altitude_decay.py:90-92 | the window from the last TLE on includes the last TLE itself |
| AltitudeDecay.AcceptedRecord | measure_decay/altitude_decay.py:77-100 | an accepted call passed the guards, and its record is the loop's record for the last TLE before the event and the median before it |
| AltitudeDecay.MeasureWindow | measure_decay/altitude_decay.py:93-97 | one day's value over its window, as `DayValue` defines it: for `compute_decay` how far the highest window TLE lies above the last one (0.0 when none is above), for `compute_abs_decay` the largest deviation from the median (lines 46-49) |
| AltitudeDecay.MeasureDecayDays | measure_decay/altitude_decay.py:36-49 | the loop over edates (lines 83-97 for `compute_decay`) builds the record `DecayDays` describes for the given key style: a vanished day's 0 under `KM_after_DAY_<d>.0` as written (lines 40 and 87), under `KM_after_DAY_<d>` corrected |
| AltitudeDecay.EvaluateDecay | measure_decay/altitude_decay.py:57-97 | computes the outcome `DecayCall` defines for the given key style: rejected (named after the file) without a TLE before the event, rejected for a pre-Gen2 launch where that check is on, for a missing median or a last TLE 5 km or more off it, crashed where the loop raises, otherwise accepted with the loop's record |
| AltitudeDecay.RunDecay | measure_decay/altitude_decay.py:55-100 | for the given key style, logs the record once exactly for an accepted call, writes nothing otherwise, and returns the acceptance and the id |
| AltitudeDecay.ComputeAbsDecay | measure_decay/altitude_decay.py:8-52 | `compute_abs_decay` with the Gen2 check: logs exactly accepted records and returns (accepted, id); with `AsWritten` a vanished day is logged under `KM_after_DAY_<d>.0` as line 40 does, with `Corrected` under `KM_after_DAY_<d>` |
| AltitudeDecay.ComputeDecay | measure_decay/altitude_decay.py:55-100 | `compute_decay` without the Gen2 check: logs exactly accepted records and returns (accepted, id); with `AsWritten` a vanished day is logged under `KM_after_DAY_<d>.0` as line 87 does, with `Corrected` under `KM_after_DAY_<d>` |

## Left out

- Fetching from the network (space-track via curl, `requests`, `urlopen`), credentials and retries are left out. The Dst parser takes the fetched texts as its input.
- `ephem.readtle` is a foreign library. The current catalog numbers of `find_new_catalog_numbers` are therefore an input.
- Plotting (`plot_in_stack_with_nt` and the `view_*` scripts), the process pools, the `input()` prompts and `print` are output or concurrency only. They are left out.
- Files are modelled by their content. File existence is an empty line sequence in `Io.CsvFile`. `remove_file` and `export_as_csv` are the `Cleanup.FileAction` value returned by the cleanup and orbit-raise decisions; no file system is modelled.
- pandas NaN is modelled only where an aggregate runs over no rows. NaN values inside the KM, DRAG or nT columns are not modelled. With them, the median guard of the measurers could fire even though a TLE before the event exists.
- Floating point is exact `real` arithmetic. Rounding, and the printing of floats in CSV cells, are not modelled.
- `DragAnomaly.PositiveDragStats`: P95 is a parameter. `np.percentile` is foreign.
- `AltitudeDecay.ComputeAbsDecay`: `START_LAUNCH_DATE_GEN_2` is a parameter. The decay script's own definition of it is commented out.
- The trace measurers call `get_median_altitude` and `get_records_by_date`, which no file defines. `get_median_altitude` is taken to be `get_median_altitude_by_cat_id` (`DataProcessor.MedianAltitude`). The nT column, `get_records_by_date(...).max()`, is an opaque function of the day's instant.
- `read_TLEs_in_CSV` is taken to return the file's rows in order with parsed dates.
- The measurers taking `edates` or `observation_days` receive whole-day offsets from the event, in seconds through `Trace.DayAfter`. The decay key `(edate - sdate)/timedelta(days=1)` is modelled for whole days only.
- `AltitudeDecay.RiseOfDays`: the rise of each observed day is stated per day, given the day's window. It is not restated as one contract over `DecayCall`; `AcceptedRecord` links the two.
- Copies of modelled rules are not modelled again:
  - pre_process/remove_orbit_raise_maneuver.py (identical);
  - pre_process/cleanup.py, which has no altitude filter;
  - pre_process/TLEs/cleanup.py, which rewrites the file only when rows were dropped;
  - build_dataset/extract_new_catalog_numbers.py;
  - the `get_CDF` copies in cosmic_dance/stats.py and cosmic_dance/data_processor.py:179-182.
- `merge_window`, `add_window_duration`, `extract_timespan_below_nT_intensity`, `extract_timespan_between_nT_intensity`, `maximum_altitude_difference` and `get_merged_TLEs_from_all_CSVs` are called but defined in no file of the repository, so they are not part of this model.
- The driver scripts' constant filters (DURATION_HOURS > 9 and the like) are left out.
- `StackPlots.DateMarks`: a non-positive time_delta with sdate <= edate makes the Python loop run forever. The model requires delta > 0 there.
- `DstIndex.HourRecord`: `pd.to_datetime` is library code, so which timestamp texts it accepts (a month "13" or a day "3x" it rejects) is the parameter `accepts`. The timestamp value it computes is not modelled; a record keeps the year, month and day texts and the hour.
- `Text.ParseInt`: only ASCII digits and ASCII whitespace are recognised. Python's `int()` also accepts `_` between digits (`"1_0"` is 10), non-ASCII digits and Unicode whitespace such as U+00A0; the model returns `None` for those.
- `Io.WriteCatalogNumberList`: Python's set iteration order is unspecified. The written order is a ghost output that enumerates the set.

## Findings

| source | as written | input that shows it | evidently intended | confidence | as-written member | corrected member |
|---|---|---|---|---|---|---|
| measure_decay/altitude_decay.py:40 | a day without a later TLE stores 0 under `KM_after_DAY_{(edate-sdate)/timedelta(days=1)}`, a float such as `KM_after_DAY_1.0`, while an observed day uses the int key `KM_after_DAY_1` (line 49; the same at lines 87 and 95-97) | a satellite with a TLE before sdate, within 5 km of its median, and no TLE after sdate + 1 day, with edates [sdate + 1 day] | the vanished day's 0 goes into the same `KM_after_DAY_1` column as observed values | not executed | AltitudeDecay.AsWrittenVanishedColumn | AltitudeDecay.AcceptedColumns |
