# check-NMEA-SN in Dafny

A model of the computational core of check-NMEA-SN, a small tool for NMEA 0183 GPS logs.
The model has two parts.

**Trip analysis** (`NMEAData` in sncheck.py):
- `concat_trip` groups the log files of a card by trip id, which is the last comma field of each file's first line.
- `__get_lines` keeps the `$GP` lines of a trip's files.
- `check` cuts each trip's line stream into fix cycles ("packs"), each opened by a `$GPRMC` sentence.
- `__check_trip` runs a small state machine over the cycles. It records the time to first fix (TTFF), half the index of the first cycle with a valid fix. A cycle gets a summary only when it collected at least one S/N value of a used satellite, which can happen only from the first fix on. The summary holds the cycle's fix stamp (missing when the cycle had no valid fix), the number of satellites used for the fix (from `$GPGSA`), and the mean S/N ratio of those satellites as reported in `$GPGSV`.
- `__average_sn` computes that mean.

**Satellite series** (nmea_graph.py):
- `create_gpsdata`, `add_gsvdata` and `add_gsadata` build two series of per-satellite histories (`sn`, `el`, `az`): all observed satellites (GSV) and the satellites used for the fix (GSA). Each series stores a zero-padded template track under the key "dummy". A satellite seen for the first time starts as a copy of the template.
- `make_timestr` labels the epochs.
- `check_thr` drops tracks whose mean S/N, or mean elevation in GSA mode, is below a threshold. `draw` applies it to a deep copy.

Layout, one module per file:
- `util.dfy` (`Util`): Option and Result, sums, minima and maxima, zero lists.
- `text.dfy` (`Text`): the Python string operations the code relies on: `startswith`, `replace`, `split`, `int()`, decimal rendering, string order and `list.sort`.
- `trips.dfy` (`Trips`): `concat_trip` and `__get_lines` over an in-memory directory.
- `segmenter.dfy` (`Segmenter`): the cycle-cutting loop of `check`.
- `analyzer.dfy` (`Analyzer`): `__check_trip` and `__average_sn`.
- `sncheck.dfy` (`SnCheck`): `check` as a whole.
- `graph_model.dfy` (`GraphModel`): the epoch input, the tracks, and functions stating what each builder step computes.
- `graph_props.dfy` (`GraphProps`): what the builder and the filter guarantee.
- `nmea_graph.dfy` (`NmeaGraph`): the series object as a class, with the in-place builder methods, `check_thr` and the filtering step of `draw`.

How the code is modelled:
- Each loop of the source is a method, proved equal to a specification function. The functions' properties are then proved as lemmas.
- Python exceptions that escape are `Err` results (`Result`) or a `false` success flag. These are the `IndexError` on a short `$GPRMC`, `$GPGSA` or `$GPGSV` sentence and a failing `int()`.
- Means are exact (total, count) pairs. The filter's test "mean < thr" is `Sum < thr * count`, and `GraphProps.BelowMeanIsAverage` proves this is the real-valued comparison.

Behaviour kept exactly as the code has it:
- The first pack is kept, even when the trip does not start with `$GPRMC`.
- An empty file gets trip key "" rather than being an error.
- `sentence[2] != 1` compares a string with an integer, so the GSA branch always takes the used-satellite list.
- An `int()` failure in `__average_sn` propagates: its handler `os.sys.stderr(e)` itself raises.
- The active template advances once per `add_gsadata` call. That is once per observed report in an epoch with GSA, not once per epoch.

## Model

| member | source | states |
|---|---|---|
| Text.Split | sncheck.py:89 | `str.split` always yields at least one piece |
| Text.JoinSplit | sncheck.py:89 | joining the pieces of a split with the separator gives back the line |
| Text.SplitPiecesFree | sncheck.py:89 | no piece of a split contains the separator |
| Text.SplitJoin | sncheck.py:89 | splitting the join of separator-free fields gives the fields back |
| Text.SplitHead | sncheck.py:89 | a separator-free head comes off as the first piece |
| Text.SplitFirstPrefix | sncheck.py:89 | the first piece of a split is a prefix of the line |
| Text.SplitFirstAppend | sncheck.py:89 | a separator-free head stays at the front of the first piece |
| Text.Decimal | nmea_graph.py:25 | the decimal rendering of a number is a non-empty run of digits |
| Text.DecimalRoundTrip | nmea_graph.py:25 | `int(str(n)) == n` for the rendered month and day |
| Text.LexLeTotal | sncheck.py:32 | Python's string order is total |
| Text.LexLeTransitive | sncheck.py:32 | Python's string order is transitive |
| Text.SortStringsSorted | sncheck.py:31-32 | `files.sort()` yields an ordered permutation of the listing |
| Trips.ConcatTrip | sncheck.py:19-43 | the result's keys are exactly the trip keys of the listed files; each group is the sorted listing's files with that key, in order |
| Trips.TripsPartitionListing | sncheck.py:31-41 | each group is sorted, and holds a file as often as the listing does when the file's key is the group's key, and never otherwise |
| Trips.GroupCount | sncheck.py:35-41 | every file lands in the group of its own key, once per listing |
| Trips.GroupSorted | sncheck.py:32-41 | a group keeps the order of the listing it comes from |
| Trips.GetLines | sncheck.py:125-133 | the lines are the `$GP` lines of the files, file after file |
| Trips.GpLinesFilterAll | sncheck.py:125-133 | filtering file by file equals filtering the concatenated contents |
| Trips.GpLinesOfCount | sncheck.py:127-132 | a line is kept, as often as it occurs, if and only if it begins with `$GP` |
| Segmenter.NextBoundaryFirst | sncheck.py:71-73 | the boundary found is the first `$GPRMC` line at or after the start |
| Segmenter.Segment | sncheck.py:68-76 | the packs the loop emits are exactly `Packs(lines)` |
| Segmenter.PacksThenDropped | sncheck.py:69-76 | the packs concatenated in order, followed by the final accumulator that is never emitted, give the input; that accumulator is non-empty for non-empty input |
| Segmenter.DroppedShape | sncheck.py:72-76 | the dropped accumulator holds `$GPRMC` only at its head, and starts with one whenever a pack was emitted |
| Segmenter.PacksShape | sncheck.py:72-76 | every pack is non-empty, holds `$GPRMC` only at index 0, and every pack after the first begins with one |
| Segmenter.PacksCount | sncheck.py:72-76 | there are at most as many packs as lines |
| Analyzer.Slice | sncheck.py:100 | `sentence[3:3+12]` has exactly as many fields as Python's clamped slice yields (twelve, fewer for a short sentence, none below index 3), and they are the fields from index 3 on, in order |
| Analyzer.IndexOf | sncheck.py:102 | `list.index` finds the first occurrence |
| Analyzer.RemoveEmpties | sncheck.py:101-102 | deleting empty entries one by one leaves `NonEmpty(s)` |
| Analyzer.NonEmptyMembers | sncheck.py:101-102 | the used list holds exactly the non-empty fields and is no longer than the slice |
| Analyzer.NonEmptyDrop | sncheck.py:102 | deleting one empty entry does not change the non-empty fields |
| Analyzer.CollectSignals | sncheck.py:104-108 | the block loop gives the collected S/N fields, or the `IndexError` the code raises |
| Analyzer.CollectOk | sncheck.py:104-108 | the block scan fails exactly when a used satellite's block lacks its S/N field |
| Analyzer.CollectMembers | sncheck.py:104-108 | a value is collected if and only if it is the S/N field of a block at position 4, 8, … whose number is in the used list |
| Analyzer.StepLine | sncheck.py:89-108 | one sentence has the effect of `LineStep`: the RMC, GSA (only after the first fix) and GSV (only after the first fix, with a used list) branches, including their `IndexError`s, the GSA one on a sentence of fewer than three fields |
| Analyzer.LineStepFails | sncheck.py:89-108 | a sentence fails exactly when the code indexes past its fields (`$GPRMC` with fewer than 3 fields, fewer than 4 after `A`, fewer than 10 after `A` and a latitude; `$GPGSA` with fewer than 3 once the trip has a fix; `$GPGSV` where a used satellite's block lacks its S/N field), and then with `IndexError` |
| Analyzer.CollectFails | sncheck.py:105-107 | the block scan only ever fails with `IndexError` |
| Analyzer.ScanPack | sncheck.py:84-113 | one cycle starts from empty locals, scans the cycle's sentences and records a summary when a S/N value was collected, as `PackResult` |
| Analyzer.CheckTrip | sncheck.py:80-114 | the cycle loop computes `CheckTripSpec(packs)` |
| Analyzer.ParseAllValues | sncheck.py:119 | `map(int, snlist)` succeeds exactly when every entry parses, and gives their values in order |
| Analyzer.AverageSn | sncheck.py:116-123 | `__average_sn` succeeds exactly on a non-empty list of integer literals, and its mean divides by the list length |
| Analyzer.MeanWithin | sncheck.py:119 | the mean lies within any lower and upper bound of the values averaged |
| Analyzer.FirstFixCycleFirst | sncheck.py:83-97 | the first fix cycle is the earliest cycle holding a valid fix |
| Analyzer.LineStepTrip | sncheck.py:91-97 | a sentence changes the trip only at the first fix: TTFF becomes half the cycle index and `ttffnmea` the stamp `time-date` |
| Analyzer.ScanLinesTrip | sncheck.py:88-97 | within a cycle, the first fix sets TTFF and the stamp once and later sentences leave them |
| Analyzer.PackResultTrip | sncheck.py:83-97 | a cycle sets TTFF only if it is still unset and the cycle holds a fix |
| Analyzer.RunFromTtff | sncheck.py:83-97 | once set, TTFF and its stamp never change in later cycles |
| Analyzer.TtffIsFirstFixCycle | sncheck.py:81-97 | TTFF is `int(j/2)` for the first cycle `j` with a valid fix, and `ttffnmea` is that fix's stamp; with no fix both stay unset |
| Analyzer.LineStepInv | sncheck.py:92-108 | a sentence keeps the used list at most twelve long and collects S/N only after the first fix |
| Analyzer.ScanLinesInv | sncheck.py:88-108 | the same over a cycle's sentences |
| Analyzer.PackResultInv | sncheck.py:110-113 | a cycle adds at most one summary, with at most twelve used satellites and a non-empty mean |
| Analyzer.RunFromInv | sncheck.py:83-113 | the cycle loop adds at most one summary per cycle |
| Analyzer.SummariesBounded | sncheck.py:80-114 | at most one summary per cycle; each counts at most twelve used satellites and averages at least one value; none before the first fix |
| Analyzer.ScanLinesPack | sncheck.py:84-108 | a cycle's locals depend only on its sentences and on whether the trip has a fix, not on the cycle index or the rest of the report |
| Analyzer.PackResultSummary | sncheck.py:83-113 | a cycle appends a summary exactly when it collected some S/N value, holding the stamp of the cycle's last valid fix (None without one), `len(stnum)` at the end of the cycle and the mean; the trip has a fix afterwards exactly when it had one or the cycle holds one |
| Analyzer.ScanLinesTime | sncheck.py:91-94 | a cycle's stamp is `sentence[1] + "-" + sentence[9]` of its last `$GPRMC` sentence with `A` and a latitude, and stays unset without one |
| Analyzer.FixStampIsRmc | sncheck.py:71-73 | a sentence that records a fix stamp starts with `$GPRMC`, so it is a line the segmenter opens a cycle with |
| Analyzer.CycleStamp | sncheck.py:72-76 | in a cycle with no `$GPRMC` line after its first, the recorded stamp is the cycle's first (and only) fix stamp, or none |
| Analyzer.RunFromCount | sncheck.py:83-114 | the remaining cycles add one summary for each of them whose scan collects an S/N value |
| Analyzer.SummaryCount | sncheck.py:80-114 | the report holds exactly one summary per cycle that collected an S/N value of a used satellite, and no other |
| SnCheck.ReadTrips | sncheck.py:62-66 | every trip id maps to the `$GP` lines of its files |
| SnCheck.AnalyseTrips | sncheck.py:68-78 | the result holds every trip's analysis; it fails only with the failure of some trip's analysis, and exactly when some trip fails |
| SnCheck.Check | sncheck.py:45-78 | `check` succeeds exactly when every trip's analysis does, then maps each trip id to the analysis of the cycles of its `$GP` lines; otherwise it reports a failing trip's failure |
| SnCheck.TripTtff | sncheck.py:65-97 | a trip's TTFF is half the index of its first fix cycle among the cycles of its files' `$GP` lines |
| SnCheck.PackStamps | sncheck.py:68-94 | in every cycle the segmenter cuts, the stamp a summary records is that of the cycle's valid fix, or none |
| GraphModel.MakeTimestr | nmea_graph.py:23-26 | `make_timestr` gives "----" exactly when the date or the time is missing |
| GraphModel.MakeTimestrCases | nmea_graph.py:23-25 | with date and time present, the label reads back as "month/day time": the text before its first `/` is the month, and the text after it up to the first space is the day |
| GraphModel.LabelPieces | nmea_graph.py:25 | splitting "m/d t" at `/` and then at a space gives back digit strings `m` and `d` |
| GraphModel.GsvReportStep | nmea_graph.py:49-57 | one observed report adds its satellite to the tracks and nothing else |
| GraphModel.GsvFoldSnoc | nmea_graph.py:48-57 | one more parsing report extends the report loop by one step |
| GraphModel.CloneMissingTracks | nmea_graph.py:31-33 | after the clone loop there is a track for every tracked or listed number; each new one is a copy of the template |
| GraphModel.AddReading | nmea_graph.py:36-41 | appending a reading never adds or removes a track |
| GraphModel.AdvanceDummy | nmea_graph.py:43-44 | advancing the template keeps the set of tracks |
| GraphModel.GsaFoldSnoc | nmea_graph.py:60-61 | one more parsing report extends the active-series updates by one call |
| GraphModel.EpochStep | nmea_graph.py:72-77 | an epoch keeps both templates in place |
| GraphModel.Build | nmea_graph.py:71-78 | the epoch loop keeps both templates in place |
| GraphProps.AppendForAbsent | nmea_graph.py:54-58 | a satellite without reports gets no readings |
| GraphProps.AppendForGrows | nmea_graph.py:54-58 | the old histories are kept; `sn` grows by exactly one value per report of the satellite, `el` and `az` by at most one |
| GraphProps.AppendForContents | nmea_graph.py:54-58 | the appended S/N values are `int(sn)` per report of the satellite, 0 for an empty field, in report order; an elevation or azimuth is appended exactly for each report whose field is non-empty, so `el` and `az` grow by the number of such reports |
| GraphProps.AdvancedGrows | nmea_graph.py:43-44 | each template advance adds one zero of S/N and of elevation and no azimuth |
| GraphProps.AdvancedPadding | nmea_graph.py:43-44 | an empty template advanced `n` times holds `n` zeros of S/N and of elevation |
| GraphProps.GsvFoldTracks | nmea_graph.py:48-57 | after the report loop, a satellite has an observed track exactly when it had one or was reported; the template is untouched; each track is its old one, or for a newcomer a template copy, with its readings appended in report order |
| GraphProps.GsaFoldKeys | nmea_graph.py:29-44 | after any report of a GSA epoch every listed number has an active track and nothing else is added; the active template grows once per report |
| GraphProps.GsaFoldTracks | nmea_graph.py:29-44 | an active track receives exactly the readings of its satellite's reports, appended to its old history or to the template the epoch started with |
| GraphProps.EpochStepGrows | nmea_graph.py:72-78 | during `create_gpsdata` every track, the templates included, stays and only grows by appends |
| GraphProps.BuildSucceeds | nmea_graph.py:71-77 | the build succeeds exactly when every `int()` on every report succeeds |
| GraphProps.EpochStepTimes | nmea_graph.py:72-75 | an epoch adds its label to the observed times, and to the active times when it has GSA |
| GraphProps.BuildGsvTimes | nmea_graph.py:71-73 | the observed series has one label per epoch, in order |
| GraphProps.BuildGsaTimes | nmea_graph.py:71-75 | the active series has one label per epoch with GSA, in order |
| GraphProps.BuildGsvTemplate | nmea_graph.py:63-64 | the observed template holds one zero of S/N and of elevation per epoch and no azimuth |
| GraphProps.BuildGsaTemplate | nmea_graph.py:43-44 | the active template holds one zero per observed report of a GSA epoch and no azimuth |
| GraphProps.BuildGsvKeys | nmea_graph.py:49-51 | the observed series tracks the template and every reported satellite, nothing else |
| GraphProps.FirstSightPadding | nmea_graph.py:51-54 | a satellite first seen in epoch `i` has `sn` and `el` histories that begin with `i` zeros, followed by one S/N value per report |
| GraphProps.CreateSpecShape | nmea_graph.py:67-83 | the result exists exactly when every reading parses; neither series keeps "dummy"; the observed series has one label per epoch and a track per reported satellite; the active series has one label per GSA epoch |
| GraphProps.BelowMeanIsAverage | nmea_graph.py:15-16 | the integer test is `np.average(xs) < thr` on a non-empty history |
| GraphProps.FilteredTracks | nmea_graph.py:12-20 | a track survives the filter exactly when it passes the S/N test (and, in GSA mode, the elevation test), and survives unchanged |
| GraphProps.FilteredIdempotent | nmea_graph.py:12-20 | filtering again with the same thresholds removes nothing |
| GraphProps.FilteredMonotone | nmea_graph.py:15-16 | raising a threshold can only remove more tracks |
| NmeaGraph.GpsData.Empty | nmea_graph.py:68-70 | a fresh series holds only the empty template and no labels |
| NmeaGraph.GpsData.Copy | nmea_graph.py:162 | the deep copy holds the same tracks and labels |
| NmeaGraph.AddGsaData | nmea_graph.py:29-44 | the active tracks become `GsaStep` of the old ones: template copies for listed numbers, the reading for a tracked satellite, one template advance; labels unchanged |
| NmeaGraph.ReadingAppends | nmea_graph.py:37-41 | the field-by-field appends of a report are `AppendReading` |
| NmeaGraph.AddGsvData | nmea_graph.py:47-64 | succeeds exactly when every report's fields parse; then the observed tracks are the report loop's result plus one template advance, and the active tracks are updated once per report in a GSA epoch; labels unchanged |
| NmeaGraph.CreateGpsData | nmea_graph.py:67-83 | two fresh, distinct series; success exactly when `CreateSpec` exists, and then they are its value |
| NmeaGraph.BuildNoneExtends | nmea_graph.py:71-77 | once an epoch fails, the whole build fails |
| NmeaGraph.CheckThr | nmea_graph.py:12-20 | the series' tracks become `Filtered` of the old ones; labels unchanged |
| NmeaGraph.WithoutEntries | nmea_graph.py:18-19 | popping the listed keys leaves exactly the unlisted entries, unchanged |
| NmeaGraph.PoppedIsFiltered | nmea_graph.py:13-19 | popping exactly the failing tracks gives the filtered series |
| NmeaGraph.DrawView | nmea_graph.py:161-164 | a fresh copy of the active series (in GSA mode with tracks) or else the observed one, filtered; the stored series are unchanged |

## Left out

- main.py (the PyQt window, its menus, the directory dialog and the stdout/stderr redirection) is not part of this model.
- The chart code of nmea_graph.py (`_create_bargraph`, `_create_polargraph`, `_create_linegraph` and the matplotlib/seaborn calls in `draw`) is plotting and is not modelled. So is the `NMEAGraph` wrapper with its `tid`.
- File I/O: the directory is an in-memory map from file name to lines. The `"\\SYSTEM\\NMEA\\NORMAL\\"` prefix that `concat_trip` joins onto names is dropped. A file that does not exist is excluded by a precondition, where Python would raise.
- Floating point: `__average_sn`'s quotient and its `str()` rendering are the exact pair (total, count), and `np.average` is compared through `Sum < thr * count`. The NaN average of an empty history compares false, as in the source, so such a track is kept. Thresholds are integers.
- `ttff` is `Some(i / 2)` rather than the text `str(int(i/2))`. This text is never empty, so its truthiness is preserved.
- `int(i/2)` passes through a float division. The model's exact `i / 2` differs from it only for cycle indexes above 2^53, which no log reaches.
- `int()` accepts surrounding tabs, line feeds, vertical tabs, form feeds, carriage returns and spaces, an optional sign and ASCII digits. Python also strips U+001C to U+001F and Unicode whitespace, and accepts underscores between digits and non-ASCII digits. None of these is modelled, and none occurs in an NMEA sentence.
- Dictionary iteration order is left open. When several trips fail, the model says only that the failure reported is one of theirs.
- The state of the series after an `int()` failure inside the builder is left unspecified. The exception abandons them.
- The NMEA parser library that produces `gpsinput` is replaced by the `Epoch` datatype. The rendering of `rmc.timestamp` is an input string. So is Python's falsy `datetime.time` at midnight on versions before 3.5.
- sncheck.py and nmea_graph.py have no DOP tracking, time-window or time-zone filtering, or checksum validation, so none is modelled.
- GraphProps lemmas that describe track contents assume no report carries the satellite number "dummy". Such a report would write into the template kept under that key. The model itself handles it as the source does.
- `add_gsadata` is reached only through `add_gsvdata`, so a GSA epoch without GSV reports adds a label to the active series but no readings, and its template does not advance. This is modelled as the code does it.
