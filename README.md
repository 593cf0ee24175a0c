# flow, modelled in Dafny

`flow` is a command-line focus timer. A session is started with a tag,
can be paused and resumed, and is ended into a log entry. Entries are
appended as JSON lines to one file per calendar month
(`YYYYMM_sessions.jsonl`). Readers select and read these partitions
newest first, stop early once enough entries are in, and sort and truncate
the result. Summaries are built from the entries:

- statistics: totals, top ten tags and the date range;
- insights: busiest weekday, averages and the top three tags;
- dashboard: daily buckets, streak and colour tiers.

A watcher nudges the user after long activity, long pauses or long idleness.

This project models the `core/` package and the `cmd/` session commands
and proves properties of that model. Its parts:

- **Time.** Instants and durations are integers in nanoseconds. Days are
  UTC days: `Clock.DayOf` and `Clock.Weekday`, with Sunday as 0.
- **Months.** The month an instant falls in comes from an abstract
  `Calendar` (instant to YYYYMM). Properties about file order assume the
  calendar is monotone.
- **Encoding.** JSON is an abstract `Codec`, a pair of `encode` and a
  partial `decode`. The laws it must obey are in `Records.LawfulCodec`:
  - decoding an encoded entry gives that entry back;
  - encodings carry no surrounding white space;
  - blank lines never decode;
  - trimming a decodable line does not change what it decodes to.
- **Storage.** The session file is an optional cell that may hold a
  session or unreadable bytes. The log directory is a map from file name
  to lines. File-system calls that can fail take a Boolean parameter
  saying whether they succeed.

Model structure:

- **Stateful parts** are classes whose methods change fields under
  `modifies`, and each is proved against a specification function:
  - the store of core/session.go (`SessionStore.Store`);
  - the watcher of core/watch.go (`Watch.Watcher`, specified by `Watch.Tick`).
- **Loops** of the source are methods with invariants, each tied to a
  function of its input:
  - the scanner loops;
  - file selection;
  - the collection loop with early exit;
  - the map accumulation loops;
  - the streak counter.
- **Library sorts and truncations** (`sort.Slice`, `s[:k]`) are the
  `Sorting` module:
  - an insertion sort whose contract is an ordered permutation;
  - a truncation characterised by `IsTop`, which means ordered, drawn
    from the input, as long as the bound allows, and nothing left out
    ranks above anything kept.

The central theorem is `LogReader.EarlyExitComplete`. It has two
hypotheses. The first is the invariant `LogFiles.WellPartitioned`: every
`*_sessions.jsonl` name is exactly `YYYYMM_sessions.jsonl`, and every such
file holds only entries of the month it is named after. The canonical
name is needed, since `202401x_sessions.jsonl` sorts above
`202401_sessions.jsonl` while holding entries of the same month. The
second is a monotone calendar (`Clock.MonotoneCalendar`). Under both,
stopping after the newest files gives the same top-`limit` answer as
reading every file. `LogSession` and
`DeleteLogEntry` keep that invariant (`LogFiles.AppendKeepsPartition`,
`Deletion.DeleteKeepsPartition`).

## Model

| member | source | states |
|---|---|---|
| Clock.DayOf | core/log.go:488-492 | the day number of an instant: the instant lies between that day's midnight and the next |
| Clock.Weekday | core/log.go:496 | the weekday of an instant is in 0..6 |
| Clock.DayOfMonotone | core/dashboard.go:138-151 | a later instant never falls on an earlier day |
| Clock.MonthOfMonotone | core/log.go:180-183 | under a monotone calendar a later instant never falls in an earlier month |
| Clock.PrevMonth | core/log.go:86-87 | the month key before `k` is smaller and exactly one month earlier in year*12+month terms, with January wrapping to December |
| Clock.Quot | cmd/insights.go:91 | Go's integer division: the remainder lies in [0, b) for a non-negative dividend and in (-b, 0] for a negative one |
| Clock.Rem | core/ui.go:36 | Go's `%`: a == Quot(a, b) * b + r, and r has the sign of a |
| Text.TrimSpace | core/log.go:236 | `strings.TrimSpace`: the result is empty iff the input is all white space, and otherwise starts and ends with a non-space |
| Text.TrimLeft | core/log.go:236 | the result is a suffix of the input, the part removed is all white space, and the result does not start with a space |
| Text.TrimRight | core/log.go:236 | the result is a prefix of the input, the part removed is all white space, and the result does not end with a space |
| Text.TrimTight | core/log.go:236 | trimming a string with no surrounding white space leaves it unchanged |
| Text.LexIrreflexive | core/log.go:182 | Go's string `>` is irreflexive |
| Text.LexAsymmetric | core/log.go:182 | Go's string `>` is asymmetric |
| Text.LexTransitive | core/log.go:182 | Go's string `>` is transitive |
| Text.LexTotal | core/log.go:182 | any two different strings are ordered one way or the other |
| Text.LexAppend | core/log.go:182 | strings of equal length keep their order whatever follows them |
| Text.LexCommonPrefix | core/log.go:182 | a shared prefix does not change the order |
| Text.DigitsConcat | core/log.go:68 | the decimal value of a concatenation is the left part shifted by the right part's width, plus the right part |
| Text.Pad | core/session.go:76 | zero padding to width `w` gives exactly `w` digits |
| Text.PadValue | core/session.go:76 | a zero-padded number reads back as itself |
| Text.DigitsPad | core/log.go:62-71 | every digit string is the zero padding of its own value |
| Text.PadMonotone | core/log.go:180-183 | zero padding to a common width turns numeric order into string order |
| Text.NatToString | core/ui.go:39 | `%d` of a natural number: digits whose value is n, with no leading zero |
| Text.IntToString | core/ui.go:39 | `%d` of an integer: the text starts with a minus sign exactly when the number is negative, and the rest is digits whose value is the magnitude, with no leading zero |
| Paths.HomeDir | core/session.go:43-46 | the home directory resolves iff HOME is set |
| Paths.Join | core/session.go:39 | `filepath.Join` of two parts without `filepath.Clean`: empty parts are dropped, two non-empty parts are joined with a `/`, and the result is empty iff both parts are |
| Paths.LastSlash | core/session.go:63 | the position of the last separator, or -1 when there is none |
| Paths.Dir | core/session.go:63 | `filepath.Dir` without `filepath.Clean` never returns the empty string |
| Paths.DirOfJoin | core/session.go:83-96 | the directory of `Join(a, b)` is `a` when `b` has no separator |
| Paths.FlowSessionUnder | core/session.go:39 | `Join(x, "flow", "session")` is `x + "/flow/session"` |
| Paths.LocalShareUnder | core/session.go:47 | `Join(home, ".local", "share")` is `home + "/.local/share"` |
| Paths.DefaultSessionUnder | core/session.go:47 | the default session path is `home + "/.local/share/flow/session"` |
| Paths.GetSessionPath | core/session.go:31-56 | FLOW_SESSION_PATH wins, then XDG_DATA_HOME/flow/session, then ~/.flow-session if it exists, else ~/.local/share/flow/session, and it is an error iff HOME is needed and missing |
| Paths.YearMonth | core/session.go:76 | the `200601` layout of a month key is six digits |
| Paths.GetLogPathLayout | core/session.go:59-80 | the log path is `<base>/logs/YYYYMM_sessions.jsonl`, where base is Dir(FLOW_LOG_PATH), else XDG_DATA_HOME/flow, else ~/.local/share/flow, else an error |
| Paths.DataDir | core/session.go:59-73 | the base directory of the logs: Dir(FLOW_LOG_PATH), else XDG_DATA_HOME/flow, else ~/.local/share/flow, else the HOME error; characterised by `Paths.GetLogPathLayout` |
| Paths.GetLogPath | core/session.go:59-80 | `<base>/logs/YYYYMM_sessions.jsonl` for the date's month; `Paths.GetLogPathLayout` spells it out and `Paths.ParseLogFileName` shows the name parses back to that month |
| Paths.GetLogDir | core/session.go:83-96 | `<base>/logs`; `Paths.LogDirHoldsLogPath` shows it fails exactly when GetLogPath does and is otherwise its directory |
| Paths.LogDirHoldsLogPath | core/session.go:83-96 | GetLogDir fails iff GetLogPath fails, and otherwise it is the directory part of GetLogPath |
| Paths.ParsePrefix | core/log.go:62-71 | a name yields a month only when it has at least six characters whose first six are digits, and the month is their value |
| Paths.ParseLogFileName | core/session.go:76-77 | the name GetLogPath writes matches the glob, is canonical, and parses back to its month |
| Paths.CanonicalOrder | core/log.go:180-183 | descending name order of canonical file names is descending month order |
| Paths.LogFileNameOrder | core/log.go:180-183 | an earlier month has a file name that sorts lower |
| Paths.LogFileNameInjective | core/log_test.go:35-95 | entries of two different months land in two different files |
| Aggregates.Accumulate | cmd/insights.go:86 | `m[k] += d` on a Go map: adds `d` under `k` (from zero when missing) and leaves every other key alone |
| Aggregates.SumWhereSnoc | core/log.go:283-287 | one more entry adds its duration and one count to its own key only |
| Aggregates.TotalsByMeaning | core/log.go:285-286 | the accumulated maps hold exactly the keys that occur, with the summed durations and the counts of the entries under each key |
| Aggregates.MapSumAccumulate | core/dashboard.go:32-36 | adding `d` under one key raises the sum of the map by `d` |
| Aggregates.MapSumTotals | core/dashboard.go:127-130 | the buckets of a grouping add up to the total duration |
| LogFiles.ParseLines | core/log.go:234-248 | the scanner loop yields at most one entry per line |
| LogFiles.LineEntry | core/log.go:236-247 | one scanned line: blank lines (after trimming, for the trimming reader) are skipped, others are decoded; `LogFiles.EncodedLine` and `LogFiles.RawLineTrimmed` characterise it |
| LogFiles.ParseLinesAppend | core/log.go:234-248 | reading concatenated lines gives the readings of the parts, concatenated in order |
| LogFiles.ParseLinesOrigin | core/log.go:241-247 | every entry read is what some line of the file decodes to |
| LogFiles.EncodedLine | core/session.go:150-168 | the line LogSession writes reads back as the logged entry, under both readers |
| LogFiles.EncodeAll | core/session.go:168 | a file written entry by entry holds one encoding per entry, in order |
| LogFiles.ParseEncoded | core/log.go:234-248 | reading back a file written entry by entry gives exactly those entries |
| LogFiles.RawLineTrimmed | core/list.go:81-95 | a line the non-trimming reader of core/list.go accepts is accepted, as the same entry, by the trimming reader of core/log.go |
| LogFiles.RawEntriesTrimmed | core/list.go:81-95 | every entry the non-trimming reader finds is also found by the trimming reader |
| LogFiles.AppendEntryAppends | core/session.go:138-170 | LogSession appends exactly one line to the partition of the entry's end month, keeps the old lines as a prefix, leaves other files untouched and makes the entry readable last |
| LogFiles.AppendEntry | core/session.go:138-170 | `LogSession` on the directory: one encoded line at the end of the entry's month partition, characterised by `LogFiles.AppendEntryAppends` and `LogFiles.AppendKeepsPartition` |
| LogFiles.GoodPartitionGrows | core/session.go:139 | adding an entry of month `k` to the partition of `k` keeps that partition good |
| LogFiles.WellPartitionedUpdate | core/delete.go:82-83 | replacing one file by a good partition keeps every log file good |
| LogFiles.AppendKeepsPartition | core/session.go:138-170 | LogSession keeps every log file holding only entries of its own month |
| SessionStore.Store.constructor | core/session.go:98-135 | the store starts with the given session cell and log directory |
| SessionStore.Store.LoadSession | core/session.go:107-119 | the stored session, "no session file" exactly when the file is absent, and a decode error exactly when it is unreadable |
| SessionStore.Store.SessionExists | core/session.go:98-105 | the session file is present, readable or not; `SessionStore.Store.LoadSession` states that it fails with "no session file" exactly when this does not hold |
| SessionStore.Store.SaveSession | core/session.go:121-135 | a successful save makes the session exist and load back as itself; a failed one changes nothing |
| SessionStore.Store.RemoveSession | core/session.go:224 | `os.Remove` succeeds iff the file exists and the file system allows it, and then the file is gone |
| SessionStore.Store.LogSession | core/session.go:138-170 | a successful log write is AppendEntry on the directory; a failed one changes nothing |
| SessionStore.Store.CleanupStaleSession | core/session.go:192-225 | with logging, a failed log write returns an error and keeps the session file and logs; otherwise the abandoned entry is logged (when asked) and the file removal decides the result |
| SessionStore.StaleBoundary | core/session.go:182-189 | staleness is strict: not stale at exactly the threshold, stale one nanosecond later, measured from PausedAt when paused and from StartTime otherwise |
| SessionStore.IsSessionStale | core/session.go:182-189 | more than `threshold` since PausedAt when paused, since StartTime otherwise; characterised by `SessionStore.StaleBoundary` and `SessionStore.StaleMonotone` |
| SessionStore.StaleMonotone | core/session.go:182-189 | a stale session stays stale as time goes on |
| SessionStore.AbandonedEntry | core/session.go:193-211 | the abandoned entry ends at PausedAt or now, has the elapsed-minus-paused duration clamped at zero, is tagged " [ABANDONED]" and copies StartTime and TotalPaused |
| Lifecycle.NewSession | cmd/start.go:38-45 | a new session has the given tag, starts now, is active and has zero paused time, zero PausedAt and zero target |
| Lifecycle.Paused | cmd/pause.go:33-34 | pausing sets IsPaused and PausedAt = now and keeps the tag, start and paused total |
| Lifecycle.Resumed | cmd/resume.go:33-36 | resuming adds now - PausedAt to the paused total, clears the pause, never lowers the total when now >= PausedAt, and keeps tag and start |
| Lifecycle.EndEntry | cmd/end.go:28-42 | the ended entry ends now (or at PausedAt when paused), lasts end - start - paused, and copies the tag, start and paused total |
| Lifecycle.WorkedTime | cmd/pause.go:41 | the worked time `pause` reports equals the duration `end` would log for the session as just paused |
| Lifecycle.Start | cmd/start.go:20-61 | a loadable session is left alone; otherwise a new session is saved (default tag "Deep Work"), a failed save is fatal, and the on_start hook fires only after a save |
| Lifecycle.Pause | cmd/pause.go:16-45 | no session or an already paused one is a no-op, an unreadable one is fatal; an active one is saved paused, reporting the worked time; a failed save is fatal |
| Lifecycle.Resume | cmd/resume.go:16-46 | no session or an active one is a no-op, an unreadable one is fatal; a paused one is saved resumed; a failed save is fatal |
| Lifecycle.End | cmd/end.go:16-64 | the entry is appended when the log write succeeds, the file removed when removal succeeds, and either way the on_end hook fires with the session's tag, and the entry's duration is what is shown |
| Lifecycle.CyclesAccount | cmd/resume.go:34 | after any number of pause/resume cycles the paused total is the old total plus the sum of the pause lengths, and tag and start are kept |
| Lifecycle.EndFrozenWhilePaused | cmd/end.go:30-33 | a paused session ends into the same entry whenever `end` runs, with the worked time at the pause |
| Lifecycle.EndVersusAbandoned | core/session.go:200-203 | `end` and the stale cleanup end a session at the same instant, but only the cleanup clamps the duration at zero and marks the tag |
| Lifecycle.EndNotClamped | cmd/end.go:29-31 | `end` can log a negative duration where the cleanup path logs zero |
| LogReader.Glob | core/log.go:42 | the globbed names are exactly the directory's `*_sessions.jsonl` files, each once |
| LogReader.GetRelevantLogFiles | core/log.go:36-111 | the selection is exactly the globbed files that pass the month filter, each once |
| LogReader.Relevant | core/log.go:59-96 | the month filter on one file name: everything with no filter, otherwise a name whose first six characters parse as the target, current or (for the week) previous month; characterised by `LogReader.SelectAllWithoutFilter`, `LogReader.SelectTargetMonth` and `LogReader.SelectWeek` |
| LogReader.KeepSelected | core/log.go:59-96 | filtering the glob keeps exactly the selected files |
| LogReader.SelectAllWithoutFilter | core/log.go:52-54 | with no filter every globbed file is selected |
| LogReader.SelectTargetMonth | core/log.go:74-78 | a target month selects exactly the log files whose prefix is that month |
| LogReader.SelectWeek | core/log.go:84-92 | the week filter selects exactly the files of the current and the previous month |
| LogReader.DayOfIn | core/log.go:488-492 | an instant between a day's midnight and the next falls on that day |
| LogReader.IsTodayWindow | core/log.go:488-492 | `isToday` holds iff the instant lies in today's 24 hours |
| LogReader.IsToday | core/log.go:488-492 | same UTC day as now; characterised by `LogReader.IsTodayWindow` |
| LogReader.IsThisWeek | core/log.go:494-505 | inside the Sunday-to-Saturday window of now's week; characterised by `LogReader.IsThisWeekDays` and `LogReader.IsThisWeekSameSunday` |
| LogReader.IsThisWeekDays | core/log.go:494-505 | `isThisWeek` holds iff the instant's day is between now's Sunday and the Saturday after |
| LogReader.IsThisWeekSameSunday | core/log.go:494-505 | `isThisWeek` holds iff both instants have the same Sunday |
| LogReader.TodayInWeekNotEightDaysAgo | core/log_test.go:243-253 | today is always in this week, and eight days ago never is |
| LogReader.ReadSingleFile | core/log.go:221-251 | an unreadable file fails; a readable one yields the entries of its lines, and the line count is the number of lines |
| LogReader.PoolSnoc | core/log.go:185-200 | reading one more file appends its entries to those already collected |
| LogReader.CollectEntries | core/log.go:185-200 | the entries of the files visited, in order, where visiting stops at the first file after which at least `limit` entries are in (never when reading all) |
| LogReader.NewerOrSameOrder | core/log.go:208-210 | newest-first by EndTime is a total preorder, so it is a valid sort order |
| LogReader.NewerNameOrder | core/log.go:181-183 | descending file-name order is a total preorder |
| LogReader.ClampLimit | core/log.go:154-156 | a positive limit above 1000 is cut to 1000 unless reading all; other limits are unchanged |
| LogReader.ReadEntries | core/log.go:153-218 | the selected files in descending name order; the result is the newest `limit` entries of the files read, never more than the clamped limit, and under the partition invariant the newest `limit` of all selected files |
| LogReader.NewestFirst | core/log.go:207-215 | sorting by EndTime descending and truncating gives the newest `limit` entries |
| LogReader.SelectedInOrder | core/log.go:180-183 | selected files sorted descending are strictly decreasing log files of the directory |
| LogReader.PoolAppend | core/log.go:185-200 | reading two runs of files gives the entries of the first run followed by those of the second |
| LogReader.ChunkMonth | core/session.go:139 | under the partition invariant every entry of a log file ends in the file's month |
| LogReader.LaterFileOlder | core/log.go:180-183 | under the partition invariant every entry of a newer file ends after every entry of an older one |
| LogReader.DescendingNames | core/log.go:181-183 | file names sorted descending, each once, are strictly decreasing |
| LogReader.UnreadOlder | core/log.go:196-199 | every entry of the files read ends after every entry of the files left unread |
| LogReader.TopOfNewerPrefix | core/log.go:196-215 | when the files read hold at least `limit` entries, all newer than the rest, their newest `limit` are the newest `limit` of all |
| LogReader.EarlyExitComplete | core/log.go:180-215 | the early exit does not change the answer under the partition invariant |
| LogReader.CollectedIsTop | core/log.go:185-215 | whether the reader stopped early or read every file, the newest entries it returns are the newest overall |
| LogReader.FilterPeriod | core/log.go:120-131 | keeps exactly the entries in the requested period, in order |
| LogReader.ReadRecentEntries | core/log.go:114-140 | `read` is `readEntries`' answer: the selected files in descending name order, the stop rule, the top-limit of the files read and, under the partition invariant, of all selected files; the result is `read` filtered to the requested period, sorted newest first and no longer than a positive limit |
| LogReader.ReadMonthEntries | core/log.go:143-145 | `readEntries`' answer for the target month: its files in descending name order, the stop rule, the top-limit of the files read and, under the partition invariant, of all of them; under the invariant every entry returned ends in that month |
| LogReader.PoolInMonth | core/log.go:74-78 | files of month `k` hold only entries of month `k` under the partition invariant |
| LogReader.ReadAllEntries | core/log.go:148-150 | every entry of every log file, sorted newest first, with no limit |
| LogReader.ChunkInPool | core/log.go:193 | the entries of every visited file are among the collected ones |
| LogReader.PoolMember | core/log.go:193 | every collected entry comes from one of the visited files |
| RecentSessions.GetRecentSessions | core/list.go:13-64 | fails iff the log directory does not resolve (glob pattern errors admitted); files go in descending name order; the newest-first reading stops once `limit` entries are in (never for limit <= 0); no 1000 cap; the result is the newest `limit`, and under the partition invariant the newest of all files |
| RecentSessions.RawPoolWithinTrimmed | core/list.go:81-95 | every entry the non-trimming reader of core/list.go finds is found by the reader of core/log.go |
| Deletion.FilterLines | core/delete.go:44-62 | the lines copied are exactly those that decode and do not match, verbatim and in order, and `found` holds iff some line matches |
| Deletion.IsMatch | core/delete.go:52 | the identity deletion matches on: same StartTime and Tag, whatever the end time and duration; its effect is stated by `Deletion.NoMatchRemains` and `Deletion.DeleteCount` |
| Deletion.DeleteLogEntry | core/delete.go:12-87 | only the target's month partition is touched: a path error, a missing partition, an I/O failure or no match change nothing; otherwise the partition is replaced by its kept lines |
| Deletion.KeptEntries | core/delete.go:44-62 | the rewritten partition reads back, under both readers, as exactly the old entries that do not match, in order |
| Deletion.KeptLine | core/delete.go:46-61 | per line, a copied line reads back as the non-matching entry it holds, and a dropped line reads back as nothing |
| Deletion.NoMatchRemains | core/delete.go:52 | after deletion no entry with the target's start and tag is left |
| Deletion.DeleteKeepsPartition | core/delete.go:82-83 | deleting keeps the partition invariant |
| Deletion.DeleteCount | core/delete.go:52-53 | every matching duplicate is removed at once: kept plus matched is all |
| Deletion.DeleteStep | core/delete.go:44-62 | a partition reading as `es` reads, once rewritten, as the entries of `es` that do not match |
| Deletion.KeepInTurn | core/delete_test.go:85-102 | three entries with distinct identities, removed in the test's order (middle, then first, then last), leave two, one and then no entries |
| Deletion.DeleteInTurn | core/delete_test.go:85-102 | deleting the middle, then the first, then the last of three distinct entries from a partition written entry by entry leaves 2, then 1, then 0 visible entries |
| Sorting.Insert | core/log.go:208-210 | inserting into a sorted sequence gives a sorted sequence with the element added |
| Sorting.Sort | core/log.go:208-210 | `sort.Slice`: an ordered permutation of the input |
| Sorting.Truncate | core/log.go:213-215 | `if k > 0 && len(s) > k { s = s[:k] }` gives the prefix of length min(k, len) for positive k, and everything otherwise |
| Sorting.SortTruncateIsTop | core/log.go:207-215 | sorting then truncating gives a top-k selection: ordered, drawn from the input, as long as the bound allows, nothing left out ranked above anything kept |
| Sorting.PrefixSorted | core/log.go:213-215 | a prefix of a sorted sequence is sorted |
| Sorting.PrefixDominates | core/log.go:213-215 | in a sorted sequence everything in a prefix ranks at or above everything after it |
| Sorting.TopFromPool | core/log.go:213-215 | every element of a top selection comes from its pool |
| Sorting.TopExtends | core/log.go:196-199 | a full top-k selection stays one when entries ranked below the whole pool are added |
| Sorting.Keep | core/log.go:120-131 | an appending filter loop keeps only elements of the input that pass the test, and no more of them than the input holds |
| Sorting.KeepSnoc | core/log.go:120-131 | filtering a sequence extended by one element appends that element iff it passes |
| Sorting.KeepCount | core/delete.go:44-62 | filtering keeps the full multiplicity of what passes and drops the rest |
| Sorting.KeepSorted | core/log.go:120-131 | filtering preserves order |
| Statistics.LongerOrSameOrder | core/log.go:322-324 | longest-first by duration is a total preorder |
| Statistics.MinEndBound | core/log.go:289-299 | the running minimum is the EndTime of some entry and at most every EndTime |
| Statistics.MaxEndBound | core/log.go:289-299 | the running maximum is the EndTime of some entry and at least every EndTime |
| Statistics.EndBounds | core/log.go:289-299 | `earliest` and `latest` are the least and the greatest EndTime of the entries |
| Statistics.ActivitiesMeaning | core/log.go:313-319 | there is one activity per tag that occurs, carrying that tag's summed duration and its count |
| Statistics.StatsForAdd | core/log.go:313-319 | listing one more tag adds exactly its activity |
| Statistics.RangeOneDay | core/log.go:304-310 | the date range is a single date iff all EndTimes fall on one day, and otherwise runs from the earliest to a strictly later latest one |
| Statistics.RangeOf | core/log.go:303-310 | no range for no entries, a single date when the earliest and latest EndTime share a day, else the span; characterised by `Statistics.RangeOneDay` and `Statistics.EndBounds` |
| Statistics.TallyStep | core/log.go:283-300 | one more entry adds its duration, one count and its tag time, and updates the running earliest and latest |
| Statistics.Tally | core/log.go:283-300 | the loop computes the total duration, the per-tag counts and times, and the earliest and latest EndTime |
| Statistics.CollectActivities | core/log.go:313-319 | one activity per key of the tag map, each once |
| Statistics.CalculateStats | core/log.go:270-332 | empty input gives zero stats; otherwise the count, total, Go-truncated average and date range, and a top-10 selection of the per-tag activities by duration |
| Statistics.TagTotalsAddUp | core/log.go:284-286 | the per-tag times add up to the total time |
| Statistics.TopActivitiesSize | core/log.go:326-329 | there are ten top activities, or all of them when there are no more than ten |
| Statistics.StatsExample | core/log_test.go:148-204 | {coding 30m, coding 30m, writing 30m} gives 90m total, a 30m average, and two activities with coding (60m, count 2) first |
| Statistics.ExampleActivities | core/log_test.go:188-204 | the example has exactly the activities coding (60m, 2) and writing (30m, 1) |
| Statistics.ExampleTotals | core/log_test.go:148-186 | the example's tag maps are coding 60m / 2 and writing 30m / 1, for 90m in total |
| Insights.LongerOrSameOrder | cmd/insights.go:123-125 | longest-first by duration is a total preorder |
| Insights.PercentBounds | cmd/insights.go:132-135 | the share of a tag is between 0 and 100 and grows with the tag's duration |
| Insights.Percent | cmd/insights.go:132-135 | a tag's share of the total in whole percent, zero for a zero total; bounded and monotone by `Insights.PercentBounds` |
| Insights.DivMonotone | cmd/insights.go:134 | integer division by a positive number is monotone |
| Insights.MulCancel | cmd/insights.go:134 | a positive factor cancels in a strict comparison |
| Insights.BusiestDay | cmd/insights.go:93-99 | the running maximum picks a weekday with the largest positive total, or stays Sunday when no total is positive |
| Insights.PairsOverAdd | cmd/insights.go:118-121 | listing one more tag adds exactly its pair |
| Insights.ListTagTotals | cmd/insights.go:118-121 | one (tag, total) pair per key of the tag map, each once |
| Insights.FirstThree | cmd/insights.go:127-141 | the first three sorted tags, or all when fewer, each with its share of the total |
| Insights.TopActivities | cmd/insights.go:113-141 | the listed tags are a top-3 selection by total duration of the per-tag totals, each with its share |
| Insights.DayAverages | cmd/insights.go:93-111 | the busiest day, and its average and the other days' average, each zero when its divisor is zero |
| Insights.TallyWeek | cmd/insights.go:84-89 | the loop computes the total duration and the per-weekday and per-tag totals and counts |
| Insights.CalculateInsights | cmd/insights.go:74-144 | empty input gives an all-zero report; otherwise the count, total, average, busiest weekday, the two averages, and a top-3 selection of the per-tag totals with their shares |
| Insights.BusiestDominates | cmd/insights.go:93-99 | no weekday with positive time has more time than the busiest day, and the weekday totals add up to the total time |
| Insights.TagTotalsMeaning | cmd/insights.go:86-88 | there is one pair per tag that occurs, carrying that tag's summed duration |
| Dashboard.DailyTotals | core/dashboard.go:28-37 | the buckets are the per-day totals of the entries with a non-zero EndTime after one year ago |
| Dashboard.DailyTotalsStep | core/dashboard.go:29-37 | one more entry adds its duration to its day's bucket iff it is in the last year |
| Dashboard.DailyTotalsMeaning | core/dashboard.go:28-37 | each bucket holds the summed duration of that day's entries in the last year, a bucket exists iff such an entry exists, and the buckets add up to their total |
| Dashboard.SumBuckets | core/dashboard.go:127-130 | the total over the buckets |
| Dashboard.CurrentStreak | core/dashboard.go:138-151 | the number of consecutive days with time, counting back from today and stopping at the first empty day or one year back |
| Dashboard.DashboardStats | core/dashboard.go:124-151 | the total, the daily average (total / 365 when positive, else 0) and the streak |
| Dashboard.DayOfStart | core/dashboard.go:140 | the midnight of day `d` falls on day `d` |
| Dashboard.StreakUnique | core/dashboard.go:138-151 | the streak is well defined: only one count meets its definition |
| Dashboard.EmptyTodayNoStreak | dashboard_test.go:40-51 | no time today means a streak of zero (the expectation, written against the root copy, taken to hold for core/dashboard.go's `displayDashboardStats`) |
| Dashboard.ThreeDayStreak | dashboard_test.go:52-63 | time on today and the two days before, and none the day before those, is a streak of three (the root copy's expectation, taken to hold for core/dashboard.go) |
| Dashboard.SingleEntryAverage | dashboard_test.go:29-39 | two hours over 365 days is shown as "19s" (the root copy's expectation, taken to hold for core/dashboard.go) |
| Dashboard.TierBands | core/dashboard.go:94-106 | 6h or more is Blue4, from 4h Blue3, from 2h Blue2, above zero Blue1, otherwise Color0 |
| Dashboard.TierOf | core/dashboard.go:94-106 | the colour of a day's total; `Dashboard.TierBands` gives each band and `Dashboard.TierMonotone` its order |
| Dashboard.TierMonotone | core/dashboard.go:94-106 | more time never gives a lighter tier |
| UI.MinutesOfHour | core/ui.go:35-36 | the minute field is the whole minutes within the hour, and the hours are the whole hours |
| UI.FormatUnit | core/ui.go:34-45 | `FormatDuration`'s text ends in `m` from one minute up and in `s` below |
| UI.FormatDuration | core/ui.go:34-45 | hours and minutes, minutes, or seconds by the size of the duration: `UI.FormatUnit` gives the unit shown last; the three branches are `UI.FormatHours`, `UI.FormatMinutes` and `UI.FormatSeconds`, and `UI.FormatTruncates` bounds what is shown |
| UI.FormatHours | core/ui.go:38-40 | from one hour up, FormatDuration is "<hours>h <minutes within the hour>m" |
| UI.FormatMinutes | core/ui.go:41-43 | from one minute up to an hour it is "<minutes>m", with the seconds dropped |
| UI.FormatSeconds | core/ui.go:44 | under a minute it is "<seconds>s" with the seconds truncated toward zero |
| UI.FormatTruncates | core/ui.go:34-45 | what is shown never exceeds the duration and falls short of it by less than one unit of the last field shown |
| UI.FormatHoursAs | core/ui.go:38-40 | FormatHours with both fields already known |
| UI.FormatExampleSeconds | main_test.go:19-23 | 45s is shown as "45s" |
| UI.FormatExampleMinutes | main_test.go:29-33 | 5m30s is shown as "5m" |
| UI.FormatExampleHoursMinutes | main_test.go:34-38 | 2h30m is shown as "2h 30m" |
| UI.FormatExampleWholeHours | main_test.go:39-43 | 3h is shown as "3h 0m" |
| UI.FormatExampleTruncates | main_test.go:44-48 | 1h23m45s is shown as "1h 23m" |
| UI.FormatExampleZero | main_test.go:49-53 | zero is shown as "0s" |
| Watch.Watcher.constructor | core/watch.go:17-19 | a new watcher has all three timestamps at the zero time |
| Watch.Watcher.CheckSessionAndNudge | core/watch.go:22-41 | one tick moves the timers and yields the nudge exactly as the tick function `Tick` says |
| Watch.Watcher.HandleActiveSession | core/watch.go:43-51 | "take a break" fires iff the session has run longer than the threshold and the last such nudge is unset or older than the threshold, and only then is the timer set to now |
| Watch.Watcher.HandlePausedSession | core/watch.go:53-60 | the same rule for "ready to resume", measured from PausedAt |
| Watch.Watcher.HandleNoSession | core/watch.go:62-71 | updates only the idle timer and yields the nudge exactly as the idle step says |
| Watch.TickResets | core/watch.go:23-39 | a session file resets the idle timer; no session file resets both nudge timers; an unreadable file gives no nudge and resets only the idle timer |
| Watch.IdleStep | core/watch.go:61-71 | the idle rule: the first tick without a session starts the timer, a later one past the threshold nudges and restarts it; characterised by `Watch.FirstIdleTickSilent` and `Watch.IdleNudgeIff` |
| Watch.Tick | core/watch.go:22-71 | one watch tick on the timers and the session file; `Watch.TickResets`, `Watch.ActiveNudgeIff`, `Watch.PausedNudgeIff` and `Watch.IdleNudgeIff` characterise it |
| Watch.FirstIdleTickSilent | core/watch.go:63-66 | the first tick without a session only starts the idle timer |
| Watch.IdleNudgeIff | core/watch.go:67-70 | "ready to start" fires iff idle for longer than the threshold, and then the idle timer restarts at now |
| Watch.ActiveNudgeIff | core/watch.go:43-50 | for an active session the tick fires "take a break" iff the strict thresholds are passed, and changes only the active timer |
| Watch.PausedNudgeIff | core/watch.go:53-60 | for a paused session the tick fires "ready to resume" iff the strict thresholds are passed, and changes only the paused timer |
| Watch.RepeatTickSilent | core/watch.go:46-48 | a second tick at the same instant after a nudge is silent |

## Left out

- Lifecycle.End: the session-path lookup of cmd/end.go:50-54, which exits on an error before removing the file, is not modelled.
- Paths.Join, Paths.Dir: results equal Go's only for clean inputs. `filepath.Join` and `filepath.Dir` also apply `filepath.Clean`, which collapses repeated separators, drops `.` elements and resolves `..` lexically; the model does none of this, so `Join("a/", "b")` is `"a//b"` here and `"a/b"` in Go.
- Paths.GetSessionPath, Paths.GetLogPathLayout: inherit the missing `Clean`. With `XDG_DATA_HOME="/data/"` the model gives `"/data//flow/session"` where Go gives `"/data/flow/session"`; the two name the same file on Unix.
- Lifecycle.Resumed, Lifecycle.EndEntry, SessionStore.AbandonedEntry: instants and durations are unbounded integers. Go's `time.Duration` is an int64: `Sub` and `Since` saturate at about ±292 years and `+=` wraps. A session file that is paused but has no `pausedAt` makes cmd/resume.go:34 add the saturated maximum to `TotalPaused`, which then wraps negative in Go; the model's `now >= s.pausedAt ==> r.totalPaused >= s.totalPaused` holds only for instants within that range.
- Strings, file names and log lines are sequences of Unicode code points, while Go's are byte strings. Invalid UTF-8 in a file name or a log line cannot be represented, and `Text.LexLess` agrees with Go's bytewise order only on valid UTF-8.
- The root dashboard_test.go exercises the root copy's `displayDashboardStats`; `Dashboard.EmptyTodayNoStreak`, `Dashboard.ThreeDayStreak` and `Dashboard.SingleEntryAverage` take its expectations to hold for core/dashboard.go, whose streak, total and average code they model.
- Month keys (`Clock.MonthKey`) have four-digit years, 0 to 9999, as the `200601` layout writes them for such years. Instants whose year falls outside that range are not modelled.
- RecentSessions.GetRecentSessions: glob metacharacters in the log directory are not modelled. `filepath.Glob` at core/list.go:19-22 (and core/log.go:42-45) fails with `ErrBadPattern` for a directory holding an unbalanced `[`, and other metacharacters make the pattern match files of other directories; the model's glob takes only the given directory's names and never fails.
- SessionStore.Store.SaveSession: writes are all-or-nothing here. `os.WriteFile` at core/session.go:134 truncates the file before writing, so a failed save can leave a file that no longer decodes (`Corrupt`); the model keeps the old contents.
- SessionStore.Store.LogSession, LogFiles.AppendEntryAppends: a partition is a sequence of complete lines. The `O_APPEND` write of `data + "\n"` at core/session.go:156-168 onto a file whose last line lacks its final newline merges the new JSON into that line, so neither decodes; the model always appends a separate line.
- SessionStore.Store.CleanupStaleSession: the GetSessionPath error at core/session.go:219-222 is folded into the removal failure `RemoveFailed`.
- Insights.Percent, Insights.PercentBounds, Insights.FirstThree, Insights.TopActivities, Insights.CalculateInsights: the percent at cmd/insights.go:134 is computed in floating point as `int(d / total * 100)`. The model uses the integer quotient `100 * d / total`, so it leaves out floating-point rounding, and the two differ on ordinary inputs: 29 minutes of 100 is 28 in Go (0.29 * 100 is 28.999999999999996) and 29 in the model.
- UI.FormatHours, UI.FormatMinutes, UI.FormatSeconds: `Hours()`, `Minutes()` and `Seconds()` return floats that `int(...)` truncates. The model truncates exact integer quotients instead, so it leaves out floating-point rounding.
- Dashboard.DashboardStats: the printing, and the early return of `HandleDashboard` when there are no entries (core/dashboard.go:23-26), are not modelled. The contribution-graph layout is also left out; only its colour switch is modelled.
- Statistics.CalculateStats: `DateRange` is a datatype holding the two instants, not the formatted text ("Jan 2, 2006").
- The branch at core/log.go:98-107 is unreachable, because lines 79-92 already handle the today and week filters. It is not modelled.
- core/log_test.go:206-208 expects a TotalTime of 4h, which contradicts lines 178-181 of the same test. The model follows the code, which gives 90m (`Statistics.StatsExample`).
- core/log_test.go:247-249 expects yesterday to be in this week. That fails when now is a Sunday under the Sunday-start week of core/log.go:494-505, so it is not stated.
- The root `package main` files (main.go, commands.go, session.go, log.go, ui.go, hooks.go) are an older copy of the program with other week semantics. They are not part of this model.
- Hooks run external programs on a best-effort basis. A command's outcome records the hook it fires (`Lifecycle.Hook`), but running it is left out.
- Configuration: core/config.go parses YAML through a library. The watch thresholds and the stale threshold are parameters instead.
- Encoding: JSON encoding and decoding is the abstract `Records.Codec`. A session file that fails to decode is the `Corrupt` cell.
- I/O: temp-file creation and the rename in core/delete.go:29-38 and 82-83 are one atomic replacement of the partition. A failure anywhere in that I/O is the single `ioOk` parameter.
- Scanner errors and unreadable files are the `failing` set of `LogReader.Logs`. A file in that set is skipped, or yields nothing.
- LogReader.ReadEntries: the errors of `NewLogReader` and `GetLogDir` are not modelled; the log directory is given. The `os.Stat` of a missing directory (core/log.go:38-40) is the same as an empty glob. The large-dataset warning (core/log.go:203-205) writes only to stderr and is left out.
- The order in which `filepath.Glob` returns names, and the iteration order of Go maps, are left abstract. The contracts hold for any order.
- Time zones, `time.Now`, `time.Since` and `AddDate`:
  - the current time is the `now` parameter;
  - one year ago is the `yearAgo` parameter;
  - months come from the `Calendar` function;
  - days are UTC days.
- The watch loop with `time.Sleep` (cmd/watch.go) is left out; one `CheckSessionAndNudge` tick is modelled.
- Session.targetDuration is carried but never read by the modelled code.
- The presentation commands (status, recent, log, export, dashboard, doctor, goal, completion, version), core/export.go, and the interactive prompt of cmd/delete.go are left out; they only print or prompt.
