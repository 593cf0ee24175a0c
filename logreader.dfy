/** The reading half of core/log.go: which partition files a query reads
    (`getRelevantLogFiles`), how one file is scanned (`readSingleFile`),
    and the newest-first read with its early exit, sort and limit
    (`readEntries` and the three entry points built on it), together with
    the date predicates `isToday` and `isThisWeek`. */
module LogReader {
  import opened Wrappers
  import opened Clock
  import opened Text
  import opened Records
  import opened Paths
  import opened LogFiles
  import opened Sorting

  /** `maxEntriesLimit`: the most entries a limited read returns. */
  const MaxEntriesLimit: int := 1000

  /** The logs directory as a reader finds it: its files, the ones that
      cannot be read (an open or scan error), and the line codec. */
  datatype Logs = Logs(dir: Dir, failing: set<string>, codec: Codec)

  predicate Readable(logs: Logs, f: string)
  {
    f in logs.dir && f !in logs.failing
  }

  /** `filepath.Glob(filepath.Join(logDir, "*_sessions.jsonl"))` as base names. */
  function GlobSet(dir: Dir): set<string>
  {
    set f | f in dir && IsLogFile(f)
  }

  /** The glob, one name per matching file. */
  method Glob(dir: Dir) returns (files: seq<string>)
    ensures multiset(files) == multiset(GlobSet(dir))
  {
    files := [];
    var rest := GlobSet(dir);
    while rest != {}
      invariant rest <= GlobSet(dir)
      invariant multiset(files) == multiset(GlobSet(dir) - rest)
      decreases |rest|
    {
      var f :| f in rest;
      assert GlobSet(dir) - (rest - {f}) == (GlobSet(dir) - rest) + {f};
      files := files + [f];
      rest := rest - {f};
    }
  }

  /** The filter arguments of `getRelevantLogFiles`. */
  datatype Filter = Filter(today: bool, week: bool, month: bool, target: Option<Time>)

  predicate NoFilter(fl: Filter)
  {
    !fl.today && !fl.week && !fl.month && fl.target.None?
  }

  /** Whether `getRelevantLogFiles` keeps the file named `f`: every file when
      no filter is set; otherwise only names whose first six characters
      parse as a month, and then the target month, or the current month for
      today (and for the month filter), or the current and the previous
      month for the week. The later `filterWeek || filterToday` branch can
      never be reached and has no counterpart here. */
  predicate Relevant(f: string, fl: Filter, cal: Calendar, now: Time)
  {
    NoFilter(fl) ||
    match ParsePrefix(f)
    case None => false
    case Some(k) =>
      if fl.target.Some? then k == MonthOf(cal, fl.target.value)
      else if fl.today then k == MonthOf(cal, now)
      else if fl.week then k == MonthOf(cal, now) || k == PrevMonth(MonthOf(cal, now))
      else k == MonthOf(cal, now)
  }

  function Selected(dir: Dir, fl: Filter, cal: Calendar, now: Time): set<string>
  {
    set f | f in GlobSet(dir) && Relevant(f, fl, cal, now)
  }

  /** `getRelevantLogFiles`: each globbed file that passes the filters,
      once each. */
  method GetRelevantLogFiles(dir: Dir, fl: Filter, cal: Calendar, now: Time) returns (files: seq<string>)
    ensures multiset(files) == multiset(Selected(dir, fl, cal, now))
  {
    var globbed := Glob(dir);
    if |globbed| == 0 {
      assert forall x :: x !in multiset(GlobSet(dir));
      return [];
    }
    if NoFilter(fl) {
      assert Selected(dir, fl, cal, now) == GlobSet(dir);
      return globbed;
    }
    files := [];
    var i := 0;
    while i < |globbed|
      invariant 0 <= i <= |globbed|
      invariant files == Keep(globbed[..i], RelevantTo(fl, cal, now))
    {
      assert globbed[..i + 1][..i] == globbed[..i];
      if Relevant(globbed[i], fl, cal, now) {
        files := files + [globbed[i]];
      }
      i := i + 1;
    }
    assert globbed[..i] == globbed;
    KeepSelected(globbed, dir, fl, cal, now);
  }

  /** `Relevant` as the test handed to `Keep`. */
  function RelevantTo(fl: Filter, cal: Calendar, now: Time): string -> bool
  {
    f => Relevant(f, fl, cal, now)
  }

  /** Keeping the relevant names of the glob gives the selection. */
  lemma KeepSelected(globbed: seq<string>, dir: Dir, fl: Filter, cal: Calendar, now: Time)
    requires multiset(globbed) == multiset(GlobSet(dir))
    ensures multiset(Keep(globbed, RelevantTo(fl, cal, now))) == multiset(Selected(dir, fl, cal, now))
  {
    forall x ensures multiset(Keep(globbed, RelevantTo(fl, cal, now)))[x] == multiset(Selected(dir, fl, cal, now))[x] {
      KeepCount(globbed, RelevantTo(fl, cal, now), x);
    }
  }

  /** With no filter every globbed file is selected. */
  lemma SelectAllWithoutFilter(dir: Dir, fl: Filter, cal: Calendar, now: Time)
    requires NoFilter(fl)
    ensures Selected(dir, fl, cal, now) == GlobSet(dir)
  {
  }

  /** With a target month exactly the log files whose name parses to that
      month are selected. */
  lemma SelectTargetMonth(dir: Dir, cal: Calendar, now: Time, target: Time, f: string)
    ensures f in Selected(dir, Filter(false, false, false, Some(target)), cal, now) <==>
      f in dir && IsLogFile(f) && ParsePrefix(f) == Some(MonthOf(cal, target))
  {
  }

  /** The week filter selects the current and the previous month, and no
      file whose name does not parse. */
  lemma SelectWeek(dir: Dir, cal: Calendar, now: Time, f: string)
    ensures f in Selected(dir, Filter(false, true, false, None), cal, now) <==>
      f in dir && IsLogFile(f) && ParsePrefix(f).Some? &&
      (ParsePrefix(f).value == MonthOf(cal, now) || ParsePrefix(f).value == PrevMonth(MonthOf(cal, now)))
  {
  }

  /** `isToday`: same civil date. */
  predicate IsToday(t: Time, now: Time)
  {
    DayOf(t) == DayOf(now)
  }

  /** Sunday 00:00 of the week holding `now`. */
  function WeekStart(now: Time): Time
  {
    DayStart(DayOf(now) - Weekday(now))
  }

  /** Saturday 23:59:59.999999999 of the week holding `now`. */
  function WeekEnd(now: Time): Time
  {
    DayStart(DayOf(now) - Weekday(now) + 6) + NanosPerDay - 1
  }

  /** `isThisWeek`: inside the inclusive window of the current week. */
  predicate IsThisWeek(t: Time, now: Time)
  {
    WeekStart(now) <= t <= WeekEnd(now)
  }

  lemma DayOfIn(t: Time, d: int)
    requires DayStart(d) <= t < DayStart(d) + NanosPerDay
    ensures DayOf(t) == d
  {
    var e := DayOf(t);
    assert e * NanosPerDay < (d + 1) * NanosPerDay && d * NanosPerDay < (e + 1) * NanosPerDay;
  }

  /** Today is exactly the day that begins at today's midnight. */
  lemma IsTodayWindow(t: Time, now: Time)
    ensures IsToday(t, now) <==> DayStart(DayOf(now)) <= t < DayStart(DayOf(now)) + NanosPerDay
  {
    if DayStart(DayOf(now)) <= t < DayStart(DayOf(now)) + NanosPerDay {
      DayOfIn(t, DayOf(now));
    }
  }

  /** The week window is the seven days from Sunday to Saturday. */
  lemma IsThisWeekDays(t: Time, now: Time)
    ensures IsThisWeek(t, now) <==> DayOf(now) - Weekday(now) <= DayOf(t) <= DayOf(now) - Weekday(now) + 6
  {
    var s := DayOf(now) - Weekday(now);
    var d := DayOf(t);
    if IsThisWeek(t, now) {
      assert s * NanosPerDay <= t < (s + 7) * NanosPerDay;
      assert d * NanosPerDay < (s + 7) * NanosPerDay && s * NanosPerDay < (d + 1) * NanosPerDay;
    }
    if s <= d <= s + 6 {
      assert s * NanosPerDay <= d * NanosPerDay;
      assert (d + 1) * NanosPerDay <= (s + 7) * NanosPerDay;
    }
  }

  /** Two instants are in the same week exactly when their weeks begin on
      the same Sunday. */
  lemma {:induction false} IsThisWeekSameSunday(t: Time, now: Time)
    ensures IsThisWeek(t, now) <==> DayOf(t) - Weekday(t) == DayOf(now) - Weekday(now)
  {
    IsThisWeekDays(t, now);
    var s := DayOf(now) - Weekday(now);
    var d := DayOf(t);
    assert (s + 4) % 7 == 0;
    if s <= d <= s + 6 {
      assert (d + 4) == (s + 4) + (d - s);
      assert (d + 4) % 7 == d - s;
    }
  }

  /** Today is always in this week; eight days ago never is. */
  lemma TodayInWeekNotEightDaysAgo(t: Time, now: Time)
    ensures IsToday(t, now) ==> IsThisWeek(t, now)
    ensures !IsThisWeek(now - 8 * NanosPerDay, now)
  {
    IsThisWeekDays(t, now);
    IsThisWeekDays(now - 8 * NanosPerDay, now);
    DayOfIn(now - 8 * NanosPerDay, DayOf(now) - 8);
  }

  /** What one readable file contributes: its entries, in file order. */
  function Chunk(logs: Logs, f: string, trim: bool): seq<LogEntry>
  {
    if Readable(logs, f) then ParseLines(logs.codec, logs.dir[f], trim) else []
  }

  /** The entries of a run of files, in the order they are read. */
  function Pool(logs: Logs, files: seq<string>, trim: bool): seq<LogEntry>
  {
    if files == [] then [] else Pool(logs, files[..|files| - 1], trim) + Chunk(logs, files[|files| - 1], trim)
  }

  /** `readSingleFile`: a file that cannot be read gives an error (and its
      entries are discarded); otherwise every line is counted, blank lines
      and lines that do not decode are skipped, and the rest give one entry
      each, in file order. `trim` distinguishes core/log.go (which trims
      each line first) from core/list.go (which does not). */
  method ReadSingleFile(logs: Logs, f: string, trim: bool) returns (entries: seq<LogEntry>, lineCount: nat, ok: bool)
    ensures ok <==> Readable(logs, f)
    ensures entries == Chunk(logs, f, trim)
    ensures ok ==> lineCount == |logs.dir[f]|
  {
    if !Readable(logs, f) {
      return [], 0, false;
    }
    var lines := logs.dir[f];
    entries, lineCount, ok := [], 0, true;
    while lineCount < |lines|
      invariant 0 <= lineCount <= |lines|
      invariant entries == ParseLines(logs.codec, lines[..lineCount], trim)
    {
      var line := lines[lineCount];
      ParseLinesSnoc(logs.codec, lines, lineCount, trim);
      lineCount := lineCount + 1;
      var text := if trim then TrimSpace(line) else line;
      if text != "" {
        var decoded := logs.codec.decode(text);
        if decoded.Some? {
          entries := entries + [decoded.value];
        }
      }
    }
    assert lines[..lineCount] == lines;
  }

  lemma ParseLinesSnoc(c: Codec, lines: seq<string>, i: nat, trim: bool)
    requires i < |lines|
    ensures ParseLines(c, lines[..i + 1], trim) ==
      ParseLines(c, lines[..i], trim) + (if LineEntry(c, lines[i], trim).Some? then [LineEntry(c, lines[i], trim).value] else [])
  {
    assert lines[..i + 1][..i] == lines[..i];
  }

  lemma PoolSnoc(logs: Logs, files: seq<string>, i: nat, trim: bool)
    requires i < |files|
    ensures Pool(logs, files[..i + 1], trim) == Pool(logs, files[..i], trim) + Chunk(logs, files[i], trim)
  {
    assert files[..i + 1][..i] == files[..i];
  }

  /** The early exit of the file loop fires after reading file `j - 1`
      (counting from 1): a readable file brought the total to the limit. */
  predicate StopsAt(logs: Logs, files: seq<string>, trim: bool, limit: int, readAll: bool, j: nat)
    requires 0 < j <= |files|
  {
    !readAll && limit > 0 && Readable(logs, files[j - 1]) && |Pool(logs, files[..j], trim)| >= limit
  }

  /** The file loop shared by `readEntries` and `GetRecentSessions`: files
      are read in the given order, unreadable ones skipped, and the loop
      stops after the first file that brings the total to `limit` (unless
      `readAll`, and only for a positive limit). `visited` is how many files
      the loop got through. */
  method CollectEntries(logs: Logs, files: seq<string>, trim: bool, limit: int, readAll: bool)
    returns (entries: seq<LogEntry>, visited: nat)
    ensures visited <= |files|
    ensures entries == Pool(logs, files[..visited], trim)
    ensures visited == |files| || (0 < visited && StopsAt(logs, files, trim, limit, readAll, visited))
    ensures forall j :: 0 < j < visited ==> !StopsAt(logs, files, trim, limit, readAll, j)
  {
    entries := [];
    var i := 0;
    while i < |files|
      invariant 0 <= i <= |files|
      invariant entries == Pool(logs, files[..i], trim)
      invariant forall j :: 0 < j <= i ==> !StopsAt(logs, files, trim, limit, readAll, j)
    {
      var fileEntries, lines, ok := ReadSingleFile(logs, files[i], trim);
      PoolSnoc(logs, files, i, trim);
      entries := entries + fileEntries;
      i := i + 1;
      assert StopsAt(logs, files, trim, limit, readAll, i) <==> ok && !readAll && limit > 0 && |entries| >= limit;
      if ok && !readAll && limit > 0 && |entries| >= limit {
        visited := i;
        return;
      }
    }
    visited := i;
    assert files[..i] == files;
  }

  /** `sort.Slice` by `EndTime.After`: `a` may precede `b` when it does not
      end earlier. */
  predicate NewerOrSame(a: LogEntry, b: LogEntry)
  {
    a.endTime >= b.endTime
  }

  lemma NewerOrSameOrder()
    ensures TotalPreorder(NewerOrSame)
  {
  }

  /** `sort.Slice` by `files[i] > files[j]`: `a` may precede `b` when it is
      not smaller as a string. */
  predicate NewerName(a: string, b: string)
  {
    !LexLess(a, b)
  }

  lemma NewerNameOrder()
    ensures TotalPreorder(NewerName)
  {
    forall a, b ensures NewerName(a, b) || NewerName(b, a) {
      LexAsymmetric(a, b);
    }
    forall a, b, c | NewerName(a, b) && NewerName(b, c) ensures NewerName(a, c) {
      LexTotal(a, b);
      LexTotal(b, c);
      if LexLess(a, c) {
        if LexLess(b, a) && LexLess(c, b) { LexTransitive(c, b, a); LexAsymmetric(a, c); }
        if LexLess(b, a) && b == c { LexAsymmetric(a, c); }
      }
    }
  }

  /** The limit `readEntries` works with: clamped to 1000 unless reading all. */
  function ClampLimit(limit: int, readAll: bool): (l: int)
    ensures !readAll && limit > 0 ==> 0 < l <= MaxEntriesLimit && l <= limit
    ensures readAll || limit <= MaxEntriesLimit ==> l == limit
  {
    if limit > MaxEntriesLimit && !readAll then MaxEntriesLimit else limit
  }

  /** The filter `readEntries` hands to `getRelevantLogFiles`. */
  function SelectionFilter(today: bool, week: bool, target: Option<Time>): Filter
  {
    if target.Some? then Filter(false, false, false, target) else Filter(today, week, false, None)
  }

  /** `readEntries`: the selected files newest name first, read until the
      (clamped) limit is reached, and the entries read sorted by end time,
      latest first, and cut to the limit. `files` is the order the files
      are read in and `visited` how many were read. */
  method ReadEntries(logs: Logs, cal: Calendar, now: Time, limit: int, today: bool, week: bool, readAll: bool, target: Option<Time>)
    returns (r: seq<LogEntry>, ghost files: seq<string>, ghost visited: nat)
    ensures multiset(files) == multiset(Selected(logs.dir, SelectionFilter(today, week, target), cal, now))
    ensures SortedBy(files, NewerName)
    ensures visited <= |files|
    ensures visited == |files| || (0 < visited && StopsAt(logs, files, true, ClampLimit(limit, readAll), readAll, visited))
    ensures forall j :: 0 < j < visited ==> !StopsAt(logs, files, true, ClampLimit(limit, readAll), readAll, j)
    ensures IsTop(r, multiset(Pool(logs, files[..visited], true)), if readAll then 0 else ClampLimit(limit, readAll), NewerOrSame)
    ensures !readAll && limit > 0 ==> |r| <= limit && |r| <= MaxEntriesLimit
    ensures MonotoneCalendar(cal) && WellPartitioned(logs.codec, cal, logs.dir) ==>
      IsTop(r, multiset(Pool(logs, files, true)), if readAll then 0 else ClampLimit(limit, readAll), NewerOrSame)
  {
    var clamped := ClampLimit(limit, readAll);
    var selected := GetRelevantLogFiles(logs.dir, SelectionFilter(today, week, target), cal, now);
    NewerNameOrder();
    var sortedFiles := Sort(selected, NewerName);
    files := sortedFiles;
    if |selected| == 0 {
      visited := 0;
      r := [];
      assert IsTop(r, multiset(Pool(logs, files[..visited], true)), if readAll then 0 else clamped, NewerOrSame);
      return;
    }
    var entries;
    entries, visited := CollectEntries(logs, sortedFiles, true, clamped, readAll);
    r := NewestFirst(entries, clamped, readAll);
    if MonotoneCalendar(cal) && WellPartitioned(logs.codec, cal, logs.dir) {
      SelectedInOrder(logs, files, Selected(logs.dir, SelectionFilter(today, week, target), cal, now));
      CollectedIsTop(logs, cal, files, visited, clamped, readAll, true, r);
    }
  }

  /** `sort.Slice` by end time, newest first, then the cut to `limit`
      (none when reading everything). */
  method NewestFirst(entries: seq<LogEntry>, limit: int, readAll: bool) returns (r: seq<LogEntry>)
    ensures IsTop(r, multiset(entries), if readAll then 0 else limit, NewerOrSame)
  {
    NewerOrSameOrder();
    var sorted := Sort(entries, NewerOrSame);
    r := if !readAll then Truncate(sorted, limit) else sorted;
    SortTruncateIsTop(entries, if readAll then 0 else limit, NewerOrSame);
    assert readAll ==> Truncate(sorted, 0) == sorted;
  }

  /** The selected files, listed newest first, are log files of the
      directory in strictly descending name order. */
  lemma SelectedInOrder(logs: Logs, files: seq<string>, names: set<string>)
    requires multiset(files) == multiset(names) && SortedBy(files, NewerName)
    requires forall f :: f in names ==> f in logs.dir && IsLogFile(f)
    ensures forall f :: f in files ==> f in logs.dir && IsLogFile(f)
    ensures forall i, j :: 0 <= i < j < |files| ==> LexLess(files[j], files[i])
  {
    DescendingNames(files, names);
    forall f | f in files ensures f in logs.dir && IsLogFile(f) {
      assert f in multiset(files);
    }
  }

  lemma {:induction false} PoolAppend(logs: Logs, a: seq<string>, b: seq<string>, trim: bool)
    ensures Pool(logs, a + b, trim) == Pool(logs, a, trim) + Pool(logs, b, trim)
    decreases |b|
  {
    if b == [] {
      assert a + b == a;
    } else {
      var b' := b[..|b| - 1];
      assert (a + b)[..|a + b| - 1] == a + b';
      assert (a + b)[|a + b| - 1] == b[|b| - 1];
      PoolAppend(logs, a, b', trim);
    }
  }

  /** An entry read from a log file of a well-partitioned directory ends in
      the month the file is named after (for the raw reader, given a lawful
      codec, as it accepts no more than the trimming one). */
  lemma ChunkMonth(logs: Logs, cal: Calendar, f: string, trim: bool, e: LogEntry)
    requires WellPartitioned(logs.codec, cal, logs.dir)
    requires f in logs.dir && IsLogFile(f)
    requires trim || LawfulCodec(logs.codec)
    requires e in Chunk(logs, f, trim)
    ensures CanonicalLogName(f) && MonthOf(cal, e.endTime) == ParsePrefix(f).value
  {
    assert GoodPartition(logs.codec, cal, f, logs.dir[f]);
    if !trim {
      RawEntriesTrimmed(logs.codec, logs.dir[f], e);
    }
  }

  /** Files in strictly descending name order hold strictly older entries
      the later they come. */
  lemma LaterFileOlder(logs: Logs, cal: Calendar, newer: string, older: string, trim: bool, y: LogEntry, x: LogEntry)
    requires MonotoneCalendar(cal) && WellPartitioned(logs.codec, cal, logs.dir)
    requires trim || LawfulCodec(logs.codec)
    requires newer in logs.dir && IsLogFile(newer) && older in logs.dir && IsLogFile(older)
    requires LexLess(older, newer)
    requires y in Chunk(logs, newer, trim) && x in Chunk(logs, older, trim)
    ensures y.endTime > x.endTime
  {
    ChunkMonth(logs, cal, newer, trim, y);
    ChunkMonth(logs, cal, older, trim, x);
    CanonicalOrder(older, newer);
    if y.endTime <= x.endTime {
      MonthOfMonotone(cal, y.endTime, x.endTime);
    }
  }

  /** The names of a set listed newest first are strictly descending. */
  lemma DescendingNames(files: seq<string>, names: set<string>)
    requires multiset(files) == multiset(names) && SortedBy(files, NewerName)
    ensures forall i, j :: 0 <= i < j < |files| ==> LexLess(files[j], files[i])
  {
    forall i, j | 0 <= i < j < |files| ensures LexLess(files[j], files[i]) {
      if files[i] == files[j] {
        Twice(files, i, j);
        assert false;
      }
      LexTotal(files[i], files[j]);
    }
  }

  /** Every entry of the files after position `v` is older than every
      entry of the files before it. */
  lemma UnreadOlder(logs: Logs, cal: Calendar, files: seq<string>, v: nat, trim: bool, y: LogEntry, x: LogEntry)
    requires MonotoneCalendar(cal) && WellPartitioned(logs.codec, cal, logs.dir)
    requires trim || LawfulCodec(logs.codec)
    requires forall f :: f in files ==> f in logs.dir && IsLogFile(f)
    requires forall i, j :: 0 <= i < j < |files| ==> LexLess(files[j], files[i])
    requires v <= |files|
    requires y in Pool(logs, files[..v], trim) && x in Pool(logs, files[v..], trim)
    ensures y.endTime > x.endTime
  {
    var head, tail := files[..v], files[v..];
    var i := PoolMember(logs, head, trim, y);
    var j := PoolMember(logs, tail, trim, x);
    var newer, older := files[i], files[v + j];
    assert head[i] == newer && tail[j] == older;
    assert newer in files && older in files;
    assert LexLess(older, newer);
    LaterFileOlder(logs, cal, newer, older, trim, y, x);
  }

  /** Nothing left for the unread files beats what was read: a top `k` of
      the read entries is a top `k` of all of them when every read entry
      is newer than every unread one. */
  lemma TopOfNewerPrefix(logs: Logs, files: seq<string>, v: nat, k: int, trim: bool, r: seq<LogEntry>)
    requires v <= |files| && 0 < k <= |Pool(logs, files[..v], trim)|
    requires IsTop(r, multiset(Pool(logs, files[..v], trim)), k, NewerOrSame)
    requires forall y, x :: y in Pool(logs, files[..v], trim) && x in Pool(logs, files[v..], trim) ==> y.endTime > x.endTime
    ensures IsTop(r, multiset(Pool(logs, files, trim)), k, NewerOrSame)
  {
    var head, tail := files[..v], files[v..];
    assert files == head + tail;
    PoolAppend(logs, head, tail, trim);
    var read, unread := multiset(Pool(logs, head, trim)), multiset(Pool(logs, tail, trim));
    assert multiset(Pool(logs, files, trim)) == read + unread;
    forall x, y | x in unread && y in read ensures NewerOrSame(y, x) {
      assert y in Pool(logs, head, trim) && x in Pool(logs, tail, trim);
    }
    TopExtends(r, read, unread, k, NewerOrSame);
  }

  /** The early exit loses nothing: when the month partitions are well
      formed and the calendar is monotone, the top `k` of the files read
      before the exit is the top `k` of all the files, because every file
      not read holds only entries older than every entry read. */
  lemma EarlyExitComplete(logs: Logs, cal: Calendar, files: seq<string>, v: nat, k: int, trim: bool, r: seq<LogEntry>)
    requires MonotoneCalendar(cal) && WellPartitioned(logs.codec, cal, logs.dir)
    requires trim || LawfulCodec(logs.codec)
    requires forall f :: f in files ==> f in logs.dir && IsLogFile(f)
    requires forall i, j :: 0 <= i < j < |files| ==> LexLess(files[j], files[i])
    requires v <= |files| && 0 < k <= |Pool(logs, files[..v], trim)|
    requires IsTop(r, multiset(Pool(logs, files[..v], trim)), k, NewerOrSame)
    ensures IsTop(r, multiset(Pool(logs, files, trim)), k, NewerOrSame)
  {
    forall y, x | y in Pool(logs, files[..v], trim) && x in Pool(logs, files[v..], trim) ensures y.endTime > x.endTime {
      UnreadOlder(logs, cal, files, v, trim, y, x);
    }
    TopOfNewerPrefix(logs, files, v, k, trim, r);
  }

  /** A read that ran over every file, or stopped early by the rule, has a
      top selection of all the files when the directory is well formed. */
  lemma CollectedIsTop(logs: Logs, cal: Calendar, files: seq<string>, visited: nat, limit: int, readAll: bool, trim: bool, r: seq<LogEntry>)
    requires MonotoneCalendar(cal) && WellPartitioned(logs.codec, cal, logs.dir)
    requires trim || LawfulCodec(logs.codec)
    requires forall f :: f in files ==> f in logs.dir && IsLogFile(f)
    requires forall i, j :: 0 <= i < j < |files| ==> LexLess(files[j], files[i])
    requires visited <= |files|
    requires visited == |files| || (0 < visited && StopsAt(logs, files, trim, limit, readAll, visited))
    requires IsTop(r, multiset(Pool(logs, files[..visited], trim)), if readAll then 0 else limit, NewerOrSame)
    ensures IsTop(r, multiset(Pool(logs, files, trim)), if readAll then 0 else limit, NewerOrSame)
  {
    if visited == |files| {
      assert files[..visited] == files;
    } else {
      EarlyExitComplete(logs, cal, files, visited, limit, trim, r);
    }
  }

  /** Whether an entry passes the active date filters. */
  predicate InPeriod(today: bool, week: bool, now: Time, e: LogEntry)
  {
    (today ==> IsToday(e.endTime, now)) && (week ==> IsThisWeek(e.endTime, now))
  }

  /** `ReadRecentEntries`: a limited read of the selected files, then, under
      a date filter, only the entries in the period. Cutting the filtered
      list to `limit` again never removes anything, since filtering only
      shortens a list that already fits the limit. */
  method ReadRecentEntries(logs: Logs, cal: Calendar, now: Time, limit: int, today: bool, week: bool)
    returns (r: seq<LogEntry>, read: seq<LogEntry>, ghost files: seq<string>, ghost visited: nat)
    ensures multiset(files) == multiset(Selected(logs.dir, Filter(today, week, false, None), cal, now))
    ensures SortedBy(files, NewerName)
    ensures visited <= |files|
    ensures visited == |files| || (0 < visited && StopsAt(logs, files, true, ClampLimit(limit, false), false, visited))
    ensures forall j :: 0 < j < visited ==> !StopsAt(logs, files, true, ClampLimit(limit, false), false, j)
    ensures IsTop(read, multiset(Pool(logs, files[..visited], true)), ClampLimit(limit, false), NewerOrSame)
    ensures MonotoneCalendar(cal) && WellPartitioned(logs.codec, cal, logs.dir) ==>
      IsTop(read, multiset(Pool(logs, files, true)), ClampLimit(limit, false), NewerOrSame)
    ensures limit > 0 ==> |read| <= limit
    ensures SortedBy(read, NewerOrSame)
    ensures r == if today || week then Keep(read, e => InPeriod(today, week, now, e)) else read
    ensures SortedBy(r, NewerOrSame)
    ensures forall e :: e in r ==> InPeriod(today, week, now, e)
    ensures limit > 0 ==> |r| <= limit
  {
    read, files, visited := ReadEntries(logs, cal, now, limit, today, week, false, None);
    r := read;
    if today || week {
      var filtered := FilterPeriod(read, today, week, now);
      KeepSorted(read, e => InPeriod(today, week, now, e), NewerOrSame);
      r := Truncate(filtered, limit);
    }
  }

  /** The post-filter loop of `ReadRecentEntries`. */
  method FilterPeriod(read: seq<LogEntry>, today: bool, week: bool, now: Time) returns (filtered: seq<LogEntry>)
    ensures filtered == Keep(read, e => InPeriod(today, week, now, e))
  {
    ghost var keep := e => InPeriod(today, week, now, e);
    filtered := [];
    var i := 0;
    while i < |read|
      invariant 0 <= i <= |read|
      invariant filtered == Keep(read[..i], keep)
    {
      assert read[..i + 1][..i] == read[..i];
      if InPeriod(today, week, now, read[i]) {
        filtered := filtered + [read[i]];
      }
      i := i + 1;
    }
    assert read[..i] == read;
  }

  /** `ReadMonthEntries`: a limited read of the target month's files. When
      the partitions are well formed every entry returned ends in that
      month. */
  method ReadMonthEntries(logs: Logs, cal: Calendar, now: Time, month: Time, limit: int)
    returns (r: seq<LogEntry>, ghost files: seq<string>, ghost visited: nat)
    ensures multiset(files) == multiset(Selected(logs.dir, Filter(false, false, false, Some(month)), cal, now))
    ensures SortedBy(files, NewerName)
    ensures visited <= |files|
    ensures visited == |files| || (0 < visited && StopsAt(logs, files, true, ClampLimit(limit, false), false, visited))
    ensures forall j :: 0 < j < visited ==> !StopsAt(logs, files, true, ClampLimit(limit, false), false, j)
    ensures IsTop(r, multiset(Pool(logs, files[..visited], true)), ClampLimit(limit, false), NewerOrSame)
    ensures MonotoneCalendar(cal) && WellPartitioned(logs.codec, cal, logs.dir) ==>
      IsTop(r, multiset(Pool(logs, files, true)), ClampLimit(limit, false), NewerOrSame)
    ensures WellPartitioned(logs.codec, cal, logs.dir) ==> forall e :: e in r ==> MonthOf(cal, e.endTime) == MonthOf(cal, month)
  {
    r, files, visited := ReadEntries(logs, cal, now, limit, false, false, false, Some(month));
    var k := MonthOf(cal, month);
    if WellPartitioned(logs.codec, cal, logs.dir) {
      forall j | 0 <= j < visited ensures files[j] in logs.dir && IsLogFile(files[j]) && ParsePrefix(files[j]) == Some(k) {
        assert files[j] in multiset(files);
      }
      PoolInMonth(logs, cal, files[..visited], k);
      forall e | e in r ensures MonthOf(cal, e.endTime) == k {
        TopFromPool(r, multiset(Pool(logs, files[..visited], true)), ClampLimit(limit, false), NewerOrSame, e);
      }
    }
  }

  /** The trimming reader finds only month-`k` entries in month-`k` files. */
  lemma {:induction false} PoolInMonth(logs: Logs, cal: Calendar, files: seq<string>, k: MonthKey)
    requires WellPartitioned(logs.codec, cal, logs.dir)
    requires forall j :: 0 <= j < |files| ==> files[j] in logs.dir && IsLogFile(files[j]) && ParsePrefix(files[j]) == Some(k)
    ensures forall e :: e in Pool(logs, files, true) ==> MonthOf(cal, e.endTime) == k
  {
    if files != [] {
      var init, last := files[..|files| - 1], files[|files| - 1];
      PoolInMonth(logs, cal, init, k);
      assert GoodPartition(logs.codec, cal, last, logs.dir[last]);
    }
  }

  /** `ReadAllEntries`: every entry of every log file, sorted latest first,
      with no limit. */
  method ReadAllEntries(logs: Logs, cal: Calendar, now: Time)
    returns (r: seq<LogEntry>, ghost files: seq<string>)
    ensures multiset(files) == multiset(GlobSet(logs.dir))
    ensures SortedBy(r, NewerOrSame)
    ensures multiset(r) == multiset(Pool(logs, files, true))
  {
    ghost var visited;
    r, files, visited := ReadEntries(logs, cal, now, 0, false, false, true, None);
    assert Selected(logs.dir, SelectionFilter(false, false, None), cal, now) == GlobSet(logs.dir);
    assert files[..visited] == files;
    SubMultisetSameSize(multiset(r), multiset(Pool(logs, files, true)));
  }

  lemma SubMultisetSameSize<T>(a: multiset<T>, b: multiset<T>)
    requires a <= b && |a| == |b|
    ensures a == b
  {
    var d := b - a;
    assert b == a + d;
    assert |d| == 0;
  }

  lemma {:induction false} ChunkInPool(logs: Logs, files: seq<string>, j: nat, trim: bool, e: LogEntry)
    requires j < |files| && e in Chunk(logs, files[j], trim)
    ensures e in Pool(logs, files, trim)
  {
    var init, last := files[..|files| - 1], files[|files| - 1];
    assert Pool(logs, files, trim) == Pool(logs, init, trim) + Chunk(logs, last, trim);
    if j < |init| {
      assert init[j] == files[j];
      ChunkInPool(logs, init, j, trim, e);
    } else {
      assert last == files[j];
    }
  }

  /** The position of the file an entry of a pool was read from. */
  lemma {:induction false} PoolMember(logs: Logs, files: seq<string>, trim: bool, e: LogEntry) returns (j: nat)
    requires e in Pool(logs, files, trim)
    ensures j < |files| && e in Chunk(logs, files[j], trim)
  {
    var init, last := files[..|files| - 1], files[|files| - 1];
    assert Pool(logs, files, trim) == Pool(logs, init, trim) + Chunk(logs, last, trim);
    if e in Pool(logs, init, trim) {
      j := PoolMember(logs, init, trim, e);
      assert files[j] == init[j];
    } else {
      j := |files| - 1;
    }
  }
}
