/** `GetRecentSessions` (core/list.go): the same newest-first read as the
    log reader, but with no cap on the limit, no month filter, and the raw
    (untrimmed) line reader. */
module RecentSessions {
  import opened Wrappers
  import opened Clock
  import opened Records
  import opened Paths
  import opened LogFiles
  import opened Sorting
  import opened LogReader

  /** `GetRecentSessions(limit)`: an error when the log directory cannot be
      located (the glob's own pattern errors are not modelled); otherwise the log files newest name first, read until
      `limit` entries (for a positive limit), sorted latest first and cut
      to `limit`. `logs` is the directory found at `GetLogDir`. Under the
      partition invariant the early exit loses nothing: the result is the
      top `limit` of every file. */
  method GetRecentSessions(env: map<string, string>, logs: Logs, cal: Calendar, limit: int)
    returns (r: Result<seq<LogEntry>, PathError>, ghost files: seq<string>, ghost visited: nat)
    ensures r.Err? <==> GetLogDir(env).Err?
    ensures r.Err? ==> r == Err(GetLogDir(env).error)
    ensures multiset(files) == multiset(GlobSet(logs.dir))
    ensures SortedBy(files, NewerName)
    ensures visited <= |files|
    ensures r.Ok? ==> visited == |files| || (0 < visited && StopsAt(logs, files, false, limit, false, visited))
    ensures r.Ok? ==> forall j :: 0 < j < visited ==> !StopsAt(logs, files, false, limit, false, j)
    ensures r.Ok? ==> IsTop(r.value, multiset(Pool(logs, files[..visited], false)), limit, NewerOrSame)
    ensures r.Ok? && MonotoneCalendar(cal) && LawfulCodec(logs.codec) && WellPartitioned(logs.codec, cal, logs.dir) ==>
      IsTop(r.value, multiset(Pool(logs, files, false)), limit, NewerOrSame)
  {
    var globbed := Glob(logs.dir);
    NewerNameOrder();
    var sortedFiles := Sort(globbed, NewerName);
    files := sortedFiles;
    visited := 0;
    var logDir := GetLogDir(env);
    if logDir.Err? {
      return Err(logDir.error), files, visited;
    }
    if |globbed| == 0 {
      r := Ok([]);
      assert IsTop(r.value, multiset(Pool(logs, files[..visited], false)), limit, NewerOrSame);
      return;
    }
    var entries;
    entries, visited := CollectEntries(logs, sortedFiles, false, limit, false);
    NewerOrSameOrder();
    var sorted := Sort(entries, NewerOrSame);
    r := Ok(Truncate(sorted, limit));
    SortTruncateIsTop(entries, limit, NewerOrSame);
    if MonotoneCalendar(cal) && LawfulCodec(logs.codec) && WellPartitioned(logs.codec, cal, logs.dir) {
      DescendingNames(files, GlobSet(logs.dir));
      forall f | f in files ensures f in logs.dir && IsLogFile(f) {
        assert f in multiset(files);
      }
      CollectedIsTop(logs, cal, files, visited, limit, false, false, r.value);
    }
  }

  /** For a lawful codec the raw reader of `GetRecentSessions` never finds
      an entry the trimming reader of the log reader would miss. */
  lemma RawPoolWithinTrimmed(logs: Logs, files: seq<string>, e: LogEntry)
    requires LawfulCodec(logs.codec)
    requires e in Pool(logs, files, false)
    ensures e in Pool(logs, files, true)
  {
    var j := PoolMember(logs, files, false, e);
    RawEntriesTrimmed(logs.codec, logs.dir[files[j]], e);
    ChunkInPool(logs, files, j, true, e);
  }
}
