/** The state behind core/session.go: the session file (present, absent,
    or present but unreadable) and the directory of month partitions, with
    the operations that read and change them. The locations themselves are
    resolved by the `Paths` module. */
module SessionStore {
  import opened Wrappers
  import opened Clock
  import opened Records
  import opened Paths
  import opened LogFiles

  /** What the session file holds: a session, or bytes that do not decode. */
  datatype SessionFile = Intact(session: Session) | Corrupt

  datatype LoadError = NoSessionFile | Malformed

  datatype CleanupError = LogFailed | RemoveFailed

  class Store {
    const codec: Codec
    const cal: Calendar
    var sessionFile: Option<SessionFile>
    var logs: Dir

    constructor (codec: Codec, cal: Calendar, sessionFile: Option<SessionFile>, logs: Dir)
      ensures this.codec == codec && this.cal == cal
      ensures this.sessionFile == sessionFile && this.logs == logs
    {
      this.codec := codec;
      this.cal := cal;
      this.sessionFile := sessionFile;
      this.logs := logs;
    }

    /** `SessionExists`: the session file is there (readable or not). */
    predicate SessionExists()
      reads this
    {
      sessionFile.Some?
    }

    /** `LoadSession`: the stored session, or why there is none. */
    function LoadSession(): (r: Result<Session, LoadError>)
      reads this
      ensures forall s :: r == Ok(s) <==> sessionFile == Some(Intact(s))
      ensures r == Err(NoSessionFile) <==> !SessionExists()
      ensures r == Err(Malformed) <==> sessionFile == Some(Corrupt)
    {
      match sessionFile
      case None => Err(NoSessionFile)
      case Some(Corrupt) => Err(Malformed)
      case Some(Intact(s)) => Ok(s)
    }

    /** `SaveSession`: on success the file holds `s`, so it exists and loads
        back as `s`; `writeOk` is whether the file system let the write
        through. Nothing else changes. */
    method SaveSession(s: Session, writeOk: bool) returns (ok: bool)
      modifies this`sessionFile
      ensures ok == writeOk
      ensures sessionFile == if ok then Some(Intact(s)) else old(sessionFile)
      ensures ok ==> SessionExists() && LoadSession() == Ok(s)
    {
      ok := writeOk;
      if ok {
        sessionFile := Some(Intact(s));
      }
    }

    /** `os.Remove` of the session file: it fails when the file is absent
        or the file system refuses. */
    method RemoveSession(removeOk: bool) returns (ok: bool)
      modifies this`sessionFile
      ensures ok <==> removeOk && old(sessionFile).Some?
      ensures sessionFile == if ok then None else old(sessionFile)
    {
      ok := removeOk && sessionFile.Some?;
      if ok {
        sessionFile := None;
      }
    }

    /** `LogSession`: on success exactly one line, the entry's encoding, is
        appended to the partition of the month the entry ends in. */
    method LogSession(e: LogEntry, writeOk: bool) returns (ok: bool)
      modifies this`logs
      ensures ok == writeOk
      ensures logs == if ok then AppendEntry(codec, cal, old(logs), e) else old(logs)
    {
      ok := writeOk;
      if ok {
        var name := PartitionOf(cal, e);
        logs := logs[name := Get(logs, name, []) + [codec.encode(e)]];
      }
    }

    /** `CleanupStaleSession`: with `logAsAbandoned`, the abandoned entry is
        logged first, and a failed log write stops there with the session
        file kept; otherwise the session file is removed. */
    method CleanupStaleSession(s: Session, logAsAbandoned: bool, now: Time, logOk: bool, removeOk: bool)
      returns (r: Result<(), CleanupError>)
      modifies this
      ensures logAsAbandoned && !logOk ==>
        r == Err(LogFailed) && logs == old(logs) && sessionFile == old(sessionFile)
      ensures !(logAsAbandoned && !logOk) ==>
        && logs == (if logAsAbandoned then AppendEntry(codec, cal, old(logs), AbandonedEntry(s, now)) else old(logs))
        && (r.Ok? <==> removeOk && old(sessionFile).Some?)
        && (r.Err? ==> r.error == RemoveFailed)
        && sessionFile == (if r.Ok? then None else old(sessionFile))
    {
      if logAsAbandoned {
        var logged := LogSession(AbandonedEntry(s, now), logOk);
        if !logged {
          return Err(LogFailed);
        }
      }
      var removed := RemoveSession(removeOk);
      r := if removed then Ok(()) else Err(RemoveFailed);
    }
  }

  /** `IsSessionStale`: a paused session is stale once it has been paused
      for longer than `threshold`, an active one once it has been running
      for longer; `now` stands for `time.Since`'s clock reading. */
  function IsSessionStale(s: Session, now: Time, threshold: Duration): (stale: bool)
  {
    if s.isPaused then now - s.pausedAt > threshold else now - s.startTime > threshold
  }

  /** Staleness is strict: at exactly the threshold a session is not stale,
      one nanosecond later it is. */
  lemma StaleBoundary(s: Session, threshold: Duration)
    ensures var since := if s.isPaused then s.pausedAt else s.startTime;
      !IsSessionStale(s, since + threshold, threshold) && IsSessionStale(s, since + threshold + 1, threshold)
  {
  }

  /** Once stale, a session stays stale as time goes on. */
  lemma StaleMonotone(s: Session, now: Time, later: Time, threshold: Duration)
    requires now <= later && IsSessionStale(s, now, threshold)
    ensures IsSessionStale(s, later, threshold)
  {
  }

  const AbandonedSuffix: string := " [ABANDONED]"

  /** The entry `CleanupStaleSession` logs for an abandoned session: it
      ends when the session was paused, or now; its worked time never goes
      below zero; its tag is marked. */
  function AbandonedEntry(s: Session, now: Time): (e: LogEntry)
    ensures e.endTime == if s.isPaused then s.pausedAt else now
    ensures e.duration >= 0
    ensures e.duration == e.endTime - s.startTime - s.totalPaused || (e.duration == 0 && e.endTime - s.startTime - s.totalPaused < 0)
    ensures e.tag == s.tag + AbandonedSuffix
    ensures e.startTime == s.startTime && e.totalPaused == s.totalPaused
  {
    var endTime := if s.isPaused then s.pausedAt else now;
    var worked := endTime - s.startTime - s.totalPaused;
    LogEntry(s.tag + AbandonedSuffix, s.startTime, endTime, if worked < 0 then 0 else worked, s.totalPaused)
  }
}
