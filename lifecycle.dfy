/** The `start`, `pause`, `resume` and `end` commands (cmd/start.go,
    cmd/pause.go, cmd/resume.go, cmd/end.go) as steps on the store: the
    session file moves between absent, active and paused, and `end` turns
    the session into a log entry. `now` is the clock reading of the run;
    the Boolean parameters say whether each file-system call succeeds. */
module Lifecycle {
  import opened Wrappers
  import opened Clock
  import opened Records
  import opened LogFiles
  import opened SessionStore

  /** The hook a command hands to `RunHook` once its work is done. */
  datatype Hook = Hook(event: string, tag: string)

  /** How a command run ends: a message-only no-op, `os.Exit(1)`, or done,
      with the hook it fires and the duration it reports, if any. */
  datatype Outcome = NoOp | Fatal | Done(hook: Hook, shown: Option<Duration>)

  /** The default of the `--tag` flag. */
  const DefaultTag: string := "Deep Work"

  /** The session `start` creates: active, started now, nothing paused. */
  function NewSession(tag: string, now: Time): (s: Session)
    ensures s.tag == tag && s.startTime == now && !s.isPaused
    ensures s.totalPaused == 0 && s.pausedAt == ZeroTime && s.targetDuration == 0
  {
    Session(tag, now, 0, ZeroTime, false, 0)
  }

  /** Pausing marks the session paused at `now` and touches nothing else. */
  function Paused(s: Session, now: Time): (p: Session)
    ensures p.isPaused && p.pausedAt == now
    ensures p.tag == s.tag && p.startTime == s.startTime && p.totalPaused == s.totalPaused
    ensures p.targetDuration == s.targetDuration
  {
    s.(isPaused := true, pausedAt := now)
  }

  /** Resuming adds the pause just ended to the paused total and clears the
      pause; the total never shrinks when the clock has not gone back. */
  function Resumed(s: Session, now: Time): (r: Session)
    ensures !r.isPaused && r.pausedAt == ZeroTime
    ensures r.totalPaused - s.totalPaused == now - s.pausedAt
    ensures now >= s.pausedAt ==> r.totalPaused >= s.totalPaused
    ensures r.tag == s.tag && r.startTime == s.startTime && r.targetDuration == s.targetDuration
  {
    s.(totalPaused := s.totalPaused + (now - s.pausedAt), isPaused := false, pausedAt := ZeroTime)
  }

  /** The working time `pause` reports once paused at `now`: the duration
      `end` would log for the session as paused. */
  function WorkedTime(s: Session, now: Time): (w: Duration)
    ensures w == EndEntry(Paused(s, now), now).duration
  {
    now - s.startTime - s.totalPaused
  }

  /** The entry `end` logs: an active session ends now, a paused one when it
      was paused; the duration is elapsed minus paused time, NOT clamped. */
  function EndEntry(s: Session, now: Time): (e: LogEntry)
    ensures e.endTime == if s.isPaused then s.pausedAt else now
    ensures e.duration == e.endTime - s.startTime - s.totalPaused
    ensures e.tag == s.tag && e.startTime == s.startTime && e.totalPaused == s.totalPaused
  {
    var endTime := if s.isPaused then s.pausedAt else now;
    LogEntry(s.tag, s.startTime, endTime, endTime - s.startTime - s.totalPaused, s.totalPaused)
  }

  /** `start`: a session that loads is left alone; otherwise (no file, or a
      file that does not load) a new session is written, and a failed write
      is fatal. The hook fires only after a successful save. */
  method Start(store: Store, tagFlag: Option<string>, now: Time, saveOk: bool) returns (o: Outcome)
    modifies store
    ensures store.logs == old(store.logs)
    ensures old(store.LoadSession()).Ok? ==> o == NoOp && store.sessionFile == old(store.sessionFile)
    ensures !old(store.LoadSession()).Ok? ==>
      var tag := if tagFlag.Some? then tagFlag.value else DefaultTag;
      && (saveOk ==> store.sessionFile == Some(Intact(NewSession(tag, now))) && o == Done(Hook("on_start", tag), None))
      && (!saveOk ==> store.sessionFile == old(store.sessionFile) && o == Fatal)
  {
    if store.SessionExists() {
      var loaded := store.LoadSession();
      if loaded.Ok? {
        return NoOp;
      }
    }
    var tag := if tagFlag.Some? then tagFlag.value else DefaultTag;
    var session := NewSession(tag, now);
    var saved := store.SaveSession(session, saveOk);
    if !saved {
      return Fatal;
    }
    o := Done(Hook("on_start", session.tag), None);
  }

  /** `pause`: only an active session changes; it is saved paused at `now`
      and the working time so far is reported. */
  method Pause(store: Store, now: Time, saveOk: bool) returns (o: Outcome)
    modifies store
    ensures store.logs == old(store.logs)
    ensures !old(store.SessionExists()) ==> o == NoOp && store.sessionFile == old(store.sessionFile)
    ensures old(store.sessionFile) == Some(Corrupt) ==> o == Fatal && store.sessionFile == old(store.sessionFile)
    ensures forall s :: old(store.sessionFile) == Some(Intact(s)) ==>
      if s.isPaused then o == NoOp && store.sessionFile == old(store.sessionFile)
      else if saveOk then
        store.sessionFile == Some(Intact(Paused(s, now))) &&
        o == Done(Hook("on_pause", s.tag), Some(WorkedTime(Paused(s, now), now)))
      else o == Fatal && store.sessionFile == old(store.sessionFile)
  {
    if !store.SessionExists() {
      return NoOp;
    }
    var loaded := store.LoadSession();
    if loaded.Err? {
      return Fatal;
    }
    var session := loaded.value;
    if session.isPaused {
      return NoOp;
    }
    session := Paused(session, now);
    var saved := store.SaveSession(session, saveOk);
    if !saved {
      return Fatal;
    }
    o := Done(Hook("on_pause", session.tag), Some(WorkedTime(session, now)));
  }

  /** `resume`: only a paused session changes; the pause just ended is
      added to its paused total. */
  method Resume(store: Store, now: Time, saveOk: bool) returns (o: Outcome)
    modifies store
    ensures store.logs == old(store.logs)
    ensures !old(store.SessionExists()) ==> o == NoOp && store.sessionFile == old(store.sessionFile)
    ensures old(store.sessionFile) == Some(Corrupt) ==> o == Fatal && store.sessionFile == old(store.sessionFile)
    ensures forall s :: old(store.sessionFile) == Some(Intact(s)) ==>
      if !s.isPaused then o == NoOp && store.sessionFile == old(store.sessionFile)
      else if saveOk then
        store.sessionFile == Some(Intact(Resumed(s, now))) && o == Done(Hook("on_resume", s.tag), None)
      else o == Fatal && store.sessionFile == old(store.sessionFile)
  {
    if !store.SessionExists() {
      return NoOp;
    }
    var loaded := store.LoadSession();
    if loaded.Err? {
      return Fatal;
    }
    var session := loaded.value;
    if !session.isPaused {
      return NoOp;
    }
    session := Resumed(session, now);
    var saved := store.SaveSession(session, saveOk);
    if !saved {
      return Fatal;
    }
    o := Done(Hook("on_resume", session.tag), None);
  }

  /** `end`: the session is logged (a failed log write is only a warning)
      and its file removed (a failed removal is only a warning); the hook
      fires either way. */
  method End(store: Store, now: Time, logOk: bool, removeOk: bool) returns (o: Outcome)
    modifies store
    ensures !old(store.SessionExists()) ==> o == NoOp && store.sessionFile == old(store.sessionFile) && store.logs == old(store.logs)
    ensures old(store.sessionFile) == Some(Corrupt) ==> o == Fatal && store.sessionFile == old(store.sessionFile) && store.logs == old(store.logs)
    ensures forall s :: old(store.sessionFile) == Some(Intact(s)) ==>
      && store.logs == (if logOk then AppendEntry(store.codec, store.cal, old(store.logs), EndEntry(s, now)) else old(store.logs))
      && store.sessionFile == (if removeOk then None else old(store.sessionFile))
      && o == Done(Hook("on_end", s.tag), Some(EndEntry(s, now).duration))
  {
    if !store.SessionExists() {
      return NoOp;
    }
    var loaded := store.LoadSession();
    if loaded.Err? {
      return Fatal;
    }
    var session := loaded.value;
    var entry := EndEntry(session, now);
    var logged := store.LogSession(entry, logOk);
    var removed := store.RemoveSession(removeOk);
    o := Done(Hook("on_end", session.tag), Some(entry.duration));
  }

  /** A sequence of pause/resume instants applied to a session. */
  function Cycles(s: Session, cycles: seq<(Time, Time)>): Session
  {
    if cycles == [] then s
    else
      var last := cycles[|cycles| - 1];
      Resumed(Paused(Cycles(s, cycles[..|cycles| - 1]), last.0), last.1)
  }

  /** The summed length of the pause intervals. */
  function PausedSum(cycles: seq<(Time, Time)>): int
  {
    if cycles == [] then 0
    else PausedSum(cycles[..|cycles| - 1]) + (cycles[|cycles| - 1].1 - cycles[|cycles| - 1].0)
  }

  /** After any number of pause/resume cycles the paused total is the old
      total plus the sum of the intervals, and tag and start are kept. */
  lemma {:induction false} CyclesAccount(s: Session, cycles: seq<(Time, Time)>)
    ensures Cycles(s, cycles).totalPaused == s.totalPaused + PausedSum(cycles)
    ensures Cycles(s, cycles).tag == s.tag && Cycles(s, cycles).startTime == s.startTime
    ensures cycles != [] ==> !Cycles(s, cycles).isPaused
  {
    if cycles != [] {
      CyclesAccount(s, cycles[..|cycles| - 1]);
    }
  }

  /** Once paused, no worked time accrues: `end` logs the same entry
      whenever it runs. */
  lemma EndFrozenWhilePaused(s: Session, pausedAt: Time, now1: Time, now2: Time)
    ensures EndEntry(Paused(s, pausedAt), now1) == EndEntry(Paused(s, pausedAt), now2)
    ensures EndEntry(Paused(s, pausedAt), now1).duration == WorkedTime(s, pausedAt)
  {
  }

  /** `end` and the stale-session cleanup end a session at the same instant,
      but only the cleanup clamps the duration at zero and marks the tag. */
  lemma EndVersusAbandoned(s: Session, now: Time)
    ensures AbandonedEntry(s, now).endTime == EndEntry(s, now).endTime
    ensures AbandonedEntry(s, now).duration == if EndEntry(s, now).duration < 0 then 0 else EndEntry(s, now).duration
    ensures AbandonedEntry(s, now).tag == EndEntry(s, now).tag + AbandonedSuffix
  {
  }

  /** `end` can log a negative duration: a session whose paused total
      exceeds its elapsed time (e.g. after a clock change). The cleanup path
      logs zero for it. */
  lemma EndNotClamped()
    ensures var s := Session("t", 100, 0, ZeroTime, false, 50);
      EndEntry(s, 120).duration == -30 && AbandonedEntry(s, 120).duration == 0
  {
  }
}
