/** The watcher of core/watch.go: three "since / last nudged" instants and
    one check per tick. `now` stands for every clock reading of a tick
    (`time.Now` and `time.Since`), and the three reminder thresholds are
    parameters. */
module Watch {
  import opened Wrappers
  import opened Clock
  import opened Records
  import opened SessionStore

  /** The reminder a tick prints, if any. */
  datatype Nudge = TakeABreak | ReadyToResume | ReadyToStart

  datatype WatchConfig = WatchConfig(remindAfterActive: Duration, remindAfterPause: Duration, remindAfterIdle: Duration)

  /** The three timers, the state of a `Watcher`. */
  datatype TimerState = TimerState(noSessionSince: Time, lastActiveNudge: Time, lastPausedNudge: Time)

  /** Whether a reminder `after` long is due: the session has been in its
      state for longer, and it was never given or was given longer ago. */
  predicate Due(since: Time, last: Time, now: Time, after: Duration)
  {
    now - since > after && (last == ZeroTime || now - last > after)
  }

  /** `handleNoSession`: the first tick without a session only starts the
      idle timer; later ones nudge once it has run for longer than the idle
      threshold, and restart it. */
  function IdleStep(since: Time, now: Time, idle: Duration): (r: (Time, Option<Nudge>))
  {
    if since == ZeroTime then (now, None)
    else if now - since > idle then (now, Some(ReadyToStart))
    else (since, None)
  }

  /** One tick on plain values: the new timers and the nudge. */
  function Tick(t: TimerState, file: Option<SessionFile>, now: Time, cfg: WatchConfig): (TimerState, Option<Nudge>)
  {
    match file
    case None =>
      var (since, nudge) := IdleStep(t.noSessionSince, now, cfg.remindAfterIdle);
      (TimerState(since, ZeroTime, ZeroTime), nudge)
    case Some(Corrupt) => (t.(noSessionSince := ZeroTime), None)
    case Some(Intact(s)) =>
      if s.isPaused then
        if Due(s.pausedAt, t.lastPausedNudge, now, cfg.remindAfterPause)
        then (t.(noSessionSince := ZeroTime, lastPausedNudge := now), Some(ReadyToResume))
        else (t.(noSessionSince := ZeroTime), None)
      else
        if Due(s.startTime, t.lastActiveNudge, now, cfg.remindAfterActive)
        then (t.(noSessionSince := ZeroTime, lastActiveNudge := now), Some(TakeABreak))
        else (t.(noSessionSince := ZeroTime), None)
  }

  class Watcher {
    var noSessionSince: Time
    var lastActiveNudge: Time
    var lastPausedNudge: Time

    function State(): TimerState
      reads this
    {
      TimerState(noSessionSince, lastActiveNudge, lastPausedNudge)
    }

    /** `NewWatcher`: every timer zero. */
    constructor ()
      ensures noSessionSince == ZeroTime && lastActiveNudge == ZeroTime && lastPausedNudge == ZeroTime
    {
      noSessionSince, lastActiveNudge, lastPausedNudge := ZeroTime, ZeroTime, ZeroTime;
    }

    /** `CheckSessionAndNudge`: a tick on the session file as it stands. */
    method CheckSessionAndNudge(store: Store, now: Time, cfg: WatchConfig) returns (nudge: Option<Nudge>)
      modifies this
      ensures (State(), nudge) == Tick(old(State()), store.sessionFile, now, cfg)
    {
      if store.SessionExists() {
        noSessionSince := ZeroTime;
        var loaded := store.LoadSession();
        if loaded.Err? {
          return None;
        }
        var s := loaded.value;
        if s.isPaused {
          nudge := HandlePausedSession(s, now, cfg);
        } else {
          nudge := HandleActiveSession(s, now, cfg);
        }
      } else {
        lastActiveNudge := ZeroTime;
        lastPausedNudge := ZeroTime;
        nudge := HandleNoSession(now, cfg);
      }
    }

    /** `handleActiveSession`: touches only the active-nudge timer. */
    method HandleActiveSession(s: Session, now: Time, cfg: WatchConfig) returns (nudge: Option<Nudge>)
      modifies this`lastActiveNudge
      ensures Due(s.startTime, old(lastActiveNudge), now, cfg.remindAfterActive) ==>
        nudge == Some(TakeABreak) && lastActiveNudge == now
      ensures !Due(s.startTime, old(lastActiveNudge), now, cfg.remindAfterActive) ==>
        nudge == None && lastActiveNudge == old(lastActiveNudge)
    {
      nudge := None;
      if now - s.startTime > cfg.remindAfterActive {
        if lastActiveNudge == ZeroTime || now - lastActiveNudge > cfg.remindAfterActive {
          nudge := Some(TakeABreak);
          lastActiveNudge := now;
        }
      }
    }

    /** `handlePausedSession`: touches only the paused-nudge timer. */
    method HandlePausedSession(s: Session, now: Time, cfg: WatchConfig) returns (nudge: Option<Nudge>)
      modifies this`lastPausedNudge
      ensures Due(s.pausedAt, old(lastPausedNudge), now, cfg.remindAfterPause) ==>
        nudge == Some(ReadyToResume) && lastPausedNudge == now
      ensures !Due(s.pausedAt, old(lastPausedNudge), now, cfg.remindAfterPause) ==>
        nudge == None && lastPausedNudge == old(lastPausedNudge)
    {
      nudge := None;
      if now - s.pausedAt > cfg.remindAfterPause {
        if lastPausedNudge == ZeroTime || now - lastPausedNudge > cfg.remindAfterPause {
          nudge := Some(ReadyToResume);
          lastPausedNudge := now;
        }
      }
    }

    /** `handleNoSession`: touches only the idle timer. */
    method HandleNoSession(now: Time, cfg: WatchConfig) returns (nudge: Option<Nudge>)
      modifies this`noSessionSince
      ensures (noSessionSince, nudge) == IdleStep(old(noSessionSince), now, cfg.remindAfterIdle)
    {
      nudge := None;
      if noSessionSince == ZeroTime {
        noSessionSince := now;
        return;
      }
      if now - noSessionSince > cfg.remindAfterIdle {
        nudge := Some(ReadyToStart);
        noSessionSince := now;
      }
    }
  }

  /** A session file, loadable or not, stops the idle timer; no session
      file clears both nudge timers. */
  lemma TickResets(t: TimerState, file: Option<SessionFile>, now: Time, cfg: WatchConfig)
    ensures file.Some? ==> Tick(t, file, now, cfg).0.noSessionSince == ZeroTime
    ensures file.None? ==> Tick(t, file, now, cfg).0.lastActiveNudge == ZeroTime && Tick(t, file, now, cfg).0.lastPausedNudge == ZeroTime
    ensures file == Some(Corrupt) ==> Tick(t, file, now, cfg) == (t.(noSessionSince := ZeroTime), None)
  {
  }

  /** The first tick without a session only starts the idle timer. */
  lemma FirstIdleTickSilent(t: TimerState, now: Time, cfg: WatchConfig)
    requires t.noSessionSince == ZeroTime
    ensures Tick(t, None, now, cfg) == (TimerState(now, ZeroTime, ZeroTime), None)
  {
  }

  /** Once the idle timer runs, a tick nudges exactly when it has run for
      longer than the threshold, and a nudge restarts it. */
  lemma IdleNudgeIff(t: TimerState, now: Time, cfg: WatchConfig)
    requires t.noSessionSince != ZeroTime
    ensures Tick(t, None, now, cfg).1 == Some(ReadyToStart) <==> now - t.noSessionSince > cfg.remindAfterIdle
    ensures Tick(t, None, now, cfg).1.None? <==> now - t.noSessionSince <= cfg.remindAfterIdle
    ensures Tick(t, None, now, cfg).0.noSessionSince == if now - t.noSessionSince > cfg.remindAfterIdle then now else t.noSessionSince
  {
  }

  /** An active session nudges exactly when it has run longer than the
      threshold and was not nudged within it; only the active timer moves. */
  lemma ActiveNudgeIff(t: TimerState, s: Session, now: Time, cfg: WatchConfig)
    requires !s.isPaused
    ensures var (t', nudge) := Tick(t, Some(Intact(s)), now, cfg);
      && (nudge == Some(TakeABreak) <==>
            now - s.startTime > cfg.remindAfterActive &&
            (t.lastActiveNudge == ZeroTime || now - t.lastActiveNudge > cfg.remindAfterActive))
      && (nudge.None? || nudge == Some(TakeABreak))
      && t'.lastActiveNudge == (if nudge.Some? then now else t.lastActiveNudge)
      && t'.lastPausedNudge == t.lastPausedNudge
  {
  }

  /** The paused reminder follows the same rule on the pause instant. */
  lemma PausedNudgeIff(t: TimerState, s: Session, now: Time, cfg: WatchConfig)
    requires s.isPaused
    ensures var (t', nudge) := Tick(t, Some(Intact(s)), now, cfg);
      && (nudge == Some(ReadyToResume) <==>
            now - s.pausedAt > cfg.remindAfterPause &&
            (t.lastPausedNudge == ZeroTime || now - t.lastPausedNudge > cfg.remindAfterPause))
      && (nudge.None? || nudge == Some(ReadyToResume))
      && t'.lastPausedNudge == (if nudge.Some? then now else t.lastPausedNudge)
      && t'.lastActiveNudge == t.lastActiveNudge
  {
  }

  /** A tick repeated at the same instant right after a nudge is silent
      (for non-negative thresholds and a clock past Go's zero time). */
  lemma RepeatTickSilent(t: TimerState, file: Option<SessionFile>, now: Time, cfg: WatchConfig)
    requires now != ZeroTime
    requires cfg.remindAfterActive >= 0 && cfg.remindAfterPause >= 0 && cfg.remindAfterIdle >= 0
    requires Tick(t, file, now, cfg).1.Some?
    ensures Tick(Tick(t, file, now, cfg).0, file, now, cfg).1 == None
  {
  }
}
