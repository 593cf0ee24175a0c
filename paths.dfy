/** Where the session file and the month partitions live (core/session.go),
    and the `YYYYMM_sessions.jsonl` file-name format of the partitions. */
module Paths {
  import opened Wrappers
  import opened Clock
  import opened Text

  datatype PathError = NoHomeDir

  /** `os.Getenv`: the empty string for an unset variable. */
  function Getenv(env: map<string, string>, name: string): string
  {
    Get(env, name, "")
  }

  /** `os.UserHomeDir` on Unix: `$HOME`, an error when it is empty. */
  function HomeDir(env: map<string, string>): (r: Result<string, PathError>)
    ensures r.Ok? <==> Getenv(env, "HOME") != ""
  {
    var home := Getenv(env, "HOME");
    if home == "" then Err(NoHomeDir) else Ok(home)
  }

  /** `filepath.Join` of two elements: empty elements are dropped and the
      rest are joined by a separator. Go's lexical `filepath.Clean` of the
      result is not modelled, so this agrees with Go on clean elements. */
  function Join(a: string, b: string): (r: string)
    ensures a != "" && b != "" ==> r == a + "/" + b
    ensures r == "" <==> a == "" && b == ""
  {
    if a == "" then b else if b == "" then a else a + "/" + b
  }

  /** The index of the last `/` in `p`, or -1. */
  function LastSlash(p: string): (i: int)
    ensures -1 <= i < |p|
    ensures i >= 0 ==> p[i] == '/'
    ensures forall j :: i < j < |p| ==> p[j] != '/'
  {
    if p == [] then -1
    else if p[|p| - 1] == '/' then |p| - 1
    else LastSlash(p[..|p| - 1])
  }

  /** `filepath.Dir`: everything before the last separator, "." when there
      is none and "/" when only the root precedes it. As with `Join`, the
      final `filepath.Clean` is not modelled. */
  function Dir(p: string): (d: string)
    ensures d != ""
  {
    var i := LastSlash(p);
    if i < 0 then "." else if i == 0 then "/" else p[..i]
  }

  lemma DirOfJoin(a: string, b: string)
    requires a != "" && b != "" && '/' !in b
    ensures Dir(Join(a, b)) == a
  {
    var p := a + "/" + b;
    assert p[|a|] == '/';
    forall j | |a| < j < |p| ensures p[j] != '/' { assert p[j] == b[j - |a| - 1]; }
    LastSlashIs(p, |a|);
    assert p[..|a|] == a;
  }

  lemma LastSlashIs(p: string, i: nat)
    requires i < |p| && p[i] == '/'
    requires forall j :: i < j < |p| ==> p[j] != '/'
    ensures LastSlash(p) == i
  {
  }

  lemma FlowSessionUnder(x: string)
    requires x != ""
    ensures Join(Join(x, "flow"), "session") == x + "/flow/session"
  {
    assert x + "/" + "flow" + "/" + "session" == x + ("/" + "flow" + "/" + "session");
    assert "/" + "flow" + "/" + "session" == "/flow/session";
  }

  lemma LocalShareUnder(x: string)
    requires x != ""
    ensures Join(Join(x, ".local"), "share") == x + "/.local/share"
  {
    assert x + "/" + ".local" + "/" + "share" == x + ("/" + ".local" + "/" + "share");
    assert "/" + ".local" + "/" + "share" == "/.local/share";
  }

  lemma DefaultSessionUnder(home: string)
    requires home != ""
    ensures Join(Join(Join(Join(home, ".local"), "share"), "flow"), "session") == home + "/.local/share/flow/session"
  {
    LocalShareUnder(home);
    FlowSessionUnder(home + "/.local/share");
    assert home + "/.local/share" + "/flow/session" == home + ("/.local/share" + "/flow/session");
    assert "/.local/share" + "/flow/session" == "/.local/share/flow/session";
  }

  /** `GetSessionPath`: `$FLOW_SESSION_PATH`, else `$XDG_DATA_HOME/flow/session`,
      else the legacy `~/.flow-session` when that file exists, else
      `~/.local/share/flow/session`. */
  function GetSessionPath(env: map<string, string>, legacyExists: bool): (r: Result<string, PathError>)
    ensures Getenv(env, "FLOW_SESSION_PATH") != "" ==> r == Ok(Getenv(env, "FLOW_SESSION_PATH"))
    ensures Getenv(env, "FLOW_SESSION_PATH") == "" && Getenv(env, "XDG_DATA_HOME") != "" ==>
              r == Ok(Getenv(env, "XDG_DATA_HOME") + "/flow/session")
    ensures Getenv(env, "FLOW_SESSION_PATH") == "" && Getenv(env, "XDG_DATA_HOME") == "" ==>
              (r.Err? <==> Getenv(env, "HOME") == "")
    ensures r.Ok? && Getenv(env, "FLOW_SESSION_PATH") == "" && Getenv(env, "XDG_DATA_HOME") == "" ==>
              r.value == Getenv(env, "HOME") + (if legacyExists then "/.flow-session" else "/.local/share/flow/session")
  {
    var explicit := Getenv(env, "FLOW_SESSION_PATH");
    var xdg := Getenv(env, "XDG_DATA_HOME");
    if explicit != "" then Ok(explicit)
    else if xdg != "" then
      FlowSessionUnder(xdg);
      Ok(Join(Join(xdg, "flow"), "session"))
    else match HomeDir(env)
      case Err(e) => Err(e)
      case Ok(home) =>
        DefaultSessionUnder(home);
        if legacyExists then Ok(Join(home, ".flow-session"))
        else Ok(Join(Join(Join(Join(home, ".local"), "share"), "flow"), "session"))
  }

  /** The directory that holds the `logs` directory: the directory of
      `$FLOW_LOG_PATH`, else `$XDG_DATA_HOME/flow`, else `~/.local/share/flow`. */
  function DataDir(env: map<string, string>): Result<string, PathError>
  {
    var explicit := Getenv(env, "FLOW_LOG_PATH");
    var xdg := Getenv(env, "XDG_DATA_HOME");
    if explicit != "" then Ok(Dir(explicit))
    else if xdg != "" then Ok(Join(xdg, "flow"))
    else match HomeDir(env)
      case Err(e) => Err(e)
      case Ok(home) => Ok(Join(Join(Join(home, ".local"), "share"), "flow"))
  }

  const LogSuffix: string := "_sessions.jsonl"

  /** `date.Format("200601")` for a month key. */
  function YearMonth(k: MonthKey): (s: string)
    ensures |s| == 6 && AllDigits(s)
  {
    Pad(k / 100, 4) + Pad(k % 100, 2)
  }

  /** The partition file of month `k`. */
  function LogFileName(k: MonthKey): string
  {
    YearMonth(k) + LogSuffix
  }

  /** `GetLogPath(date)`: `<data dir>/logs/<YYYYMM>_sessions.jsonl`. */
  function GetLogPath(env: map<string, string>, cal: Calendar, date: Time): Result<string, PathError>
  {
    match DataDir(env)
    case Err(e) => Err(e)
    case Ok(base) => Ok(Join(Join(base, "logs"), LogFileName(MonthOf(cal, date))))
  }

  /** `GetLogDir`: `<data dir>/logs`. */
  function GetLogDir(env: map<string, string>): Result<string, PathError>
  {
    match DataDir(env)
    case Err(e) => Err(e)
    case Ok(base) => Ok(Join(base, "logs"))
  }

  /** `GetLogPath` spelled out: the partition file sits in `logs` under the
      directory of `$FLOW_LOG_PATH`, else under `$XDG_DATA_HOME/flow`, else
      under `~/.local/share/flow`, and it fails only without a home. */
  lemma GetLogPathLayout(env: map<string, string>, cal: Calendar, date: Time)
    ensures var explicit, xdg, home := Getenv(env, "FLOW_LOG_PATH"), Getenv(env, "XDG_DATA_HOME"), Getenv(env, "HOME");
      var tail := "/logs/" + LogFileName(MonthOf(cal, date));
      && (explicit != "" ==> GetLogPath(env, cal, date) == Ok(Dir(explicit) + tail))
      && (explicit == "" && xdg != "" ==> GetLogPath(env, cal, date) == Ok(xdg + "/flow" + tail))
      && (explicit == "" && xdg == "" && home != "" ==> GetLogPath(env, cal, date) == Ok(home + "/.local/share/flow" + tail))
      && (explicit == "" && xdg == "" && home == "" ==> GetLogPath(env, cal, date) == Err(NoHomeDir))
  {
    var name := LogFileName(MonthOf(cal, date));
    var explicit, xdg, home := Getenv(env, "FLOW_LOG_PATH"), Getenv(env, "XDG_DATA_HOME"), Getenv(env, "HOME");
    if explicit == "" && xdg == "" && home != "" {
      var base := home + "/.local/share/flow";
      LocalShareUnder(home);
      assert home + "/.local/share" + "/" + "flow" == base;
      assert DataDir(env) == Ok(base);
      LogsUnder(base, name);
    } else if explicit == "" && xdg != "" {
      assert xdg + "/" + "flow" == xdg + "/flow";
      assert DataDir(env) == Ok(xdg + "/flow");
      LogsUnder(xdg + "/flow", name);
    } else if explicit != "" {
      LogsUnder(Dir(explicit), name);
    }
  }

  lemma LogsUnder(base: string, name: string)
    requires base != "" && name != ""
    ensures Join(Join(base, "logs"), name) == base + ("/logs/" + name)
  {
    assert base + "/" + "logs" + "/" + name == base + ("/" + "logs" + "/" + name);
    assert "/" + "logs" + "/" + name == "/logs/" + name;
  }

  /** The partition directory is exactly the directory of every partition
      path, so reading `GetLogDir` sees what `GetLogPath` wrote. */
  lemma LogDirHoldsLogPath(env: map<string, string>, cal: Calendar, date: Time)
    ensures GetLogPath(env, cal, date).Ok? <==> GetLogDir(env).Ok?
    ensures GetLogPath(env, cal, date).Ok? ==> Dir(GetLogPath(env, cal, date).value) == GetLogDir(env).value
  {
    if DataDir(env).Ok? {
      var name := LogFileName(MonthOf(cal, date));
      assert '/' !in name by {
        forall i | 0 <= i < |name| ensures name[i] != '/' {
          if i >= 6 { assert name[i] == LogSuffix[i - 6]; }
        }
      }
      DirOfJoin(Join(DataDir(env).value, "logs"), name);
    }
  }

  /** `filepath.Glob` with the pattern `*_sessions.jsonl` matches a name in the
      directory exactly when it ends in the suffix. */
  predicate IsLogFile(name: string)
  {
    |name| >= |LogSuffix| && name[|name| - |LogSuffix|..] == LogSuffix
  }

  /** `time.Parse("200601", name[:6])` on a file name: four digits of year
      and two of month (01 to 12); a name shorter than six characters, or
      any other prefix, does not parse. */
  function ParsePrefix(name: string): (r: Option<MonthKey>)
    ensures r.Some? ==> |name| >= 6 && AllDigits(name[..6]) && r.value == DigitsValue(name[..6])
  {
    if |name| < 6 || !AllDigits(name[..6]) then None
    else
      var year := DigitsValue(name[..4]);
      var month := DigitsValue(name[4..6]);
      assert DigitsValue(name[..6]) == year * 100 + month by {
        assert name[..6] == name[..4] + name[4..6];
        DigitsConcat(name[..4], name[4..6]);
      }
      if 1 <= month <= 12 then Some(year * 100 + month) else None
  }

  /** A log-file name that is exactly six digits of a valid month and the
      suffix: the only names `LogSession` ever creates. */
  predicate CanonicalLogName(f: string)
  {
    |f| == 6 + |LogSuffix| && IsLogFile(f) && ParsePrefix(f).Some?
  }

  /** Canonical names sort, as strings, in the order of their months. */
  lemma CanonicalOrder(a: string, b: string)
    requires CanonicalLogName(a) && CanonicalLogName(b) && LexLess(a, b)
    ensures ParsePrefix(a).value < ParsePrefix(b).value
  {
    var va, vb := ParsePrefix(a).value, ParsePrefix(b).value;
    assert a == a[..6] + LogSuffix && b == b[..6] + LogSuffix;
    DigitsPad(a[..6]);
    DigitsPad(b[..6]);
    if va == vb {
      LexIrreflexive(a);
    } else if vb < va {
      PadMonotone(vb, va, 6);
      LexAppend(b[..6], a[..6], LogSuffix, LogSuffix);
      LexAsymmetric(a, b);
    }
  }

  /** Every partition name is a log file and parses back to its month. */
  lemma ParseLogFileName(k: MonthKey)
    ensures IsLogFile(LogFileName(k)) && CanonicalLogName(LogFileName(k))
    ensures ParsePrefix(LogFileName(k)) == Some(k)
  {
    var name := LogFileName(k);
    assert name[|name| - |LogSuffix|..] == LogSuffix;
    assert name[..6] == YearMonth(k);
    assert name[..4] == Pad(k / 100, 4);
    assert name[4..6] == Pad(k % 100, 2);
    PadValue(k / 100, 4);
    PadValue(k % 100, 2);
  }

  /** Partition names sort, as strings, in month order. */
  lemma LogFileNameOrder(a: MonthKey, b: MonthKey)
    requires a < b
    ensures LexLess(LogFileName(a), LogFileName(b))
  {
    var ya, yb, ma, mb := Pad(a / 100, 4), Pad(b / 100, 4), Pad(a % 100, 2), Pad(b % 100, 2);
    assert LogFileName(a) == ya + (ma + LogSuffix);
    assert LogFileName(b) == yb + (mb + LogSuffix);
    if a / 100 < b / 100 {
      PadMonotone(a / 100, b / 100, 4);
      LexAppend(ya, yb, ma + LogSuffix, mb + LogSuffix);
    } else {
      PadMonotone(a % 100, b % 100, 2);
      LexAppend(ma, mb, LogSuffix, LogSuffix);
      LexCommonPrefix(ya, ma + LogSuffix, mb + LogSuffix);
    }
  }

  /** Two months never share a partition. */
  lemma LogFileNameInjective(a: MonthKey, b: MonthKey)
    requires a != b
    ensures LogFileName(a) != LogFileName(b)
  {
    ParseLogFileName(a);
    ParseLogFileName(b);
  }
}
