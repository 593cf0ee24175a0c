/** The month partitions as data: a directory maps each file name to its
    lines. Reading a partition is `ParseLines` (the scanner loop of
    `readSingleFile`), writing one entry is `AppendEntry` (`LogSession`),
    and `WellPartitioned` is the invariant that the write path keeps and
    the newest-first reader relies on. */
module LogFiles {
  import opened Wrappers
  import opened Clock
  import opened Text
  import opened Records
  import opened Paths

  /** The file names of a directory mapped to their lines. */
  type Dir = map<string, seq<string>>

  /** What one scanned line yields. `trim` is the reader of core/log.go,
      which trims white space first; core/list.go decodes the raw line. A
      blank line (after trimming, if any) is skipped without decoding. */
  function LineEntry(c: Codec, line: string, trim: bool): Option<LogEntry>
  {
    var text := if trim then TrimSpace(line) else line;
    if text == "" then None else c.decode(text)
  }

  /** The entries of a file, one per line that yields one, in file order. */
  function ParseLines(c: Codec, lines: seq<string>, trim: bool): (r: seq<LogEntry>)
    ensures |r| <= |lines|
  {
    if lines == [] then []
    else
      ParseLines(c, lines[..|lines| - 1], trim) +
      (match LineEntry(c, lines[|lines| - 1], trim) case Some(e) => [e] case None => [])
  }

  lemma {:induction false} ParseLinesAppend(c: Codec, a: seq<string>, b: seq<string>, trim: bool)
    ensures ParseLines(c, a + b, trim) == ParseLines(c, a, trim) + ParseLines(c, b, trim)
    decreases |b|
  {
    if b != [] {
      var b' := b[..|b| - 1];
      assert (a + b)[..|a + b| - 1] == a + b';
      assert (a + b)[|a + b| - 1] == b[|b| - 1];
      ParseLinesAppend(c, a, b', trim);
    } else {
      assert a + b == a;
    }
  }

  /** Each returned entry is what some line decoded to. */
  lemma {:induction false} ParseLinesOrigin(c: Codec, lines: seq<string>, trim: bool, e: LogEntry)
    requires e in ParseLines(c, lines, trim)
    ensures exists i :: 0 <= i < |lines| && LineEntry(c, lines[i], trim) == Some(e)
  {
    var init := lines[..|lines| - 1];
    if e in ParseLines(c, init, trim) {
      ParseLinesOrigin(c, init, trim, e);
      var i :| 0 <= i < |init| && LineEntry(c, init[i], trim) == Some(e);
      assert lines[i] == init[i];
    } else {
      assert LineEntry(c, lines[|lines| - 1], trim) == Some(e);
    }
  }

  /** A marshalled entry is read back as itself, trimmed or not. */
  lemma EncodedLine(c: Codec, e: LogEntry, trim: bool)
    requires LawfulCodec(c)
    ensures LineEntry(c, c.encode(e), trim) == Some(e)
  {
    TrimTight(c.encode(e));
  }

  /** The lines of a file written entry by entry, one encoding per line. */
  function EncodeAll(c: Codec, es: seq<LogEntry>): (lines: seq<string>)
    ensures |lines| == |es|
    ensures forall i :: 0 <= i < |es| ==> lines[i] == c.encode(es[i])
  {
    if es == [] then [] else EncodeAll(c, es[..|es| - 1]) + [c.encode(es[|es| - 1])]
  }

  /** Reading back a file written entry by entry gives those entries. */
  lemma {:induction false} ParseEncoded(c: Codec, es: seq<LogEntry>, trim: bool)
    requires LawfulCodec(c)
    ensures ParseLines(c, EncodeAll(c, es), trim) == es
  {
    if es != [] {
      var init, last := es[..|es| - 1], es[|es| - 1];
      var lines := EncodeAll(c, es);
      assert lines[..|lines| - 1] == EncodeAll(c, init);
      ParseEncoded(c, init, trim);
      EncodedLine(c, last, trim);
      assert es == init + [last];
    }
  }

  /** A line the raw reader accepts is accepted, as the same entry, by the
      trimming reader. */
  lemma RawLineTrimmed(c: Codec, line: string)
    requires LawfulCodec(c)
    requires LineEntry(c, line, false).Some?
    ensures LineEntry(c, line, true) == LineEntry(c, line, false)
  {
    assert !AllSpace(line);
  }

  lemma {:induction false} RawEntriesTrimmed(c: Codec, lines: seq<string>, e: LogEntry)
    requires LawfulCodec(c)
    requires e in ParseLines(c, lines, false)
    ensures e in ParseLines(c, lines, true)
  {
    var init, last := lines[..|lines| - 1], lines[|lines| - 1];
    if e in ParseLines(c, init, false) {
      RawEntriesTrimmed(c, init, e);
    } else {
      RawLineTrimmed(c, last);
    }
  }

  /** The partition that holds the entries ending in month `k`. */
  function PartitionOf(cal: Calendar, e: LogEntry): string
  {
    LogFileName(MonthOf(cal, e.endTime))
  }

  /** `LogSession` on a directory: one encoded line appended to the entry's
      month partition, which is created when missing. */
  function AppendEntry(c: Codec, cal: Calendar, logs: Dir, e: LogEntry): Dir
  {
    var name := PartitionOf(cal, e);
    logs[name := Get(logs, name, []) + [c.encode(e)]]
  }

  /** Appending writes exactly one new line at the end of the month
      partition, keeps what was there as a prefix, leaves every other file
      alone, and makes the entry readable at the end of that partition. */
  lemma AppendEntryAppends(c: Codec, cal: Calendar, logs: Dir, e: LogEntry, trim: bool)
    requires LawfulCodec(c)
    ensures var name := PartitionOf(cal, e);
      var after := AppendEntry(c, cal, logs, e);
      && after.Keys == logs.Keys + {name}
      && |after[name]| == |Get(logs, name, [])| + 1
      && after[name][..|Get(logs, name, [])|] == Get(logs, name, [])
      && (forall f :: f in logs && f != name ==> after[f] == logs[f])
      && ParseLines(c, after[name], trim) == ParseLines(c, Get(logs, name, []), trim) + [e]
  {
    var name := PartitionOf(cal, e);
    var old_ := Get(logs, name, []);
    var after := AppendEntry(c, cal, logs, e);
    assert after[name][..|after[name]| - 1] == old_;
    EncodedLine(c, e, trim);
  }

  /** File `f` is named canonically after a month, and every
      entry the trimming reader finds in `lines` ends in that month. */
  ghost predicate GoodPartition(c: Codec, cal: Calendar, f: string, lines: seq<string>)
  {
    && CanonicalLogName(f)
    && (forall e :: e in ParseLines(c, lines, true) ==> MonthOf(cal, e.endTime) == ParsePrefix(f).value)
  }

  /** Every log file of the directory is a good partition. */
  ghost predicate WellPartitioned(c: Codec, cal: Calendar, logs: Dir)
  {
    forall f :: f in logs && IsLogFile(f) ==> GoodPartition(c, cal, f, logs[f])
  }

  /** Adding an entry of month `k` to the partition of `k` keeps it good. */
  lemma GoodPartitionGrows(c: Codec, cal: Calendar, k: MonthKey, lines: seq<string>, lines': seq<string>, e: LogEntry)
    requires k == MonthOf(cal, e.endTime)
    requires lines == [] || GoodPartition(c, cal, LogFileName(k), lines)
    requires ParseLines(c, lines', true) == ParseLines(c, lines, true) + [e]
    ensures GoodPartition(c, cal, LogFileName(k), lines')
  {
    ParseLogFileName(k);
    var before := ParseLines(c, lines, true);
    assert lines == [] ==> before == [];
    forall x | x in ParseLines(c, lines', true) ensures MonthOf(cal, x.endTime) == k {
      if x != e { assert x in before; }
    }
  }

  /** Replacing one file by a good partition keeps the invariant. */
  lemma WellPartitionedUpdate(c: Codec, cal: Calendar, logs: Dir, name: string, lines: seq<string>)
    requires WellPartitioned(c, cal, logs)
    requires IsLogFile(name) ==> GoodPartition(c, cal, name, lines)
    ensures WellPartitioned(c, cal, logs[name := lines])
  {
    var after := logs[name := lines];
    forall f | f in after && IsLogFile(f) ensures GoodPartition(c, cal, f, after[f]) {
      if f != name {
        assert f in logs && after[f] == logs[f];
      }
    }
  }

  /** `LogSession` keeps the partition invariant. */
  lemma AppendKeepsPartition(c: Codec, cal: Calendar, logs: Dir, e: LogEntry)
    requires LawfulCodec(c) && WellPartitioned(c, cal, logs)
    ensures WellPartitioned(c, cal, AppendEntry(c, cal, logs, e))
  {
    var k := MonthOf(cal, e.endTime);
    var name := PartitionOf(cal, e);
    var before := Get(logs, name, []);
    var lines := before + [c.encode(e)];
    assert AppendEntry(c, cal, logs, e) == logs[name := lines];
    assert ParseLines(c, lines, true) == ParseLines(c, before, true) + [e] by {
      AppendEntryAppends(c, cal, logs, e, true);
    }
    assert before == [] || GoodPartition(c, cal, LogFileName(k), before) by {
      if name in logs {
        ParseLogFileName(k);
        assert GoodPartition(c, cal, name, logs[name]);
      }
    }
    assert GoodPartition(c, cal, name, lines) by {
      GoodPartitionGrows(c, cal, k, before, lines, e);
    }
    WellPartitionedUpdate(c, cal, logs, name, lines);
  }
}
