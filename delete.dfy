/** `DeleteLogEntry` (core/delete.go): rewrite the one month partition the
    entry belongs to without the lines that match it. */
module Deletion {
  import opened Wrappers
  import opened Clock
  import opened Text
  import opened Records
  import opened Paths
  import opened LogFiles
  import opened Sorting
  import opened SessionStore

  datatype DeleteError = PathFailed(cause: PathError) | NoPartition | IoFailed | NotFound

  /** The identity `DeleteLogEntry` matches on: same start instant and tag;
      end time and duration play no part. */
  predicate IsMatch(e: LogEntry, target: LogEntry)
  {
    e.startTime == target.startTime && e.tag == target.tag
  }

  /** Whether the scanner loop copies `line`: it decodes and does not
      match. A line that does not decode, blank or not, is dropped. */
  predicate KeepsLine(c: Codec, target: LogEntry, line: string)
  {
    c.decode(line).Some? && !IsMatch(c.decode(line).value, target)
  }

  /** `KeepsLine` and `IsMatch` as the tests handed to `Keep`. */
  function KeptBy(c: Codec, target: LogEntry): string -> bool
  {
    line => KeepsLine(c, target, line)
  }

  function Unmatched(target: LogEntry): LogEntry -> bool
  {
    e => !IsMatch(e, target)
  }

  function Matched(target: LogEntry): LogEntry -> bool
  {
    e => IsMatch(e, target)
  }

  /** Whether the scanner loop sets `found` on `line`. */
  predicate MatchesLine(c: Codec, target: LogEntry, line: string)
  {
    c.decode(line).Some? && IsMatch(c.decode(line).value, target)
  }

  /** The scanner loop over one partition: the lines copied to the temp
      file, verbatim and in order, and whether any line matched. */
  method FilterLines(c: Codec, lines: seq<string>, target: LogEntry) returns (kept: seq<string>, found: bool)
    ensures kept == Keep(lines, KeptBy(c, target))
    ensures found <==> exists i :: 0 <= i < |lines| && MatchesLine(c, target, lines[i])
  {
    ghost var keeps := KeptBy(c, target);
    kept, found := [], false;
    var i := 0;
    while i < |lines|
      invariant 0 <= i <= |lines|
      invariant kept == Keep(lines[..i], keeps)
      invariant found <==> exists j :: 0 <= j < i && MatchesLine(c, target, lines[j])
    {
      var line := lines[i];
      assert lines[..i + 1][..i] == lines[..i];
      var decoded := c.decode(line);
      if decoded.Some? {
        if decoded.value.startTime == target.startTime && decoded.value.tag == target.tag {
          found := true;
        } else {
          kept := kept + [line];
        }
      }
      i := i + 1;
    }
    assert lines[..i] == lines;
  }

  /** `DeleteLogEntry`: only the partition of the target's end month is
      read. A missing partition, a path error or a failed file-system call
      (`ioOk` false) changes nothing; with no matching line the answer is
      "log entry not found" and nothing changes; otherwise the partition is
      replaced, in one step, by the lines that decode and do not match. */
  method DeleteLogEntry(store: Store, env: map<string, string>, target: LogEntry, ioOk: bool)
    returns (r: Result<(), DeleteError>)
    modifies store`logs
    ensures GetLogPath(env, store.cal, target.endTime).Err? ==>
      r == Err(PathFailed(GetLogPath(env, store.cal, target.endTime).error)) && store.logs == old(store.logs)
    ensures GetLogPath(env, store.cal, target.endTime).Ok? ==>
      var name := PartitionOf(store.cal, target);
      && (name !in old(store.logs) ==> r == Err(NoPartition) && store.logs == old(store.logs))
      && (name in old(store.logs) && !ioOk ==> r == Err(IoFailed) && store.logs == old(store.logs))
      && (name in old(store.logs) && ioOk ==>
            var lines := old(store.logs)[name];
            && (r.Ok? <==> exists i :: 0 <= i < |lines| && MatchesLine(store.codec, target, lines[i]))
            && (r.Ok? ==> store.logs == old(store.logs)[name := Keep(lines, KeptBy(store.codec, target))])
            && (r.Err? ==> r == Err(NotFound) && store.logs == old(store.logs)))
  {
    var path := GetLogPath(env, store.cal, target.endTime);
    if path.Err? {
      return Err(PathFailed(path.error));
    }
    var name := PartitionOf(store.cal, target);
    if name !in store.logs {
      return Err(NoPartition);
    }
    var kept, found := FilterLines(store.codec, store.logs[name], target);
    if !ioOk {
      return Err(IoFailed);
    }
    if !found {
      return Err(NotFound);
    }
    store.logs := store.logs[name := kept];
    r := Ok(());
  }

  /** What the rewritten partition reads back as: exactly the entries of
      the old one that do not match, in order — for the raw reader, and
      for the trimming one too. */
  lemma {:induction false} KeptEntries(c: Codec, lines: seq<string>, target: LogEntry, trim: bool)
    requires LawfulCodec(c)
    ensures ParseLines(c, Keep(lines, KeptBy(c, target)), trim) ==
      Keep(ParseLines(c, lines, false), Unmatched(target))
  {
    var keeps := KeptBy(c, target);
    var other := Unmatched(target);
    if lines != [] {
      var init, last := lines[..|lines| - 1], lines[|lines| - 1];
      var before := ParseLines(c, init, false);
      var got := LineEntry(c, last, false);
      var tail := if keeps(last) then [last] else [];
      var news := if got.Some? && other(got.value) then [got.value] else [];
      assert ParseLines(c, Keep(lines, keeps), trim) == Keep(before, other) + news by {
        assert Keep(lines, keeps) == Keep(init, keeps) + tail;
        ParseLinesAppend(c, Keep(init, keeps), tail, trim);
        KeptEntries(c, init, target, trim);
        KeptLine(c, target, last, trim);
      }
      assert Keep(ParseLines(c, lines, false), other) == Keep(before, other) + news by {
        assert ParseLines(c, lines, false) == before + (if got.Some? then [got.value] else []);
        if got.Some? {
          assert (before + [got.value])[..|before|] == before;
        } else {
          assert before + [] == before;
        }
      }
    }
  }

  /** One line: the trimming or raw reader's view of what the loop copies. */
  lemma KeptLine(c: Codec, target: LogEntry, line: string, trim: bool)
    requires LawfulCodec(c)
    ensures ParseLines(c, if KeepsLine(c, target, line) then [line] else [], trim) ==
      if LineEntry(c, line, false).Some? && !IsMatch(LineEntry(c, line, false).value, target)
      then [LineEntry(c, line, false).value] else []
  {
    if KeepsLine(c, target, line) {
      RawLineTrimmed(c, line);
      assert [line][..0] == [];
      assert ParseLines(c, [line], trim) == [LineEntry(c, line, trim).value];
    } else {
      assert ParseLines(c, [], trim) == [];
    }
  }

  /** After a deletion no entry with the target's start and tag is left. */
  lemma NoMatchRemains(c: Codec, lines: seq<string>, target: LogEntry, trim: bool, e: LogEntry)
    requires LawfulCodec(c)
    requires e in ParseLines(c, Keep(lines, KeptBy(c, target)), trim)
    ensures !IsMatch(e, target)
  {
    KeptEntries(c, lines, target, trim);
  }

  /** Deleting keeps the partition invariant: the rewritten file holds a
      subset of what it held. */
  lemma DeleteKeepsPartition(c: Codec, cal: Calendar, logs: Dir, name: string, target: LogEntry)
    requires LawfulCodec(c) && WellPartitioned(c, cal, logs) && name in logs
    ensures WellPartitioned(c, cal, logs[name := Keep(logs[name], KeptBy(c, target))])
  {
    var kept := Keep(logs[name], KeptBy(c, target));
    if IsLogFile(name) {
      assert GoodPartition(c, cal, name, logs[name]);
      forall e | e in ParseLines(c, kept, true) ensures MonthOf(cal, e.endTime) == ParsePrefix(name).value {
        KeptEntries(c, logs[name], target, true);
        RawEntriesTrimmed(c, logs[name], e);
      }
    }
    WellPartitionedUpdate(c, cal, logs, name, kept);
  }

  /** Every matching duplicate is removed at once: the entries read back
      are as many as before less the number that matched. */
  lemma {:induction false} DeleteCount(s: seq<LogEntry>, target: LogEntry)
    ensures |Keep(s, Unmatched(target))| + |Keep(s, Matched(target))| == |s|
  {
    if s != [] {
      DeleteCount(s[..|s| - 1], target);
    }
  }

  /** One deletion seen by both readers: a partition that reads as `es`
      reads, once rewritten, as the entries of `es` that do not match. */
  lemma DeleteStep(c: Codec, lines: seq<string>, es: seq<LogEntry>, target: LogEntry)
    requires LawfulCodec(c) && ParseLines(c, lines, false) == es
    ensures ParseLines(c, Keep(lines, KeptBy(c, target)), false) == Keep(es, Unmatched(target))
    ensures ParseLines(c, Keep(lines, KeptBy(c, target)), true) == Keep(es, Unmatched(target))
  {
    KeptEntries(c, lines, target, false);
    KeptEntries(c, lines, target, true);
  }

  /** Three entries with distinct identities, removed middle first, then
      first, then last, leave two, one and then no entries. */
  lemma KeepInTurn(e1: LogEntry, e2: LogEntry, e3: LogEntry)
    requires !IsMatch(e2, e1) && !IsMatch(e3, e1) && !IsMatch(e3, e2)
    ensures Keep([e1, e2, e3], Unmatched(e2)) == [e1, e3]
    ensures Keep([e1, e3], Unmatched(e1)) == [e3]
    ensures Keep([e3], Unmatched(e3)) == []
  {
    var p2, p1, p3 := Unmatched(e2), Unmatched(e1), Unmatched(e3);
    assert Keep([e1, e2, e3], p2) == [e1, e3] by {
      assert [e1] == [] + [e1] && [e1, e2] == [e1] + [e2] && [e1, e2, e3] == [e1, e2] + [e3];
      KeepSnoc([], e1, p2);
      KeepSnoc([e1], e2, p2);
      KeepSnoc([e1, e2], e3, p2);
    }
    assert Keep([e1, e3], p1) == [e3] by {
      assert [e1] == [] + [e1] && [e1, e3] == [e1] + [e3];
      KeepSnoc([], e1, p1);
      KeepSnoc([e1], e3, p1);
    }
    assert Keep([e3], p3) == [] by {
      assert [e3] == [] + [e3];
      KeepSnoc([], e3, p3);
    }
  }

  /** Deleting three entries with distinct identities from a partition
      written entry by entry, middle first, then first, then last, leaves
      two, then one, then no entry to read. */
  lemma DeleteInTurn(c: Codec, e1: LogEntry, e2: LogEntry, e3: LogEntry)
    requires LawfulCodec(c)
    requires !IsMatch(e2, e1) && !IsMatch(e3, e1) && !IsMatch(e3, e2)
    ensures var l0 := EncodeAll(c, [e1, e2, e3]);
      var l1 := Keep(l0, KeptBy(c, e2));
      var l2 := Keep(l1, KeptBy(c, e1));
      var l3 := Keep(l2, KeptBy(c, e3));
      && ParseLines(c, l1, true) == [e1, e3]
      && ParseLines(c, l2, true) == [e3]
      && ParseLines(c, l3, true) == []
  {
    var l0 := EncodeAll(c, [e1, e2, e3]);
    var l1 := Keep(l0, KeptBy(c, e2));
    var l2 := Keep(l1, KeptBy(c, e1));
    ParseEncoded(c, [e1, e2, e3], false);
    KeepInTurn(e1, e2, e3);
    DeleteStep(c, l0, [e1, e2, e3], e2);
    DeleteStep(c, l1, [e1, e3], e1);
    DeleteStep(c, l2, [e3], e3);
  }
}
