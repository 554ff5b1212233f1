/** The rolling log engine as the program has it: an object that updates its lists and byte counts
    and takes them back when the file cannot be written. */
module RollingLog {
  import opened Wrappers
  import opened Text
  import opened LogFormat
  import opened RollingLogSpec

  /** The files a rolling log writes: its live file, replaced whole or not at all, and the batches
      of summaries appended to its archive. */
  class Disk {
    var live: Option<string>
    var archive: seq<seq<string>>

    constructor ()
      ensures live == None && archive == []
    {
      live, archive := None, [];
    }
  }

  class RollingLog {
    const disk: Disk
    const compactionThreshold: nat
    const summaryBudget: nat
    var summaries: seq<string>
    var rawTail: seq<string>
    var summariesByteCount: nat
    var rawTailByteCount: nat

    /** Both byte counters are exact. */
    ghost predicate Valid()
      reads this
    {
      summariesByteCount == TotalLength(summaries) && rawTailByteCount == TotalLength(rawTail)
    }

    ghost function State(): Log
      reads this, disk
    {
      Log(summaries, rawTail, disk.live)
    }

    /** `NewRollingLog`, once the file has been read: any content will do. */
    constructor (disk: Disk, compactionThreshold: nat, summaryBudget: nat)
      ensures Valid() && this.disk == disk && State() == Open(disk.live)
      ensures this.compactionThreshold == compactionThreshold && this.summaryBudget == summaryBudget
    {
      hide ParseFile, TotalLength;
      this.disk := disk;
      this.compactionThreshold := compactionThreshold;
      this.summaryBudget := summaryBudget;
      this.summaries, this.rawTail := [], [];
      this.summariesByteCount, this.rawTailByteCount := 0, 0;
      new;
      if disk.live.Some? {
        summaries, rawTail := ParseRollingLogFile(disk.live.value);
      }
      summariesByteCount := Sum(summaries);
      rawTailByteCount := Sum(rawTail);
    }

    /** `recalcSummariesSize`, `recalcRawSize`. */
    static method Sum(parts: seq<string>) returns (total: nat)
      ensures total == TotalLength(parts)
    {
      total := 0;
      for i := 0 to |parts|
        invariant total == TotalLength(parts[..i])
      {
        assert parts[..i + 1] == parts[..i] + [parts[i]];
        TotalLengthConcat(parts[..i], [parts[i]]);
        total := total + |parts[i]|;
      }
      assert parts[..|parts|] == parts;
    }

    static method WriteSection(b0: string, parts: seq<string>, sep: string) returns (b: string)
      ensures b == b0 + Section(parts, sep)
    {
      b := b0 + "\n\n";
      if |parts| > 0 {
        b := b + Join(parts, sep);
        b := b + "\n";
      }
      b := b + "\n";
    }

    /** `persistToFile`: `diskOk` says whether the replacement of the file goes through. */
    method PersistToFile(diskOk: bool) returns (ok: bool)
      modifies disk`live
      ensures ok == diskOk
      ensures disk.live == if diskOk then Some(Print(summaries, rawTail)) else old(disk.live)
    {
      hide Section;
      var b := WriteSection(SUMMARIES_OPEN, summaries, SUMMARY_JOIN);
      b := b + SUMMARIES_CLOSE + "\n" + RAW_OPEN;
      b := WriteSection(b, rawTail, RAW_JOIN);
      b := b + RAW_CLOSE + "\n";
      if diskOk {
        disk.live := Some(b);
      }
      ok := diskOk;
    }

    method AppendRaw(text: string, diskOk: bool) returns (r: Outcome)
      requires Valid()
      modifies this, disk`live
      ensures Valid() && (State(), r) == AfterAppendRaw(old(State()), text, diskOk)
    {
      hide Print, Contains, HasDelimiters, Trim;
      var t := Trim(text, NEWLINES);
      if t == "" { return Ignored; }
      if Contains(t, RAW_JOIN) || HasDelimiters(t) { return Rejected; }
      var origRawTail, origSize := rawTail, rawTailByteCount;
      TotalLengthConcat(rawTail, [t]);
      rawTail := rawTail + [t];
      rawTailByteCount := rawTailByteCount + |t|;
      var ok := PersistToFile(diskOk);
      if !ok {
        rawTail, rawTailByteCount := origRawTail, origSize;
        return WriteFailed;
      }
      r := Stored;
    }

    method AppendSummary(text: string, diskOk: bool) returns (r: Outcome)
      requires Valid()
      modifies this, disk`live
      ensures Valid() && (State(), r) == AfterAppendSummary(old(State()), text, diskOk)
    {
      hide Print, Contains, HasDelimiters, Trim;
      var t := Trim(text, NEWLINES);
      if t == "" { return Ignored; }
      if !HasPrefix(t, HEADER) || Contains(t, SUMMARY_SPLIT) || HasDelimiters(t) { return Rejected; }
      var origSummaries, origSize := summaries, summariesByteCount;
      TotalLengthConcat(summaries, [t]);
      summaries := summaries + [t];
      summariesByteCount := summariesByteCount + |t|;
      var ok := PersistToFile(diskOk);
      if !ok {
        summaries, summariesByteCount := origSummaries, origSize;
        return WriteFailed;
      }
      r := Stored;
    }

    method ShouldCompact() returns (b: bool)
      requires Valid()
      ensures b <==> TotalLength(rawTail) > compactionThreshold
    {
      b := rawTailByteCount > compactionThreshold;
    }

    method RawTailSize() returns (size: nat)
      requires Valid()
      ensures size == TotalLength(rawTail)
    {
      size := rawTailByteCount;
    }

    method ShouldArchive() returns (b: bool)
      requires Valid()
      ensures b <==> TotalLength(summaries) > summaryBudget
    {
      b := summariesByteCount > summaryBudget;
    }

    method OlderHalf(diskOk: bool) returns (text: string, r: Outcome)
      requires Valid()
      modifies this, disk`live
      ensures Valid() && (State(), text, r) == AfterOlderHalf(old(State()), diskOk)
    {
      hide Print;
      if |rawTail| == 0 { return "", Ignored; }
      var mid := |rawTail| / 2;
      if mid == 0 {
        mid := 1;
      }
      text := Join(rawTail[..mid], SUMMARY_JOIN);
      var origRawTail, origRawSize := rawTail, rawTailByteCount;
      rawTail := rawTail[mid..];
      rawTailByteCount := Sum(rawTail);
      var ok := PersistToFile(diskOk);
      if !ok {
        rawTail, rawTailByteCount := origRawTail, origRawSize;
        return "", WriteFailed;
      }
      r := Stored;
    }

    /** The summaries to archive: the shortest prefix that brings the rest within budget. */
    method OlderSummaries() returns (older: seq<string>)
      requires Valid()
      ensures older == summaries[..OverBudget(summaries, summaryBudget)]
    {
      if |summaries| == 0 { return []; }
      var remaining := summariesByteCount;
      var splitIdx := 0;
      assert summaries[0..] == summaries;
      while splitIdx < |summaries| && remaining > summaryBudget
        invariant splitIdx <= |summaries|
        invariant remaining == TotalLength(summaries[splitIdx..])
        invariant forall k :: 0 <= k < splitIdx ==> TotalLength(summaries[k..]) > summaryBudget
      {
        TotalLengthDrop(summaries, splitIdx);
        remaining := remaining - |summaries[splitIdx]|;
        splitIdx := splitIdx + 1;
      }
      OverBudgetIsLeast(summaries, summaryBudget);
      var n := OverBudget(summaries, summaryBudget);
      assert TotalLength(summaries[n..]) <= summaryBudget;
      if splitIdx == 0 { return []; }
      older := summaries[..splitIdx];
    }

    method CommitArchival(n: int, diskOk: bool) returns (r: Outcome)
      requires Valid()
      modifies this, disk`live
      ensures Valid() && (State(), r) == AfterCommitArchival(old(State()), n, diskOk)
      ensures r == Stored && n == OverBudget(old(summaries), summaryBudget) ==> TotalLength(summaries) <= summaryBudget
    {
      hide Print;
      if n <= 0 { return Ignored; }
      if n > |summaries| { return Rejected; }
      var origSummaries, origSize := summaries, summariesByteCount;
      OverBudgetIsLeast(summaries, summaryBudget);
      summaries := summaries[n..];
      summariesByteCount := Sum(summaries);
      var ok := PersistToFile(diskOk);
      if !ok {
        summaries, summariesByteCount := origSummaries, origSize;
        return WriteFailed;
      }
      r := Stored;
    }

    /** `Archive`: one batch appended to the archive; a write that reports an error may still have
        reached the file. */
    method Archive(older: seq<string>, write: ArchiveWrite) returns (ok: bool)
      modifies disk`archive
      ensures ok == (older == [] || write == Archived)
      ensures disk.archive == old(disk.archive) + (if older == [] || write == NotArchived then [] else [older])
    {
      if |older| == 0 { return true; }
      if write != NotArchived {
        disk.archive := disk.archive + [older];
      }
      ok := write == Archived;
    }

    /** `GetContext`: the aligned end of the joined summaries, and the whole raw tail. */
    method GetContext() returns (context: string, raw: string)
      ensures AlignedEnd(Join(summaries, "\n\n"), summaryBudget, context)
      ensures raw == Join(rawTail, "\n\n")
    {
      hide AlignedEnd;
      AlignedAtParagraph(Join(summaries, SUMMARY_JOIN), summaryBudget);
      raw := Join(rawTail, SUMMARY_JOIN);
      if |summaries| == 0 {
        assert ""[0..] == "";
        return "", raw;
      }
      var combined := Join(summaries, SUMMARY_JOIN);
      assert combined[0..] == combined;
      if |combined| <= summaryBudget { return combined, raw; }
      var cutPoint := |combined| - summaryBudget;
      var searchRegion := combined[..cutPoint];
      var idx := LastIndex(searchRegion, "\n\n###");
      if idx >= 0 { return combined[idx + 2..], raw; }
      idx := LastIndex(searchRegion, "\n\n");
      if idx >= 0 { return combined[idx + 2..], raw; }
      context := combined[cutPoint..];
    }
  }
}
