/** The rolling log as a value: its two lists and its live file, and what each operation does to
    them.  A failed write leaves all three as they were. */
module RollingLogSpec {
  import opened Wrappers
  import opened Text
  import opened LogFormat

  datatype Log = Log(summaries: seq<string>, rawTail: seq<string>, file: Option<string>)

  /** `Ignored` is the silent success on text that is empty once trimmed. */
  datatype Outcome = Stored | Ignored | Rejected | WriteFailed

  /** An archive write that fails may still have reached the file. */
  datatype ArchiveWrite = Archived | NotArchived | ArchivedWithError

  /** What `loadFromFile` finds; a missing file is an empty log. */
  function ReadLists(file: Option<string>): (seq<string>, seq<string>) {
    match file
    case None => ([], [])
    case Some(content) => ParseFile(content)
  }

  /** `NewRollingLog` on this live file. */
  function Open(file: Option<string>): Log {
    var (summaries, raw) := ReadLists(file);
    Log(summaries, raw, file)
  }

  function Persist(log: Log): Log {
    log.(file := Some(Print(log.summaries, log.rawTail)))
  }

  function AfterAppendRaw(log: Log, text: string, diskOk: bool): (Log, Outcome) {
    var t := Trim(text, NEWLINES);
    if t == "" then (log, Ignored)
    else if Contains(t, RAW_JOIN) || HasDelimiters(t) then (log, Rejected)
    else if !diskOk then (log, WriteFailed)
    else (Persist(log.(rawTail := log.rawTail + [t])), Stored)
  }

  function AfterAppendSummary(log: Log, text: string, diskOk: bool): (Log, Outcome) {
    var t := Trim(text, NEWLINES);
    if t == "" then (log, Ignored)
    else if !HasPrefix(t, HEADER) || Contains(t, SUMMARY_SPLIT) || HasDelimiters(t) then (log, Rejected)
    else if !diskOk then (log, WriteFailed)
    else (Persist(log.(summaries := log.summaries + [t])), Stored)
  }

  /** The number of entries OlderHalf takes away. */
  function HalfCount(n: nat): (mid: nat)
    ensures if n <= 1 then mid == n else 2 * mid <= n < 2 * mid + 2
  {
    if n == 0 then 0 else if n / 2 == 0 then 1 else n / 2
  }

  /** The text handed out is empty when there is nothing to hand out or the write failed. */
  function AfterOlderHalf(log: Log, diskOk: bool): (Log, string, Outcome) {
    var mid := HalfCount(|log.rawTail|);
    if mid == 0 then (log, "", Ignored)
    else if !diskOk then (log, "", WriteFailed)
    else (Persist(log.(rawTail := log.rawTail[mid..])), Join(log.rawTail[..mid], SUMMARY_JOIN), Stored)
  }

  /** How many of the oldest summaries must go before the rest fits the budget. */
  function OverBudget(summaries: seq<string>, budget: nat): (k: nat)
    ensures k <= |summaries|
  {
    if summaries == [] || TotalLength(summaries) <= budget then 0
    else 1 + OverBudget(summaries[1..], budget)
  }

  function AfterCommitArchival(log: Log, n: int, diskOk: bool): (Log, Outcome) {
    if n <= 0 then (log, Ignored)
    else if n > |log.summaries| then (log, Rejected)
    else if !diskOk then (log, WriteFailed)
    else (Persist(log.(summaries := log.summaries[n..])), Stored)
  }

  /** The text AppendRaw takes: something is left of it, with no triple newline and no tag inside. */
  predicate TakesRaw(t: string) {
    t != "" && !Contains(t, "\n\n\n") && !HasDelimiters(t)
  }

  /** The text AppendSummary takes: its own header, no further one after a blank line, and no tag. */
  predicate TakesSummary(t: string) {
    HasPrefix(t, "### ") && !Contains(t, "\n\n### ") && !HasDelimiters(t)
  }

  /** An entry is stored exactly when it is taken and the write goes through; then it stands trimmed
      at the end of its list, and the file is the printed lists.  Otherwise nothing changes. */
  lemma AppendsExactly(log: Log, text: string, diskOk: bool)
    ensures var t := Trim(text, {'\n'});
            var (raw, r) := AfterAppendRaw(log, text, diskOk);
            && (r == Stored <==> TakesRaw(t) && diskOk) && (r == Ignored <==> t == "")
            && (r == WriteFailed <==> TakesRaw(t) && !diskOk)
            && (if r == Stored then raw.rawTail == log.rawTail + [t] && raw.summaries == log.summaries
                                    && raw.file == Some(Print(raw.summaries, raw.rawTail))
                else raw == log)
    ensures var t := Trim(text, {'\n'});
            var (summarized, r) := AfterAppendSummary(log, text, diskOk);
            && (r == Stored <==> TakesSummary(t) && diskOk) && (r == Ignored <==> t == "")
            && (r == WriteFailed <==> TakesSummary(t) && !diskOk)
            && (if r == Stored then summarized.summaries == log.summaries + [t] && summarized.rawTail == log.rawTail
                                    && summarized.file == Some(Print(summarized.summaries, summarized.rawTail))
                else summarized == log)
  {
    hide Contains, HasDelimiters, Trim, Print;
  }

  /** Entries hold their own text, so the older half of a tail of them never joins to nothing. */
  lemma {:induction false} JoinedText(parts: seq<string>, sep: string)
    requires parts != [] && parts[0] != ""
    ensures Join(parts, sep) != ""
  {}

  /** With any entries there, the older half is taken exactly when the write goes through: the first
      half of them, rounded down but one at least, is handed out joined by blank lines, and the file
      holds the rest. */
  lemma HalvesExactly(log: Log, diskOk: bool)
    requires forall k :: 0 <= k < |log.rawTail| ==> log.rawTail[k] != ""
    ensures var n := |log.rawTail|;
            var h := if n == 1 then 1 else n / 2;
            var (rest, text, r) := AfterOlderHalf(log, diskOk);
            && h <= n && (r == Stored <==> n > 0 && diskOk) && (text != "" <==> r == Stored)
            && (if r == Stored then text == Join(log.rawTail[..h], "\n\n") && rest.rawTail == log.rawTail[h..]
                                    && rest.summaries == log.summaries && rest.file == Some(Print(rest.summaries, rest.rawTail))
                else rest == log)
  {
    hide Print;
    var n := |log.rawTail|;
    var h := if n == 1 then 1 else n / 2;
    if n > 0 { JoinedText(log.rawTail[..h], "\n\n"); }
  }

  /** An operation that writes leaves a file there; one that does not leaves things as they were. */
  lemma FileOnlyGrows(log: Log, text: string, n: int, diskOk: bool)
    ensures var log' := AfterAppendRaw(log, text, diskOk).0; log'.file.Some? || log'.file == log.file
    ensures var log' := AfterAppendSummary(log, text, diskOk).0; log'.file.Some? || log'.file == log.file
    ensures var log' := AfterOlderHalf(log, diskOk).0; log'.file.Some? || log'.file == log.file
    ensures var log' := AfterCommitArchival(log, n, diskOk).0; log'.file.Some? || log'.file == log.file
  {
    hide Contains, HasDelimiters, HasPrefix, Trim, Print, Join;
  }

  lemma RefusedChangesNothing(log: Log, text: string, diskOk: bool)
    ensures var (log', r) := AfterAppendSummary(log, text, diskOk);
            r == Rejected || r == WriteFailed ==> log' == log
  {
    hide Contains, HasDelimiters, HasPrefix, Trim, Print;
  }

  // ---------------------------------------------------------------- archival split

  lemma {:induction false} TotalLengthDrop(parts: seq<string>, k: nat)
    requires k <= |parts|
    ensures TotalLength(parts[k..]) <= TotalLength(parts)
    ensures k < |parts| ==> TotalLength(parts[k..]) == |parts[k]| + TotalLength(parts[k + 1..])
  {
    if k > 0 {
      TotalLengthDrop(parts[1..], k - 1);
      assert parts[1..][k - 1..] == parts[k..];
      if k < |parts| { assert parts[1..][k..] == parts[k + 1..]; }
    }
  }

  /** OverBudget is the shortest prefix whose removal fits the budget, so committing that many
      leaves nothing to archive. */
  lemma {:induction false} OverBudgetIsLeast(summaries: seq<string>, budget: nat)
    ensures TotalLength(summaries[OverBudget(summaries, budget)..]) <= budget
    ensures forall k :: 0 <= k < OverBudget(summaries, budget) ==> TotalLength(summaries[k..]) > budget
  {
    if OverBudget(summaries, budget) == 0 {
      assert summaries[0..] == summaries;
    } else {
      OverBudgetIsLeast(summaries[1..], budget);
      var n := OverBudget(summaries, budget);
      assert summaries[1..][n - 1..] == summaries[n..];
      forall k | 0 <= k < n ensures TotalLength(summaries[k..]) > budget {
        if k == 0 {
          assert summaries[0..] == summaries;
        } else {
          assert summaries[1..][k - 1..] == summaries[k..];
        }
      }
    }
  }

  // ---------------------------------------------------------------- the file mirrors the lists

  /** The lists hold accepted entries only, and the live file reads back as those lists, up to what
      one reload settles. */
  predicate Durable(log: Log) {
    && SummaryEntries(log.summaries) && RawEntries(log.rawTail)
    && ReadLists(log.file) == (Reloaded(log.summaries), log.rawTail)
  }

  lemma PersistIsDurable(log: Log)
    requires SummaryEntries(log.summaries) && RawEntries(log.rawTail)
    ensures Durable(Persist(log))
  {
    hide SummaryEntry, RawEntry, ParseFile, Print;
    ParsePrinted(log.summaries, log.rawTail);
  }

  lemma StoredEntryIsAccepted(text: string)
    ensures var t := Trim(text, NEWLINES);
            && (t != "" && !Contains(t, RAW_JOIN) && !HasDelimiters(t) ==> RawEntry(t))
            && (HasPrefix(t, HEADER) && !Contains(t, SUMMARY_SPLIT) && !HasDelimiters(t) ==> SummaryEntry(t))
  {
    hide Contains, HasDelimiters, Trim;
  }

  /** Every operation keeps the file a mirror of the lists, whether or not its write succeeds. */
  lemma OperationsKeepDurable(log: Log, text: string, n: int, diskOk: bool)
    requires Durable(log)
    ensures Durable(AfterAppendRaw(log, text, diskOk).0)
    ensures Durable(AfterAppendSummary(log, text, diskOk).0)
    ensures Durable(AfterOlderHalf(log, diskOk).0)
    ensures Durable(AfterCommitArchival(log, n, diskOk).0)
  {
    hide SummaryEntry, RawEntry, ParseFile, Print, Contains, HasDelimiters, Trim, HasPrefix, Join;
    var t := Trim(text, NEWLINES);
    StoredEntryIsAccepted(text);
    if RawEntry(t) {
      PersistIsDurable(log.(rawTail := log.rawTail + [t]));
    }
    if SummaryEntry(t) {
      PersistIsDurable(log.(summaries := log.summaries + [t]));
    }
    PersistIsDurable(log.(rawTail := log.rawTail[HalfCount(|log.rawTail|)..]));
    if 0 < n <= |log.summaries| {
      PersistIsDurable(log.(summaries := log.summaries[n..]));
    }
  }

  /** A crash and restart between operations: the log comes back durable, its raw tail whole, and
      it comes back exactly as it was if and only if its summaries round-trip. */
  lemma Restart(log: Log)
    requires Durable(log)
    ensures Durable(Open(log.file)) && Open(log.file).rawTail == log.rawTail
    ensures RoundTrips(Open(log.file).summaries)
    ensures Open(log.file) == log <==> RoundTrips(log.summaries)
  {
    hide SummaryEntry, RawEntry, ParseFile;
    ReloadSettles(log.summaries);
  }

  /** An operation with the fate of its write, or a crash after which the log is opened again. */
  datatype Op = AppendRaw(text: string, diskOk: bool) | AppendSummary(text: string, diskOk: bool)
              | OlderHalf(diskOk: bool) | CommitArchival(n: int, diskOk: bool) | Reopen

  function Apply(log: Log, op: Op): Log {
    match op
    case AppendRaw(text, diskOk) => AfterAppendRaw(log, text, diskOk).0
    case AppendSummary(text, diskOk) => AfterAppendSummary(log, text, diskOk).0
    case OlderHalf(diskOk) => AfterOlderHalf(log, diskOk).0
    case CommitArchival(n, diskOk) => AfterCommitArchival(log, n, diskOk).0
    case Reopen => Open(log.file)
  }

  function ApplyAll(log: Log, ops: seq<Op>): Log {
    if ops == [] then log else Apply(ApplyAll(log, ops[..|ops| - 1]), ops[|ops| - 1])
  }

  lemma NewIsDurable()
    ensures Durable(Open(None))
  {
    assert Reloaded([]) == [];
  }

  /** In every state any run reaches from a new log, with writes failing and crashes anywhere, the
      lists hold accepted entries and the file reads back as them; so one more crash loses no raw
      entry, and changes nothing at all exactly when the summaries round-trip. */
  lemma {:induction false} EveryRunIsDurable(ops: seq<Op>)
    ensures var log := ApplyAll(Open(None), ops);
            && Durable(log)
            && Open(log.file).rawTail == log.rawTail
            && (Open(log.file) == log <==> RoundTrips(log.summaries))
  {
    hide Durable, Open, AfterAppendRaw, AfterAppendSummary, AfterOlderHalf, AfterCommitArchival, RoundTrips;
    if ops == [] {
      NewIsDurable();
    } else {
      var before, op := ApplyAll(Open(None), ops[..|ops| - 1]), ops[|ops| - 1];
      EveryRunIsDurable(ops[..|ops| - 1]);
      Restart(before);
      match op
      case AppendRaw(text, diskOk) => OperationsKeepDurable(before, text, 0, diskOk);
      case AppendSummary(text, diskOk) => OperationsKeepDurable(before, text, 0, diskOk);
      case OlderHalf(diskOk) => OperationsKeepDurable(before, "", 0, diskOk);
      case CommitArchival(n, diskOk) => OperationsKeepDurable(before, "", n, diskOk);
      case Reopen =>
    }
    Restart(ApplyAll(Open(None), ops));
  }

  // ---------------------------------------------------------------- context for prompts

  /** Where `paragraphAlignedSummaries` starts reading the joined summaries. */
  function AlignedStart(combined: string, budget: nat): (start: nat)
    ensures start <= |combined|
  {
    if |combined| <= budget then 0 else
      var region := combined[..|combined| - budget];
      var h := LastIndex(region, "\n\n###");
      if h >= 0 then h + 2 else
        var p := LastIndex(region, "\n\n");
        if p >= 0 then p + 2 else |region|
  }

  /** What a prompt gets of the joined summaries, whatever way it is found: all of them when they fit
      the budget; otherwise an end of them no shorter than the budget, which starts right after the last
      blank line before the cut (after the last one followed by "###", if there is one) and at the cut
      itself only when no blank line comes before. */
  ghost predicate AlignedEnd(combined: string, budget: nat, context: string) {
    && |context| <= |combined| && context == combined[|combined| - |context|..]
    && (|combined| <= budget ==> context == combined)
    && (|combined| > budget ==>
          && |context| >= budget
          && var start, region := |combined| - |context|, combined[..|combined| - budget];
             if Contains(region, "\n\n###") then LastBreak(combined, region, "\n\n###", start)
             else if Contains(region, "\n\n") then LastBreak(combined, region, "\n\n", start)
             else start == |region|)
  }

  /** The last `mark` in the region stands where the start's blank line is. */
  ghost predicate LastBreak(combined: string, region: string, mark: string, start: int) {
    OccursAt(combined, mark, start - 2) && forall i :: start - 2 < i ==> !OccursAt(region, mark, i)
  }

  lemma AlignedAtParagraph(combined: string, budget: nat)
    ensures AlignedEnd(combined, budget, combined[AlignedStart(combined, budget)..])
  {
    hide LastIndex, OccursAt;
    if |combined| > budget {
      var cut := |combined| - budget;
      var region := combined[..cut];
      var h, p := LastIndex(region, "\n\n###"), LastIndex(region, "\n\n");
      OccursInside(region, "\n\n###", h);
      OccursInside(region, "\n\n", p);
      if h >= 0 { RegionOccurs(combined, cut, "\n\n###", h); } else if p >= 0 { RegionOccurs(combined, cut, "\n\n", p); }
    } else {
      assert combined[0..] == combined;
    }
  }

  lemma OccursInside(s: string, sub: string, i: int)
    ensures OccursAt(s, sub, i) ==> 0 <= i <= |s| - |sub|
  {}

  lemma RegionOccurs(s: string, cut: nat, sub: string, i: int)
    requires cut <= |s| && OccursAt(s[..cut], sub, i)
    ensures OccursAt(s, sub, i)
  {
    assert s[i..i + |sub|] == s[..cut][i..i + |sub|];
  }
}
