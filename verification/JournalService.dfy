/** The journal service as the program has it: tables of rolling log objects, shared between the
    sessions that are active and the requests that outlive them, each on the files of its session.
    A ghost journal goes along, and every field is tied to it. */
module JournalService {
  import opened Wrappers
  import opened Text
  import opened LogFormat
  import opened RollingLogSpec
  import opened RollingLog
  import opened Sanitize
  import opened ConversationLogSpec
  import J = Journal

  /** `rl` is the log the summary must go to, even if its session has been let go of. */
  datatype PendingCompaction = PendingCompaction(session: J.Session, rl: RollingLog, range: Pending)

  // ---------------------------------------------------------------- entries

  function StartEntry(time: string, session: J.Session, command: string, started: string, tool: Option<string>): string {
    time + " [session_start] Session: " + session + ", Command: " + SanitizeForRollingLog(command) + ", Started: " + started
    + (if tool.Some? && tool.value != "" then ", Tool: " + SanitizeForRollingLog(tool.value) else "")
  }

  /** The exit code comes printed in decimal. */
  function StopEntry(time: string, session: J.Session, exitCode: Option<string>, reason: string): string {
    time + " [session_stop] Session: " + session
    + (if exitCode.Some? then ", ExitCode: " + exitCode.value else "")
    + (if reason != "" then ", Reason: " + SanitizeForRollingLog(reason) else "")
  }

  /** Output while the session waits is told as what it waits for. */
  function OutputEntry(time: string, text: string, waitingFor: string): string {
    if waitingFor != "" then time + " [idle] Waiting for: " + SanitizeForRollingLog(waitingFor)
    else time + " [output] " + Truncate(SanitizeForRollingLog(text), |text|)
  }

  function ToolEntry(time: string, previous: string, tool: string): string {
    time + " [tool_change] " + SanitizeForRollingLog(previous) + " -> " + SanitizeForRollingLog(tool)
  }

  /** A line written to the daily log of a session, if the write succeeds. */
  function Noted(logs: map<J.Session, seq<string>>, session: J.Session, line: string, ok: bool): map<J.Session, seq<string>> {
    if ok then logs[session := (if session in logs then logs[session] else []) + [line]] else logs
  }

  // ---------------------------------------------------------------- writing logs in the journal

  lemma WrittenLog(j: J.Journal, n: nat, log: Log)
    requires n < |j.logs| && (log.file.Some? || log.file == J.LogOf(j, n).file)
    ensures |J.WithLog(j, n, log).logs| == |j.logs| && J.LogOf(J.WithLog(j, n, log), n) == log
  {}

  lemma WrittenTwice(j: J.Journal, n: nat, a: Log, b: Log)
    requires n < |j.logs| && (b.file.Some? || b.file == a.file)
    ensures J.WithLog(J.WithLog(j, n, a), n, b) == J.WithLog(j, n, b)
  {}

  lemma ArchivalFile(cfg: Config, log: Log, io: ReplyIO)
    ensures var log' := J.AfterArchival(cfg, log, io); log'.file.Some? || log'.file == log.file
  {
    hide AfterCommitArchival, OverBudget;
    FileOnlyGrows(log, "", OverBudget(log.summaries, cfg.summaryBudget), io.commitOk);
  }

  lemma BlankReply(cfg: Config, log: Log, range: Pending, text: string, io: ReplyIO)
    requires Blank(text)
    ensures J.AfterReply(cfg, log, range, text, io) == log && J.ArchivedBy(cfg, log, range, text, io) == []
  {
    hide Blank;
  }

  /** Taking a request out first or last makes no difference to what is written. */
  lemma PendingDoNotMatter(j: J.Journal, q: J.Request, n: nat, log: Log, session: J.Session, batches: seq<seq<string>>)
    requires n < |j.logs|
    ensures var j' := j.(pending := j.pending - {q});
            var written := J.AddBatches(J.WithLog(j', n, log), session, batches);
            && J.LogOf(j', n) == J.LogOf(j, n)
            && written.(inFlight := written.inFlight - {session}, startedAt := written.startedAt - {session})
               == J.Resolve(J.AddBatches(J.WithLog(j, n, log), session, batches), q, session)
  {}

  lemma LogAdded(j: J.Journal, session: J.Session, log: Log)
    ensures var j' := J.AddLog(j, session, log);
            |j'.logs| == |j.logs| + 1 && (log.file == J.FileOf(j, session) ==> J.LogOf(j', |j.logs|) == log)
  {}

  lemma OpenedFile(file: Option<string>)
    ensures Open(file).file == file
  {
    hide ParseFile;
  }

  lemma RefusedEntry(j: J.Journal, n: nat, entry: string, diskOk: bool)
    requires n < |j.logs|
    ensures var (log, r) := AfterAppendRaw(J.LogOf(j, n), entry, diskOk);
            r == Rejected || r == WriteFailed ==> J.WithLog(j, n, log) == j
  {
    hide Contains, HasDelimiters, Trim, Print;
    SameLogWritten(j, n);
  }

  lemma SameLogWritten(j: J.Journal, n: nat)
    requires n < |j.logs|
    ensures J.WithLog(j, n, J.LogOf(j, n)) == j
  {}

  lemma LogNumberOf(j: J.Journal, n: nat)
    requires n < |j.logs|
    ensures J.LogOf(j, n).summaries == j.logs[n].summaries && J.LogOf(j, n).rawTail == j.logs[n].rawTail
  {}

  lemma BatchesInArchive(j: J.Journal, session: J.Session, batches: seq<seq<string>>)
    ensures var j' := J.AddBatches(j, session, batches);
            && j' == j.(archives := j'.archives)
            && forall s :: J.ArchiveOf(j', s) == if s == session then J.ArchiveOf(j, session) + batches else J.ArchiveOf(j, s)
  {
    assert batches == [] ==> J.ArchiveOf(j, session) + batches == J.ArchiveOf(j, session);
  }

  lemma BatchesAside(j: J.Journal, n: nat, log: Log, session: J.Session, batches: seq<seq<string>>)
    requires n < |j.logs|
    ensures J.LogOf(J.AddBatches(j, session, batches), n) == J.LogOf(j, n)
    ensures J.WithLog(J.AddBatches(j, session, batches), n, log) == J.AddBatches(J.WithLog(j, n, log), session, batches)
  {}

  function Batch(cfg: Config, log: Log, io: ReplyIO): seq<seq<string>> {
    var n := OverBudget(log.summaries, cfg.summaryBudget);
    if n == 0 || io.archive == NotArchived then [] else [log.summaries[..n]]
  }

  /** A reply's work in its steps: the summary is stored or refused, and then archival is seen to. */
  lemma Answered(cfg: Config, j: J.Journal, n: nat, session: J.Session, range: Pending, text: string, io: ReplyIO)
    requires n < |j.logs| && !Blank(text)
    ensures var log := J.LogOf(j, n);
            var (log', r) := AfterAppendSummary(log, FormattedSummary(range, text), io.appendOk);
            var answered := J.AddBatches(J.WithLog(j, n, J.AfterReply(cfg, log, range, text, io)), session, J.ArchivedBy(cfg, log, range, text, io));
            var j1 := J.WithLog(j, n, log');
            if r == Rejected || r == WriteFailed then answered == j1
            else && |j1.logs| == |j.logs| && J.LogOf(j1, n) == log'
                 && answered == if TotalLength(log'.summaries) <= cfg.summaryBudget then j1
                    else J.AddBatches(J.WithLog(j1, n, J.AfterArchival(cfg, log', io)), session, Batch(cfg, log', io))
  {
    hide Blank, FormattedSummary, AfterAppendSummary, J.WithLog, J.AfterArchival, TotalLength, OverBudget, J.LogOf;
    var log, summary := J.LogOf(j, n), FormattedSummary(range, text);
    var log' := AfterAppendSummary(log, summary, io.appendOk).0;
    RefusedChangesNothing(log, summary, io.appendOk);
    FileOnlyGrows(log, summary, 0, io.appendOk);
    WrittenLog(j, n, log');
    ArchivalFile(cfg, log', io);
    WrittenTwice(j, n, log', J.AfterArchival(cfg, log', io));
  }

  class JournalService {
    const cfg: Config
    var activeLogs: map<J.Session, RollingLog>
    var disks: map<J.Session, Disk>
    var pendingCompactions: map<J.Request, PendingCompaction>
    var compactionInFlight: set<J.Session>
    var compactionStartedAt: map<J.Session, int>
    var toolCache: map<J.Session, string>
    var prompts: seq<J.JournalPrompt>
    var dailyLogs: map<J.Session, seq<string>>
    ghost var logs: seq<RollingLog>
    ghost var j: J.Journal

    /** Log objects are distinct, hold the lists of the journal and write the files of their session. */
    ghost predicate LogsMatch()
      reads this, logs
    {
      && |logs| == |j.logs|
      && (forall i, k :: 0 <= i < k < |logs| ==> logs[i] != logs[k])
      && forall i :: 0 <= i < |logs| ==>
           && logs[i].Valid() && j.logs[i] == J.Lists(j.logs[i].session, logs[i].summaries, logs[i].rawTail)
           && j.logs[i].session in disks && logs[i].disk == disks[j.logs[i].session]
           && logs[i].compactionThreshold == cfg.compactionThreshold && logs[i].summaryBudget == cfg.summaryBudget
    }

    ghost predicate DisksMatch()
      reads this, disks.Values
    {
      && (forall s, t :: s in disks && t in disks && s != t ==> disks[s] != disks[t])
      && (forall s :: s in disks ==> J.FileOf(j, s) == disks[s].live && J.ArchiveOf(j, s) == disks[s].archive)
      && (forall s :: s !in disks ==> J.FileOf(j, s) == None && J.ArchiveOf(j, s) == [])
    }

    ghost predicate ActiveMatches()
      reads this
    {
      && activeLogs.Keys == j.active.Keys
      && forall s :: s in j.active ==> s != "" && Is(j.active[s], s, activeLogs[s])
    }

    ghost predicate PendingMatches()
      reads this
    {
      && pendingCompactions.Keys == j.pending.Keys
      && forall q :: q in j.pending ==>
           && Is(j.pending[q].log, j.pending[q].session, pendingCompactions[q].rl)
           && pendingCompactions[q].session == j.pending[q].session && pendingCompactions[q].range == j.pending[q].range
    }

    ghost predicate GuardMatches()
      reads this
    {
      compactionInFlight == j.inFlight && compactionStartedAt == j.startedAt && prompts == j.prompts
    }

    /** Object number n is this one, for this session. */
    ghost predicate Is(n: nat, session: J.Session, rl: RollingLog)
      reads this
    {
      n < |logs| && n < |j.logs| && logs[n] == rl && j.logs[n].session == session
    }

    ghost predicate Valid()
      reads this, logs, disks.Values
    {
      LogsMatch() && DisksMatch() && ActiveMatches() && PendingMatches() && GuardMatches()
    }

    constructor (cfg: Config)
      ensures Valid() && j == J.EMPTY && this.cfg == cfg && dailyLogs == map[]
    {
      this.cfg := cfg;
      activeLogs, disks, pendingCompactions, compactionInFlight, compactionStartedAt := map[], map[], map[], {}, map[];
      toolCache, prompts, dailyLogs := map[], [], map[];
      logs, j := [], J.EMPTY;
    }

    /** Nothing but log number n and its live file has changed. */
    twostate predicate Rewritten(n: nat)
      requires n < |logs|
      reads this, logs, disks.Values, set o <- logs :: o.disk
    {
      var rl, d := logs[n], logs[n].disk;
      && old(n < |logs| && n < |j.logs|) && rl.Valid()
      && unchanged(`activeLogs, `disks, `pendingCompactions, `compactionInFlight, `compactionStartedAt, `prompts, `logs)
      && (forall o :: o in logs && o != rl ==> unchanged(o))
      && (forall s :: s in disks && disks[s] != d ==> unchanged(disks[s]))
      && unchanged(d`archive) && (d.live.Some? || unchanged(d`live))
      && j == J.WithLog(old(j), n, rl.State())
    }

    twostate lemma LogsStillMatch(n: nat)
      requires old(LogsMatch()) && n < |logs| && Rewritten(n)
      ensures LogsMatch()
    {
      hide J.FileOf;
      forall i | 0 <= i < |logs| && i != n ensures unchanged(logs[i]) { assert logs[i] in logs; }
    }

    twostate lemma DisksStillMatch(n: nat)
      requires old(LogsMatch() && DisksMatch()) && n < |logs| && Rewritten(n)
      ensures DisksMatch()
    {
      var session := old(j).logs[n].session;
      assert disks[session] == logs[n].disk;
    }

    twostate lemma TablesStillMatch(n: nat)
      requires old(ActiveMatches() && PendingMatches() && GuardMatches()) && n < |logs| && Rewritten(n)
      ensures ActiveMatches() && PendingMatches() && GuardMatches()
    {}

    /** One of the logs takes a raw entry. */
    method Append(ghost n: nat, session: J.Session, rl: RollingLog, entry: string, diskOk: bool) returns (r: Outcome)
      requires Valid() && Is(n, session, rl)
      modifies `j, rl, rl.disk`live
      ensures Valid() && Is(n, session, rl)
      ensures var (log, r') := AfterAppendRaw(J.LogOf(old(j), n), entry, diskOk);
              r == r' && j == J.WithLog(old(j), n, log)
    {
      hide AfterAppendRaw, LogsMatch, DisksMatch, ActiveMatches, PendingMatches, TotalLength;
      LogNumber(n, session, rl);
      FileOnlyGrows(J.LogOf(j, n), entry, 0, diskOk);
      r := rl.AppendRaw(entry, diskOk);
      j := J.WithLog(j, n, rl.State());
      assert Rewritten(n);
      hide Rewritten, Valid;
      RewrittenStillValid(n);
    }

    twostate lemma RewrittenStillValid(n: nat)
      requires n < |logs| && old(Valid()) && Rewritten(n)
      ensures Valid() && Is(n, old(j).logs[n].session, logs[n])
    {
      LogsStillMatch(n);
      DisksStillMatch(n);
      TablesStillMatch(n);
    }

    lemma LogNumber(n: nat, session: J.Session, rl: RollingLog)
      requires Valid() && Is(n, session, rl)
      ensures rl.Valid() && rl.State() == J.LogOf(j, n) && rl in logs && rl.disk in disks.Values
      ensures rl.compactionThreshold == cfg.compactionThreshold && rl.summaryBudget == cfg.summaryBudget
      ensures session in disks && rl.disk == disks[session]
    {}

    /** The older half is taken off one of the logs. */
    method TakeOlderHalf(ghost n: nat, session: J.Session, rl: RollingLog, diskOk: bool) returns (text: string, r: Outcome)
      requires Valid() && Is(n, session, rl)
      modifies `j, rl, rl.disk`live
      ensures Valid() && Is(n, session, rl)
      ensures var (log, text', r') := AfterOlderHalf(J.LogOf(old(j), n), diskOk);
              text == text' && r == r' && j == J.WithLog(old(j), n, log)
    {
      hide AfterOlderHalf, LogsMatch, DisksMatch, ActiveMatches, PendingMatches, TotalLength;
      LogNumber(n, session, rl);
      FileOnlyGrows(J.LogOf(j, n), "", 0, diskOk);
      text, r := rl.OlderHalf(diskOk);
      j := J.WithLog(j, n, rl.State());
      assert Rewritten(n);
      hide Rewritten, Valid;
      RewrittenStillValid(n);
    }

    method StoreSummary(ghost n: nat, session: J.Session, rl: RollingLog, summary: string, diskOk: bool) returns (r: Outcome)
      requires Valid() && Is(n, session, rl)
      modifies `j, rl, rl.disk`live
      ensures Valid() && Is(n, session, rl)
      ensures var (log, r') := AfterAppendSummary(J.LogOf(old(j), n), summary, diskOk);
              r == r' && j == J.WithLog(old(j), n, log)
    {
      hide AfterAppendSummary, LogsMatch, DisksMatch, ActiveMatches, PendingMatches, TotalLength;
      LogNumber(n, session, rl);
      FileOnlyGrows(J.LogOf(j, n), summary, 0, diskOk);
      r := rl.AppendSummary(summary, diskOk);
      j := J.WithLog(j, n, rl.State());
      assert Rewritten(n);
      hide Rewritten, Valid;
      RewrittenStillValid(n);
    }

    method Commit(ghost n: nat, session: J.Session, rl: RollingLog, count: int, diskOk: bool) returns (r: Outcome)
      requires Valid() && Is(n, session, rl)
      modifies `j, rl, rl.disk`live
      ensures Valid() && Is(n, session, rl)
      ensures var (log, r') := AfterCommitArchival(J.LogOf(old(j), n), count, diskOk);
              r == r' && j == J.WithLog(old(j), n, log)
    {
      hide AfterCommitArchival, LogsMatch, DisksMatch, ActiveMatches, PendingMatches, TotalLength, OverBudget;
      LogNumber(n, session, rl);
      FileOnlyGrows(J.LogOf(j, n), "", count, diskOk);
      r := rl.CommitArchival(count, diskOk);
      j := J.WithLog(j, n, rl.State());
      assert Rewritten(n);
      hide Rewritten, Valid;
      RewrittenStillValid(n);
    }

    /** Only the tables have changed. */
    twostate predicate SameFiles()
      reads this, logs, disks.Values
    {
      && unchanged(`disks, `logs)
      && (forall o :: o in logs ==> unchanged(o)) && (forall d :: d in disks.Values ==> unchanged(d))
      && j.logs == old(j).logs && j.files == old(j).files && j.archives == old(j).archives
    }

    twostate lemma FilesStillMatch()
      requires old(LogsMatch() && DisksMatch()) && SameFiles()
      ensures LogsMatch() && DisksMatch()
      ensures old(ActiveMatches()) && unchanged(`activeLogs) && j.active == old(j).active ==> ActiveMatches()
      ensures old(PendingMatches()) && unchanged(`pendingCompactions) && j.pending == old(j).pending ==> PendingMatches()
    {
      forall i | 0 <= i < |logs| ensures unchanged(logs[i]) { assert logs[i] in logs; }
      forall s | s in disks ensures unchanged(disks[s]) { assert disks[s] in disks.Values; }
    }

    /** The per-session guard, tried again once a stale compaction has been reaped. */
    method TriggerCompaction(ghost n: nat, session: J.Session, rl: RollingLog, now: int, stamp: int, halfOk: bool)
      requires Valid() && Is(n, session, rl)
      modifies `j, `pendingCompactions, `compactionInFlight, `compactionStartedAt, `prompts, rl, rl.disk`live
      ensures Valid() && Is(n, session, rl)
      ensures j == J.TriggerCompaction(cfg, old(j), session, n, now, stamp, halfOk)
    {
      hide LogsMatch, DisksMatch, ActiveMatches, PendingMatches, J.CheckStaleSession, J.RequestSummary;
      if session in compactionInFlight {
        CheckStaleCompaction(session, now);
        StaleKeepsLogs(cfg, old(j), session, now);
        if session in compactionInFlight { return; }
      }
      RequestSummary(n, session, rl, now, stamp, halfOk);
    }

    /** The rest of `triggerCompaction`, once the guard is free. */
    method RequestSummary(ghost n: nat, session: J.Session, rl: RollingLog, now: int, stamp: int, halfOk: bool)
      requires Valid() && Is(n, session, rl) && session !in compactionInFlight
      modifies `j, `pendingCompactions, `compactionInFlight, `compactionStartedAt, `prompts, rl, rl.disk`live
      ensures Valid() && Is(n, session, rl)
      ensures j == J.RequestSummary(old(j), session, n, now, stamp, halfOk)
    {
      hide AfterOlderHalf, LogsMatch, DisksMatch, ActiveMatches, PendingMatches, ExtractTimeRange, J.WithLog, J.LogOf;
      ghost var guarded := j.(inFlight := j.inFlight + {session}, startedAt := j.startedAt[session := now]);
      compactionInFlight := compactionInFlight + {session};
      compactionStartedAt := compactionStartedAt[session := now];
      j := guarded;
      FilesStillMatch();
      var olderHalf, r := TakeOlderHalf(n, session, rl, halfOk);
      GuardDoesNotMatter(old(j), n, guarded.inFlight, guarded.startedAt, AfterOlderHalf(J.LogOf(old(j), n), halfOk).0);
      if r == WriteFailed || olderHalf == "" {
        Unguard(session);
        return;
      }
      FileRequest(n, session, rl, stamp, olderHalf);
    }

    method Unguard(session: J.Session)
      requires Valid()
      modifies `j, `compactionInFlight
      ensures Valid() && j == old(j).(inFlight := old(j).inFlight - {session})
    {
      hide LogsMatch, DisksMatch, ActiveMatches, PendingMatches;
      compactionInFlight := compactionInFlight - {session};
      j := j.(inFlight := j.inFlight - {session});
      FilesStillMatch();
    }

    /** The request is stored and its prompt published. */
    method FileRequest(ghost n: nat, session: J.Session, rl: RollingLog, stamp: int, olderHalf: string)
      requires Valid() && Is(n, session, rl) && session in compactionInFlight
      modifies `j, `pendingCompactions, `prompts
      ensures Valid() && Is(n, session, rl) && j == J.AddPending(old(j), session, n, stamp, olderHalf)
    {
      hide LogsMatch, DisksMatch, ActiveMatches, PendingMatches, ExtractTimeRange;
      var q := J.Request(session, stamp);
      pendingCompactions := pendingCompactions[q := PendingCompaction(session, rl, ExtractTimeRange(olderHalf))];
      prompts := prompts + [J.JournalPrompt(q, olderHalf)];
      j := J.AddPending(j, session, n, stamp, olderHalf);
      FilesStillMatch();
      Filed(q);
    }

    twostate lemma Filed(q: J.Request)
      requires old(PendingMatches()) && unchanged(`logs) && j.logs == old(j).logs && q in j.pending && q in pendingCompactions
      requires j.pending == old(j).pending[q := j.pending[q]] && pendingCompactions == old(pendingCompactions)[q := pendingCompactions[q]]
      requires Is(j.pending[q].log, q.session, pendingCompactions[q].rl)
      requires j.pending[q].session == q.session == pendingCompactions[q].session && j.pending[q].range == pendingCompactions[q].range
      ensures PendingMatches()
    {
      forall r | r in old(j).pending ensures old(Is(j.pending[r].log, j.pending[r].session, pendingCompactions[r].rl)) {}
    }

    /** All stale requests of the session are dropped, one after another. */
    method CheckStaleCompaction(session: J.Session, now: int)
      requires Valid()
      modifies `j, `pendingCompactions, `compactionInFlight, `compactionStartedAt
      ensures Valid() && j == J.CheckStaleSession(cfg, old(j), session, now)
    {
      hide LogsMatch, DisksMatch, ActiveMatches, PendingMatches;
      if session !in compactionStartedAt { return; }
      var startedAt := compactionStartedAt[session];
      if startedAt == 0 || now - startedAt < cfg.staleTimeout { return; }
      var keys := pendingCompactions.Keys;
      while keys != {}
        modifies `pendingCompactions
        invariant keys <= pendingCompactions.Keys <= old(pendingCompactions).Keys
        invariant forall q <- pendingCompactions :: pendingCompactions[q] == old(pendingCompactions)[q]
        invariant forall q <- old(pendingCompactions) ::
                    q in pendingCompactions <==> q in keys || old(pendingCompactions)[q].session != session
        decreases keys
      {
        var key :| key in keys;
        keys := keys - {key};
        if pendingCompactions[key].session == session {
          pendingCompactions := pendingCompactions - {key};
        }
      }
      compactionInFlight := compactionInFlight - {session};
      compactionStartedAt := compactionStartedAt - {session};
      j := J.CheckStaleSession(cfg, j, session, now);
      FilesStillMatch();
      Reaped(session);
    }

    twostate lemma Reaped(session: J.Session)
      requires old(PendingMatches()) && unchanged(`logs) && j.logs == old(j).logs
      requires j.pending == map q | q in old(j).pending && old(j).pending[q].session != session :: old(j).pending[q]
      requires pendingCompactions.Keys <= old(pendingCompactions).Keys
      requires forall q <- pendingCompactions :: pendingCompactions[q] == old(pendingCompactions)[q]
      requires forall q <- old(pendingCompactions) :: q in pendingCompactions <==> old(pendingCompactions)[q].session != session
      ensures PendingMatches()
    {}

    // ---------------------------------------------------------------- sessions

    /** The journal becomes active only if its file can be read and its first entry is stored. */
    method HandleSessionCreated(session: J.Session, time: string, command: string, started: string,
                                readOk: bool, appendOk: bool, logOk: bool)
      requires Valid()
      modifies this, disks.Values
      ensures Valid()
      ensures var tool := if session in old(toolCache) then Some(old(toolCache)[session]) else None;
              var entry := StartEntry(time, session, command, started, tool);
              && j == J.HandleCreated(old(j), session, entry, readOk, appendOk)
              && dailyLogs == if session != "" && readOk && AfterAppendRaw(Open(J.FileOf(old(j), session)), entry, appendOk).1 in {Stored, Ignored}
                              then Noted(old(dailyLogs), session, entry, logOk) else old(dailyLogs)
      ensures toolCache == old(toolCache)
    {
      hide LogsMatch, DisksMatch, ActiveMatches, PendingMatches, AfterAppendRaw, Open, J.WithLog, J.AddLog, J.Activate, SanitizeForRollingLog;
      if session == "" || !readOk { return; }
      var rl := OpenLog(session);
      ghost var n, j1 := |logs| - 1, j;
      var entry := time + " [session_start] Session: " + session + ", Command: " + SanitizeForRollingLog(command) + ", Started: " + started;
      if session in toolCache && toolCache[session] != "" {
        entry := entry + (", Tool: " + SanitizeForRollingLog(toolCache[session]));
      } else {
        assert entry + "" == entry;
      }
      assert entry == StartEntry(time, session, command, started, if session in toolCache then Some(toolCache[session]) else None);
      OpenedFile(J.FileOf(old(j), session));
      LogAdded(old(j), session, Open(J.FileOf(old(j), session)));
      var r := Append(n, session, rl, entry, appendOk);
      if r == Rejected || r == WriteFailed {
        RefusedEntry(j1, n, entry, appendOk);
        return;
      }
      Activate(n, session, rl);
      Note(session, entry, logOk);
    }

    /** `NewRollingLog` on the file of the session. */
    method OpenLog(session: J.Session) returns (rl: RollingLog)
      requires Valid()
      modifies `j, `logs, `disks
      ensures Valid() && |logs| == |old(j).logs| + 1 && Is(|logs| - 1, session, rl)
      ensures fresh(rl) && rl.disk in disks.Values && (rl.disk in old(disks).Values || fresh(rl.disk))
      ensures j == J.AddLog(old(j), session, Open(J.FileOf(old(j), session)))
    {
      hide Open, LogsMatch, DisksMatch, ActiveMatches, PendingMatches;
      FindDisk(session);
      SameNumber();
      label before:
      rl := new RollingLog(disks[session], cfg.compactionThreshold, cfg.summaryBudget);
      logs := logs + [rl];
      j := J.AddLog(j, session, rl.State());
      LogAdded(old(j), session, Open(J.FileOf(old(j), session)));
      assert Opened@before(session);
      hide Opened, Valid;
      OpenedStillValid@before(session);
    }

    lemma SameNumber()
      requires LogsMatch()
      ensures |logs| == |j.logs|
    {}

    twostate predicate Opened(session: J.Session)
      reads this, logs, disks.Values
    {
      && unchanged(`activeLogs, `disks, `pendingCompactions, `compactionInFlight, `compactionStartedAt, `prompts)
      && |logs| == old(|logs|) + 1 && (forall i :: 0 <= i < old(|logs|) ==> logs[i] == old(logs)[i])
      && (forall o :: o in logs && o != logs[old(|logs|)] ==> unchanged(o)) && (forall d :: d in disks.Values ==> unchanged(d))
      && var rl := logs[old(|logs|)];
         && rl !in old(logs) && rl.Valid() && session in disks && rl.disk == disks[session]
         && rl.compactionThreshold == cfg.compactionThreshold && rl.summaryBudget == cfg.summaryBudget
         && j == old(j).(logs := old(j).logs + [J.Lists(session, rl.summaries, rl.rawTail)])
    }

    twostate lemma OpenedStillValid(session: J.Session)
      requires old(Valid()) && Opened(session)
      ensures Valid() && Is(|logs| - 1, session, logs[|logs| - 1])
    {
      OpenedLogsMatch(session);
      OpenedTablesMatch(session);
    }

    twostate lemma OpenedLogsMatch(session: J.Session)
      requires old(LogsMatch() && DisksMatch()) && Opened(session)
      ensures LogsMatch() && DisksMatch()
    {
      var n := old(|logs|);
      forall i | 0 <= i < n ensures logs[i] == old(logs)[i] && unchanged(logs[i]) && logs[i] != logs[n] {
        assert logs[i] in logs && old(logs)[i] in old(logs);
      }
      forall s | s in disks ensures unchanged(disks[s]) { assert disks[s] in disks.Values; }
      forall s ensures J.FileOf(j, s) == J.FileOf(old(j), s) && J.ArchiveOf(j, s) == J.ArchiveOf(old(j), s) {}
    }

    twostate lemma OpenedTablesMatch(session: J.Session)
      requires old(LogsMatch() && ActiveMatches() && PendingMatches() && GuardMatches()) && Opened(session)
      ensures ActiveMatches() && PendingMatches() && GuardMatches()
    {}

    /** Each session has files of its own. */
    method FindDisk(session: J.Session)
      requires Valid()
      modifies `disks
      ensures Valid() && session in disks && disks[session].live == J.FileOf(j, session)
      ensures forall d :: d in disks.Values ==> d in old(disks).Values || fresh(d)
    {
      hide LogsMatch, ActiveMatches, PendingMatches;
      if session in disks { return; }
      var d := new Disk();
      disks := disks[session := d];
      MoreDisks();
    }

    twostate lemma MoreDisks()
      requires old(LogsMatch() && ActiveMatches() && PendingMatches()) && unchanged(`logs, `j, `activeLogs, `pendingCompactions)
      requires (forall o :: o in logs ==> unchanged(o))
      requires forall s :: s in old(disks) ==> s in disks && disks[s] == old(disks)[s]
      ensures LogsMatch() && ActiveMatches() && PendingMatches()
    {
      forall i | 0 <= i < |logs| ensures unchanged(logs[i]) { assert logs[i] in logs; }
    }

    method Activate(ghost n: nat, session: J.Session, rl: RollingLog)
      requires Valid() && Is(n, session, rl) && session != ""
      modifies `j, `activeLogs
      ensures Valid() && j == J.Activate(old(j), session, n)
    {
      hide LogsMatch, DisksMatch, ActiveMatches, PendingMatches;
      activeLogs := activeLogs[session := rl];
      j := J.Activate(j, session, n);
      FilesStillMatch();
      Activated(session);
    }

    twostate lemma Activated(session: J.Session)
      requires old(ActiveMatches()) && unchanged(`logs) && j.logs == old(j).logs && session in j.active && session in activeLogs
      requires j.active == old(j).active[session := j.active[session]] && activeLogs == old(activeLogs)[session := activeLogs[session]]
      requires session != "" && Is(j.active[session], session, activeLogs[session])
      ensures ActiveMatches()
    {}

    lemma ActiveNumber(session: J.Session)
      requires Valid()
      ensures session in activeLogs <==> session in j.active
      ensures session in activeLogs ==> session != "" && Is(j.active[session], session, activeLogs[session])
    {}

    /** Compaction is tried after an append, failed or not. */
    method Record(session: J.Session, entry: string, logOk: bool, appendOk: bool, now: int, stamp: int, halfOk: bool)
      requires Valid()
      modifies this, logs, disks.Values
      ensures Valid() && j == J.HandleWritten(cfg, old(j), session, entry, appendOk, now, stamp, halfOk)
      ensures dailyLogs == if session in old(activeLogs) then Noted(old(dailyLogs), session, entry, logOk) else old(dailyLogs)
      ensures toolCache == old(toolCache)
    {
      hide LogsMatch, DisksMatch, ActiveMatches, PendingMatches, AfterAppendRaw, J.TriggerCompaction, J.WithLog, J.LogOf, TotalLength;
      ActiveNumber(session);
      if session !in activeLogs { return; }
      var rl := activeLogs[session];
      ghost var n := j.active[session];
      LogNumber(n, session, rl);
      var r := Append(n, session, rl, entry, appendOk);
      LogNumber(n, session, rl);
      LogNumberOf(j, n);
      var compact := rl.ShouldCompact();
      if compact {
        TriggerCompaction(n, session, rl, now, stamp, halfOk);
      }
      Note(session, entry, logOk);
    }

    /** Empty output is passed over unless it says that the session waits. */
    method HandleOutput(session: J.Session, time: string, text: string, waitingFor: string,
                        logOk: bool, appendOk: bool, now: int, stamp: int, halfOk: bool)
      requires Valid()
      modifies this, logs, disks.Values
      ensures Valid() && toolCache == old(toolCache)
      ensures var entry := OutputEntry(time, text, waitingFor);
              if text == "" && waitingFor == "" then j == old(j) && dailyLogs == old(dailyLogs)
              else && j == J.HandleWritten(cfg, old(j), session, entry, appendOk, now, stamp, halfOk)
                   && dailyLogs == if session in old(activeLogs) then Noted(old(dailyLogs), session, entry, logOk) else old(dailyLogs)
    {
      hide LogsMatch, DisksMatch, ActiveMatches, PendingMatches, J.HandleWritten, SanitizeForRollingLog, Truncate;
      ActiveNumber(session);
      NeverWritten(cfg, j, session, OutputEntry(time, text, waitingFor), appendOk, now, stamp, halfOk);
      if session == "" || (text == "" && waitingFor == "") { return; }
      var origLen := |text|;
      var cleaned := Truncate(SanitizeForRollingLog(text), origLen);
      var entry;
      if waitingFor != "" {
        entry := time + " [idle] Waiting for: " + SanitizeForRollingLog(waitingFor);
      } else {
        entry := time + " [output] " + cleaned;
      }
      Record(session, entry, logOk, appendOk, now, stamp, halfOk);
    }

    /** The tool is remembered for the next start of the session, active or not. */
    method HandleToolChanged(session: J.Session, time: string, previous: string, tool: string,
                             logOk: bool, appendOk: bool, now: int, stamp: int, halfOk: bool)
      requires Valid()
      modifies this, logs, disks.Values
      ensures Valid() && toolCache == if session == "" then old(toolCache) else old(toolCache)[session := tool]
      ensures var entry := ToolEntry(time, previous, tool);
              && j == J.HandleWritten(cfg, old(j), session, entry, appendOk, now, stamp, halfOk)
              && dailyLogs == if session in old(activeLogs) then Noted(old(dailyLogs), session, entry, logOk) else old(dailyLogs)
    {
      hide LogsMatch, DisksMatch, ActiveMatches, PendingMatches, J.HandleWritten, SanitizeForRollingLog;
      ActiveNumber(session);
      NeverWritten(cfg, j, session, ToolEntry(time, previous, tool), appendOk, now, stamp, halfOk);
      if session == "" { return; }
      Remember(session, tool);
      var entry := time + " [tool_change] " + SanitizeForRollingLog(previous) + " -> " + SanitizeForRollingLog(tool);
      Record(session, entry, logOk, appendOk, now, stamp, halfOk);
    }

    method Remember(session: J.Session, tool: string)
      requires Valid()
      modifies `toolCache
      ensures Valid() && toolCache == old(toolCache)[session := tool]
    {
      hide LogsMatch, DisksMatch, ActiveMatches, PendingMatches;
      toolCache := toolCache[session := tool];
      FilesStillMatch();
    }

    /** Compaction comes before the stop entry; then the session's log, guard and tool are let go of. */
    method HandleSessionStopped(session: J.Session, time: string, exitCode: Option<string>, reason: string,
                                logOk: bool, appendOk: bool, now: int, stamp: int, halfOk: bool)
      requires Valid()
      modifies this, logs, disks.Values
      ensures Valid()
      ensures var entry := StopEntry(time, session, exitCode, reason);
              && j == J.HandleStopped(cfg, old(j), session, entry, appendOk, now, stamp, halfOk)
              && dailyLogs == if session in old(activeLogs) then Noted(old(dailyLogs), session, entry, logOk) else old(dailyLogs)
      ensures toolCache == if session in old(activeLogs) then old(toolCache) - {session} else old(toolCache)
    {
      hide LogsMatch, DisksMatch, ActiveMatches, PendingMatches, AfterAppendRaw, J.TriggerCompaction, J.WithLog, J.LogOf, J.Forget, J.TailCalls, SanitizeForRollingLog;
      ActiveNumber(session);
      if session == "" || session !in activeLogs { return; }
      var rl := activeLogs[session];
      ghost var n := j.active[session];
      LogNumber(n, session, rl);
      Finalize(n, session, rl, now, stamp, halfOk);
      var entry := StopLine(time, session, exitCode, reason);
      var r := Append(n, session, rl, entry, appendOk);
      Note(session, entry, logOk);
      Forget(session);
    }

    method Finalize(ghost n: nat, session: J.Session, rl: RollingLog, now: int, stamp: int, halfOk: bool)
      requires Valid() && Is(n, session, rl) && session in j.active && j.active[session] == n
      modifies `j, `pendingCompactions, `compactionInFlight, `compactionStartedAt, `prompts, rl, rl.disk`live
      ensures Valid() && Is(n, session, rl)
      ensures j == if J.TailCalls(cfg, old(j), session) then J.TriggerCompaction(cfg, old(j), session, n, now, stamp, halfOk) else old(j)
    {
      hide LogsMatch, DisksMatch, ActiveMatches, PendingMatches, J.TriggerCompaction, J.LogOf, TotalLength;
      LogNumber(n, session, rl);
      LogNumberOf(j, n);
      var compact := rl.ShouldCompact();
      var size := rl.RawTailSize();
      if compact && size > J.MIN_FINALIZATION_TAIL_SIZE {
        TriggerCompaction(n, session, rl, now, stamp, halfOk);
      }
    }

    method StopLine(time: string, session: J.Session, exitCode: Option<string>, reason: string) returns (entry: string)
      ensures entry == StopEntry(time, session, exitCode, reason)
    {
      hide SanitizeForRollingLog;
      entry := time + " [session_stop] Session: " + session;
      if exitCode.Some? {
        entry := entry + (", ExitCode: " + exitCode.value);
      } else {
        assert entry + "" == entry;
      }
      if reason != "" {
        entry := entry + (", Reason: " + SanitizeForRollingLog(reason));
      } else {
        assert entry + "" == entry;
      }
    }

    method Forget(session: J.Session)
      requires Valid()
      modifies `j, `activeLogs, `compactionInFlight, `compactionStartedAt, `toolCache
      ensures Valid() && j == J.Forget(old(j), session) && toolCache == old(toolCache) - {session}
    {
      hide LogsMatch, DisksMatch, ActiveMatches, PendingMatches;
      ActiveNumber(session);
      activeLogs := activeLogs - {session};
      toolCache := toolCache - {session};
      compactionInFlight := compactionInFlight - {session};
      compactionStartedAt := compactionStartedAt - {session};
      j := J.Forget(j, session);
      FilesStillMatch();
      Forgotten(session);
    }

    twostate lemma Forgotten(session: J.Session)
      requires old(ActiveMatches()) && unchanged(`logs) && j.logs == old(j).logs
      requires j.active == old(j).active - {session} && activeLogs == old(activeLogs) - {session}
      ensures ActiveMatches()
    {}

    method Shutdown()
      requires Valid()
      modifies this
      ensures Valid() && j == J.HandleShutdown(old(j)) && dailyLogs == old(dailyLogs) && toolCache == map[]
    {
      hide LogsMatch, DisksMatch, ActiveMatches, PendingMatches;
      activeLogs, pendingCompactions, compactionInFlight, compactionStartedAt, toolCache := map[], map[], {}, map[], map[];
      j := J.HandleShutdown(j);
      FilesStillMatch();
      NothingMatches();
    }

    lemma NothingMatches()
      requires activeLogs == map[] && j.active == map[] && pendingCompactions == map[] && j.pending == map[]
      ensures ActiveMatches() && PendingMatches()
    {}

    // ---------------------------------------------------------------- replies

    /** The reply goes to the log its request names, whether or not the session is still active; the
        guard is freed when all is done. */
    method HandleCompactionReply(q: J.Request, text: string, io: ReplyIO)
      requires Valid()
      modifies this, logs, disks.Values
      ensures Valid() && j == J.HandleReplied(cfg, old(j), q, text, io)
      ensures dailyLogs == NotedReply(old(dailyLogs), old(j), q, text, io)
      ensures toolCache == old(toolCache)
    {
      hide LogsMatch, DisksMatch, ActiveMatches, Blank, FormattedSummary, J.AfterReply, J.ArchivedBy, J.WithLog, J.LogOf, AfterAppendSummary;
      if q !in pendingCompactions { return; }
      var pc := pendingCompactions[q];
      ghost var n := j.pending[q].log;
      TakeOut(q);
      LogNumber(n, pc.session, pc.rl);
      PendingDoNotMatter(old(j), q, n, J.AfterReply(cfg, J.LogOf(old(j), n), pc.range, text, io),
                         pc.session, J.ArchivedBy(cfg, J.LogOf(old(j), n), pc.range, text, io));
      if Blank(text) {
        BlankReply(cfg, J.LogOf(old(j), n), pc.range, text, io);
        SameLogWritten(j, n);
      } else {
        Summarize(n, pc, text, io);
      }
      Free(pc.session);
    }

    /** `LoadAndDelete`. */
    method TakeOut(q: J.Request)
      requires Valid() && q in pendingCompactions
      modifies `j, `pendingCompactions
      ensures Valid() && j == old(j).(pending := old(j).pending - {q})
      ensures pendingCompactions == old(pendingCompactions) - {q}
    {
      hide LogsMatch, DisksMatch, ActiveMatches, PendingMatches;
      PendingKeys();
      pendingCompactions := pendingCompactions - {q};
      j := j.(pending := j.pending - {q});
      FilesStillMatch();
      TakenOut(q);
    }

    lemma PendingKeys()
      requires PendingMatches()
      ensures pendingCompactions.Keys == j.pending.Keys
    {}

    twostate lemma TakenOut(q: J.Request)
      requires old(PendingMatches()) && unchanged(`logs) && j.logs == old(j).logs
      requires j.pending == old(j).pending - {q} && pendingCompactions == old(pendingCompactions) - {q}
      ensures PendingMatches()
    {}

    method Free(session: J.Session)
      requires Valid()
      modifies `j, `compactionInFlight, `compactionStartedAt
      ensures Valid()
      ensures j == old(j).(inFlight := old(j).inFlight - {session}, startedAt := old(j).startedAt - {session})
    {
      hide LogsMatch, DisksMatch, ActiveMatches, PendingMatches;
      compactionInFlight := compactionInFlight - {session};
      compactionStartedAt := compactionStartedAt - {session};
      j := j.(inFlight := compactionInFlight, startedAt := compactionStartedAt);
      FilesStillMatch();
    }

    /** The header and the cleaned reply go to the rolling log, or failing that to the daily log. */
    method Summarize(ghost n: nat, pc: PendingCompaction, text: string, io: ReplyIO)
      requires Valid() && Is(n, pc.session, pc.rl) && !Blank(text)
      modifies `j, `dailyLogs, pc.rl, pc.rl.disk
      ensures Valid()
      ensures var log := J.LogOf(old(j), n);
              && j == J.AddBatches(J.WithLog(old(j), n, J.AfterReply(cfg, log, pc.range, text, io)), pc.session, J.ArchivedBy(cfg, log, pc.range, text, io))
              && dailyLogs == if AfterAppendSummary(log, FormattedSummary(pc.range, text), io.appendOk).1 in {Rejected, WriteFailed}
                              then Noted(old(dailyLogs), pc.session, Fallback(pc.range, text), io.fallbackOk) else old(dailyLogs)
    {
      hide LogsMatch, DisksMatch, ActiveMatches, PendingMatches, FormattedSummary, AfterAppendSummary, Blank, J.WithLog, J.LogOf, J.AddBatches, J.AfterReply, J.ArchivedBy, J.AfterArchival, Batch, TotalLength;
      var formattedSummary := Format(pc.range, text);
      var r := StoreSummary(n, pc.session, pc.rl, formattedSummary, io.appendOk);
      Answered(cfg, old(j), n, pc.session, pc.range, text, io);
      if r == Rejected || r == WriteFailed {
        Note(pc.session, "[compaction-fallback] " + formattedSummary, io.fallbackOk);
        return;
      }
      LogNumber(n, pc.session, pc.rl);
      var archive := pc.rl.ShouldArchive();
      if archive {
        TriggerArchival(n, pc.session, pc.rl, io);
      }
    }

    /** A line for the daily log of a session. */
    method Note(session: J.Session, line: string, ok: bool)
      requires Valid()
      modifies `dailyLogs
      ensures Valid() && dailyLogs == Noted(old(dailyLogs), session, line, ok)
    {
      hide LogsMatch, DisksMatch, ActiveMatches, PendingMatches;
      dailyLogs := Noted(dailyLogs, session, line, ok);
      FilesStillMatch();
    }

    method Format(range: Pending, text: string) returns (formattedSummary: string)
      ensures formattedSummary == FormattedSummary(range, text)
      ensures "[compaction-fallback] " + formattedSummary == Fallback(range, text)
    {
      hide SanitizeForSummary, Title;
      var sanitizedText := SanitizeForSummary(text);
      var header := HEADER + Title(range);
      formattedSummary := header + "\n" + sanitizedText;
    }

    method TriggerArchival(ghost n: nat, session: J.Session, rl: RollingLog, io: ReplyIO)
      requires Valid() && Is(n, session, rl)
      modifies `j, rl, rl.disk
      ensures Valid() && Is(n, session, rl)
      ensures var log := J.LogOf(old(j), n);
              j == J.AddBatches(J.WithLog(old(j), n, J.AfterArchival(cfg, log, io)), session, Batch(cfg, log, io))
    {
      hide LogsMatch, DisksMatch, ActiveMatches, PendingMatches, TotalLength, OverBudget, J.WithLog, AfterCommitArchival;
      LogNumber(n, session, rl);
      SameLogWritten(j, n);
      LogNumberOf(j, n);
      var older := rl.OlderSummaries();
      if |older| == 0 { return; }
      var ok := ArchiveOlder(n, session, rl, older, io.archive);
      if !ok { return; }
      var r := Commit(n, session, rl, |older|, io.commitOk);
      BatchesAside(old(j), n, AfterCommitArchival(J.LogOf(old(j), n), |older|, io.commitOk).0, session, [older]);
    }

    method ArchiveOlder(ghost n: nat, session: J.Session, rl: RollingLog, older: seq<string>, write: ArchiveWrite) returns (ok: bool)
      requires Valid() && Is(n, session, rl) && older != []
      modifies `j, rl.disk`archive
      ensures Valid() && Is(n, session, rl) && ok == (write == Archived)
      ensures j == J.AddBatches(old(j), session, if write == NotArchived then [] else [older])
    {
      hide LogsMatch, DisksMatch, ActiveMatches, PendingMatches;
      LogNumber(n, session, rl);
      ArchiveNow(session);
      BatchesInArchive(j, session, if write == NotArchived then [] else [older]);
      ok := rl.Archive(older, write);
      j := J.AddBatches(j, session, if write == NotArchived then [] else [older]);
      assert ArchiveGrown(n);
      hide ArchiveGrown, Valid, J.AddBatches;
      ArchivedStillValid(n);
    }

    lemma ArchiveNow(session: J.Session)
      requires DisksMatch() && session in disks
      ensures disks[session].archive == J.ArchiveOf(j, session)
    {}

    /** Nothing but the archive of log number n has changed. */
    twostate predicate ArchiveGrown(n: nat)
      requires n < |logs|
      reads this, logs, disks.Values, set o <- logs :: o.disk
    {
      var d := logs[n].disk;
      && n < |old(j).logs| && old(j).logs[n].session in disks && disks[old(j).logs[n].session] == d
      && unchanged(`activeLogs, `disks, `pendingCompactions, `compactionInFlight, `compactionStartedAt, `prompts, `logs)
      && (forall o :: o in logs ==> unchanged(o))
      && (forall s :: s in disks && disks[s] != d ==> unchanged(disks[s]))
      && unchanged(d`live)
      && j == old(j).(archives := j.archives)
      && (forall s :: J.ArchiveOf(j, s) == if s == old(j).logs[n].session then d.archive else J.ArchiveOf(old(j), s))
    }

    twostate lemma ArchivedStillValid(n: nat)
      requires old(Valid()) && n < |logs| && ArchiveGrown(n)
      ensures Valid() && Is(n, old(j).logs[n].session, logs[n])
    {
      forall i | 0 <= i < |logs| ensures unchanged(logs[i]) { assert logs[i] in logs; }
      forall s ensures J.FileOf(j, s) == J.FileOf(old(j), s) {}
    }
  }

  /** What a reply adds to the daily log of its session. */
  function NotedReply(logs: map<J.Session, seq<string>>, j: J.Journal, q: J.Request, text: string, io: ReplyIO): map<J.Session, seq<string>> {
    if q in j.pending && j.pending[q].log < |j.logs| && !Blank(text)
       && AfterAppendSummary(J.LogOf(j, j.pending[q].log), FormattedSummary(j.pending[q].range, text), io.appendOk).1 in {Rejected, WriteFailed}
    then Noted(logs, j.pending[q].session, Fallback(j.pending[q].range, text), io.fallbackOk) else logs
  }

  lemma NeverWritten(cfg: Config, j: J.Journal, session: J.Session, entry: string, appendOk: bool, now: int, stamp: int, halfOk: bool)
    ensures session == "" ==> J.HandleWritten(cfg, j, session, entry, appendOk, now, stamp, halfOk) == j
  {}

  lemma StaleKeepsLogs(cfg: Config, j: J.Journal, session: J.Session, now: int)
    ensures J.CheckStaleSession(cfg, j, session, now).logs == j.logs
  {}

  lemma GuardDoesNotMatter(j: J.Journal, n: nat, inFlight: set<J.Session>, startedAt: map<J.Session, int>, log: Log)
    requires n < |j.logs|
    ensures J.LogOf(j.(inFlight := inFlight, startedAt := startedAt), n) == J.LogOf(j, n)
    ensures J.WithLog(j.(inFlight := inFlight, startedAt := startedAt), n, log)
         == J.WithLog(j, n, log).(inFlight := inFlight, startedAt := startedAt)
    ensures J.WithLog(j, n, log).inFlight == j.inFlight && J.WithLog(j, n, log).startedAt == j.startedAt
  {}
}
