/** The conversation log service as the program has it.  Each handler runs as one atomic step and
    does to the fields what the state machine says; the ghost ledger goes along. */
module ConversationLog {
  import opened Wrappers
  import opened Text
  import opened LogFormat
  import opened RollingLogSpec
  import opened RollingLog
  import opened Sanitize
  import opened ConversationLogSpec

  /** `rl` is the log the summary must go to, even if the service has let go of it. */
  datatype PendingCompaction = PendingCompaction(rl: RollingLog, range: Pending)

  /** What the state machine knows of the pending compactions. */
  ghost function Ranges(pending: map<PromptId, PendingCompaction>): map<PromptId, Pending> {
    map id | id in pending :: pending[id].range
  }

  lemma RangesChange(pending: map<PromptId, PendingCompaction>, id: PromptId, pc: PendingCompaction)
    ensures Ranges(pending[id := pc]) == Ranges(pending)[id := pc.range]
    ensures Ranges(pending - {id}) == Ranges(pending) - {id}
  {}

  class ConversationLogService {
    const cfg: Config
    const disk: Disk
    var started: bool
    var rl: RollingLog?
    var pendingCompactions: map<PromptId, PendingCompaction>
    var compactionInFlight: bool
    var compactionStartedAt: int
    var prompts: seq<Prompt>
    var dailyLog: seq<string>
    ghost var ledger: Ledger

    ghost predicate Valid()
      reads this, rl
    {
      && (started <==> rl != null)
      && (rl != null ==>
            rl.Valid() && rl.disk == disk
            && rl.compactionThreshold == cfg.compactionThreshold && rl.summaryBudget == cfg.summaryBudget)
      && (forall id <- pendingCompactions :: pendingCompactions[id].rl == rl)
    }

    ghost function State(): World
      reads this, rl, disk, if rl == null then {} else {rl.disk}
    {
      World(Service(started,
                    if rl == null then Log([], [], disk.live) else rl.State(),
                    Ranges(pendingCompactions),
                    compactionInFlight, compactionStartedAt, prompts, disk.archive),
            ledger)
    }

    constructor (cfg: Config, disk: Disk)
      ensures Valid() && this.cfg == cfg && this.disk == disk
      ensures disk.live == None && disk.archive == [] ==> State() == INITIAL
      ensures dailyLog == []
    {
      this.cfg, this.disk := cfg, disk;
      started, rl, pendingCompactions := false, null, map[];
      compactionInFlight, compactionStartedAt, prompts, dailyLog := false, 0, [], [];
      ledger := Ledger([], [], [], [], [], {});
    }

    method Start(readOk: bool)
      requires Valid()
      modifies this
      ensures Valid() && State() == HandleStart(old(State()), readOk)
      ensures dailyLog == old(dailyLog)
    {
      hide Open;
      if started || !readOk { return; }
      rl := new RollingLog(disk, cfg.compactionThreshold, cfg.summaryBudget);
      started := true;
    }

    method Shutdown()
      requires Valid()
      modifies this
      ensures Valid() && State() == HandleShutdown(old(State()))
      ensures dailyLog == old(dailyLog)
    {
      if !started { return; }
      started := false;
      pendingCompactions := map[];
      compactionInFlight := false;
      compactionStartedAt := 0;
      rl := null;
      ledger := DropWaiting(ledger);
    }

    /** The daily log gets every turn, before the rolling log does and whatever that makes of it. */
    method HandleTurn(turn: Turn, now: int, id: PromptId, logOk: bool, appendOk: bool, halfOk: bool)
      requires Valid()
      modifies this, rl, disk`live
      ensures Valid() && State() == ConversationLogSpec.HandleTurn(cfg, old(State()), turn, now, id, appendOk, halfOk)
      ensures dailyLog == old(dailyLog) + Logged(old(State()), TurnArrived(turn, now, id, logOk, appendOk, halfOk))
    {
      hide Blank, SanitizeForRollingLog, Truncate, Print, Contains, HasDelimiters, Trim, Compact, CheckStale;
      if !started || Blank(turn.text) { return; }
      var text := Truncate(SanitizeForRollingLog(turn.text), |turn.text|);
      var entry := turn.time + " [" + RoleOf(turn.origin) + "] " + text;
      assert entry == Entry(turn);
      ghost var before := State();
      if logOk {
        dailyLog := dailyLog + [entry];
      }
      var r := rl.AppendRaw(entry, appendOk);
      if r == Stored {
        ledger := ledger.(history := ledger.history + [Trim(entry, NEWLINES)], raw := ledger.raw + [|ledger.history|]);
      }
      assert (State(), r) == StoreTurn(before, turn, appendOk);
      if r == Stored || r == Ignored {
        var compact := rl.ShouldCompact();
        if compact {
          TriggerCompaction(now, id, halfOk);
        }
      }
    }

    /** The guard is a compare-and-swap, tried again once a stale compaction has been reaped. */
    method TriggerCompaction(now: int, id: PromptId, halfOk: bool)
      requires Valid() && rl != null
      modifies this, rl, disk`live
      ensures rl == old(rl) && Valid()
      ensures State() == ConversationLogSpec.TriggerCompaction(cfg, old(State()), now, id, halfOk)
      ensures dailyLog == old(dailyLog)
    {
      hide CheckStale, Compact;
      if compactionInFlight {
        CheckStaleCompaction(now);
        if compactionInFlight { return; }
      }
      RequestSummary(now, id, halfOk);
    }

    /** The rest of `triggerCompaction`, once the guard is free. */
    method RequestSummary(now: int, id: PromptId, halfOk: bool)
      requires Valid() && rl != null
      modifies this, rl, disk`live
      ensures rl == old(rl) && Valid()
      ensures State() == Compact(old(State()), now, id, halfOk)
      ensures dailyLog == old(dailyLog)
    {
      hide Ranges, ExtractTimeRange, AfterOlderHalf, HalfCount;
      ghost var w, mid := State(), HalfCount(|rl.rawTail|);
      compactionInFlight := true;
      compactionStartedAt := now;
      assert rl.State() == w.s.log;
      var olderHalf, r := rl.OlderHalf(halfOk);
      assert (rl.State(), olderHalf, r) == AfterOlderHalf(w.s.log, halfOk);
      if r == WriteFailed || olderHalf == "" {
        compactionInFlight := false;
        return;
      }
      RangesChange(pendingCompactions, id, PendingCompaction(rl, ExtractTimeRange(olderHalf)));
      pendingCompactions := pendingCompactions[id := PendingCompaction(rl, ExtractTimeRange(olderHalf))];
      prompts := prompts + [Prompt(id, olderHalf)];
      if mid <= |ledger.raw| {
        ledger := ledger.(waiting := ledger.raw[..mid], raw := ledger.raw[mid..]);
      }
    }

    method CheckStaleCompaction(now: int)
      requires Valid()
      modifies this
      ensures rl == old(rl) && Valid() && State() == CheckStale(cfg, old(State()), now)
      ensures dailyLog == old(dailyLog)
    {
      if compactionStartedAt == 0 { return; }
      var age := now - compactionStartedAt;
      if age < cfg.staleTimeout { return; }
      pendingCompactions := map[];
      compactionInFlight := false;
      compactionStartedAt := 0;
      ledger := DropWaiting(ledger);
    }

    /** No check of `started`: the older half is already gone from the raw tail. */
    method HandleCompactionReply(id: PromptId, text: string, io: ReplyIO)
      requires Valid()
      modifies this, rl, disk
      ensures Valid() && State() == HandleReply(cfg, old(State()), id, text, io)
      ensures dailyLog == old(dailyLog) + Logged(old(State()), ReplyArrived(id, text, io))
    {
      hide Blank, FormattedSummary, AfterAppendSummary, Trim, DropWaiting, Cover, ConversationLogSpec.TriggerArchival;
      if id !in pendingCompactions { return; }
      ghost var w := State();
      var pc := pendingCompactions[id];
      RangesChange(pendingCompactions, id, pc);
      pendingCompactions := pendingCompactions - {id};
      compactionInFlight := false;
      compactionStartedAt := 0;
      assert State().s == Release(w.s, id);
      if Blank(text) {
        ledger := DropWaiting(ledger);
        return;
      }
      var summary, r := StoreSummary(pc, text, io);
      RefusedChangesNothing(w.s.log, summary, io.appendOk);
      if r == Rejected || r == WriteFailed {
        ledger := DropWaiting(ledger);
        return;
      }
      ledger := Cover(ledger, Trim(summary, NEWLINES));
      var archive := pc.rl.ShouldArchive();
      if archive {
        TriggerArchival(io);
      }
    }

    /** The header and the cleaned reply go to the rolling log, or failing that to the daily log. */
    method StoreSummary(pc: PendingCompaction, text: string, io: ReplyIO) returns (summary: string, r: Outcome)
      requires Valid() && rl == pc.rl
      modifies rl, disk`live, `dailyLog
      ensures Valid() && summary == FormattedSummary(pc.range, text)
      ensures (rl.State(), r) == AfterAppendSummary(old(rl.State()), summary, io.appendOk)
      ensures disk.archive == old(disk.archive)
      ensures dailyLog == old(dailyLog) + if r in {Rejected, WriteFailed} && io.fallbackOk then [Fallback(pc.range, text)] else []
    {
      hide SanitizeForSummary, Title, AfterAppendSummary;
      var header := HEADER + Title(pc.range);
      summary := header + "\n" + SanitizeForSummary(text);
      r := pc.rl.AppendSummary(summary, io.appendOk);
      if r == Rejected || r == WriteFailed {
        if io.fallbackOk {
          dailyLog := dailyLog + ["[compaction-fallback] " + summary];
        }
      }
    }

    method TriggerArchival(io: ReplyIO)
      requires Valid() && rl != null
      modifies this, rl, disk
      ensures Valid() && State() == ConversationLogSpec.TriggerArchival(cfg, old(State()), io)
      ensures dailyLog == old(dailyLog)
    {
      hide Print;
      var older := rl.OlderSummaries();
      if |older| == 0 { return; }
      var ok := rl.Archive(older, io.archive);
      if !ok { return; }
      var r := rl.CommitArchival(|older|, io.commitOk);
      if r == Stored && |older| <= |ledger.live| {
        ledger := ledger.(archived := ledger.archived + ledger.live[..|older|], live := ledger.live[|older|..]);
      }
    }
  }
}
