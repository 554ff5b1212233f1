/** What each event of the conversation log does to the whole of it, told from the state before: for
    every event, when it does anything, and what it leaves.  No handler is mentioned. */
module ConversationEffects {
  import opened Wrappers
  import opened Text
  import opened LogFormat
  import opened RollingLogSpec
  import opened Sanitize
  import opened ConversationLogSpec
  import opened Conservation
  import SanitizeExact

  // ---------------------------------------------------------------- turns

  /** The guard lets a compaction through: it is free, or its compaction is older than the timeout. */
  predicate GuardOpens(cfg: Config, w: World, now: int) {
    !w.s.inFlight || (w.s.startedAt != 0 && now - w.s.startedAt >= cfg.staleTimeout)
  }

  /** How many entries go of a tail this long: half, rounded down, but one at least. */
  function Half(n: nat): (h: nat)
    ensures h <= n
  {
    if n == 1 then 1 else n / 2
  }

  /** A turn told from what it finds: what is stored, whether compaction is tried and whether it gets
      its older half, and what waits, stays raw and is asked for then. */
  ghost predicate TurnDone(cfg: Config, w: World, turn: Turn, now: int, id: PromptId, appendOk: bool, halfOk: bool, w': World) {
    var entry := Trim(Entry(turn), {'\n'});
    var heard := w.s.started && !Blank(turn.text);
    var stored := heard && TakesRaw(entry) && appendOk;
    var tail := w.s.log.rawTail + if stored then [entry] else [];
    var raw := w.l.raw + if stored then [|w.l.history|] else [];
    var tried := stored && TotalLength(tail) > cfg.compactionThreshold && GuardOpens(cfg, w, now);
    var asked := tried && halfOk;
    var h := if asked then Half(|tail|) else 0;
    && (asked ==> |raw| == |tail|)
    && w'.l.history == w.l.history + (if stored then [entry] else [])
    && w'.s.log.rawTail == tail[h..] && w'.l.raw == raw[h..]
    && w'.s.log.summaries == w.s.log.summaries && w'.l.live == w.l.live
    && w'.s.archive == w.s.archive && w'.l.archived == w.l.archived && w'.s.started == w.s.started
    && (if asked then
          var text := Join(tail[..h], "\n\n");
          && w'.s.pending == map[id := ExtractTimeRange(text)] && w'.l.waiting == raw[..h]
          && w'.s.prompts == w.s.prompts + [Prompt(id, text)]
        else
          && w'.s.prompts == w.s.prompts
          && w'.s.pending == (if tried then map[] else w.s.pending) && w'.l.waiting == if tried then [] else w.l.waiting)
    && w'.s.startedAt == (if tried then now else w.s.startedAt)
    && (w'.s.inFlight <==> w'.s.pending != map[])
  }

  lemma EntryIsNotEmpty(turn: Turn)
    ensures Trim(Entry(turn), {'\n'}) != ""
  {
    hide Truncate, SanitizeForRollingLog, Trim;
    var rest := RoleOf(turn.origin) + "] " + Truncate(SanitizeForRollingLog(turn.text), |turn.text|);
    assert Entry(turn) == turn.time + " [" + rest;
    HasMiddle(turn.time, " [", rest);
  }

  lemma HasMiddle(a: string, b: string, c: string)
    requires b != "" && b[0] != '\n'
    ensures Trim(a + b + c, {'\n'}) != ""
  {
    hide Trim;
    var lo, hi := TrimStretch(a + b + c, {'\n'});
    assert (a + b + c)[|a|] == b[0];
  }

  /** What the invariant says of a running log. */
  lemma RunningLog(w: World)
    requires Inv(w) && w.s.started
    ensures |w.l.raw| == |w.s.log.rawTail|
    ensures forall k :: 0 <= k < |w.s.log.rawTail| ==> w.s.log.rawTail[k] != ""
    ensures (w.s.inFlight <==> w.s.pending != map[]) && (w.s.pending == map[] <==> w.l.waiting == [])
  {
    hide PromptOf, TimeLike, Conserved, InArchive, ParseFile, SummaryEntry, HasDelimiters, Contains, Trimmed;
    EntriesHaveText(w.s.log);
    if w.s.pending == map[] { assert |w.s.pending| == 0; }
  }

  lemma EntriesHaveText(log: Log)
    ensures Settled(log) ==> forall k :: 0 <= k < |log.rawTail| ==> log.rawTail[k] != ""
  {
    hide ParseFile, SummaryEntry, HasDelimiters, Contains, Trimmed, RoundTrips, Reloaded;
  }

  lemma StoredTurn(w: World, turn: Turn, appendOk: bool)
    ensures var (w1, r) := StoreTurn(w, turn, appendOk);
            var entry := Trim(Entry(turn), {'\n'});
            var stored := TakesRaw(entry) && appendOk;
            && (r == Stored <==> stored) && r != Ignored
            && w1.s == w.s.(log := w1.s.log) && w1.s.log.summaries == w.s.log.summaries
            && w1.s.log.rawTail == w.s.log.rawTail + (if stored then [entry] else [])
            && w1.l == w.l.(history := w.l.history + (if stored then [entry] else []),
                            raw := w.l.raw + if stored then [|w.l.history|] else [])
  {
    hide Entry, Trim, AfterAppendRaw, TakesRaw;
    AppendsExactly(w.s.log, Entry(turn), appendOk);
    EntryIsNotEmpty(turn);
    var l := w.l;
    assert w.s.log.rawTail + [] == w.s.log.rawTail && l.history + [] == l.history && l.raw + [] == l.raw;
  }

  /** A compaction that gets past the guard. */
  lemma Compacted(w: World, now: int, id: PromptId, halfOk: bool)
    requires w.s.pending == map[] && |w.l.raw| == |w.s.log.rawTail| > 0
    requires forall k :: 0 <= k < |w.s.log.rawTail| ==> w.s.log.rawTail[k] != ""
    ensures var w', tail := Compact(w, now, id, halfOk), w.s.log.rawTail;
            var h := if halfOk then Half(|tail|) else 0;
            var text := Join(tail[..Half(|tail|)], "\n\n");
            && w'.s == w.s.(startedAt := now, inFlight := halfOk, log := w'.s.log,
                            pending := if halfOk then map[id := ExtractTimeRange(text)] else map[],
                            prompts := w.s.prompts + if halfOk then [Prompt(id, text)] else [])
            && w'.s.log.rawTail == tail[h..] && w'.s.log.summaries == w.s.log.summaries
            && w'.l == w.l.(waiting := if halfOk then w.l.raw[..h] else w.l.waiting, raw := w.l.raw[h..])
  {
    hide Join, AfterOlderHalf, ExtractTimeRange, HalfCount;
    HalvesExactly(w.s.log, halfOk);
    HalfIsHalf(|w.s.log.rawTail|);
    assert w.s.prompts + [] == w.s.prompts && w.l.raw[0..] == w.l.raw && w.s.log.rawTail[0..] == w.s.log.rawTail;
  }

  lemma HalfIsHalf(n: nat)
    ensures HalfCount(n) == Half(n)
  {}

  lemma Reaped(cfg: Config, w: World, now: int)
    ensures var w' := CheckStale(cfg, w, now);
            if w.s.startedAt != 0 && now - w.s.startedAt >= cfg.staleTimeout
            then && w'.s == w.s.(pending := map[], inFlight := false, startedAt := 0)
                 && w'.l == w.l.(dropped := w'.l.dropped, waiting := [])
            else w' == w
  {}

  lemma OneRequest(id: PromptId, range: Pending)
    ensures map[id := range] != map[]
  {
    assert id in map[id := range];
  }

  lemma LongTailIsThere(tail: seq<string>, threshold: nat)
    ensures TotalLength(tail) > threshold ==> tail != []
  {}

  /** The compaction a turn brings about, from the state in which the turn has been stored. */
  lemma Triggered(cfg: Config, w: World, now: int, id: PromptId, halfOk: bool)
    requires |w.l.raw| == |w.s.log.rawTail| > 0
    requires (w.s.inFlight <==> w.s.pending != map[]) && (w.s.pending == map[] <==> w.l.waiting == [])
    requires forall k :: 0 <= k < |w.s.log.rawTail| ==> w.s.log.rawTail[k] != ""
    ensures var w', tail, opens := TriggerCompaction(cfg, w, now, id, halfOk), w.s.log.rawTail, GuardOpens(cfg, w, now);
            var asked := opens && halfOk;
            var h := if asked then Half(|tail|) else 0;
            var text := Join(tail[..Half(|tail|)], "\n\n");
            && w'.s == w.s.(startedAt := if opens then now else w.s.startedAt, inFlight := if opens then halfOk else w.s.inFlight,
                            log := w'.s.log,
                            pending := if asked then map[id := ExtractTimeRange(text)] else if opens then map[] else w.s.pending,
                            prompts := w.s.prompts + if asked then [Prompt(id, text)] else [])
            && w'.s.log.rawTail == tail[h..] && w'.s.log.summaries == w.s.log.summaries
            && w'.l == w.l.(dropped := w'.l.dropped, raw := w.l.raw[h..],
                            waiting := if asked then w.l.raw[..h] else if opens then [] else w.l.waiting)
            && (w'.s.inFlight <==> w'.s.pending != map[])
  {
    hide Join, Compact, CheckStale, ExtractTimeRange;
    OneRequest(id, ExtractTimeRange(Join(w.s.log.rawTail[..Half(|w.s.log.rawTail|)], "\n\n")));
    assert w.s.prompts + [] == w.s.prompts && w.l.raw[0..] == w.l.raw && w.s.log.rawTail[0..] == w.s.log.rawTail;
    if !w.s.inFlight {
      Compacted(w, now, id, halfOk);
    } else {
      Reaped(cfg, w, now);
      var cleared := CheckStale(cfg, w, now);
      if !cleared.s.inFlight { Compacted(cleared, now, id, halfOk); }
    }
  }

  /** A turn is stored exactly when the log runs, the text is not blank, the entry is taken and the
      write goes through.  A compaction is requested under its ID exactly when, besides, the tail is over
      the threshold, the guard is free or stale and the older half can be written: then the first half of
      the raw entries waits, the rest is raw, and the last prompt has that ID and quotes what waits. */
  lemma TurnExactly(cfg: Config, w: World, turn: Turn, now: int, id: PromptId, logOk: bool, appendOk: bool, halfOk: bool)
    requires Inv(w)
    ensures TurnDone(cfg, w, turn, now, id, appendOk, halfOk, Step(cfg, w, TurnArrived(turn, now, id, logOk, appendOk, halfOk)))
  {
    hide Inv, Blank, Entry, Trim, TakesRaw, StoreTurn, TriggerCompaction, TotalLength, Join, ExtractTimeRange, GuardOpens;
    QuietWorld(w);
    if w.s.started && !Blank(turn.text) {
      RunningLog(w);
      StoredTurn(w, turn, appendOk);
      EntryIsNotEmpty(turn);
      var w1 := StoreTurn(w, turn, appendOk).0;
      SameGuard(cfg, w, w1, now);
      LongTailIsThere(w1.s.log.rawTail, cfg.compactionThreshold);
      if w1.s.log.rawTail != [] { Triggered(cfg, w1, now, id, halfOk); }
      assert w1.s.log.rawTail[0..] == w1.s.log.rawTail && w1.l.raw[0..] == w1.l.raw;
      assert w.s.prompts + [] == w.s.prompts;
    } else {
      assert w.s.log.rawTail + [] == w.s.log.rawTail && w.l.history + [] == w.l.history && w.l.raw + [] == w.l.raw;
      assert w.s.log.rawTail[0..] == w.s.log.rawTail && w.l.raw[0..] == w.l.raw;
    }
  }

  lemma SameGuard(cfg: Config, w: World, w1: World, now: int)
    requires w1.s == w.s.(log := w1.s.log)
    ensures GuardOpens(cfg, w1, now) == GuardOpens(cfg, w, now)
  {}

  lemma QuietWorld(w: World)
    requires Inv(w)
    ensures w.s.inFlight <==> w.s.pending != map[]
  {
    hide MemoryMirrorsFile, PromptCarriesWaiting, LedgerMatches, Conserved;
    if w.s.pending == map[] { assert |w.s.pending| == 0; }
  }

  /** In short: with a fresh ID, that ID is pending afterwards if and only if all of this holds. */
  lemma TurnAsksExactly(cfg: Config, w: World, turn: Turn, now: int, id: PromptId, logOk: bool, appendOk: bool, halfOk: bool)
    requires Inv(w) && id !in w.s.pending
    ensures var entry := Trim(Entry(turn), {'\n'});
            id in Step(cfg, w, TurnArrived(turn, now, id, logOk, appendOk, halfOk)).s.pending <==>
              && w.s.started && !Blank(turn.text) && TakesRaw(entry) && appendOk
              && TotalLength(w.s.log.rawTail + [entry]) > cfg.compactionThreshold
              && GuardOpens(cfg, w, now) && halfOk
  {
    hide Inv, Blank, Entry, Trim, TakesRaw, TotalLength, Join, ExtractTimeRange, GuardOpens, Step;
    TurnExactly(cfg, w, turn, now, id, logOk, appendOk, halfOk);
  }

  // ---------------------------------------------------------------- replies

  /** The summary of a reply: a header with the time range of what waited, and the cleaned reply. */
  function SummaryText(range: Pending, reply: string): string {
    "### [summary] " + range.startTime + " \U{00E2}\U{0080}\U{0093} " + range.endTime + "\n" + SanitizeForSummary(reply)
  }

  lemma SummaryTextIs(range: Pending, reply: string)
    ensures FormattedSummary(range, reply) == SummaryText(range, reply)
    ensures Fallback(range, reply) == "[compaction-fallback] " + SummaryText(range, reply)
  {
    hide SanitizeForSummary;
    var a, dash, b := range.startTime, " \U{00E2}\U{0080}\U{0093} ", range.endTime;
    assert "### " + "[summary] " == "### [summary] ";
    assert "### " + ("[summary] " + a + dash + b) == "### [summary] " + a + dash + b;
  }

  /** How many of the oldest summaries have to go for the rest to fit the budget. */
  ghost predicate LeastOver(summaries: seq<string>, budget: nat, n: nat) {
    && n <= |summaries| && TotalLength(summaries[n..]) <= budget
    && forall k :: 0 <= k < n ==> TotalLength(summaries[k..]) > budget
  }

  /** A reply told from what it finds: whether its request is pending, whether its summary is stored,
      and how many summaries are archived and taken off. */
  ghost predicate ReplyDone(cfg: Config, w: World, id: PromptId, text: string, io: ReplyIO, n: nat, w': World)
    requires id in w.s.pending
  {
    var t := Trim(SummaryText(w.s.pending[id], text), {'\n'});
    var stored := !Blank(text) && TakesSummary(t) && io.appendOk;
    var summaries := w.s.log.summaries + if stored then [t] else [];
    var live := w.l.live + if stored then [Covered(t, w.l.waiting)] else [];
    var gone := if io.archive == Archived && io.commitOk then n else 0;
    && (if stored then LeastOver(summaries, cfg.summaryBudget, n) else n == 0)
    && |summaries| == |live|
    && w'.s.pending == map[] && !w'.s.inFlight && w'.s.startedAt == 0 && w'.s.started == w.s.started
    && w'.s.prompts == w.s.prompts && w'.s.log.rawTail == w.s.log.rawTail
    && w'.s.archive == w.s.archive + (if n > 0 && io.archive != NotArchived then [summaries[..n]] else [])
    && w'.s.log.summaries == summaries[gone..]
    && w'.l.live == live[gone..] && w'.l.archived == w.l.archived + live[..gone]
    && w'.l.waiting == [] && w'.l.raw == w.l.raw && w'.l.history == w.l.history
    && (stored ==> w'.l.dropped == w.l.dropped)
  }

  lemma LeastIsOver(summaries: seq<string>, budget: nat)
    ensures LeastOver(summaries, budget, OverBudget(summaries, budget))
    ensures TotalLength(summaries) <= budget ==> OverBudget(summaries, budget) == 0
  {
    hide TotalLength;
    OverBudgetIsLeast(summaries, budget);
    if TotalLength(summaries) <= budget { assert summaries[0..] == summaries; }
  }

  lemma ArchivedExactly(cfg: Config, w: World, io: ReplyIO)
    requires |w.s.log.summaries| == |w.l.live|
    ensures var n := OverBudget(w.s.log.summaries, cfg.summaryBudget);
            var gone := if io.archive == Archived && io.commitOk then n else 0;
            var w' := TriggerArchival(cfg, w, io);
            && w'.s == w.s.(log := w'.s.log, archive := w.s.archive + if n > 0 && io.archive != NotArchived then [w.s.log.summaries[..n]] else [])
            && w'.s.log.summaries == w.s.log.summaries[gone..] && w'.s.log.rawTail == w.s.log.rawTail
            && w'.l == w.l.(live := w.l.live[gone..], archived := w.l.archived + w.l.live[..gone])
  {
    hide Print, OverBudget;
    assert w.s.archive + [] == w.s.archive && w.l.live[0..] == w.l.live && w.l.archived + w.l.live[..0] == w.l.archived;
    assert w.s.log.summaries[0..] == w.s.log.summaries;
  }

  lemma LiveMatches(w: World, id: PromptId)
    requires Inv(w) && id in w.s.pending
    ensures |w.s.log.summaries| == |w.l.live| && w.s.pending - {id} == map[]
  {
    hide Settled, ParseFile, PromptCarriesWaiting, Conserved, Shows, InArchive;
    PendingFacts(w, id);
    OnePending(w.s, id);
  }

  /** A reply does something exactly when its request is pending.  Its summary is stored exactly when the
      reply is not blank, the summary is taken and the write goes through; it covers what waited and is
      the newest.  Then as many of the oldest summaries as are over the budget, and no more, are archived,
      and taken off the log exactly when that write and the commit succeed.  The guard is free again. */
  lemma ReplyExactly(cfg: Config, w: World, id: PromptId, text: string, io: ReplyIO) returns (n: nat)
    requires Inv(w)
    ensures var w' := Step(cfg, w, ReplyArrived(id, text, io));
            if id in w.s.pending then ReplyDone(cfg, w, id, text, io, n, w') else w' == w
  {
    hide Inv, Blank, Trim, TakesSummary, SummaryText, FormattedSummary, AfterAppendSummary, ReplyDone, HandleReply, TimeLike, Settled;
    n := 0;
    if id in w.s.pending {
      LiveMatches(w, id);
      PendingFacts(w, id);
      SummaryTextIs(w.s.pending[id], text);
      SummaryNotIgnored(w, id, text, io);
      if !Blank(text) && TakesSummary(Trim(SummaryText(w.s.pending[id], text), {'\n'})) && io.appendOk {
        n := StoredReply(cfg, w, id, text, io);
      } else {
        LostReply(cfg, w, id, text, io);
      }
    } else {
      UnknownReply(cfg, w, id, text, io);
    }
  }

  lemma UnknownReply(cfg: Config, w: World, id: PromptId, text: string, io: ReplyIO)
    requires id !in w.s.pending
    ensures HandleReply(cfg, w, id, text, io) == w
  {}

  lemma LostReply(cfg: Config, w: World, id: PromptId, text: string, io: ReplyIO)
    requires id in w.s.pending && |w.s.log.summaries| == |w.l.live| && w.s.pending - {id} == map[]
    requires FormattedSummary(w.s.pending[id], text) == SummaryText(w.s.pending[id], text)
    requires AfterAppendSummary(w.s.log, FormattedSummary(w.s.pending[id], text), io.appendOk).1 != Ignored
    requires !(!Blank(text) && TakesSummary(Trim(SummaryText(w.s.pending[id], text), {'\n'})) && io.appendOk)
    ensures ReplyDone(cfg, w, id, text, io, 0, HandleReply(cfg, w, id, text, io))
  {
    hide Blank, Trim, TakesSummary, SummaryText, FormattedSummary, AfterAppendSummary, Elements, TriggerArchival, TotalLength;
    AppendsExactly(w.s.log, FormattedSummary(w.s.pending[id], text), io.appendOk);
    assert w.s.log.summaries + [] == w.s.log.summaries && w.l.live + [] == w.l.live;
    Whole(w);
  }

  lemma StoredReply(cfg: Config, w: World, id: PromptId, text: string, io: ReplyIO) returns (n: nat)
    requires id in w.s.pending && |w.s.log.summaries| == |w.l.live| && w.s.pending - {id} == map[]
    requires FormattedSummary(w.s.pending[id], text) == SummaryText(w.s.pending[id], text)
    requires !Blank(text) && TakesSummary(Trim(SummaryText(w.s.pending[id], text), {'\n'})) && io.appendOk
    ensures ReplyDone(cfg, w, id, text, io, n, HandleReply(cfg, w, id, text, io))
  {
    hide Blank, Trim, TakesSummary, SummaryText, FormattedSummary, AfterAppendSummary, TriggerArchival, TotalLength, OverBudget, LeastOver;
    var summary := FormattedSummary(w.s.pending[id], text);
    AppendsExactly(w.s.log, summary, true);
    var covered := World(Release(w.s, id).(log := AfterAppendSummary(w.s.log, summary, true).0), Cover(w.l, Trim(summary, {'\n'})));
    LeastIsOver(covered.s.log.summaries, cfg.summaryBudget);
    n := OverBudget(covered.s.log.summaries, cfg.summaryBudget);
    ArchivedExactly(cfg, covered, io);
    Whole(covered);
    assert HandleReply(cfg, w, id, text, io) == if TotalLength(covered.s.log.summaries) > cfg.summaryBudget then TriggerArchival(cfg, covered, io) else covered;
  }

  lemma Whole(w: World)
    ensures w.s.log.summaries[0..] == w.s.log.summaries && w.l.live[0..] == w.l.live && w.l.archived + w.l.live[..0] == w.l.archived
    ensures w.s.archive + [] == w.s.archive
  {}

  // ---------------------------------------------------------------- the daily log

  /** What goes to the daily log: every turn heard, and every summary the rolling log would not take or
      could not write, as long as the write to the daily log succeeds. */
  lemma LoggedExactly(w: World, e: Event)
    requires e.ReplyArrived? ==> Inv(w)
    ensures Logged(w, e)
         == if e.TurnArrived? && w.s.started && !Blank(e.turn.text) && e.logOk then [Entry(e.turn)]
            else if e.ReplyArrived? && e.replyTo in w.s.pending && !Blank(e.text) && e.io.fallbackOk
                    && !(TakesSummary(Trim(SummaryText(w.s.pending[e.replyTo], e.text), {'\n'})) && e.io.appendOk)
            then ["[compaction-fallback] " + SummaryText(w.s.pending[e.replyTo], e.text)]
            else []
  {
    hide Inv, Blank, Entry, Trim, TakesSummary, SummaryText, FormattedSummary, AfterAppendSummary, Fallback;
    if e.ReplyArrived? && e.replyTo in w.s.pending {
      SummaryTextIs(w.s.pending[e.replyTo], e.text);
      AppendsExactly(w.s.log, FormattedSummary(w.s.pending[e.replyTo], e.text), e.io.appendOk);
      SummaryNotIgnored(w, e.replyTo, e.text, e.io);
    }
  }

  // ---------------------------------------------------------------- starting and stopping

  /** A shutdown, and a crash: nothing is in memory any more, what waited is given up, and file, archive
      and the rest of the ledger are as they were.  A start: the log is what its file reads as, unless it
      was running or cannot be read. */
  lemma LifeExactly(cfg: Config, w: World, e: Event)
    requires Inv(w) && (e.ShutDown? || e.Crash? || e.StartUp?)
    ensures var w' := Step(cfg, w, e);
            && w'.s.log.file == w.s.log.file && w'.s.archive == w.s.archive && w'.s.prompts == w.s.prompts
            && (w'.s.started <==> e.StartUp? && (w.s.started || e.readOk))
            && (if w'.s.started then w'.s.log == Open(w.s.log.file) else w'.s.log == Log([], [], w.s.log.file))
            && (if e.StartUp? then w'.l == w.l && w'.s.pending == w.s.pending && w'.s.inFlight == w.s.inFlight
                else && w'.s.pending == map[] && !w'.s.inFlight
                     && w'.l == w.l.(dropped := w.l.dropped + (set i | i in w.l.waiting), waiting := []))
  {
    hide Settled, ParseFile, PromptOf, TimeLike, LedgerMatches, Conserved;
    assert (set i | i in w.l.waiting) == Elements(w.l.waiting);
    if e.ShutDown? && !w.s.started {
      assert w.s.pending == map[] && w.l.waiting == [];
      assert w.l.dropped + {} == w.l.dropped && Elements([]) == {};
      assert |w.s.pending| == 0;
    }
  }

  // ---------------------------------------------------------------- entries

  /** How a turn of one plain line looks in the log. */
  lemma PlainEntry(turn: Turn)
    requires '\r' !in turn.text && '<' !in turn.text && '\n' !in turn.text && |turn.text| <= 65536
    ensures var role := match turn.origin
                        case User => "user"
                        case AI => "ai"
                        case Tool => "tool"
                        case System => "system"
                        case Other => "unknown";
            Entry(turn) == turn.time + " [" + role + "] " + turn.text
  {
    hide SanitizeForRollingLog;
    SanitizeExact.PlainLineStays(turn.text);
  }

  // ---------------------------------------------------------------- blank text

  lemma SpacesAreNotText(s: string)
    ensures SpaceLength(s) <= |s| ==> forall i :: 0 <= i < SpaceLength(s) ==> !('!' <= s[i] <= '~')
  {}

  /** Text with any visible ASCII character is not blank; ASCII spaces alone are. */
  lemma {:induction false} BlankText(s: string)
    ensures (exists i :: 0 <= i < |s| && '!' <= s[i] <= '~') ==> !Blank(s)
    ensures (forall i :: 0 <= i < |s| ==> s[i] in "\t\n\U{000B}\U{000C}\r ") ==> Blank(s)
    decreases |s|
  {
    hide SpaceLength;
    SpacesAreNotText(s);
    AsciiSpace(s);
    var k := SpaceLength(s);
    if s != "" && 0 < k <= |s| {
      BlankText(s[k..]);
      if i :| 0 <= i < |s| && '!' <= s[i] <= '~' { assert s[k..][i - k] == s[i]; }
      if forall i :: 0 <= i < |s| ==> s[i] in "\t\n\U{000B}\U{000C}\r " {
        forall i | 0 <= i < |s[k..]| ensures s[k..][i] in "\t\n\U{000B}\U{000C}\r " { assert s[k..][i] == s[i + k]; }
      }
    }
  }

  lemma AsciiSpace(s: string)
    ensures s != "" && s[0] in "\t\n\U{000B}\U{000C}\r " ==> SpaceLength(s) == 1
  {}
}
