/** Over every run of the conversation log no stored entry is lost silently: each is archived,
    summarized, waiting for a summary, still raw, or dropped by one of a few named events. */
module Conservation {
  import opened Wrappers
  import opened Text
  import opened LogFormat
  import opened RollingLogSpec
  import opened Sanitize
  import opened ConversationLogSpec

  // ---------------------------------------------------------------- what is accounted for

  function EntriesOf(covered: seq<Covered>): seq<nat> {
    if covered == [] then [] else covered[0].entries + EntriesOf(covered[1..])
  }

  /** Oldest first: archived, summarized, waiting, raw. */
  function Accounted(l: Ledger): seq<nat> {
    EntriesOf(l.archived) + EntriesOf(l.live) + l.waiting + l.raw
  }

  /** The numbers below n that are not dropped, in order. */
  function Survivors(n: nat, dropped: set<nat>): seq<nat> {
    if n == 0 then [] else Survivors(n - 1, dropped) + (if n - 1 in dropped then [] else [n - 1])
  }

  ghost predicate Shows(lines: seq<string>, history: seq<string>, ids: seq<nat>) {
    |lines| == |ids| && forall i :: 0 <= i < |ids| ==> ids[i] < |history| && lines[i] == history[ids[i]]
  }

  ghost predicate Summarizes(summaries: seq<string>, live: seq<Covered>) {
    |summaries| == |live| && forall i :: 0 <= i < |live| ==> summaries[i] == live[i].summary
  }

  ghost predicate InArchive(archive: seq<seq<string>>, summary: string) {
    exists k :: 0 <= k < |archive| && summary in archive[k]
  }

  /** The file reads back as exactly these lists. */
  ghost predicate Settled(log: Log) {
    Durable(log) && RoundTrips(log.summaries)
  }

  /** The guard is set exactly when a compaction is pending, and never more than one is. */
  ghost predicate GuardExact(s: Service) {
    |s.pending| == if s.inFlight then 1 else 0
  }

  /** What the memory holds is what the file holds. */
  ghost predicate MemoryMirrorsFile(s: Service) {
    && Settled(Open(s.log.file))
    && s.log == if s.started then Open(s.log.file) else Log([], [], s.log.file)
  }

  ghost predicate PromptCarriesWaiting(w: World) {
    && (w.s.pending == map[] <==> w.l.waiting == [])
    && (forall id <- w.s.pending :: TimeLike(w.s.pending[id].startTime) && TimeLike(w.s.pending[id].endTime))
    && (w.l.waiting != [] ==> exists lines :: PromptOf(w, lines))
  }

  /** The last prompt went out for the pending compaction and quotes the waiting entries. */
  ghost predicate PromptOf(w: World, lines: seq<string>) {
    && |w.s.prompts| > 0 && w.s.prompts[|w.s.prompts| - 1].id in w.s.pending
    && Shows(lines, w.l.history, w.l.waiting)
    && w.s.prompts[|w.s.prompts| - 1].text == Join(lines, SUMMARY_JOIN)
  }

  ghost predicate LedgerMatches(w: World) {
    var onFile := Open(w.s.log.file);
    && Shows(onFile.rawTail, w.l.history, w.l.raw)
    && Summarizes(onFile.summaries, w.l.live)
    && (forall k :: 0 <= k < |w.l.archived| ==> InArchive(w.s.archive, w.l.archived[k].summary))
  }

  ghost predicate Conserved(l: Ledger) {
    Accounted(l) == Survivors(|l.history|, l.dropped) && forall d <- l.dropped :: d < |l.history|
  }

  ghost predicate Inv(w: World) {
    && GuardExact(w.s) && MemoryMirrorsFile(w.s) && (!w.s.started ==> w.s.pending == map[])
    && PromptCarriesWaiting(w) && LedgerMatches(w) && Conserved(w.l)
  }

  // ---------------------------------------------------------------- sequences of entry numbers

  lemma {:induction false} EntriesConcat(a: seq<Covered>, b: seq<Covered>)
    ensures EntriesOf(a + b) == EntriesOf(a) + EntriesOf(b)
  {
    if a == [] {
      assert a + b == b;
    } else {
      assert (a + b)[1..] == a[1..] + b;
      EntriesConcat(a[1..], b);
    }
  }

  function Without(ids: seq<nat>, gone: set<nat>): seq<nat> {
    if ids == [] then [] else
      Without(ids[..|ids| - 1], gone) + (if ids[|ids| - 1] in gone then [] else [ids[|ids| - 1]])
  }

  lemma {:induction false} WithoutConcat(a: seq<nat>, b: seq<nat>, gone: set<nat>)
    ensures Without(a + b, gone) == Without(a, gone) + Without(b, gone)
  {
    if b == [] {
      assert a + b == a;
    } else {
      assert (a + b)[..|a + b| - 1] == a + b[..|b| - 1];
      WithoutConcat(a, b[..|b| - 1], gone);
    }
  }

  lemma {:induction false} WithoutNone(ids: seq<nat>, gone: set<nat>)
    requires forall i :: 0 <= i < |ids| ==> ids[i] !in gone
    ensures Without(ids, gone) == ids
  {
    if ids != [] {
      WithoutNone(ids[..|ids| - 1], gone);
      assert ids == ids[..|ids| - 1] + [ids[|ids| - 1]];
    }
  }

  lemma {:induction false} WithoutAll(ids: seq<nat>, gone: set<nat>)
    requires forall i :: 0 <= i < |ids| ==> ids[i] in gone
    ensures Without(ids, gone) == []
  {
    if ids != [] { WithoutAll(ids[..|ids| - 1], gone); }
  }

  lemma {:induction false} SurvivorsDrop(n: nat, dropped: set<nat>, gone: set<nat>)
    ensures Survivors(n, dropped + gone) == Without(Survivors(n, dropped), gone)
  {
    if n > 0 {
      SurvivorsDrop(n - 1, dropped, gone);
      var rest := Survivors(n - 1, dropped);
      if n - 1 !in dropped {
        assert (rest + [n - 1])[..|rest + [n - 1]| - 1] == rest;
      } else {
        assert rest + [] == rest;
      }
    }
  }

  ghost predicate Increasing(s: seq<nat>, n: nat, dropped: set<nat>) {
    && (forall i :: 0 <= i < |s| ==> s[i] < n && s[i] !in dropped)
    && (forall i, j :: 0 <= i < j < |s| ==> s[i] < s[j])
  }

  lemma {:induction false} SurvivorsIncrease(n: nat, dropped: set<nat>)
    ensures Increasing(Survivors(n, dropped), n, dropped)
  {
    if n > 0 {
      SurvivorsIncrease(n - 1, dropped);
      var rest := Survivors(n - 1, dropped);
      assert n - 1 !in dropped ==> Increasing(rest + [n - 1], n, dropped);
      assert rest + [] == rest;
    }
  }

  // ---------------------------------------------------------------- ledger steps

  lemma DropMiddle(n: nat, dropped: set<nat>, before: seq<nat>, mid: seq<nat>, after: seq<nat>)
    requires before + mid + after == Survivors(n, dropped)
    ensures before + after == Survivors(n, dropped + Elements(mid))
    ensures forall i :: 0 <= i < |mid| ==> mid[i] < n && mid[i] !in dropped
  {
    hide Survivors, Without;
    var all, gone := before + mid + after, Elements(mid);
    SurvivorsIncrease(n, dropped);
    assert forall i :: 0 <= i < |before| ==> before[i] == all[i];
    assert forall i :: 0 <= i < |mid| ==> mid[i] == all[|before| + i];
    assert forall i :: 0 <= i < |after| ==> after[i] == all[|before| + |mid| + i];
    forall i | 0 <= i < |before| ensures before[i] !in gone {
      forall k | 0 <= k < |mid| ensures before[i] != mid[k] { assert all[i] < all[|before| + k]; }
    }
    forall i | 0 <= i < |after| ensures after[i] !in gone {
      forall k | 0 <= k < |mid| ensures after[i] != mid[k] { assert all[|before| + k] < all[|before| + |mid| + i]; }
    }
    WithoutNone(before, gone);
    WithoutNone(after, gone);
    WithoutAll(mid, gone);
    WithoutConcat(before, mid, gone);
    WithoutConcat(before + mid, after, gone);
    SurvivorsDrop(n, dropped, gone);
    assert before + [] == before;
  }

  /** Dropping the waiting entries takes out exactly those, and keeps the rest in order. */
  lemma DropConserves(l: Ledger)
    requires Conserved(l)
    ensures Conserved(DropWaiting(l)) && DropWaiting(l).dropped - l.dropped == Elements(l.waiting)
  {
    hide Survivors;
    var before := EntriesOf(l.archived) + EntriesOf(l.live);
    DropMiddle(|l.history|, l.dropped, before, l.waiting, l.raw);
    assert before + [] + l.raw == before + l.raw;
  }

  lemma StoreConserves(l: Ledger, entry: string)
    requires Conserved(l)
    ensures Conserved(l.(history := l.history + [entry], raw := l.raw + [|l.history|]))
  {
    var l' := l.(history := l.history + [entry], raw := l.raw + [|l.history|]);
    var pre := EntriesOf(l.archived) + EntriesOf(l.live) + l.waiting;
    assert pre + (l.raw + [|l.history|]) == pre + l.raw + [|l.history|];
    assert |l.history| !in l.dropped;
  }

  lemma WaitConserves(l: Ledger, mid: nat)
    requires Conserved(l) && l.waiting == [] && mid <= |l.raw|
    ensures Conserved(l.(waiting := l.raw[..mid], raw := l.raw[mid..]))
  {
    var pre := EntriesOf(l.archived) + EntriesOf(l.live);
    assert pre + l.raw[..mid] + l.raw[mid..] == pre + [] + l.raw by {
      assert l.raw[..mid] + l.raw[mid..] == l.raw;
    }
  }

  lemma CoverConserves(l: Ledger, summary: string)
    requires Conserved(l)
    ensures Conserved(Cover(l, summary))
  {
    hide Survivors;
    var c := [Covered(summary, l.waiting)];
    EntriesConcat(l.live, c);
    assert EntriesOf(c) == l.waiting by { assert c[1..] == []; }
    Regroup(EntriesOf(l.archived), EntriesOf(l.live), l.waiting, l.raw);
  }

  lemma Regroup(a: seq<nat>, b: seq<nat>, c: seq<nat>, d: seq<nat>)
    ensures a + (b + c) + [] + d == a + b + c + d
    ensures (a + b) + c + d == a + (b + c) + d
  {}

  lemma ArchiveConserves(l: Ledger, n: nat)
    requires Conserved(l) && n <= |l.live|
    ensures Conserved(l.(archived := l.archived + l.live[..n], live := l.live[n..]))
  {
    hide Survivors;
    EntriesConcat(l.archived, l.live[..n]);
    EntriesConcat(l.live[..n], l.live[n..]);
    assert l.live[..n] + l.live[n..] == l.live;
    var a, b, c := EntriesOf(l.archived), EntriesOf(l.live[..n]), EntriesOf(l.live[n..]);
    assert a + b + c + l.waiting + l.raw == a + (b + c) + l.waiting + l.raw;
  }

  // ---------------------------------------------------------------- the log stays settled

  lemma SettledReopens(log: Log)
    requires Settled(log)
    ensures Open(log.file) == log
  {
    hide Durable, RoundTrips;
    Restart(log);
  }

  lemma StoreKeepsSettled(log: Log, text: string, diskOk: bool)
    requires Settled(log)
    ensures Settled(AfterAppendRaw(log, text, diskOk).0)
  {
    hide Durable, Contains, HasDelimiters, Trim, Print;
    OperationsKeepDurable(log, text, 0, diskOk);
  }

  lemma SplitKeepsSettled(log: Log, n: int, diskOk: bool)
    requires Settled(log)
    ensures Settled(AfterOlderHalf(log, diskOk).0) && Settled(AfterCommitArchival(log, n, diskOk).0)
  {
    hide Durable, Print, Join;
    OperationsKeepDurable(log, "", n, diskOk);
  }

  lemma TitleIsPlain(p: Pending)
    requires TimeLike(p.startTime) && TimeLike(p.endTime)
    ensures PlainLine(Title(p))
  {}

  lemma SummaryKeepsSettled(log: Log, p: Pending, reply: string, diskOk: bool)
    requires Settled(log) && TimeLike(p.startTime) && TimeLike(p.endTime)
    ensures Settled(AfterAppendSummary(log, FormattedSummary(p, reply), diskOk).0)
    ensures AfterAppendSummary(log, FormattedSummary(p, reply), diskOk).1 != Ignored
  {
    hide Durable, Contains, HasDelimiters, Trim, Print, Title, HasPrefix, SanitizeForSummary, PlainLine, StripTags, NormalizeCR;
    var text := FormattedSummary(p, reply);
    OperationsKeepDurable(log, text, 0, diskOk);
    TitleIsPlain(p);
    SummaryAccepted(log, Title(p), reply, diskOk);
  }

  // ---------------------------------------------------------------- handlers keep the invariant

  lemma StoreEntryInv(w: World, entry: string, appendOk: bool)
    requires Inv(w) && w.s.started
    ensures Inv(StoreEntry(w, entry, appendOk).0)
  {
    hide Settled, Trim, Contains, HasDelimiters, Print, ParseFile, Accounted, Survivors, Join, TimeLike;
    var (w', r) := StoreEntry(w, entry, appendOk);
    StoreKeepsSettled(w.s.log, entry, appendOk);
    SettledReopens(w'.s.log);
    if r == Stored {
      StoreConserves(w.l, Trim(entry, NEWLINES));
    }
    if w.l.waiting != [] {
      var lines :| PromptOf(w, lines);
      assert PromptOf(w', lines);
    }
  }

  lemma CheckStaleInv(cfg: Config, w: World, now: int)
    requires Inv(w)
    ensures Inv(CheckStale(cfg, w, now))
  {
    hide MemoryMirrorsFile, LedgerMatches, Conserved, PromptOf;
    DropConserves(w.l);
    var w' := CheckStale(cfg, w, now);
    assert MemoryMirrorsFile(w'.s) && LedgerMatches(w') by { SameFile(w, w'); }
  }

  /** Both predicates look only at the file, the lists and the ledger entries they name. */
  lemma SameFile(w: World, w': World)
    requires w.s.log == w'.s.log && w.s.started == w'.s.started && w.s.archive == w'.s.archive
    requires w.l.history == w'.l.history && w.l.archived == w'.l.archived && w.l.live == w'.l.live && w.l.raw == w'.l.raw
    ensures MemoryMirrorsFile(w.s) == MemoryMirrorsFile(w'.s) && LedgerMatches(w) == LedgerMatches(w')
  {
    hide Settled, ParseFile, Shows, Summarizes, InArchive;
  }

  lemma CompactInv(w: World, now: int, id: PromptId, halfOk: bool)
    requires Inv(w) && w.s.started && !w.s.inFlight
    ensures Inv(Compact(w, now, id, halfOk))
  {
    hide Settled, Print, ParseFile, Accounted, Survivors, Join, TimeLike, ExtractTimeRange;
    var w' := Compact(w, now, id, halfOk);
    var (log, text, r) := AfterOlderHalf(w.s.log, halfOk);
    SplitKeepsSettled(w.s.log, 0, halfOk);
    SettledReopens(log);
    assert w.s.pending == map[];
    if r == WriteFailed || text == "" {
      OlderHalfNonEmpty(w.s.log, halfOk);
      SameFile(w, w');
    } else {
      var mid := HalfCount(|w.s.log.rawTail|);
      WaitConserves(w.l, mid);
      assert w'.s.pending == map[id := ExtractTimeRange(text)];
      assert PromptOf(w', w.s.log.rawTail[..mid]);
    }
  }

  lemma OlderHalfNonEmpty(log: Log, diskOk: bool)
    requires Settled(log)
    ensures var (log', text, r) := AfterOlderHalf(log, diskOk);
            (r == Stored) == (text != "") && (r != Stored ==> log' == log)
  {
    hide Print, ParseFile, Contains, HasDelimiters, SummaryEntry;
    var mid := HalfCount(|log.rawTail|);
    if mid > 0 { JoinTrimmed(log.rawTail[..mid], SUMMARY_JOIN); }
  }

  lemma TriggerCompactionInv(cfg: Config, w: World, now: int, id: PromptId, halfOk: bool)
    requires Inv(w) && w.s.started
    ensures Inv(TriggerCompaction(cfg, w, now, id, halfOk))
  {
    hide Inv, Compact, DropWaiting;
    if !w.s.inFlight {
      CompactInv(w, now, id, halfOk);
    } else {
      CheckStaleInv(cfg, w, now);
      var cleared := CheckStale(cfg, w, now);
      if !cleared.s.inFlight { CompactInv(cleared, now, id, halfOk); }
    }
  }

  lemma ArchiveGrows(archive: seq<seq<string>>, more: seq<seq<string>>, summary: string)
    requires archive <= more && InArchive(archive, summary)
    ensures InArchive(more, summary)
  {
    var k :| 0 <= k < |archive| && summary in archive[k];
    assert more[k] == archive[k];
  }

  lemma TriggerArchivalInv(cfg: Config, w: World, io: ReplyIO)
    requires Inv(w) && w.s.started
    ensures Inv(TriggerArchival(cfg, w, io))
  {
    hide Settled, Print, ParseFile, Accounted, Survivors, Join, TimeLike, PromptOf;
    var w' := TriggerArchival(cfg, w, io);
    var n := OverBudget(w.s.log.summaries, cfg.summaryBudget);
    SplitKeepsSettled(w.s.log, n, io.commitOk);
    SettledReopens(AfterCommitArchival(w.s.log, n, io.commitOk).0);
    forall k | 0 <= k < |w.l.archived| ensures InArchive(w'.s.archive, w.l.archived[k].summary) {
      ArchiveGrows(w.s.archive, w'.s.archive, w.l.archived[k].summary);
    }
    if n > 0 && io.archive == Archived {
      ArchiveConserves(w.l, n);
      forall k | 0 <= k < n ensures InArchive(w'.s.archive, w.l.live[k].summary) {
        var batch := w'.s.archive[|w.s.archive|];
        assert batch[k] == w.l.live[k].summary && batch[k] in batch;
      }
    }
    if w.l.waiting != [] {
      var lines :| PromptOf(w, lines);
      assert PromptOf(w', lines) by { SamePrompt(w, w', lines); }
    }
  }

  lemma SamePrompt(w: World, w': World, lines: seq<string>)
    requires w.s.prompts == w'.s.prompts && w.s.pending == w'.s.pending
    requires w.l.history == w'.l.history && w.l.waiting == w'.l.waiting
    ensures PromptOf(w, lines) == PromptOf(w', lines)
  {
    hide Join;
  }

  lemma OnePending(s: Service, id: PromptId)
    requires GuardExact(s) && id in s.pending
    ensures s.inFlight && s.pending - {id} == map[]
  {
    assert |s.pending.Keys| == |s.pending| == 1;
    assert s.pending.Keys - {id} == {} by {
      assert |s.pending.Keys - {id}| == 0;
    }
    assert (s.pending - {id}).Keys == {};
  }

  /** A reply that yields no summary. */
  lemma LostReplyInv(w: World, id: PromptId)
    requires Inv(w) && id in w.s.pending
    ensures Inv(World(Release(w.s, id), DropWaiting(w.l)))
  {
    hide Settled, ParseFile, Accounted, Survivors, TimeLike, PromptOf, DropWaiting, Shows, Summarizes, InArchive;
    OnePending(w.s, id);
    DropConserves(w.l);
    DroppedLedger(w.l);
  }

  /** A reply whose summary is stored. */
  lemma CoveringReplyInv(w: World, id: PromptId, log: Log, t: string)
    requires Inv(w) && id in w.s.pending
    requires Settled(log) && log.rawTail == w.s.log.rawTail && log.summaries == w.s.log.summaries + [t]
    ensures Inv(World(Release(w.s, id).(log := log), Cover(w.l, t))) && Release(w.s, id).started
  {
    hide Settled, ParseFile, Accounted, Survivors, TimeLike, PromptOf, InArchive;
    OnePending(w.s, id);
    SettledReopens(log);
    CoverConserves(w.l, t);
  }

  lemma AppendedSummary(log: Log, text: string, diskOk: bool)
    ensures var (log', r) := AfterAppendSummary(log, text, diskOk);
            r == Stored ==> log'.rawTail == log.rawTail && log'.summaries == log.summaries + [Trim(text, NEWLINES)]
  {
    hide Contains, HasDelimiters, HasPrefix, Trim, Print;
  }

  lemma PendingFacts(w: World, id: PromptId)
    requires Inv(w) && id in w.s.pending
    ensures w.s.started && Settled(w.s.log) && Release(w.s, id).log == w.s.log
    ensures TimeLike(w.s.pending[id].startTime) && TimeLike(w.s.pending[id].endTime)
  {
    hide Settled, TimeLike, PromptOf, LedgerMatches, Conserved;
  }

  lemma HandleReplyInv(cfg: Config, w: World, id: PromptId, text: string, io: ReplyIO)
    requires Inv(w)
    ensures Inv(HandleReply(cfg, w, id, text, io))
  {
    hide Inv, Settled, Blank, Trim, TotalLength, TriggerArchival, DropWaiting, FormattedSummary, TimeLike, Release, Cover, AfterAppendSummary;
    if id in w.s.pending {
      var p := w.s.pending[id];
      PendingFacts(w, id);
      LostReplyInv(w, id);
      var summary := FormattedSummary(p, text);
      var (log, r) := AfterAppendSummary(w.s.log, summary, io.appendOk);
      SummaryKeepsSettled(w.s.log, p, text, io.appendOk);
      AppendedSummary(w.s.log, summary, io.appendOk);
      if !Blank(text) && r == Stored {
        var t := Trim(summary, NEWLINES);
        CoveringReplyInv(w, id, log, t);
        TriggerArchivalInv(cfg, World(Release(w.s, id).(log := log), Cover(w.l, t)), io);
      }
    }
  }

  lemma DroppedLedger(l: Ledger)
    ensures var l' := DropWaiting(l);
            l'.waiting == [] && l'.history == l.history && l'.archived == l.archived && l'.live == l.live && l'.raw == l.raw
  {}

  lemma ClearMemoryInv(w: World)
    requires Inv(w)
    ensures Inv(ClearMemory(w))
  {
    hide Settled, ParseFile, Accounted, Survivors, Shows, Summarizes, InArchive, PromptOf, TimeLike;
    DropConserves(w.l);
  }

  lemma HandleStartInv(w: World, readOk: bool)
    requires Inv(w)
    ensures Inv(HandleStart(w, readOk))
  {
    hide Settled, ParseFile, Accounted, Survivors, Shows, Summarizes, InArchive, TimeLike, PromptOf;
  }

  lemma StepInv(cfg: Config, w: World, e: Event)
    requires Inv(w)
    ensures Inv(Step(cfg, w, e))
  {
    hide Inv, TriggerCompaction, HandleReply, ClearMemory, HandleStart, Blank;
    match e
    case TurnArrived(turn, now, id, _, appendOk, halfOk) =>
      if w.s.started && !Blank(turn.text) {
        StoreEntryInv(w, Entry(turn), appendOk);
        var (w1, r) := StoreTurn(w, turn, appendOk);
        TriggerCompactionInv(cfg, w1, now, id, halfOk);
      }
    case ReplyArrived(id, text, io) => HandleReplyInv(cfg, w, id, text, io);
    case ShutDown => ClearMemoryInv(w);
    case Crash => ClearMemoryInv(w);
    case StartUp(readOk) => HandleStartInv(w, readOk);
  }

  lemma InitialInv()
    ensures Inv(INITIAL)
  {
    assert Open(None) == Log([], [], None);
  }

  lemma {:induction false} RunInv(cfg: Config, w: World, events: seq<Event>)
    requires Inv(w)
    ensures Inv(Run(cfg, w, events))
    decreases |events|
  {
    hide Inv, Step;
    if events != [] {
      StepInv(cfg, w, events[0]);
      RunInv(cfg, Step(cfg, w, events[0]), events[1..]);
    }
  }

  // ---------------------------------------------------------------- the results

  /** Conservation over every run from an empty log, with failing writes, crashes and restarts: the
      entries archived, summarized, waiting and raw are the stored entries in order, less those
      dropped; the raw tail and the live summaries stand in the file; every archived summary is in
      the archive; the guard is exact. */
  lemma NothingIsLostSilently(cfg: Config, events: seq<Event>)
    ensures var w := Run(cfg, INITIAL, events);
            var onFile := Open(w.s.log.file);
            && Accounted(w.l) == Survivors(|w.l.history|, w.l.dropped)
            && Shows(onFile.rawTail, w.l.history, w.l.raw)
            && Summarizes(onFile.summaries, w.l.live)
            && (forall k :: 0 <= k < |w.l.archived| ==> InArchive(w.s.archive, w.l.archived[k].summary))
            && (w.l.waiting != [] ==> exists lines :: PromptOf(w, lines))
            && |w.s.pending| == (if w.s.inFlight then 1 else 0)
            && (w.s.started ==> w.s.log == onFile)
  {
    hide Run, Accounted, Survivors, Shows, Summarizes, InArchive, PromptOf, Settled, ParseFile, TimeLike;
    InitialInv();
    RunInv(cfg, INITIAL, events);
  }

  /** Does this event drop the waiting entries? */
  ghost predicate DropsWaiting(cfg: Config, w: World, e: Event) {
    match e
    case ShutDown => w.s.started
    case Crash => true
    case StartUp(_) => false
    case ReplyArrived(id, text, io) =>
      id in w.s.pending
      && (Blank(text)
          || AfterAppendSummary(w.s.log, FormattedSummary(w.s.pending[id], text), io.appendOk).1 in {Rejected, WriteFailed})
    case TurnArrived(turn, now, id, _, appendOk, _) =>
      && w.s.started && !Blank(turn.text) && w.s.inFlight
      && w.s.startedAt != 0 && now - w.s.startedAt >= cfg.staleTimeout
      && var (w1, r) := StoreTurn(w, turn, appendOk);
         r in {Stored, Ignored} && TotalLength(w1.s.log.rawTail) > cfg.compactionThreshold
  }

  /** Entries are dropped exactly by an empty reply, a summary that could not be stored, a stale
      compaction reaped, a shutdown or a crash, and then they are exactly the waiting ones.  The
      history only grows. */
  lemma DroppedOnlyByNamedEvents(cfg: Config, w: World, e: Event)
    requires Inv(w)
    ensures var l' := Step(cfg, w, e).l;
            && l'.dropped == w.l.dropped + (if DropsWaiting(cfg, w, e) then Elements(w.l.waiting) else {})
            && w.l.history <= l'.history
  {
    hide Inv, Blank, Trim, TotalLength, FormattedSummary, AfterAppendSummary, AfterAppendRaw, AfterOlderHalf, AfterCommitArchival, Entry, Elements, ExtractTimeRange, OverBudget;
    match e
    case TurnArrived(turn, now, id, _, appendOk, halfOk) =>
      var w1 := StoreTurn(w, turn, appendOk).0;
      CompactDropsNothing(w1, now, id, halfOk);
      CompactDropsNothing(CheckStale(cfg, w1, now), now, id, halfOk);
    case ReplyArrived(id, text, io) =>
      if id in w.s.pending {
        PendingFacts(w, id);
        SummaryNotIgnored(w, id, text, io);
      }
    case ShutDown => StoppedWaitsForNothing(w);
    case Crash =>
    case StartUp(readOk) =>
  }

  lemma CompactDropsNothing(w: World, now: int, id: PromptId, halfOk: bool)
    ensures var l' := Compact(w, now, id, halfOk).l; l'.dropped == w.l.dropped && l'.history == w.l.history
  {
    hide AfterOlderHalf, ExtractTimeRange, HalfCount;
  }

  lemma SummaryNotIgnored(w: World, id: PromptId, text: string, io: ReplyIO)
    requires Inv(w) && id in w.s.pending
    ensures AfterAppendSummary(w.s.log, FormattedSummary(w.s.pending[id], text), io.appendOk).1 != Ignored
  {
    hide Inv, AfterAppendSummary, FormattedSummary, TimeLike, Settled;
    PendingFacts(w, id);
    SummaryKeepsSettled(w.s.log, w.s.pending[id], text, io.appendOk);
  }

  lemma StoppedWaitsForNothing(w: World)
    requires Inv(w)
    ensures !w.s.started ==> w.l.waiting == []
  {
    hide Settled, TimeLike, LedgerMatches, Conserved, PromptOf;
  }

  lemma CompactKeepsLive(w: World, now: int, id: PromptId, halfOk: bool)
    ensures Compact(w, now, id, halfOk).l.live == w.l.live
  {
    hide AfterOlderHalf, ExtractTimeRange, HalfCount;
  }

  /** Archival takes a number of the oldest live summaries off, or none. */
  lemma ArchivalShifts(cfg: Config, w: World, io: ReplyIO) returns (n: nat)
    ensures n <= |w.l.live| && TriggerArchival(cfg, w, io).l.live == w.l.live[n..]
    ensures TriggerArchival(cfg, w, io).l.archived == w.l.archived + w.l.live[..n]
    ensures n > 0 ==> io.archive == Archived && io.commitOk
  {
    hide Print;
    var w' := TriggerArchival(cfg, w, io);
    n := if w'.l == w.l then 0 else OverBudget(w.s.log.summaries, cfg.summaryBudget);
    assert w.l.archived + w.l.live[..0] == w.l.archived;
  }

  lemma ArchivedIsInArchive(w: World, c: Covered)
    requires Inv(w)
    ensures c in w.l.archived ==> InArchive(w.s.archive, c.summary)
  {
    hide GuardExact, MemoryMirrorsFile, PromptCarriesWaiting, Conserved, Shows, Summarizes, InArchive, ParseFile;
  }

  lemma TurnKeepsLive(cfg: Config, w: World, e: Event)
    requires e.TurnArrived?
    ensures Step(cfg, w, e).l.live == w.l.live
  {
    hide Blank, TotalLength, Compact, DropWaiting, AfterAppendRaw, Entry, Trim;
    var w1 := StoreTurn(w, e.turn, e.appendOk).0;
    CompactKeepsLive(w1, e.now, e.id, e.halfOk);
    DroppedLedger(w1.l);
    CompactKeepsLive(CheckStale(cfg, w1, e.now), e.now, e.id, e.halfOk);
  }

  lemma ReplyShifts(cfg: Config, w: World, id: PromptId, text: string, io: ReplyIO) returns (n: nat)
    ensures n <= |w.l.live| && w.l.live[n..] <= HandleReply(cfg, w, id, text, io).l.live
    ensures n > 0 ==> io.archive == Archived && io.commitOk
    ensures forall k :: 0 <= k < n ==> w.l.live[k] in HandleReply(cfg, w, id, text, io).l.archived
  {
    hide Blank, Trim, FormattedSummary, AfterAppendSummary, TriggerArchival, DropWaiting, Release, TotalLength;
    DroppedLedger(w.l);
    n := 0;
    if id in w.s.pending && !Blank(text) {
      var summary := FormattedSummary(w.s.pending[id], text);
      var log := AfterAppendSummary(Release(w.s, id).log, summary, io.appendOk).0;
      var covered := World(Release(w.s, id).(log := log), Cover(w.l, Trim(summary, NEWLINES)));
      var all := covered.l.live;
      assert all[..|w.l.live|] == w.l.live;
      var m := ArchivalShifts(cfg, covered, io);
      if HandleReply(cfg, w, id, text, io) == TriggerArchival(cfg, covered, io) {
        n := if m <= |w.l.live| then m else |w.l.live|;
        var w' := TriggerArchival(cfg, covered, io);
        assert w.l.live[n..] <= all[m..];
        forall k | 0 <= k < n ensures w.l.live[k] in w'.l.archived {
          assert w'.l.archived[|covered.l.archived| + k] == all[k];
        }
      }
    }
  }

  /** Live summaries leave the file from the oldest on, only in the handling of a reply whose archive
      write succeeded, and then each of them stands in the archive; all the others keep their order. */
  lemma LeavesOnlyOnceArchived(cfg: Config, w: World, e: Event) returns (n: nat)
    requires Inv(w)
    ensures n <= |w.l.live| && w.l.live[n..] <= Step(cfg, w, e).l.live
    ensures n > 0 ==> e.ReplyArrived? && e.io.archive == Archived && e.io.commitOk
    ensures forall k :: 0 <= k < n ==> InArchive(Step(cfg, w, e).s.archive, w.l.live[k].summary)
  {
    hide Inv, HandleTurn, HandleReply, DropWaiting, InArchive;
    DroppedLedger(w.l);
    var w' := Step(cfg, w, e);
    n := 0;
    if e.TurnArrived? {
      TurnKeepsLive(cfg, w, e);
    } else if e.ReplyArrived? {
      StepInv(cfg, w, e);
      n := ReplyShifts(cfg, w, e.replyTo, e.text, e.io);
      forall k | 0 <= k < n ensures InArchive(w'.s.archive, w.l.live[k].summary) { ArchivedIsInArchive(w', w.l.live[k]); }
    }
  }

  /** A crash followed by a restart brings back the lists exactly; only the waiting entries go. */
  lemma CrashAndRestart(cfg: Config, w: World)
    requires Inv(w) && w.s.started
    ensures var w' := Step(cfg, Step(cfg, w, Crash), StartUp(true));
            && w'.s.started && w'.s.log == w.s.log
            && w'.l == w.l.(dropped := w.l.dropped + Elements(w.l.waiting), waiting := [])
  {
    hide Settled, ParseFile, Accounted, Survivors, Shows, Summarizes, InArchive, TimeLike, PromptOf;
  }

  // ---------------------------------------------------------------- the daily log

  ghost predicate InLog(log: seq<string>, entry: string) {
    exists k :: 0 <= k < |log| && Trim(log[k], NEWLINES) == entry
  }

  lemma CompactKeepsHistory(w: World, now: int, id: PromptId, halfOk: bool)
    ensures Compact(w, now, id, halfOk).l.history == w.l.history
  {
    hide AfterOlderHalf, ExtractTimeRange, HalfCount;
  }

  lemma ReplyKeepsHistory(cfg: Config, w: World, id: PromptId, text: string, io: ReplyIO)
    ensures HandleReply(cfg, w, id, text, io).l.history == w.l.history
  {
    hide Blank, Trim, FormattedSummary, AfterAppendSummary, AfterCommitArchival, OverBudget, Elements, TotalLength;
  }

  /** What a step adds to the history it also adds to the daily log, if that write succeeds. */
  lemma StoredIsLogged(cfg: Config, w: World, e: Event)
    requires e.TurnArrived? ==> e.logOk
    ensures var more := Step(cfg, w, e).l.history;
            && w.l.history <= more && |more| <= |w.l.history| + 1
            && (|more| > |w.l.history| ==> InLog(Logged(w, e), more[|w.l.history|]))
  {
    hide Blank, TotalLength, Compact, AfterAppendRaw, Entry, Trim, HandleReply, Elements, ParseFile;
    match e
    case TurnArrived(turn, now, id, logOk, appendOk, halfOk) =>
      var w1 := StoreTurn(w, turn, appendOk).0;
      CompactKeepsHistory(w1, now, id, halfOk);
      DroppedLedger(w1.l);
      CompactKeepsHistory(CheckStale(cfg, w1, now), now, id, halfOk);
      if w.s.started && !Blank(turn.text) { assert Logged(w, e)[0] == Entry(turn); }
    case ReplyArrived(id, text, io) => ReplyKeepsHistory(cfg, w, id, text, io);
    case ShutDown => DroppedLedger(w.l);
    case Crash => DroppedLedger(w.l);
    case StartUp(_) =>
  }

  /** Whatever a run drops is still in the daily log: as long as its writes succeed, every entry the
      rolling log ever stored stands there. */
  lemma {:induction false} EveryEntryIsLogged(cfg: Config, w: World, events: seq<Event>, log: seq<string>)
    requires forall i :: 0 <= i < |w.l.history| ==> InLog(log, w.l.history[i])
    requires forall k :: 0 <= k < |events| && events[k].TurnArrived? ==> events[k].logOk
    ensures var history := Run(cfg, w, events).l.history;
            forall i :: 0 <= i < |history| ==> InLog(log + LoggedOver(cfg, w, events), history[i])
    decreases |events|
  {
    hide Step, Logged, InLog;
    if events == [] {
      assert log + [] == log;
    } else {
      var w', more := Step(cfg, w, events[0]), Logged(w, events[0]);
      StoredIsLogged(cfg, w, events[0]);
      forall i | 0 <= i < |w'.l.history| ensures InLog(log + more, w'.l.history[i]) {
        if i < |w.l.history| { LogExtends(log, more, w.l.history[i]); } else { LogExtends(log, more, w'.l.history[i]); }
      }
      assert forall k :: 0 <= k < |events[1..]| ==> events[1..][k] == events[k + 1];
      EveryEntryIsLogged(cfg, w', events[1..], log + more);
      assert LoggedOver(cfg, w, events) == more + LoggedOver(cfg, w', events[1..]);
      assert log + more + LoggedOver(cfg, w', events[1..]) == log + LoggedOver(cfg, w, events);
      assert Run(cfg, w, events) == Run(cfg, w', events[1..]);
    }
  }

  lemma LogExtends(a: seq<string>, b: seq<string>, entry: string)
    ensures InLog(a, entry) || InLog(b, entry) ==> InLog(a + b, entry)
  {
    if InLog(a, entry) {
      var k :| 0 <= k < |a| && Trim(a[k], NEWLINES) == entry;
      assert (a + b)[k] == a[k];
    } else if InLog(b, entry) {
      var k :| 0 <= k < |b| && Trim(b[k], NEWLINES) == entry;
      assert (a + b)[|a| + k] == b[k];
    }
  }
}
