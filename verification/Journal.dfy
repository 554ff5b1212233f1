/** The journal service: one rolling log per session, one compaction guard per session, and a
    finalization request that outlives its session. */
module Journal {
  import opened Wrappers
  import opened Text
  import opened LogFormat
  import opened RollingLogSpec
  import opened ConversationLogSpec

  type Session = string

  /** "journal-compact-{session}-{nanoseconds}". */
  datatype Request = Request(session: Session, stamp: int)

  /** The lists a rolling log object holds; its file is that of its session. */
  datatype Lists = Lists(session: Session, summaries: seq<string>, rawTail: seq<string>)

  /** `log` is the number of the rolling log object the summary must go to. */
  datatype JournalPending = JournalPending(session: Session, log: nat, range: Pending)

  /** A prompt published for the AI adapter. */
  datatype JournalPrompt = JournalPrompt(request: Request, text: string)

  datatype Journal = Journal(
    active: map<Session, nat>,
    logs: seq<Lists>,
    files: map<Session, string>,
    archives: map<Session, seq<seq<string>>>,
    pending: map<Request, JournalPending>,
    inFlight: set<Session>,
    startedAt: map<Session, int>,
    prompts: seq<JournalPrompt>)

  datatype Event =
    | Created(session: Session, entry: string, readOk: bool, appendOk: bool)
    | Written(session: Session, entry: string, appendOk: bool, now: int, stamp: int, halfOk: bool)
    | Stopped(session: Session, entry: string, appendOk: bool, now: int, stamp: int, halfOk: bool)
    | Replied(request: Request, text: string, io: ReplyIO)
    | ShutDown

  const MIN_FINALIZATION_TAIL_SIZE := 1000

  function FileOf(j: Journal, session: Session): Option<string> {
    if session in j.files then Some(j.files[session]) else None
  }

  function ArchiveOf(j: Journal, session: Session): seq<seq<string>> {
    if session in j.archives then j.archives[session] else []
  }

  function LogOf(j: Journal, n: nat): Log
    requires n < |j.logs|
  {
    Log(j.logs[n].summaries, j.logs[n].rawTail, FileOf(j, j.logs[n].session))
  }

  function WithLog(j: Journal, n: nat, log: Log): Journal
    requires n < |j.logs|
  {
    var session := j.logs[n].session;
    j.(logs := j.logs[n := Lists(session, log.summaries, log.rawTail)],
       files := if log.file.Some? then j.files[session := log.file.value] else j.files)
  }

  /** `handleSessionCreated`: the journal becomes active only if its first entry is stored. */
  function HandleCreated(j: Journal, session: Session, entry: string, readOk: bool, appendOk: bool): Journal {
    if session == "" || !readOk then j else
      var opened_ := Open(FileOf(j, session));
      var (log, r) := AfterAppendRaw(opened_, entry, appendOk);
      var n := |j.logs|;
      var j1 := AddLog(j, session, opened_);
      if r == Rejected || r == WriteFailed then j1 else Activate(WithLog(j1, n, log), session, n)
  }

  function AddLog(j: Journal, session: Session, log: Log): Journal {
    j.(logs := j.logs + [Lists(session, log.summaries, log.rawTail)])
  }

  function Activate(j: Journal, session: Session, n: nat): Journal {
    j.(active := j.active[session := n])
  }

  function CheckStaleSession(cfg: Config, j: Journal, session: Session, now: int): Journal {
    if session !in j.startedAt || j.startedAt[session] == 0 || now - j.startedAt[session] < cfg.staleTimeout then j
    else j.(pending := map q | q in j.pending && j.pending[q].session != session :: j.pending[q],
            inFlight := j.inFlight - {session},
            startedAt := j.startedAt - {session})
  }

  function AddPending(j: Journal, session: Session, n: nat, stamp: int, text: string): Journal {
    j.(inFlight := j.inFlight + {session},
       pending := j.pending[Request(session, stamp) := JournalPending(session, n, ExtractTimeRange(text))],
       prompts := j.prompts + [JournalPrompt(Request(session, stamp), text)])
  }

  function RequestSummary(j: Journal, session: Session, n: nat, now: int, stamp: int, halfOk: bool): Journal
    requires n < |j.logs|
  {
    var (log, text, r) := AfterOlderHalf(LogOf(j, n), halfOk);
    var j1 := WithLog(j, n, log).(startedAt := j.startedAt[session := now]);
    if r == WriteFailed || text == "" then j1 else AddPending(j1, session, n, stamp, text)
  }

  function TriggerCompaction(cfg: Config, j: Journal, session: Session, n: nat, now: int, stamp: int, halfOk: bool): Journal
    requires n < |j.logs|
  {
    if session !in j.inFlight then RequestSummary(j, session, n, now, stamp, halfOk)
    else
      var cleared := CheckStaleSession(cfg, j, session, now);
      if session in cleared.inFlight then cleared else RequestSummary(cleared, session, n, now, stamp, halfOk)
  }

  /** `handleOutput` and `handleToolChanged`: compaction is tried even when the append failed. */
  function HandleWritten(cfg: Config, j: Journal, session: Session, entry: string, appendOk: bool, now: int, stamp: int, halfOk: bool): Journal {
    if session == "" || session !in j.active || j.active[session] >= |j.logs| then j else
      var n := j.active[session];
      var j1 := WithLog(j, n, AfterAppendRaw(LogOf(j, n), entry, appendOk).0);
      if TotalLength(j1.logs[n].rawTail) > cfg.compactionThreshold
      then TriggerCompaction(cfg, j1, session, n, now, stamp, halfOk) else j1
  }

  function Forget(j: Journal, session: Session): Journal {
    j.(active := j.active - {session}, inFlight := j.inFlight - {session}, startedAt := j.startedAt - {session})
  }

  /** The tail of a stopping session calls for a last summary. */
  predicate TailCalls(cfg: Config, j: Journal, session: Session)
    requires session in j.active && j.active[session] < |j.logs|
  {
    var size := TotalLength(j.logs[j.active[session]].rawTail);
    size > cfg.compactionThreshold && size > MIN_FINALIZATION_TAIL_SIZE
  }

  /** Compaction comes before the stop entry, so that entry stays in the raw tail. */
  function HandleStopped(cfg: Config, j: Journal, session: Session, entry: string, appendOk: bool, now: int, stamp: int, halfOk: bool): Journal {
    if session == "" || session !in j.active || j.active[session] >= |j.logs| then j else
      var n := j.active[session];
      var j1 := if TailCalls(cfg, j, session) then TriggerCompaction(cfg, j, session, n, now, stamp, halfOk) else j;
      Forget(WithLog(j1, n, AfterAppendRaw(LogOf(j1, n), entry, appendOk).0), session)
  }

  function AfterArchival(cfg: Config, log: Log, io: ReplyIO): Log {
    var n := OverBudget(log.summaries, cfg.summaryBudget);
    if n == 0 || io.archive != Archived then log else AfterCommitArchival(log, n, io.commitOk).0
  }

  /** What a reply does to the log it is meant for. */
  function AfterReply(cfg: Config, log: Log, range: Pending, text: string, io: ReplyIO): Log {
    if Blank(text) then log else
      var (log', r) := AfterAppendSummary(log, FormattedSummary(range, text), io.appendOk);
      if r == Rejected || r == WriteFailed then log
      else if TotalLength(log'.summaries) > cfg.summaryBudget then AfterArchival(cfg, log', io) else log'
  }

  /** What the handling of a reply appends to the archive: one batch, or none. */
  function ArchivedBy(cfg: Config, log: Log, range: Pending, text: string, io: ReplyIO): seq<seq<string>> {
    if Blank(text) || io.archive == NotArchived then [] else
      var (log', r) := AfterAppendSummary(log, FormattedSummary(range, text), io.appendOk);
      if r == Rejected || r == WriteFailed || TotalLength(log'.summaries) <= cfg.summaryBudget then []
      else
        var n := OverBudget(log'.summaries, cfg.summaryBudget);
        if n == 0 then [] else [log'.summaries[..n]]
  }

  function AddBatches(j: Journal, session: Session, batches: seq<seq<string>>): Journal {
    if batches == [] then j else j.(archives := j.archives[session := ArchiveOf(j, session) + batches])
  }

  function HandleReplied(cfg: Config, j: Journal, q: Request, text: string, io: ReplyIO): Journal {
    if q !in j.pending || j.pending[q].log >= |j.logs| then j else
      var p := j.pending[q];
      var log := LogOf(j, p.log);
      var j1 := AddBatches(WithLog(j, p.log, AfterReply(cfg, log, p.range, text, io)), p.session, ArchivedBy(cfg, log, p.range, text, io));
      Resolve(j1, q, p.session)
  }

  function Resolve(j: Journal, q: Request, session: Session): Journal {
    j.(pending := j.pending - {q}, inFlight := j.inFlight - {session}, startedAt := j.startedAt - {session})
  }

  function HandleShutdown(j: Journal): Journal {
    j.(active := map[], pending := map[], inFlight := {}, startedAt := map[])
  }

  function Step(cfg: Config, j: Journal, e: Event): Journal {
    match e
    case Created(session, entry, readOk, appendOk) => HandleCreated(j, session, entry, readOk, appendOk)
    case Written(session, entry, appendOk, now, stamp, halfOk) => HandleWritten(cfg, j, session, entry, appendOk, now, stamp, halfOk)
    case Stopped(session, entry, appendOk, now, stamp, halfOk) => HandleStopped(cfg, j, session, entry, appendOk, now, stamp, halfOk)
    case Replied(q, text, io) => HandleReplied(cfg, j, q, text, io)
    case ShutDown => HandleShutdown(j)
  }

  function Run(cfg: Config, j: Journal, events: seq<Event>): Journal
    decreases |events|
  {
    if events == [] then j else Run(cfg, Step(cfg, j, events[0]), events[1..])
  }

  const EMPTY := Journal(map[], [], map[], map[], map[], {}, map[], [])

  // ---------------------------------------------------------------- the guard invariant

  ghost predicate Unresolved(j: Journal, session: Session) {
    exists q :: q in j.pending && j.pending[q].session == session
  }

  ghost predicate WellFormed(j: Journal) {
    && (forall s <- j.active :: j.active[s] < |j.logs| && j.logs[j.active[s]].session == s && s != "")
    && (forall q <- j.pending :: j.pending[q].session == q.session
          && j.pending[q].log < |j.logs| && j.logs[j.pending[q].log].session == q.session)
  }

  /** No session has two compactions pending; a live session's guard is set exactly when it has one,
      and the summary will go to the log the session is using; a session not live holds no guard. */
  ghost predicate GuardPerSession(j: Journal) {
    && (forall q, q' :: q in j.pending && q' in j.pending && q.session == q'.session ==> q == q')
    && (forall s <- j.active :: s in j.inFlight <==> Unresolved(j, s))
    && (forall q <- j.pending :: q.session in j.active ==> j.pending[q].log == j.active[q.session])
    && (forall s <- j.inFlight :: s in j.active)
  }

  ghost predicate Inv(j: Journal) {
    WellFormed(j) && GuardPerSession(j)
  }

  /** A session would come to life under an ID that still has a compaction pending: its file can be
      read and its first entry goes in. */
  ghost predicate ReusesPendingId(j: Journal, e: Event) {
    && e.Created? && e.session != "" && e.readOk && Unresolved(j, e.session)
    && AfterAppendRaw(Open(FileOf(j, e.session)), e.entry, e.appendOk).1 in {Stored, Ignored}
  }

  lemma WithLogKeepsInv(j: Journal, n: nat, log: Log)
    requires n < |j.logs|
    ensures var j' := WithLog(j, n, log);
            && (Inv(j) ==> Inv(j')) && |j'.logs| == |j.logs| && j'.logs[n].session == j.logs[n].session
            && j'.active == j.active && j'.pending == j.pending && j'.inFlight == j.inFlight && j'.startedAt == j.startedAt
  {
    var j' := WithLog(j, n, log);
    forall s ensures Unresolved(j, s) <==> Unresolved(j', s) {}
  }

  lemma PromptsStay(j: Journal, n: nat, log: Log)
    requires n < |j.logs|
    ensures WithLog(j, n, log).prompts == j.prompts
  {}

  lemma CheckStaleKeepsInv(cfg: Config, j: Journal, session: Session, now: int)
    requires Inv(j)
    ensures var j' := CheckStaleSession(cfg, j, session, now);
            Inv(j') && j'.active == j.active && j'.logs == j.logs && j'.files == j.files
  {
    var j' := CheckStaleSession(cfg, j, session, now);
    forall s | s in j.active ensures s in j'.inFlight <==> Unresolved(j', s) {
      if s != session && s in j.inFlight {
        var q :| q in j.pending && j.pending[q].session == s;
        assert q in j'.pending && j'.pending[q].session == s;
      }
    }
  }

  lemma SamePending(j: Journal, j': Journal)
    requires j.pending == j'.pending
    ensures forall s :: Unresolved(j, s) <==> Unresolved(j', s)
  {}

  lemma AddedUnresolved(j: Journal, session: Session, n: nat, stamp: int, text: string)
    requires Request(session, stamp) !in j.pending
    ensures forall s :: Unresolved(AddPending(j, session, n, stamp, text), s) <==> s == session || Unresolved(j, s)
  {
    hide ExtractTimeRange;
    var j' := AddPending(j, session, n, stamp, text);
    var added := Request(session, stamp);
    assert added in j'.pending && j'.pending[added].session == session;
    forall s | s != session ensures Unresolved(j', s) <==> Unresolved(j, s) {
      if q :| q in j.pending && j.pending[q].session == s { assert q in j'.pending && j'.pending[q].session == s; }
    }
  }

  lemma AddPendingKeepsInv(j: Journal, session: Session, n: nat, stamp: int, text: string)
    requires Inv(j) && session in j.active && n == j.active[session] && session !in j.inFlight
    ensures Inv(AddPending(j, session, n, stamp, text))
  {
    hide ExtractTimeRange;
    assert !Unresolved(j, session);
    AddedUnresolved(j, session, n, stamp, text);
    NoneOfSession(j, session);
    hide Unresolved;
  }

  lemma NoneOfSession(j: Journal, session: Session)
    requires Inv(j) && !Unresolved(j, session)
    ensures forall q <- j.pending :: q.session != session
  {}

  lemma StartTimesDoNotMatter(j: Journal, startedAt: map<Session, int>)
    ensures Inv(j) ==> Inv(j.(startedAt := startedAt))
  {
    forall s ensures Unresolved(j, s) <==> Unresolved(j.(startedAt := startedAt), s) {}
  }

  lemma BatchesDoNotMatter(j: Journal, session: Session, batches: seq<seq<string>>)
    ensures var j' := AddBatches(j, session, batches);
            && (Inv(j) ==> Inv(j')) && j'.pending == j.pending && j'.active == j.active && j'.logs == j.logs && j'.files == j.files
            && j'.inFlight == j.inFlight && j'.startedAt == j.startedAt && j'.prompts == j.prompts
  {
    forall s ensures Unresolved(j, s) <==> Unresolved(AddBatches(j, session, batches), s) {}
  }

  lemma RequestKeepsInv(j: Journal, session: Session, now: int, stamp: int, halfOk: bool)
    requires Inv(j) && session in j.active && session !in j.inFlight && j.active[session] < |j.logs|
    ensures Inv(RequestSummary(j, session, j.active[session], now, stamp, halfOk))
  {
    hide AfterOlderHalf, ExtractTimeRange, WithLog, AddPending, Inv;
    var n := j.active[session];
    var (log, text, r) := AfterOlderHalf(LogOf(j, n), halfOk);
    WithLogKeepsInv(j, n, log);
    var j1 := WithLog(j, n, log);
    StartTimesDoNotMatter(j1, j.startedAt[session := now]);
    if r != WriteFailed && text != "" {
      AddPendingKeepsInv(j1.(startedAt := j.startedAt[session := now]), session, n, stamp, text);
    }
  }

  lemma TriggerKeepsInv(cfg: Config, j: Journal, session: Session, now: int, stamp: int, halfOk: bool)
    requires Inv(j) && session in j.active
    ensures Inv(TriggerCompaction(cfg, j, session, j.active[session], now, stamp, halfOk))
  {
    hide RequestSummary;
    if session !in j.inFlight {
      RequestKeepsInv(j, session, now, stamp, halfOk);
    } else {
      CheckStaleKeepsInv(cfg, j, session, now);
      var cleared := CheckStaleSession(cfg, j, session, now);
      if session !in cleared.inFlight { RequestKeepsInv(cleared, session, now, stamp, halfOk); }
    }
  }

  lemma ForgetKeepsInv(j: Journal, session: Session)
    requires Inv(j)
    ensures Inv(Forget(j, session))
  {
    var j' := Forget(j, session);
    forall s ensures Unresolved(j, s) <==> Unresolved(j', s) {}
  }

  lemma ResolvedUnresolved(j: Journal, q: Request)
    requires Inv(j) && q in j.pending
    ensures forall s :: Unresolved(Resolve(j, q, q.session), s) <==> s != q.session && Unresolved(j, s)
  {
    var j' := Resolve(j, q, q.session);
    forall s | s != q.session ensures Unresolved(j', s) <==> Unresolved(j, s) {
      if q' :| q' in j.pending && j.pending[q'].session == s { assert q' in j'.pending && j'.pending[q'].session == s; }
    }
  }

  lemma ResolveKeepsInv(j: Journal, q: Request)
    requires Inv(j) && q in j.pending
    ensures Inv(Resolve(j, q, q.session))
  {
    ResolvedUnresolved(j, q);
    hide Unresolved;
  }

  lemma ReplyKeepsInv(cfg: Config, j: Journal, q: Request, text: string, io: ReplyIO)
    requires Inv(j)
    ensures Inv(HandleReplied(cfg, j, q, text, io))
  {
    if q in j.pending {
      assert j.pending[q].session == q.session && j.pending[q].log < |j.logs|;
      hide AfterReply, ArchivedBy, AddBatches, WithLog, Inv, Resolve;
      var p := j.pending[q];
      var log := LogOf(j, p.log);
      var j1 := WithLog(j, p.log, AfterReply(cfg, log, p.range, text, io));
      var batches := ArchivedBy(cfg, log, p.range, text, io);
      WithLogKeepsInv(j, p.log, AfterReply(cfg, log, p.range, text, io));
      BatchesDoNotMatter(j1, p.session, batches);
      ResolveKeepsInv(AddBatches(j1, p.session, batches), q);
    }
  }

  lemma AddLogKeepsInv(j: Journal, session: Session, log: Log)
    requires Inv(j)
    ensures var j' := AddLog(j, session, log);
            && Inv(j') && |j'.logs| == |j.logs| + 1 && j'.logs[|j.logs|].session == session
            && j'.active == j.active && j'.pending == j.pending
  {
    forall s ensures Unresolved(j, s) <==> Unresolved(AddLog(j, session, log), s) {}
  }

  lemma ActivateInvExact(j: Journal, session: Session, n: nat)
    requires Inv(j) && n < |j.logs| && j.logs[n].session == session && session != ""
    requires forall q <- j.pending :: j.pending[q].log != n
    ensures Inv(Activate(j, session, n)) <==> !Unresolved(j, session)
  {
    var j' := Activate(j, session, n);
    forall s ensures Unresolved(j', s) <==> Unresolved(j, s) {}
    if q :| q in j.pending && j.pending[q].session == session {
      assert q in j'.pending && q.session in j'.active && j'.pending[q].log != j'.active[q.session];
    }
  }

  lemma NextLogIsUnused(j: Journal)
    requires Inv(j)
    ensures forall s <- j.active :: j.active[s] != |j.logs|
    ensures forall q <- j.pending :: j.pending[q].log != |j.logs|
  {}

  lemma CreatedInvExact(j: Journal, session: Session, entry: string, readOk: bool, appendOk: bool)
    requires Inv(j)
    ensures Inv(HandleCreated(j, session, entry, readOk, appendOk))
       <==> !ReusesPendingId(j, Created(session, entry, readOk, appendOk))
  {
    hide Inv, AfterAppendRaw, WithLog, Open, AddLog, Unresolved;
    if session != "" && readOk {
      var opened_ := Open(FileOf(j, session));
      var (log, r) := AfterAppendRaw(opened_, entry, appendOk);
      var n := |j.logs|;
      NextLogIsUnused(j);
      var j1 := AddLog(j, session, opened_);
      AddLogKeepsInv(j, session, opened_);
      WithLogKeepsInv(j1, n, log);
      if r != Rejected && r != WriteFailed {
        ActivateInvExact(WithLog(j1, n, log), session, n);
        SamePending(j, WithLog(j1, n, log));
      }
    }
  }

  /** Every event keeps the guard exact, except one: a session coming to life under an ID whose
      compaction is still pending always breaks it. */
  lemma StepInvExact(cfg: Config, j: Journal, e: Event)
    requires Inv(j)
    ensures Inv(Step(cfg, j, e)) <==> !ReusesPendingId(j, e)
  {
    hide TriggerCompaction, AfterAppendRaw, WithLog, HandleCreated, HandleReplied, BeforeForget, Forget;
    match e
    case Created(session, entry, readOk, appendOk) => CreatedInvExact(j, session, entry, readOk, appendOk);
    case Written(session, entry, appendOk, now, stamp, halfOk) =>
      if session in j.active {
        var n := j.active[session];
        var log := AfterAppendRaw(LogOf(j, n), entry, appendOk).0;
        WithLogKeepsInv(j, n, log);
        TriggerKeepsInv(cfg, WithLog(j, n, log), session, now, stamp, halfOk);
      }
    case Stopped(session, entry, appendOk, now, stamp, halfOk) =>
      if session in j.active {
        StoppedInTwo(cfg, j, e);
        ForgetKeepsInv(BeforeForget(cfg, j, e), session);
      }
    case Replied(q, text, io) => ReplyKeepsInv(cfg, j, q, text, io);
    case ShutDown =>
  }

  ghost predicate SameShape(j: Journal, j': Journal) {
    && j'.active == j.active && |j'.logs| == |j.logs|
    && forall k :: 0 <= k < |j.logs| ==> j'.logs[k].session == j.logs[k].session
  }

  lemma RequestKeepsShape(j: Journal, session: Session, n: nat, now: int, stamp: int, halfOk: bool)
    requires n < |j.logs|
    ensures SameShape(j, RequestSummary(j, session, n, now, stamp, halfOk))
  {
    hide AfterOlderHalf, ExtractTimeRange;
  }

  lemma TriggerKeepsShape(cfg: Config, j: Journal, session: Session, n: nat, now: int, stamp: int, halfOk: bool)
    requires n < |j.logs|
    ensures SameShape(j, TriggerCompaction(cfg, j, session, n, now, stamp, halfOk))
  {
    hide RequestSummary;
    RequestKeepsShape(j, session, n, now, stamp, halfOk);
    RequestKeepsShape(CheckStaleSession(cfg, j, session, now), session, n, now, stamp, halfOk);
  }

  /** The journal just before a stopped session is let go of. */
  function BeforeForget(cfg: Config, j: Journal, e: Event): Journal
    requires e.Stopped? && e.session in j.active && j.active[e.session] < |j.logs|
  {
    var n := j.active[e.session];
    var j1 := if TailCalls(cfg, j, e.session)
              then TriggerCompaction(cfg, j, e.session, n, e.now, e.stamp, e.halfOk) else j;
    if n < |j1.logs| then WithLog(j1, n, AfterAppendRaw(LogOf(j1, n), e.entry, e.appendOk).0) else j1
  }

  lemma ActiveLog(j: Journal, session: Session)
    requires Inv(j) && session in j.active
    ensures j.active[session] < |j.logs| && j.logs[j.active[session]].session == session && session != ""
  {}

  lemma StoppedInTwo(cfg: Config, j: Journal, e: Event)
    requires Inv(j) && e.Stopped? && e.session in j.active
    ensures j.active[e.session] < |j.logs|
    ensures var b := BeforeForget(cfg, j, e);
            && Inv(b) && b.active == j.active && |b.logs| == |j.logs|
            && b.logs[j.active[e.session]].session == e.session
            && Step(cfg, j, e) == Forget(b, e.session)
  {
    hide AfterAppendRaw, TriggerCompaction, WithLog, Forget, Inv, TailCalls, LogOf, SameShape;
    ActiveLog(j, e.session);
    var n := j.active[e.session];
    TriggerKeepsInv(cfg, j, e.session, e.now, e.stamp, e.halfOk);
    var triggered := TriggerCompaction(cfg, j, e.session, n, e.now, e.stamp, e.halfOk);
    TriggerKeepsShape(cfg, j, e.session, n, e.now, e.stamp, e.halfOk);
    SameShapeAt(j, triggered, n);
    var j1 := if TailCalls(cfg, j, e.session) then triggered else j;
    WithLogKeepsInv(j1, n, AfterAppendRaw(LogOf(j1, n), e.entry, e.appendOk).0);
  }

  lemma SameShapeAt(j: Journal, j': Journal, n: nat)
    requires SameShape(j, j') && n < |j.logs|
    ensures j'.active == j.active && |j'.logs| == |j.logs| && j'.logs[n].session == j.logs[n].session
  {}

  /** Over a run, no step reuses a session ID that still has a compaction pending. */
  ghost predicate NeverReusesPendingId(cfg: Config, j: Journal, events: seq<Event>)
    decreases |events|
  {
    events != [] ==> !ReusesPendingId(j, events[0]) && NeverReusesPendingId(cfg, Step(cfg, j, events[0]), events[1..])
  }

  lemma {:induction false} GuardOverRuns(cfg: Config, j: Journal, events: seq<Event>)
    requires Inv(j) && NeverReusesPendingId(cfg, j, events)
    ensures Inv(Run(cfg, j, events))
    decreases |events|
  {
    hide Inv, Step, ReusesPendingId;
    if events != [] {
      StepInvExact(cfg, j, events[0]);
      GuardOverRuns(cfg, Step(cfg, j, events[0]), events[1..]);
    }
  }

  // ---------------------------------------------------------------- finalization

  /** Events that leave a stopped session's request alone. */
  ghost predicate LeavesRequest(e: Event, q: Request) {
    match e
    case Created(session, _, _, _) => session != q.session
    case Replied(q', _, _) => q' != q
    case ShutDown => false
    case _ => true
  }

  /** The request of a session that is no longer live is there, with its log as it was. */
  ghost predicate Awaits(j: Journal, q: Request, p: JournalPending, log: Log) {
    q in j.pending && j.pending[q] == p && q.session !in j.active && p.log < |j.logs| && LogOf(j, p.log) == log
  }

  lemma WithLogElsewhere(j: Journal, n: nat, log: Log, q: Request, p: JournalPending, kept: Log)
    requires n < |j.logs| && Awaits(j, q, p, kept) && p.session == q.session
    requires j.logs[p.log].session == q.session && j.logs[n].session != q.session
    ensures Awaits(WithLog(j, n, log), q, p, kept)
  {}

  lemma RequestElsewhere(j: Journal, session: Session, n: nat, now: int, stamp: int, halfOk: bool, q: Request, p: JournalPending, kept: Log)
    requires n < |j.logs| && Awaits(j, q, p, kept) && p.session == q.session && session != q.session
    requires j.logs[p.log].session == q.session && j.logs[n].session == session
    ensures Awaits(RequestSummary(j, session, n, now, stamp, halfOk), q, p, kept)
  {
    hide AfterOlderHalf, ExtractTimeRange, WithLog;
    var log := AfterOlderHalf(LogOf(j, n), halfOk).0;
    WithLogElsewhere(j, n, log, q, p, kept);
    SameLogs(WithLog(j, n, log), RequestSummary(j, session, n, now, stamp, halfOk), p.log);
  }

  lemma StaleElsewhere(cfg: Config, j: Journal, session: Session, now: int, q: Request, p: JournalPending, kept: Log)
    requires Awaits(j, q, p, kept) && p.session == q.session && session != q.session
    ensures Awaits(CheckStaleSession(cfg, j, session, now), q, p, kept)
  {
    SameLogs(j, CheckStaleSession(cfg, j, session, now), p.log);
  }

  lemma TriggerElsewhere(cfg: Config, j: Journal, session: Session, now: int, stamp: int, halfOk: bool, q: Request, p: JournalPending, kept: Log)
    requires Inv(j) && session in j.active && Awaits(j, q, p, kept)
    ensures Awaits(TriggerCompaction(cfg, j, session, j.active[session], now, stamp, halfOk), q, p, kept)
  {
    var n := j.active[session];
    assert n < |j.logs| && j.logs[n].session == session && p.session == q.session && session != q.session;
    assert j.logs[p.log].session == q.session;
    hide Inv, Awaits, RequestSummary;
    if session !in j.inFlight {
      RequestElsewhere(j, session, n, now, stamp, halfOk, q, p, kept);
    } else {
      StaleElsewhere(cfg, j, session, now, q, p, kept);
      RequestElsewhere(CheckStaleSession(cfg, j, session, now), session, n, now, stamp, halfOk, q, p, kept);
    }
  }

  lemma SameLogs(j: Journal, j': Journal, n: nat)
    requires n < |j.logs| && j.logs == j'.logs && j.files == j'.files
    ensures LogOf(j, n) == LogOf(j', n)
  {}

  lemma WrittenLeavesRequest(cfg: Config, j: Journal, e: Event, q: Request, p: JournalPending, log: Log)
    requires Inv(j) && Awaits(j, q, p, log) && e.Written? && e.session in j.active
    ensures Awaits(Step(cfg, j, e), q, p, log)
  {
    hide AfterAppendRaw, TriggerCompaction, WithLog;
    var n := j.active[e.session];
    var log1 := AfterAppendRaw(LogOf(j, n), e.entry, e.appendOk).0;
    WithLogKeepsInv(j, n, log1);
    WithLogElsewhere(j, n, log1, q, p, log);
    TriggerElsewhere(cfg, WithLog(j, n, log1), e.session, e.now, e.stamp, e.halfOk, q, p, log);
  }

  lemma ForgetElsewhere(j: Journal, session: Session, q: Request, p: JournalPending, kept: Log)
    requires Awaits(j, q, p, kept)
    ensures Awaits(Forget(j, session), q, p, kept)
  {}

  lemma StoppedLeavesRequest(cfg: Config, j: Journal, e: Event, q: Request, p: JournalPending, log: Log)
    requires Inv(j) && Awaits(j, q, p, log) && e.Stopped? && e.session in j.active
    ensures Awaits(Step(cfg, j, e), q, p, log)
  {
    hide AfterAppendRaw, TriggerCompaction, WithLog, Forget, TailCalls;
    var n := j.active[e.session];
    TriggerElsewhere(cfg, j, e.session, e.now, e.stamp, e.halfOk, q, p, log);
    TriggerKeepsShape(cfg, j, e.session, n, e.now, e.stamp, e.halfOk);
    var j1 := if TailCalls(cfg, j, e.session)
              then TriggerCompaction(cfg, j, e.session, n, e.now, e.stamp, e.halfOk) else j;
    var log1 := AfterAppendRaw(LogOf(j1, n), e.entry, e.appendOk).0;
    WithLogElsewhere(j1, n, log1, q, p, log);
    ForgetElsewhere(WithLog(j1, n, log1), e.session, q, p, log);
  }

  lemma AddLogElsewhere(j: Journal, session: Session, log: Log, q: Request, p: JournalPending, kept: Log)
    requires Awaits(j, q, p, kept)
    ensures Awaits(AddLog(j, session, log), q, p, kept)
  {}

  lemma ActivateElsewhere(j: Journal, session: Session, n: nat, q: Request, p: JournalPending, kept: Log)
    requires Awaits(j, q, p, kept) && session != q.session
    ensures Awaits(Activate(j, session, n), q, p, kept)
  {}

  lemma CreatedLeavesRequest(j: Journal, e: Event, q: Request, p: JournalPending, log: Log)
    requires Inv(j) && Awaits(j, q, p, log) && e.Created? && e.session != q.session
    ensures Awaits(HandleCreated(j, e.session, e.entry, e.readOk, e.appendOk), q, p, log)
  {
    hide AfterAppendRaw, Open, WithLog, AddLog, Activate, Awaits;
    if e.session != "" && e.readOk {
      var opened_ := Open(FileOf(j, e.session));
      var n := |j.logs|;
      var log1 := AfterAppendRaw(opened_, e.entry, e.appendOk).0;
      var j1 := AddLog(j, e.session, opened_);
      PendingSession(j, q, p, log);
      AddLogKeepsInv(j, e.session, opened_);
      AddLogElsewhere(j, e.session, opened_, q, p, log);
      PendingSession(j1, q, p, log);
      WithLogElsewhere(j1, n, log1, q, p, log);
      ActivateElsewhere(WithLog(j1, n, log1), e.session, n, q, p, log);
    }
  }

  lemma PendingSession(j: Journal, q: Request, p: JournalPending, log: Log)
    requires Inv(j) && Awaits(j, q, p, log)
    ensures p.session == q.session && p.log < |j.logs| && j.logs[p.log].session == q.session
  {}

  lemma RepliedLeavesRequest(cfg: Config, j: Journal, e: Event, q: Request, p: JournalPending, log: Log)
    requires e.Replied? && e.request in j.pending && e.request != q
    requires Inv(j) && Awaits(j, q, p, log)
    ensures Awaits(HandleReplied(cfg, j, e.request, e.text, e.io), q, p, log)
  {
    OtherSession(j, e.request, q, p, log);
    hide AfterReply, ArchivedBy, Inv, WithLog, AddBatches, Resolve, Awaits;
    var p' := j.pending[e.request];
    var answered := AfterReply(cfg, LogOf(j, p'.log), p'.range, e.text, e.io);
    var batches := ArchivedBy(cfg, LogOf(j, p'.log), p'.range, e.text, e.io);
    PendingSession(j, q, p, log);
    WithLogElsewhere(j, p'.log, answered, q, p, log);
    ResolveElsewhere(WithLog(j, p'.log, answered), p'.session, batches, e.request, q, p, log);
  }

  lemma OtherSession(j: Journal, q': Request, q: Request, p: JournalPending, log: Log)
    requires Inv(j) && q' in j.pending && q' != q && Awaits(j, q, p, log)
    ensures var p' := j.pending[q'];
            q'.session != q.session && p'.session == q'.session && p'.log < |j.logs| && j.logs[p'.log].session == q'.session
  {}

  lemma ResolveElsewhere(j: Journal, session: Session, batches: seq<seq<string>>, q': Request, q: Request, p: JournalPending, log: Log)
    requires Awaits(j, q, p, log) && q' != q
    ensures Awaits(Resolve(AddBatches(j, session, batches), q', session), q, p, log)
  {}

  lemma StepLeavesRequest(cfg: Config, j: Journal, e: Event, q: Request, p: JournalPending, log: Log)
    requires Inv(j) && Awaits(j, q, p, log) && LeavesRequest(e, q)
    ensures Awaits(Step(cfg, j, e), q, p, log)
  {
    hide AfterAppendRaw, Open, TriggerCompaction, WithLog, HandleCreated, Inv, Awaits, Forget, TailCalls, AfterReply, ArchivedBy, AddBatches, Resolve;
    match e
    case Created(session, entry, readOk, appendOk) => CreatedLeavesRequest(j, e, q, p, log);
    case Written(session, entry, appendOk, now, stamp, halfOk) =>
      if session in j.active { WrittenLeavesRequest(cfg, j, e, q, p, log); }
    case Stopped(session, entry, appendOk, now, stamp, halfOk) =>
      if session in j.active { StoppedLeavesRequest(cfg, j, e, q, p, log); }
    case Replied(q', text, io) =>
      if q' in j.pending { RepliedLeavesRequest(cfg, j, e, q, p, log); }
  }

  lemma ReplyKeepsFile(cfg: Config, log: Log, range: Pending, text: string, io: ReplyIO)
    ensures AfterReply(cfg, log, range, text, io).file == None ==> log.file == None
  {
    hide Blank, FormattedSummary, Contains, HasDelimiters, HasPrefix, Trim, Print, OverBudget;
  }

  /** The guard lets a compaction through: it is free, or the reaper will clear it. */
  predicate GuardOpens(cfg: Config, j: Journal, session: Session, now: int) {
    || session !in j.inFlight
    || (session in j.startedAt && j.startedAt[session] != 0 && now - j.startedAt[session] >= cfg.staleTimeout)
  }

  lemma RequestPending(j: Journal, session: Session, n: nat, now: int, stamp: int, halfOk: bool)
    requires Inv(j) && session in j.active && session !in j.inFlight && n < |j.logs|
    ensures var j' := RequestSummary(j, session, n, now, stamp, halfOk);
            var made := Request(session, stamp);
            if AfterOlderHalf(LogOf(j, n), halfOk).1 == "" then !Unresolved(j', session)
            else made in j'.pending && forall q :: q in j'.pending && q.session == session ==> q == made
  {
    assert !Unresolved(j, session);
    NoneOfSession(j, session);
    hide AfterOlderHalf, ExtractTimeRange, WithLog, Inv;
    HandedOut(LogOf(j, n), halfOk);
    WithLogKeepsInv(j, n, AfterOlderHalf(LogOf(j, n), halfOk).0);
  }

  /** `TriggerCompaction` seen from the table of requests. */
  lemma TriggerPending(cfg: Config, j: Journal, session: Session, n: nat, now: int, stamp: int, halfOk: bool)
    requires Inv(j) && session in j.active && n == j.active[session] && n < |j.logs|
    ensures var j' := TriggerCompaction(cfg, j, session, n, now, stamp, halfOk);
            var made := Request(session, stamp);
            if !GuardOpens(cfg, j, session, now) then j'.pending == j.pending
            else if AfterOlderHalf(LogOf(j, n), halfOk).1 == "" then !Unresolved(j', session)
            else made in j'.pending && forall q :: q in j'.pending && q.session == session ==> q == made
  {
    hide AfterOlderHalf, RequestSummary, Inv, Unresolved;
    if GuardOpens(cfg, j, session, now) {
      var cleared := if session in j.inFlight then CheckStaleSession(cfg, j, session, now) else j;
      CheckStaleKeepsInv(cfg, j, session, now);
      SameLogs(j, cleared, n);
      RequestPending(cleared, session, n, now, stamp, halfOk);
    }
  }

  /** Whatever request a stopped session leaves behind, made just now or long before, is for the log
      it was using, as the session leaves that log. */
  lemma StopLeavesRequest(cfg: Config, j: Journal, e: Event, q: Request)
    requires Inv(j) && e.Stopped? && e.session in j.active
    requires q in Step(cfg, j, e).pending && q.session == e.session
    ensures var n, j' := j.active[e.session], Step(cfg, j, e);
            && n < |j'.logs| && j'.pending[q].log == n
            && Awaits(j', q, j'.pending[q], LogOf(j', n))
  {
    hide AfterAppendRaw, TriggerCompaction, WithLog;
    StoppedInTwo(cfg, j, e);
    var b := BeforeForget(cfg, j, e);
    assert q in b.pending && b.pending[q].log == b.active[q.session];
  }

  /** Exactly when it leaves one: a compaction was pending and is not reaped now, or one is triggered
      now and the older half is handed out. */
  lemma StopLeavesOneExactly(cfg: Config, j: Journal, e: Event)
    requires Inv(j) && e.Stopped? && e.session in j.active
    ensures j.active[e.session] < |j.logs|
    ensures var triggered := TailCalls(cfg, j, e.session) && GuardOpens(cfg, j, e.session, e.now);
            Unresolved(Step(cfg, j, e), e.session) <==>
              if triggered then AfterOlderHalf(LogOf(j, j.active[e.session]), e.halfOk).1 != ""
              else e.session in j.inFlight
  {
    hide AfterAppendRaw, AfterOlderHalf, TriggerCompaction, WithLog;
    StoppedInTwo(cfg, j, e);
    var n, b := j.active[e.session], BeforeForget(cfg, j, e);
    TriggerPending(cfg, j, e.session, n, e.now, e.stamp, e.halfOk);
    var j1 := if TailCalls(cfg, j, e.session)
              then TriggerCompaction(cfg, j, e.session, n, e.now, e.stamp, e.halfOk) else j;
    TriggerKeepsShape(cfg, j, e.session, n, e.now, e.stamp, e.halfOk);
    WithLogKeepsInv(j1, n, AfterAppendRaw(LogOf(j1, n), e.entry, e.appendOk).0);
    SamePending(j1, b);
    SamePending(b, Step(cfg, j, e));
    TriggerKeepsInv(cfg, j, e.session, e.now, e.stamp, e.halfOk);
    UnresolvedOfSession(j1, e.session);
    SamePendingAs(j, j1, e.session);
  }

  lemma UnresolvedOfSession(j: Journal, session: Session)
    requires Inv(j)
    ensures Unresolved(j, session) <==> exists q :: q in j.pending && q.session == session
  {
    if q :| q in j.pending && q.session == session { assert j.pending[q].session == session; }
    if Unresolved(j, session) {
      var q :| q in j.pending && j.pending[q].session == session;
      assert q.session == session;
    }
  }

  lemma SamePendingAs(j: Journal, j': Journal, session: Session)
    requires Inv(j) && session in j.active
    ensures j'.pending == j.pending ==> (Unresolved(j', session) <==> session in j.inFlight)
  {
    if j'.pending == j.pending { SamePending(j, j'); }
  }

  lemma HandedOut(log: Log, diskOk: bool)
    ensures AfterOlderHalf(log, diskOk).1 != "" ==> AfterOlderHalf(log, diskOk).2 == Stored
  {
    hide Print, Join;
  }

  lemma EmptyIsGuarded()
    ensures Inv(EMPTY)
  {}

  ghost predicate AllLeaveRequest(events: seq<Event>, q: Request) {
    forall k :: 0 <= k < |events| ==> LeavesRequest(events[k], q)
  }

  lemma AnsweredAsAwaited(cfg: Config, j: Journal, q: Request, p: JournalPending, log: Log, text: string, io: ReplyIO)
    requires Inv(j) && Awaits(j, q, p, log)
    ensures var j' := Step(cfg, j, Replied(q, text, io));
            && p.log < |j'.logs| && q !in j'.pending && LogOf(j', p.log) == AfterReply(cfg, log, p.range, text, io)
  {
    hide AfterReply, ArchivedBy, Inv, WithLog, AddBatches, LogOf;
    PendingSession(j, q, p, log);
    ReplyKeepsFile(cfg, log, p.range, text, io);
    LogFileOf(j, p.log);
    var after, batches := AfterReply(cfg, log, p.range, text, io), ArchivedBy(cfg, log, p.range, text, io);
    var j1 := WithLog(j, p.log, after);
    WrittenBack(j, p.log, after);
    WithLogKeepsInv(j, p.log, after);
    BatchesDoNotMatter(j1, p.session, batches);
    SameLogs(j1, Resolve(AddBatches(j1, p.session, batches), q, p.session), p.log);
  }

  lemma LogFileOf(j: Journal, n: nat)
    requires n < |j.logs|
    ensures LogOf(j, n).file == FileOf(j, j.logs[n].session)
  {}

  lemma WrittenBack(j: Journal, n: nat, log: Log)
    requires n < |j.logs| && (log.file == None ==> LogOf(j, n).file == None)
    ensures |WithLog(j, n, log).logs| == |j.logs| && LogOf(WithLog(j, n, log), n) == log
  {}

  /** However long it takes, the reply to a stopped session's request finds the log as the session
      left it, and goes into it and its file. */
  lemma {:induction false} FinalizationReachesRetainedLog(
    cfg: Config, j: Journal, events: seq<Event>, q: Request, p: JournalPending, log: Log, text: string, io: ReplyIO)
    requires Inv(j) && Awaits(j, q, p, log)
    requires NeverReusesPendingId(cfg, j, events) && AllLeaveRequest(events, q)
    ensures var j' := Step(cfg, Run(cfg, j, events), Replied(q, text, io));
            && p.log < |j'.logs| && q !in j'.pending
            && LogOf(j', p.log) == AfterReply(cfg, log, p.range, text, io)
    decreases |events|
  {
    hide Inv, Step, Awaits, LeavesRequest, ReusesPendingId, AfterReply, LogOf;
    if events == [] {
      AnsweredAsAwaited(cfg, j, q, p, log, text, io);
    } else {
      assert LeavesRequest(events[0], q);
      StepLeavesRequest(cfg, j, events[0], q, p, log);
      StepInvExact(cfg, j, events[0]);
      FinalizationReachesRetainedLog(cfg, Step(cfg, j, events[0]), events[1..], q, p, log, text, io);
    }
  }

  /** From the stop to the summary: any request of a stopped session is answered into the log as the
      session left it, however many events come between. */
  lemma StoppedSessionIsFinalized(
    cfg: Config, j: Journal, e: Event, q: Request, events: seq<Event>, text: string, io: ReplyIO)
    requires Inv(j) && e.Stopped? && e.session in j.active
    requires q in Step(cfg, j, e).pending && q.session == e.session
    requires NeverReusesPendingId(cfg, Step(cfg, j, e), events) && AllLeaveRequest(events, q)
    ensures var n, left := j.active[e.session], Step(cfg, j, e);
            var j' := Step(cfg, Run(cfg, left, events), Replied(q, text, io));
            && n < |left.logs| && n < |j'.logs| && q !in j'.pending
            && LogOf(j', n) == AfterReply(cfg, LogOf(left, n), left.pending[q].range, text, io)
  {
    hide Inv, Step, Run, AfterReply, NeverReusesPendingId, AllLeaveRequest, Awaits;
    StopLeavesRequest(cfg, j, e, q);
    StepInvExact(cfg, j, e);
    var n, left := j.active[e.session], Step(cfg, j, e);
    FinalizationReachesRetainedLog(cfg, left, events, q, left.pending[q], LogOf(left, n), text, io);
  }
}
