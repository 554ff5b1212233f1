/** What the conversation log's ledger shows for one log, shown for every session's journal: each
    session is followed by a world of its own, which the journal service is proved to depict. */
module JournalConservation {
  import opened Wrappers
  import opened Text
  import opened LogFormat
  import opened RollingLogSpec
  import opened ConversationLogSpec
  import C = Conservation
  import J = Journal

  type Worlds = map<J.Session, World>

  function WorldAt(worlds: Worlds, session: J.Session): World {
    if session in worlds then worlds[session] else INITIAL
  }

  // ---------------------------------------------------------------- one session's steps

  /** With no summary to wait for, a stopped session's log is let go of. */
  function Settle(w: World): World {
    if w.s.pending == map[] then ClearMemory(w) else w
  }

  function Untimed(w: World): World {
    World(w.s.(startedAt := 0), w.l)
  }

  /** The stop's compaction, if its tail calls for one. */
  function StopTriggers(cfg: Config, w: World, e: J.Event): World
    requires e.Stopped?
  {
    var size := TotalLength(w.s.log.rawTail);
    if size > cfg.compactionThreshold && size > J.MIN_FINALIZATION_TAIL_SIZE
    then TriggerCompaction(cfg, w, e.now, e.stamp, e.halfOk) else w
  }

  /** An event of the session itself; `live` says whether the session has an active journal. */
  function SessionStep(cfg: Config, w: World, live: bool, e: J.Event): World {
    match e
    case Created(session, entry, readOk, appendOk) =>
      if session == "" || !readOk then w else
        var (w1, r) := StoreEntry(HandleStart(w, true), entry, appendOk);
        if r == Rejected || r == WriteFailed then w else w1
    case Written(_, entry, appendOk, now, stamp, halfOk) =>
      if !live then w else
        var w1 := StoreEntry(w, entry, appendOk).0;
        if TotalLength(w1.s.log.rawTail) > cfg.compactionThreshold
        then TriggerCompaction(cfg, w1, now, stamp, halfOk) else w1
    case Stopped(_, entry, appendOk, now, stamp, halfOk) =>
      if !live then w else
        Settle(Untimed(StoreEntry(StopTriggers(cfg, w, e), entry, appendOk).0))
    case Replied(q, text, io) =>
      if q.stamp !in w.s.pending then w else
        var w1 := HandleReply(cfg, w, q.stamp, text, io);
        if live then w1 else Settle(w1)
    case ShutDown => ClearMemory(w)
  }

  function SessionOf(e: J.Event): J.Session
    requires !e.ShutDown?
  {
    if e.Replied? then e.request.session else e.session
  }

  function WorldsStep(cfg: Config, j: J.Journal, worlds: Worlds, e: J.Event): Worlds {
    if e.ShutDown? then map s | s in worlds :: ClearMemory(worlds[s])
    else
      var s := SessionOf(e);
      worlds[s := SessionStep(cfg, WorldAt(worlds, s), s in j.active, e)]
  }

  function RunWorlds(cfg: Config, j: J.Journal, worlds: Worlds, events: seq<J.Event>): Worlds
    decreases |events|
  {
    if events == [] then worlds
    else RunWorlds(cfg, J.Step(cfg, j, events[0]), WorldsStep(cfg, j, worlds, events[0]), events[1..])
  }

  // ---------------------------------------------------------------- the journal depicts the worlds

  function PromptsOf(prompts: seq<J.JournalPrompt>, session: J.Session): seq<Prompt> {
    if prompts == [] then [] else
      var last := prompts[|prompts| - 1];
      PromptsOf(prompts[..|prompts| - 1], session)
      + (if last.request.session == session then [Prompt(last.request.stamp, last.text)] else [])
  }

  /** The requests of a session and their time ranges. */
  ghost predicate SamePending(j: J.Journal, session: J.Session, pending: map<PromptId, Pending>) {
    && (forall q: J.Request :: q in j.pending && q.session == session ==> q.stamp in pending && pending[q.stamp] == j.pending[q].range)
    && (forall id :: id in pending ==> J.Request(session, id) in j.pending)
  }

  /** The log objects of a session that are still referred to hold these lists. */
  ghost predicate HoldsLog(j: J.Journal, session: J.Session, log: Log) {
    && (session in j.active ==> j.active[session] < |j.logs| && J.LogOf(j, j.active[session]) == log)
    && (forall q: J.Request :: q in j.pending && q.session == session ==> j.pending[q].log < |j.logs| && J.LogOf(j, j.pending[q].log) == log)
  }

  function StartTime(j: J.Journal, session: J.Session): int {
    if session in j.startedAt then j.startedAt[session] else 0
  }

  /** A session's log is in memory while it is active or a summary is awaited. */
  ghost predicate Depicts(j: J.Journal, session: J.Session, s: Service) {
    && SamePending(j, session, s.pending)
    && (s.started <==> session in j.active || s.pending != map[])
    && (if s.started then HoldsLog(j, session, s.log) && s.log.file == J.FileOf(j, session)
        else s.log == Log([], [], J.FileOf(j, session)))
    && (s.inFlight <==> s.pending != map[])
    && s.startedAt == StartTime(j, session)
    && s.prompts == PromptsOf(j.prompts, session)
    && s.archive == J.ArchiveOf(j, session)
  }

  // ---------------------------------------------------------------- other sessions

  /** Nothing of this session differs. */
  ghost predicate SameFor(j: J.Journal, j': J.Journal, session: J.Session) {
    && (session in j.active <==> session in j'.active)
    && (session in j.active ==> j'.active[session] == j.active[session])
    && (forall q: J.Request :: q.session == session ==> (q in j.pending <==> q in j'.pending))
    && (forall q: J.Request :: q.session == session && q in j.pending ==> j'.pending[q] == j.pending[q])
    && J.FileOf(j', session) == J.FileOf(j, session) && J.ArchiveOf(j', session) == J.ArchiveOf(j, session)
    && StartTime(j', session) == StartTime(j, session)
    && PromptsOf(j'.prompts, session) == PromptsOf(j.prompts, session)
    && |j.logs| <= |j'.logs|
    && (forall n :: 0 <= n < |j.logs| && j.logs[n].session == session ==> j'.logs[n] == j.logs[n])
  }

  lemma SameForTransitive(a: J.Journal, b: J.Journal, c: J.Journal, session: J.Session)
    requires SameFor(a, b, session) && SameFor(b, c, session)
    ensures SameFor(a, c, session)
  {
    hide PromptsOf, J.FileOf, J.ArchiveOf, StartTime;
  }

  lemma DepictsSame(j: J.Journal, j': J.Journal, session: J.Session, s: Service)
    requires J.Inv(j) && Depicts(j, session, s) && SameFor(j, j', session)
    ensures Depicts(j', session, s)
  {
    hide PromptsOf, StartTime, J.ArchiveOf, J.GuardPerSession;
    forall q | q in j'.pending && q.session == session
      ensures q in j.pending && j'.pending[q] == j.pending[q]
              && j.pending[q].log < |j.logs| && j.logs[j.pending[q].log].session == session
    {
      assert q in j.pending && j.pending[q].session == q.session;
    }
  }

  lemma LogElsewhere(j: J.Journal, n: nat, log: Log, t: J.Session)
    requires n < |j.logs| && j.logs[n].session != t
    ensures SameFor(j, J.WithLog(j, n, log), t)
  {}

  lemma StaleElsewhere(cfg: Config, j: J.Journal, session: J.Session, now: int, t: J.Session)
    requires J.Inv(j) && session != t
    ensures SameFor(j, J.CheckStaleSession(cfg, j, session, now), t)
  {
    hide J.GuardPerSession;
  }

  lemma {:induction false} PromptsAppend(prompts: seq<J.JournalPrompt>, last: J.JournalPrompt, t: J.Session)
    ensures PromptsOf(prompts + [last], t)
         == PromptsOf(prompts, t) + if last.request.session == t then [Prompt(last.request.stamp, last.text)] else []
  {
    assert (prompts + [last])[..|prompts|] == prompts;
  }

  lemma TimedElsewhere(j: J.Journal, session: J.Session, now: int, t: J.Session)
    requires session != t
    ensures SameFor(j, j.(startedAt := j.startedAt[session := now]), t)
  {}

  lemma AskedElsewhere(j: J.Journal, session: J.Session, n: nat, stamp: int, text: string, t: J.Session)
    requires session != t
    ensures SameFor(j, J.AddPending(j, session, n, stamp, text), t)
  {
    hide ExtractTimeRange, PromptsOf;
    PromptsAppend(j.prompts, J.JournalPrompt(J.Request(session, stamp), text), t);
    assert PromptsOf(j.prompts, t) + [] == PromptsOf(j.prompts, t);
  }

  lemma RequestElsewhere(j: J.Journal, session: J.Session, n: nat, now: int, stamp: int, halfOk: bool, t: J.Session)
    requires n < |j.logs| && j.logs[n].session == session != t
    ensures SameFor(j, J.RequestSummary(j, session, n, now, stamp, halfOk), t)
  {
    hide AfterOlderHalf, SameFor, J.AddPending;
    var (log, text, r) := AfterOlderHalf(J.LogOf(j, n), halfOk);
    var j1 := J.WithLog(j, n, log);
    var j2 := j1.(startedAt := j.startedAt[session := now]);
    LogElsewhere(j, n, log, t);
    TimedElsewhere(j1, session, now, t);
    SameForTransitive(j, j1, j2, t);
    AskedElsewhere(j2, session, n, stamp, text, t);
    SameForTransitive(j, j2, J.AddPending(j2, session, n, stamp, text), t);
  }

  lemma TriggerElsewhere(cfg: Config, j: J.Journal, session: J.Session, n: nat, now: int, stamp: int, halfOk: bool, t: J.Session)
    requires J.Inv(j) && n < |j.logs| && j.logs[n].session == session != t
    ensures SameFor(j, J.TriggerCompaction(cfg, j, session, n, now, stamp, halfOk), t)
  {
    hide J.RequestSummary, SameFor, J.Inv;
    var cleared := J.CheckStaleSession(cfg, j, session, now);
    RequestElsewhere(j, session, n, now, stamp, halfOk, t);
    StaleElsewhere(cfg, j, session, now, t);
    RequestElsewhere(cleared, session, n, now, stamp, halfOk, t);
    SameForTransitive(j, cleared, J.RequestSummary(cleared, session, n, now, stamp, halfOk), t);
  }

  lemma AddedElsewhere(j: J.Journal, session: J.Session, log: Log, t: J.Session)
    ensures SameFor(j, J.AddLog(j, session, log), t)
  {}

  lemma ActivatedElsewhere(j: J.Journal, session: J.Session, n: nat, t: J.Session)
    requires session != t
    ensures SameFor(j, J.Activate(j, session, n), t)
  {}

  lemma CreatedElsewhere(j: J.Journal, e: J.Event, t: J.Session)
    requires e.Created? && e.session != t
    ensures SameFor(j, J.HandleCreated(j, e.session, e.entry, e.readOk, e.appendOk), t)
  {
    hide AfterAppendRaw, Open, J.WithLog, SameFor, J.Activate;
    SameForItself(j, t);
    if e.session != "" && e.readOk {
      var opened_ := Open(J.FileOf(j, e.session));
      var (log, r) := AfterAppendRaw(opened_, e.entry, e.appendOk);
      var n, j1 := |j.logs|, J.AddLog(j, e.session, opened_);
      var j2 := J.WithLog(j1, n, log);
      AddedElsewhere(j, e.session, opened_, t);
      LogElsewhere(j1, n, log, t);
      SameForTransitive(j, j1, j2, t);
      ActivatedElsewhere(j2, e.session, n, t);
      SameForTransitive(j, j2, J.Activate(j2, e.session, n), t);
    }
  }

  lemma WrittenElsewhere(cfg: Config, j: J.Journal, e: J.Event, t: J.Session)
    requires J.Inv(j) && e.Written? && e.session != t
    ensures SameFor(j, J.Step(cfg, j, e), t)
  {
    hide AfterAppendRaw, J.TriggerCompaction, J.WithLog, SameFor;
    if e.session in j.active {
      var n := j.active[e.session];
      var log := AfterAppendRaw(J.LogOf(j, n), e.entry, e.appendOk).0;
      var j1 := J.WithLog(j, n, log);
      LogElsewhere(j, n, log, t);
      J.WithLogKeepsInv(j, n, log);
      TriggerElsewhere(cfg, j1, e.session, n, e.now, e.stamp, e.halfOk, t);
      SameForTransitive(j, j1, J.TriggerCompaction(cfg, j1, e.session, n, e.now, e.stamp, e.halfOk), t);
    }
    assert SameFor(j, j, t) by { SameForItself(j, t); }
  }

  lemma SameForItself(j: J.Journal, t: J.Session)
    ensures SameFor(j, j, t)
  {}

  lemma StoppedElsewhere(cfg: Config, j: J.Journal, e: J.Event, t: J.Session)
    requires J.Inv(j) && e.Stopped? && e.session != t
    ensures SameFor(j, J.Step(cfg, j, e), t)
  {
    hide AfterAppendRaw, J.TriggerCompaction, J.WithLog, SameFor, J.Forget, J.TailCalls;
    SameForItself(j, t);
    if e.session in j.active {
      var n := j.active[e.session];
      J.TriggerKeepsShape(cfg, j, e.session, n, e.now, e.stamp, e.halfOk);
      TriggerElsewhere(cfg, j, e.session, n, e.now, e.stamp, e.halfOk, t);
      var j1 := if J.TailCalls(cfg, j, e.session)
                then J.TriggerCompaction(cfg, j, e.session, n, e.now, e.stamp, e.halfOk) else j;
      var log := AfterAppendRaw(J.LogOf(j1, n), e.entry, e.appendOk).0;
      var j2 := J.WithLog(j1, n, log);
      LogElsewhere(j1, n, log, t);
      ForgetElsewhere(j2, e.session, t);
      SameForTransitive(j, j1, j2, t);
      SameForTransitive(j, j2, J.Forget(j2, e.session), t);
    }
  }

  lemma ForgetElsewhere(j: J.Journal, session: J.Session, t: J.Session)
    requires session != t
    ensures SameFor(j, J.Forget(j, session), t)
  {}

  lemma BatchesElsewhere(j: J.Journal, session: J.Session, batches: seq<seq<string>>, t: J.Session)
    requires session != t
    ensures SameFor(j, J.AddBatches(j, session, batches), t)
  {}

  lemma ResolvedElsewhere(j: J.Journal, q: J.Request, t: J.Session)
    requires q.session != t
    ensures SameFor(j, J.Resolve(j, q, q.session), t)
  {}

  lemma RepliedElsewhere(cfg: Config, j: J.Journal, q: J.Request, text: string, io: ReplyIO, t: J.Session)
    requires J.Inv(j) && q.session != t
    ensures SameFor(j, J.HandleReplied(cfg, j, q, text, io), t)
  {
    if q in j.pending { assert j.pending[q].session == q.session && j.logs[j.pending[q].log].session == q.session; }
    hide J.AfterReply, J.ArchivedBy, J.Inv, SameFor, J.WithLog, J.AddBatches, J.Resolve;
    SameForItself(j, t);
    if q in j.pending {
      var p := j.pending[q];
      var log := J.LogOf(j, p.log);
      var j1 := J.WithLog(j, p.log, J.AfterReply(cfg, log, p.range, text, io));
      var j2 := J.AddBatches(j1, p.session, J.ArchivedBy(cfg, log, p.range, text, io));
      LogElsewhere(j, p.log, J.AfterReply(cfg, log, p.range, text, io), t);
      BatchesElsewhere(j1, p.session, J.ArchivedBy(cfg, log, p.range, text, io), t);
      SameForTransitive(j, j1, j2, t);
      ResolvedElsewhere(j2, q, t);
      SameForTransitive(j, j2, J.Resolve(j2, q, q.session), t);
    }
  }

  lemma StepElsewhere(cfg: Config, j: J.Journal, e: J.Event, t: J.Session)
    requires J.Inv(j) && !e.ShutDown? && SessionOf(e) != t
    ensures SameFor(j, J.Step(cfg, j, e), t)
  {
    hide SameFor, J.HandleCreated, J.HandleReplied, J.HandleWritten, J.HandleStopped, J.Inv;
    match e
    case Created(session, entry, readOk, appendOk) => CreatedElsewhere(j, e, t);
    case Written(session, entry, appendOk, now, stamp, halfOk) => WrittenElsewhere(cfg, j, e, t);
    case Stopped(session, entry, appendOk, now, stamp, halfOk) => StoppedElsewhere(cfg, j, e, t);
    case Replied(q, text, io) => RepliedElsewhere(cfg, j, q, text, io, t);
    case ShutDown =>
  }

  // ---------------------------------------------------------------- the session itself

  /** Object n is the log of the session, active or awaiting a summary, and no other is referred to. */
  ghost predicate Current(j: J.Journal, session: J.Session, n: nat) {
    && n < |j.logs| && j.logs[n].session == session
    && (session in j.active ==> j.active[session] == n)
    && (forall q: J.Request :: q in j.pending && q.session == session ==> j.pending[q].log == n)
  }

  lemma ActiveIsCurrent(j: J.Journal, session: J.Session)
    requires J.Inv(j) && session in j.active
    ensures Current(j, session, j.active[session])
  {}

  lemma PendingIsCurrent(j: J.Journal, q: J.Request)
    requires J.Inv(j) && q in j.pending
    ensures Current(j, q.session, j.pending[q].log)
  {}

  lemma SameLogs(j: J.Journal, j': J.Journal)
    requires j.logs == j'.logs && j.files == j'.files
    ensures forall n :: 0 <= n < |j.logs| ==> J.LogOf(j', n) == J.LogOf(j, n)
  {}

  lemma DepictsLog(j: J.Journal, session: J.Session, n: nat, log: Log, s: Service)
    requires Current(j, session, n) && Depicts(j, session, s) && s.started && s.log == J.LogOf(j, n)
    requires log.file.Some? || log.file == s.log.file
    ensures Depicts(J.WithLog(j, n, log), session, s.(log := log)) && J.LogOf(J.WithLog(j, n, log), n) == log
    ensures Current(J.WithLog(j, n, log), session, n)
  {
    hide PromptsOf;
  }

  lemma StartedLog(j: J.Journal, session: J.Session, n: nat, s: Service)
    requires Current(j, session, n) && Depicts(j, session, s) && s.started
    ensures s.log == J.LogOf(j, n)
  {
    hide PromptsOf, StartTime, J.ArchiveOf;
    if session !in j.active {
      assert s.pending.Keys != {};
      var id := Member(s.pending.Keys);
      assert J.Request(session, id) in j.pending;
    }
  }

  lemma DepictsStore(j: J.Journal, session: J.Session, n: nat, entry: string, appendOk: bool, w: World)
    requires J.Inv(j) && Current(j, session, n) && Depicts(j, session, w.s) && w.s.started
    ensures var j' := J.WithLog(j, n, AfterAppendRaw(J.LogOf(j, n), entry, appendOk).0);
            && J.Inv(j') && Current(j', session, n) && Depicts(j', session, StoreEntry(w, entry, appendOk).0.s)
            && StoreEntry(w, entry, appendOk).0.s.started && j'.active == j.active
  {
    hide Depicts, J.WithLog, AfterAppendRaw, Trim, J.Inv;
    StartedLog(j, session, n, w.s);
    var log := AfterAppendRaw(J.LogOf(j, n), entry, appendOk).0;
    FileOnlyGrows(J.LogOf(j, n), entry, 0, appendOk);
    DepictsLog(j, session, n, log, w.s);
    J.WithLogKeepsInv(j, n, log);
  }

  /** Without a request there is nothing pending in the world either. */
  lemma NothingPending(j: J.Journal, session: J.Session, s: Service)
    requires J.Inv(j) && session in j.active && Depicts(j, session, s)
    ensures s.inFlight <==> session in j.inFlight
    ensures session !in j.inFlight ==> s.pending == map[] && forall q: J.Request :: q in j.pending ==> q.session != session
  {
    hide PromptsOf, StartTime, J.ArchiveOf, HoldsLog;
    if s.pending != map[] {
      assert s.pending.Keys != {};
      var id := Member(s.pending.Keys);
      assert J.Request(session, id) in j.pending && j.pending[J.Request(session, id)].session == session;
    }
    if session !in j.inFlight { J.NoneOfSession(j, session); }
    if session in j.inFlight {
      var q :| q in j.pending && j.pending[q].session == session;
      assert q.stamp in s.pending;
    }
  }

  /** The guard is taken, and with a text handed out a request is made. */
  lemma DepictsTimed(j: J.Journal, session: J.Session, now: int, s: Service)
    requires Depicts(j, session, s)
    ensures Depicts(j.(startedAt := j.startedAt[session := now]), session, s.(startedAt := now))
  {
    hide PromptsOf, J.LogOf;
    var j' := j.(startedAt := j.startedAt[session := now]);
    SameLogs(j, j');
  }

  lemma DepictsAsked(j: J.Journal, session: J.Session, n: nat, stamp: int, text: string, s: Service)
    requires Depicts(j, session, s) && session in j.active && j.active[session] == n && s.pending == map[]
    requires forall q: J.Request :: q in j.pending ==> q.session != session
    ensures var s' := s.(inFlight := true, pending := s.pending[stamp := ExtractTimeRange(text)], prompts := s.prompts + [Prompt(stamp, text)]);
            Depicts(J.AddPending(j, session, n, stamp, text), session, s')
  {
    hide ExtractTimeRange, PromptsOf, J.LogOf;
    var j' := J.AddPending(j, session, n, stamp, text);
    PromptsAppend(j.prompts, J.JournalPrompt(J.Request(session, stamp), text), session);
    SameLogs(j, j');
    assert forall q: J.Request :: q in j'.pending && q.session == session ==> q == J.Request(session, stamp);
  }

  lemma DepictsRequest(j: J.Journal, session: J.Session, n: nat, now: int, stamp: int, halfOk: bool, w: World)
    requires J.Inv(j) && session in j.active && j.active[session] == n && session !in j.inFlight && n < |j.logs|
    requires Depicts(j, session, w.s)
    ensures Depicts(J.RequestSummary(j, session, n, now, stamp, halfOk), session, Compact(w, now, stamp, halfOk).s)
  {
    hide AfterOlderHalf, Depicts, J.AddPending, J.Inv, ExtractTimeRange, HalfCount, J.WithLog, J.LogOf, Current;
    ActiveIsCurrent(j, session);
    ActiveStarted(j, session, w.s);
    StartedLog(j, session, n, w.s);
    NothingPending(j, session, w.s);
    var (log, text, r) := AfterOlderHalf(J.LogOf(j, n), halfOk);
    FileOnlyGrows(J.LogOf(j, n), "", 0, halfOk);
    J.HandedOut(J.LogOf(j, n), halfOk);
    DepictsLog(j, session, n, log, w.s);
    J.WithLogKeepsInv(j, n, log);
    var j1 := J.WithLog(j, n, log);
    DepictsTimed(j1, session, now, w.s.(log := log));
    var j2 := j1.(startedAt := j.startedAt[session := now]);
    if text != "" {
      DepictsAsked(j2, session, n, stamp, text, w.s.(log := log, startedAt := now));
    }
  }

  lemma DepictsStale(cfg: Config, j: J.Journal, session: J.Session, now: int, w: World)
    requires J.Inv(j) && session in j.active && Depicts(j, session, w.s)
    ensures Depicts(J.CheckStaleSession(cfg, j, session, now), session, CheckStale(cfg, w, now).s)
  {
    hide PromptsOf, DropWaiting, J.GuardPerSession, J.LogOf;
    var j' := J.CheckStaleSession(cfg, j, session, now);
    SameLogs(j, j');
    assert forall q: J.Request :: q in j.pending ==> j.pending[q].session == q.session;
  }

  lemma DepictsTrigger(cfg: Config, j: J.Journal, session: J.Session, n: nat, now: int, stamp: int, halfOk: bool, w: World)
    requires J.Inv(j) && session in j.active && j.active[session] == n && n < |j.logs| && Depicts(j, session, w.s)
    ensures Depicts(J.TriggerCompaction(cfg, j, session, n, now, stamp, halfOk), session, TriggerCompaction(cfg, w, now, stamp, halfOk).s)
  {
    hide J.RequestSummary, Compact, Depicts, J.Inv, CheckStale, J.CheckStaleSession;
    NothingPending(j, session, w.s);
    if session !in j.inFlight {
      DepictsRequest(j, session, n, now, stamp, halfOk, w);
    } else {
      DepictsStale(cfg, j, session, now, w);
      J.CheckStaleKeepsInv(cfg, j, session, now);
      var cleared, w1 := J.CheckStaleSession(cfg, j, session, now), CheckStale(cfg, w, now);
      NothingPending(cleared, session, w1.s);
      if session !in cleared.inFlight { DepictsRequest(cleared, session, n, now, stamp, halfOk, w1); }
    }
  }

  lemma DepictsWritten(cfg: Config, j: J.Journal, e: J.Event, w: World)
    requires J.Inv(j) && e.Written? && Depicts(j, e.session, w.s)
    ensures Depicts(J.Step(cfg, j, e), e.session, SessionStep(cfg, w, e.session in j.active, e).s)
  {
    if e.session in j.active {
      var n := j.active[e.session];
      ActiveIsCurrent(j, e.session);
      assert e.session != "" && w.s.started;
      hide AfterAppendRaw, Depicts, J.TriggerCompaction, TriggerCompaction, J.WithLog, J.Inv, Trim;
      DepictsStore(j, e.session, n, e.entry, e.appendOk, w);
      var j1 := J.WithLog(j, n, AfterAppendRaw(J.LogOf(j, n), e.entry, e.appendOk).0);
      var w1 := StoreEntry(w, e.entry, e.appendOk).0;
      StartedLog(j1, e.session, n, w1.s);
      DepictsTrigger(cfg, j1, e.session, n, e.now, e.stamp, e.halfOk, w1);
    }
  }

  lemma DepictsForgotten(j: J.Journal, session: J.Session, w: World)
    requires J.Inv(j) && session in j.active && Depicts(j, session, w.s)
    ensures Depicts(J.Forget(j, session), session, Settle(Untimed(w)).s)
  {
    hide PromptsOf, DropWaiting, J.GuardPerSession, J.LogOf;
    var j' := J.Forget(j, session);
    SameLogs(j, j');
    if w.s.pending == map[] {
      assert forall q: J.Request :: q in j.pending && q.session == session ==> q.stamp in w.s.pending;
    }
  }

  lemma DepictsStopTriggers(cfg: Config, j: J.Journal, e: J.Event, w: World)
    requires J.Inv(j) && e.Stopped? && e.session in j.active && Depicts(j, e.session, w.s)
    ensures j.active[e.session] < |j.logs|
    ensures var j1 := if J.TailCalls(cfg, j, e.session)
                      then J.TriggerCompaction(cfg, j, e.session, j.active[e.session], e.now, e.stamp, e.halfOk) else j;
            && J.Inv(j1) && J.SameShape(j, j1) && Depicts(j1, e.session, StopTriggers(cfg, w, e).s)
  {
    var n := j.active[e.session];
    ActiveIsCurrent(j, e.session);
    ActiveStarted(j, e.session, w.s);
    StartedLog(j, e.session, n, w.s);
    hide Depicts, J.TriggerCompaction, TriggerCompaction, J.Inv;
    J.TriggerKeepsInv(cfg, j, e.session, e.now, e.stamp, e.halfOk);
    J.TriggerKeepsShape(cfg, j, e.session, n, e.now, e.stamp, e.halfOk);
    DepictsTrigger(cfg, j, e.session, n, e.now, e.stamp, e.halfOk, w);
  }

  lemma DepictsBeforeForget(cfg: Config, j: J.Journal, e: J.Event, w: World)
    requires J.Inv(j) && e.Stopped? && e.session in j.active && Depicts(j, e.session, w.s)
    ensures j.active[e.session] < |j.logs|
    ensures Depicts(J.BeforeForget(cfg, j, e), e.session, StoreEntry(StopTriggers(cfg, w, e), e.entry, e.appendOk).0.s)
  {
    hide AfterAppendRaw, Depicts, J.TriggerCompaction, StopTriggers, J.WithLog, J.Inv, StoreEntry, J.TailCalls;
    DepictsStopTriggers(cfg, j, e, w);
    var n := j.active[e.session];
    var j1 := if J.TailCalls(cfg, j, e.session)
              then J.TriggerCompaction(cfg, j, e.session, n, e.now, e.stamp, e.halfOk) else j;
    ActiveIsCurrent(j1, e.session);
    ActiveStarted(j1, e.session, StopTriggers(cfg, w, e).s);
    DepictsStore(j1, e.session, n, e.entry, e.appendOk, StopTriggers(cfg, w, e));
  }

  lemma DepictsStopped(cfg: Config, j: J.Journal, e: J.Event, w: World)
    requires J.Inv(j) && e.Stopped? && Depicts(j, e.session, w.s)
    ensures Depicts(J.Step(cfg, j, e), e.session, SessionStep(cfg, w, e.session in j.active, e).s)
  {
    hide Depicts, J.BeforeForget, J.Inv, StopTriggers, StoreEntry, J.Forget, Settle, Untimed;
    if e.session in j.active {
      J.StoppedInTwo(cfg, j, e);
      DepictsBeforeForget(cfg, j, e, w);
      DepictsForgotten(J.BeforeForget(cfg, j, e), e.session, StoreEntry(StopTriggers(cfg, w, e), e.entry, e.appendOk).0);
    }
  }

  lemma ActiveStarted(j: J.Journal, session: J.Session, s: Service)
    requires Depicts(j, session, s) && session in j.active
    ensures s.started
  {}

  // ---------------------------------------------------------------- replies

  lemma ArchivalAgrees(cfg: Config, w: World, io: ReplyIO)
    ensures var n := OverBudget(w.s.log.summaries, cfg.summaryBudget);
            TriggerArchival(cfg, w, io).s
              == w.s.(log := J.AfterArchival(cfg, w.s.log, io),
                      archive := w.s.archive + if n == 0 || io.archive == NotArchived then [] else [w.s.log.summaries[..n]])
  {
    hide Print, TotalLength;
    assert w.s.archive + [] == w.s.archive;
  }

  /** The reply's work on a log and its archive is the same in both machines. */
  lemma ReplyAgrees(cfg: Config, w: World, id: PromptId, text: string, io: ReplyIO)
    requires id in w.s.pending
    ensures var log, range := w.s.log, w.s.pending[id];
            HandleReply(cfg, w, id, text, io).s
              == Release(w.s, id).(log := J.AfterReply(cfg, log, range, text, io),
                                   archive := w.s.archive + J.ArchivedBy(cfg, log, range, text, io))
  {
    hide Blank, FormattedSummary, Cover, DropWaiting, TotalLength, AfterAppendSummary, TriggerArchival, J.AfterArchival, OverBudget, Trim;
    var log, range := w.s.log, w.s.pending[id];
    var summary := FormattedSummary(range, text);
    var (log', r) := AfterAppendSummary(log, summary, io.appendOk);
    ArchivalAgrees(cfg, World(Release(w.s, id).(log := log'), Cover(w.l, Trim(summary, NEWLINES))), io);
    assert w.s.archive + [] == w.s.archive;
  }

  lemma ReplyFile(cfg: Config, log: Log, range: Pending, text: string, io: ReplyIO)
    ensures var log' := J.AfterReply(cfg, log, range, text, io); log'.file.Some? || log'.file == log.file
  {
    hide Blank, FormattedSummary, Contains, HasDelimiters, HasPrefix, Trim, Print, OverBudget, TotalLength;
  }

  lemma DepictsBatches(j: J.Journal, session: J.Session, batches: seq<seq<string>>, s: Service)
    requires Depicts(j, session, s)
    ensures Depicts(J.AddBatches(j, session, batches), session, s.(archive := s.archive + batches))
  {
    hide PromptsOf, J.LogOf;
    var j' := J.AddBatches(j, session, batches);
    SameLogs(j, j');
    assert s.archive + [] == s.archive;
  }

  lemma ResolvedPending(j: J.Journal, q: J.Request, s: Service)
    requires J.Inv(j) && q in j.pending && SamePending(j, q.session, s.pending) && q.stamp in s.pending
    ensures s.pending - {q.stamp} == map[] && forall r: J.Request :: r in j.pending - {q} ==> r.session != q.session
  {
    forall id ensures id in s.pending ==> id == q.stamp {
      if id in s.pending { assert J.Request(q.session, id) in j.pending; }
    }
  }

  lemma ResolvedActive(j: J.Journal, q: J.Request, s: Service)
    requires J.Inv(j) && q in j.pending && Depicts(j, q.session, s) && q.session in j.active
    requires s.pending - {q.stamp} == map[] && forall r: J.Request :: r in j.pending - {q} ==> r.session != q.session
    ensures Depicts(J.Resolve(j, q, q.session), q.session, Release(s, q.stamp))
  {
    hide PromptsOf, J.Inv, J.LogOf;
    SameLogs(j, J.Resolve(j, q, q.session));
  }

  lemma ResolvedStopped(j: J.Journal, q: J.Request, w: World)
    requires J.Inv(j) && q in j.pending && Depicts(j, q.session, w.s) && q.session !in j.active && w.s.started
    requires forall r: J.Request :: r in j.pending - {q} ==> r.session != q.session
    ensures Depicts(J.Resolve(j, q, q.session), q.session, ClearMemory(World(Release(w.s, q.stamp), w.l)).s)
  {
    hide PromptsOf, DropWaiting, J.Inv, HoldsLog;
  }

  /** The one request of the session is answered. */
  lemma DepictsResolved(j: J.Journal, q: J.Request, w: World)
    requires J.Inv(j) && q in j.pending && Depicts(j, q.session, w.s) && q.stamp in w.s.pending
    ensures var w1 := World(Release(w.s, q.stamp), w.l);
            && w1.s.pending == map[]
            && Depicts(J.Resolve(j, q, q.session), q.session, if q.session in j.active then w1.s else ClearMemory(w1).s)
  {
    assert SamePending(j, q.session, w.s.pending);
    AnsweredStarted(j, q, w.s);
    ResolvedPending(j, q, w.s);
    hide Depicts, DropWaiting, J.Inv, J.Resolve;
    if q.session in j.active { ResolvedActive(j, q, w.s); } else { ResolvedStopped(j, q, w); }
  }

  /** The log a reply goes to is the session's own. */
  lemma AnsweredLog(j: J.Journal, q: J.Request, s: Service)
    requires J.Inv(j) && Depicts(j, q.session, s) && q in j.pending
    ensures var p := j.pending[q];
            && Current(j, q.session, p.log) && p.session == q.session && j.logs[p.log].session == q.session
            && s.started && q.stamp in s.pending && s.pending[q.stamp] == p.range && s.log == J.LogOf(j, p.log)
  {
    hide Depicts;
    PendingMatches(j, q, s);
    PendingIsCurrent(j, q);
    AnsweredStarted(j, q, s);
    StartedLog(j, q.session, j.pending[q].log, s);
  }

  lemma DepictsReplied(cfg: Config, j: J.Journal, q: J.Request, text: string, io: ReplyIO, w: World)
    requires J.Inv(j) && Depicts(j, q.session, w.s)
    ensures Depicts(J.HandleReplied(cfg, j, q, text, io), q.session,
                    SessionStep(cfg, w, q.session in j.active, J.Replied(q, text, io)).s)
  {
    hide J.AfterReply, J.ArchivedBy, Depicts, J.Inv, J.WithLog, J.AddBatches, J.Resolve, HandleReply, DropWaiting, J.LogOf;
    PendingMatches(j, q, w.s);
    if q in j.pending {
      AnsweredLog(j, q, w.s);
      var p, log := j.pending[q], w.s.log;
      var after, batches := J.AfterReply(cfg, log, p.range, text, io), J.ArchivedBy(cfg, log, p.range, text, io);
      ReplyAgrees(cfg, w, q.stamp, text, io);
      ReplyFile(cfg, log, p.range, text, io);
      DepictsLog(j, q.session, p.log, after, w.s);
      J.WithLogKeepsInv(j, p.log, after);
      var j1 := J.WithLog(j, p.log, after);
      DepictsBatches(j1, q.session, batches, w.s.(log := after));
      J.BatchesDoNotMatter(j1, q.session, batches);
      var w2 := World(w.s.(log := after, archive := w.s.archive + batches), HandleReply(cfg, w, q.stamp, text, io).l);
      DepictsResolved(J.AddBatches(j1, q.session, batches), q, w2);
    }
  }

  lemma PendingMatches(j: J.Journal, q: J.Request, s: Service)
    requires Depicts(j, q.session, s)
    ensures q in j.pending <==> q.stamp in s.pending
    ensures q in j.pending ==> s.pending[q.stamp] == j.pending[q].range
  {
    hide PromptsOf, StartTime, J.ArchiveOf, HoldsLog;
    assert J.Request(q.session, q.stamp) == q;
  }

  lemma AnsweredStarted(j: J.Journal, q: J.Request, s: Service)
    requires Depicts(j, q.session, s) && q in j.pending
    ensures s.started
  {
    hide PromptsOf, StartTime, J.ArchiveOf, HoldsLog;
    assert q.stamp in s.pending;
  }

  // ---------------------------------------------------------------- a session coming to life

  lemma AddedLog(j: J.Journal, session: J.Session, log: Log)
    ensures var j1 := J.AddLog(j, session, log);
            && |j1.logs| == |j.logs| + 1 && j1.logs[|j.logs|].session == session
            && j1.pending == j.pending && J.FileOf(j1, session) == J.FileOf(j, session)
  {}

  lemma DepictsActivated(j: J.Journal, session: J.Session, n: nat, log: Log, s: Service)
    requires Depicts(j, session, s) && n < |j.logs| && j.logs[n].session == session && s.pending == map[]
    requires log.file.Some? || log.file == J.FileOf(j, session)
    ensures Depicts(J.Activate(J.WithLog(j, n, log), session, n), session, s.(started := true, log := log))
  {
    hide PromptsOf;
    var j' := J.Activate(J.WithLog(j, n, log), session, n);
    forall q: J.Request | q in j.pending ensures q.session == session ==> q.stamp in s.pending {}
  }

  lemma PendingIsUnresolved(j: J.Journal, session: J.Session, s: Service)
    requires J.Inv(j) && Depicts(j, session, s)
    ensures s.pending != map[] <==> J.Unresolved(j, session)
  {
    hide PromptsOf, StartTime, J.ArchiveOf, HoldsLog, J.GuardPerSession;
    if s.pending != map[] {
      assert s.pending.Keys != {};
      var id := Member(s.pending.Keys);
      assert J.Request(session, id) in j.pending && j.pending[J.Request(session, id)].session == session;
    }
    if J.Unresolved(j, session) {
      var q :| q in j.pending && j.pending[q].session == session;
      assert q.stamp in s.pending;
    }
  }

  /** A service that has the log in memory holds what it would read from the file. */
  lemma Starting(j: J.Journal, session: J.Session, w: World)
    requires C.MemoryMirrorsFile(w.s) && Depicts(j, session, w.s)
    ensures HandleStart(w, true) == World(w.s.(started := true, log := Open(J.FileOf(j, session))), w.l)
    ensures Open(J.FileOf(j, session)).file == J.FileOf(j, session)
  {
    hide PromptsOf, StartTime, J.ArchiveOf, HoldsLog, SamePending, C.Settled, ParseFile;
  }

  lemma DepictsCreated(j: J.Journal, e: J.Event, w: World)
    requires J.Inv(j) && e.Created? && !J.ReusesPendingId(j, e)
    requires Depicts(j, e.session, w.s) && C.MemoryMirrorsFile(w.s)
    ensures Depicts(J.HandleCreated(j, e.session, e.entry, e.readOk, e.appendOk), e.session,
                    SessionStep(Config(0, 0, 0), w, e.session in j.active, e).s)
  {
    hide AfterAppendRaw, Open, J.WithLog, SameFor, J.Activate, J.AddLog, J.Inv, J.Unresolved, Depicts, C.MemoryMirrorsFile, HandleStart, Trim, J.FileOf;
    if e.session != "" && e.readOk {
      var opened_ := Open(J.FileOf(j, e.session));
      var (log, r) := AfterAppendRaw(opened_, e.entry, e.appendOk);
      var n, j1 := |j.logs|, J.AddLog(j, e.session, opened_);
      Starting(j, e.session, w);
      AddedElsewhere(j, e.session, opened_, e.session);
      DepictsSame(j, j1, e.session, w.s);
      AddedLog(j, e.session, opened_);
      if r != Rejected && r != WriteFailed {
        PendingIsUnresolved(j, e.session, w.s);
        FileOnlyGrows(opened_, e.entry, 0, e.appendOk);
        DepictsActivated(j1, e.session, n, log, w.s);
      }
    }
  }

  // ---------------------------------------------------------------- shutdown

  lemma DepictsShutDown(j: J.Journal, session: J.Session, w: World)
    requires Depicts(j, session, w.s)
    ensures Depicts(J.HandleShutdown(j), session, ClearMemory(w).s)
  {
    hide PromptsOf, DropWaiting;
  }

  lemma ClearedInitial()
    ensures ClearMemory(INITIAL) == INITIAL
  {}

  // ---------------------------------------------------------------- every step

  lemma DepictsOwnStep(cfg: Config, j: J.Journal, e: J.Event, w: World)
    requires J.Inv(j) && !e.ShutDown? && !J.ReusesPendingId(j, e)
    requires Depicts(j, SessionOf(e), w.s) && C.Inv(w)
    ensures Depicts(J.Step(cfg, j, e), SessionOf(e), SessionStep(cfg, w, SessionOf(e) in j.active, e).s)
  {
    assert C.MemoryMirrorsFile(w.s);
    match e
    case Created(session, entry, readOk, appendOk) =>
      hide Depicts, J.Inv, J.HandleCreated, J.ReusesPendingId, C.Inv, C.MemoryMirrorsFile, HandleStart, StoreEntry;
      DepictsCreated(j, e, w);
    case Written(session, entry, appendOk, now, stamp, halfOk) => DepictsWritten(cfg, j, e, w);
    case Stopped(session, entry, appendOk, now, stamp, halfOk) => DepictsStopped(cfg, j, e, w);
    case Replied(q, text, io) => DepictsReplied(cfg, j, q, text, io, w);
    case ShutDown =>
  }

  lemma UntimedInv(w: World)
    requires C.Inv(w)
    ensures C.Inv(Untimed(w))
  {
    hide C.Settled, ParseFile, C.Shows, C.Summarizes, C.InArchive, TimeLike, C.Conserved, C.PromptOf;
    forall lines ensures C.PromptOf(w, lines) == C.PromptOf(Untimed(w), lines) { C.SamePrompt(w, Untimed(w), lines); }
  }

  lemma SettleInv(w: World)
    requires C.Inv(w)
    ensures C.Inv(Settle(w))
  {
    hide C.Inv, ClearMemory;
    C.ClearMemoryInv(w);
  }

  lemma TriggerKeepsStarted(cfg: Config, w: World, now: int, id: PromptId, halfOk: bool)
    ensures TriggerCompaction(cfg, w, now, id, halfOk).s.started == w.s.started
  {
    hide AfterOlderHalf, ExtractTimeRange, HalfCount, DropWaiting;
  }

  lemma StoppedInv(cfg: Config, w: World, e: J.Event)
    requires C.Inv(w) && w.s.started && e.Stopped?
    ensures C.Inv(SessionStep(cfg, w, true, e))
  {
    hide C.Inv, TriggerCompaction, StoreEntry, Untimed, Settle;
    C.TriggerCompactionInv(cfg, w, e.now, e.stamp, e.halfOk);
    TriggerKeepsStarted(cfg, w, e.now, e.stamp, e.halfOk);
    var w1 := StopTriggers(cfg, w, e);
    C.StoreEntryInv(w1, e.entry, e.appendOk);
    var w2 := StoreEntry(w1, e.entry, e.appendOk).0;
    UntimedInv(w2);
    SettleInv(Untimed(w2));
  }

  /** The session's world keeps the ledger's invariant. */
  lemma SessionStepInv(cfg: Config, w: World, live: bool, e: J.Event)
    requires C.Inv(w) && (live ==> w.s.started)
    ensures C.Inv(SessionStep(cfg, w, live, e))
  {
    match e
    case Created(session, entry, readOk, appendOk) =>
      hide C.Inv, AfterAppendRaw, Trim, Open;
      C.HandleStartInv(w, true);
      C.StoreEntryInv(HandleStart(w, true), entry, appendOk);
    case Written(session, entry, appendOk, now, stamp, halfOk) =>
      hide C.Inv, AfterAppendRaw, Trim, TriggerCompaction;
      if live {
        C.StoreEntryInv(w, entry, appendOk);
        C.TriggerCompactionInv(cfg, StoreEntry(w, entry, appendOk).0, now, stamp, halfOk);
      }
    case Stopped(session, entry, appendOk, now, stamp, halfOk) =>
      if live { StoppedInv(cfg, w, e); }
    case Replied(q, text, io) =>
      hide C.Inv, HandleReply, Settle;
      C.HandleReplyInv(cfg, w, q.stamp, text, io);
      SettleInv(HandleReply(cfg, w, q.stamp, text, io));
    case ShutDown => C.ClearMemoryInv(w);
  }

  /** Every session's world is what the journal says of the session, and its ledger is right. */
  ghost predicate Follows(j: J.Journal, worlds: Worlds) {
    J.Inv(j) && forall t: J.Session :: Depicts(j, t, WorldAt(worlds, t).s) && C.Inv(WorldAt(worlds, t))
  }

  lemma NothingYet()
    ensures Follows(J.EMPTY, map[])
  {
    J.EmptyIsGuarded();
    C.InitialInv();
  }

  lemma FollowedAt(j: J.Journal, worlds: Worlds, t: J.Session)
    requires Follows(j, worlds)
    ensures var w := WorldAt(worlds, t);
            J.Inv(j) && Depicts(j, t, w.s) && C.Inv(w) && C.MemoryMirrorsFile(w.s)
  {
    hide J.Inv, Depicts, C.GuardExact, C.MemoryMirrorsFile, C.PromptCarriesWaiting, C.LedgerMatches, C.Conserved;
  }

  lemma OwnStepFollows(cfg: Config, j: J.Journal, worlds: Worlds, e: J.Event, t: J.Session)
    requires Follows(j, worlds) && !J.ReusesPendingId(j, e) && !e.ShutDown?
    ensures Depicts(J.Step(cfg, j, e), t, WorldAt(WorldsStep(cfg, j, worlds, e), t).s)
            && C.Inv(WorldAt(WorldsStep(cfg, j, worlds, e), t))
  {
    hide J.Step, Depicts, C.Inv, SessionStep, J.Inv, J.ReusesPendingId, SameFor, Follows;
    var w := WorldAt(worlds, t);
    FollowedAt(j, worlds, t);
    if t == SessionOf(e) {
      DepictsOwnStep(cfg, j, e, w);
      if t in j.active { ActiveStarted(j, t, w.s); }
      SessionStepInv(cfg, w, t in j.active, e);
    } else {
      StepElsewhere(cfg, j, e, t);
      DepictsSame(j, J.Step(cfg, j, e), t, w.s);
    }
  }

  lemma ShutDownFollows(cfg: Config, j: J.Journal, worlds: Worlds, t: J.Session)
    requires Follows(j, worlds)
    ensures Depicts(J.Step(cfg, j, J.ShutDown), t, WorldAt(WorldsStep(cfg, j, worlds, J.ShutDown), t).s)
            && C.Inv(WorldAt(WorldsStep(cfg, j, worlds, J.ShutDown), t))
  {
    hide Depicts, C.Inv, ClearMemory, J.Inv, J.HandleShutdown, Follows;
    var w := WorldAt(worlds, t);
    FollowedAt(j, worlds, t);
    DepictsShutDown(j, t, w);
    C.ClearMemoryInv(w);
    ClearedInitial();
  }

  lemma StepFollows(cfg: Config, j: J.Journal, worlds: Worlds, e: J.Event)
    requires Follows(j, worlds) && !J.ReusesPendingId(j, e)
    ensures Follows(J.Step(cfg, j, e), WorldsStep(cfg, j, worlds, e))
  {
    hide Depicts, C.Inv, J.Inv, J.Step, WorldsStep, WorldAt, J.ReusesPendingId;
    J.StepInvExact(cfg, j, e);
    forall t: J.Session ensures
      Depicts(J.Step(cfg, j, e), t, WorldAt(WorldsStep(cfg, j, worlds, e), t).s) && C.Inv(WorldAt(WorldsStep(cfg, j, worlds, e), t))
    {
      if e.ShutDown? { ShutDownFollows(cfg, j, worlds, t); } else { OwnStepFollows(cfg, j, worlds, e, t); }
    }
  }

  lemma {:induction false} RunFollows(cfg: Config, j: J.Journal, worlds: Worlds, events: seq<J.Event>)
    requires Follows(j, worlds) && J.NeverReusesPendingId(cfg, j, events)
    ensures Follows(J.Run(cfg, j, events), RunWorlds(cfg, j, worlds, events))
    decreases |events|
  {
    hide Follows, J.Step, WorldsStep, J.ReusesPendingId;
    if events != [] {
      StepFollows(cfg, j, worlds, events[0]);
      RunFollows(cfg, J.Step(cfg, j, events[0]), WorldsStep(cfg, j, worlds, events[0]), events[1..]);
    }
  }

  // ---------------------------------------------------------------- the results

  /** The last prompt that went out for the session is for its pending request and quotes the
      waiting entries. */
  ghost predicate LastPromptQuotes(j: J.Journal, session: J.Session, history: seq<string>, waiting: seq<nat>, lines: seq<string>) {
    var prompts := PromptsOf(j.prompts, session);
    && |prompts| > 0 && J.Request(session, prompts[|prompts| - 1].id) in j.pending
    && C.Shows(lines, history, waiting) && prompts[|prompts| - 1].text == Join(lines, SUMMARY_JOIN)
  }

  /** A session's ledger and what the program holds of the session. */
  ghost predicate Accounts(j: J.Journal, session: J.Session, l: Ledger) {
    var onFile := Open(J.FileOf(j, session));
    && C.Accounted(l) == C.Survivors(|l.history|, l.dropped)
    && C.Shows(onFile.rawTail, l.history, l.raw)
    && C.Summarizes(onFile.summaries, l.live)
    && (forall k :: 0 <= k < |l.archived| ==> C.InArchive(J.ArchiveOf(j, session), l.archived[k].summary))
    && (l.waiting != [] <==> J.Unresolved(j, session))
    && (l.waiting != [] ==> exists lines :: LastPromptQuotes(j, session, l.history, l.waiting, lines))
    && HoldsLog(j, session, onFile)
  }

  lemma DepictedPrompt(j: J.Journal, session: J.Session, w: World, lines: seq<string>)
    requires Depicts(j, session, w.s) && C.PromptOf(w, lines)
    ensures LastPromptQuotes(j, session, w.l.history, w.l.waiting, lines)
  {
    hide StartTime, J.ArchiveOf, HoldsLog, C.Shows, Join, PromptsOf;
  }

  lemma DepictedLogs(j: J.Journal, session: J.Session, s: Service)
    requires Depicts(j, session, s) && C.MemoryMirrorsFile(s)
    ensures HoldsLog(j, session, Open(J.FileOf(j, session))) && Open(s.log.file) == Open(J.FileOf(j, session))
  {
    hide PromptsOf, StartTime, J.ArchiveOf, C.Settled, ParseFile;
    if !s.started {
      assert s.pending == map[];
      assert forall q: J.Request :: q in j.pending && q.session == session ==> q.stamp in s.pending;
    }
  }

  lemma DepictedAccounts(j: J.Journal, session: J.Session, w: World)
    requires J.Inv(j) && Depicts(j, session, w.s) && C.Inv(w)
    ensures Accounts(j, session, w.l)
  {
    hide J.Inv, PromptsOf, StartTime, HoldsLog, SamePending, C.Settled, ParseFile, C.Accounted, C.Survivors, C.Shows, C.Summarizes, C.InArchive, TimeLike, C.PromptOf, LastPromptQuotes;
    PendingIsUnresolved(j, session, w.s);
    DepictedLogs(j, session, w.s);
    if w.l.waiting != [] {
      var lines :| C.PromptOf(w, lines);
      DepictedPrompt(j, session, w, lines);
    }
  }

  /** Every session's journal conserves its entries, over every run of the journal service that does
      not reuse an ID with a request pending, with failing writes, stops, finalizations and shutdowns:
      the entries archived, summarized, waiting and raw are those stored, in order, less the dropped
      ones; raw tail and live summaries stand in the session's file, archived ones in its archive;
      entries wait exactly while the session has a request, whose prompt quotes them; and every log
      object still referred to holds what the file holds. */
  lemma JournalsConserve(cfg: Config, events: seq<J.Event>, session: J.Session)
    requires J.NeverReusesPendingId(cfg, J.EMPTY, events)
    ensures Accounts(J.Run(cfg, J.EMPTY, events), session, WorldAt(RunWorlds(cfg, J.EMPTY, map[], events), session).l)
  {
    hide Accounts, Depicts, C.Inv, J.Inv, Follows, C.MemoryMirrorsFile, J.Run, RunWorlds, J.NeverReusesPendingId;
    NothingYet();
    RunFollows(cfg, J.EMPTY, map[], events);
    var j, w := J.Run(cfg, J.EMPTY, events), WorldAt(RunWorlds(cfg, J.EMPTY, map[], events), session);
    FollowedAt(j, RunWorlds(cfg, J.EMPTY, map[], events), session);
    DepictedAccounts(j, session, w);
  }

  /** What an event adds to a session's history. */
  function Stores(j: J.Journal, e: J.Event, session: J.Session): seq<string> {
    match e
    case Created(s, entry, readOk, appendOk) =>
      if s == session && s != "" && readOk && AfterAppendRaw(Open(J.FileOf(j, s)), entry, appendOk).1 == Stored
      then [Trim(entry, NEWLINES)] else []
    case Written(s, entry, appendOk, _, _, _) => StoredLine(j, session, s, entry, appendOk)
    case Stopped(s, entry, appendOk, _, _, _) => StoredLine(j, session, s, entry, appendOk)
    case _ => []
  }

  function StoredLine(j: J.Journal, session: J.Session, s: J.Session, entry: string, appendOk: bool): seq<string> {
    if s == session && s in j.active && j.active[s] < |j.logs|
       && AfterAppendRaw(J.LogOf(j, j.active[s]), entry, appendOk).1 == Stored
    then [Trim(entry, NEWLINES)] else []
  }

  predicate Stale(cfg: Config, j: J.Journal, session: J.Session, now: int) {
    session in j.inFlight && J.GuardOpens(cfg, j, session, now)
  }

  /** Does this event drop the session's waiting entries? */
  predicate Drops(cfg: Config, j: J.Journal, e: J.Event, session: J.Session) {
    match e
    case Created(_, _, _, _) => false
    case Written(s, entry, appendOk, now, _, _) =>
      && s == session && Stale(cfg, j, s, now) && s in j.active && j.active[s] < |j.logs|
      && TotalLength(AfterAppendRaw(J.LogOf(j, j.active[s]), entry, appendOk).0.rawTail) > cfg.compactionThreshold
    case Stopped(s, _, _, now, _, _) =>
      s == session && Stale(cfg, j, s, now) && s in j.active && j.active[s] < |j.logs| && J.TailCalls(cfg, j, s)
    case Replied(q, text, io) =>
      && q.session == session && q in j.pending && j.pending[q].log < |j.logs|
      && (Blank(text) || AfterAppendSummary(J.LogOf(j, j.pending[q].log), FormattedSummary(j.pending[q].range, text), io.appendOk).1 in {Rejected, WriteFailed})
    case ShutDown => true
  }

  lemma TriggerLedger(cfg: Config, w: World, now: int, id: PromptId, halfOk: bool)
    ensures var l := TriggerCompaction(cfg, w, now, id, halfOk).l;
            var reaped := w.s.inFlight && w.s.startedAt != 0 && now - w.s.startedAt >= cfg.staleTimeout;
            && l.history == w.l.history
            && l.dropped == w.l.dropped + (if reaped then Elements(w.l.waiting) else {})
  {
    hide Compact, Elements;
    C.CompactDropsNothing(w, now, id, halfOk);
    C.CompactDropsNothing(CheckStale(cfg, w, now), now, id, halfOk);
  }

  lemma StaleAgrees(cfg: Config, j: J.Journal, session: J.Session, s: Service, now: int)
    requires J.Inv(j) && session in j.active && Depicts(j, session, s)
    ensures Stale(cfg, j, session, now) <==> s.inFlight && s.startedAt != 0 && now - s.startedAt >= cfg.staleTimeout
  {
    NothingPending(j, session, s);
    hide J.Inv, PromptsOf, J.ArchiveOf, HoldsLog, SamePending;
  }

  lemma SettleLedger(w: World)
    requires w.s.pending == map[] ==> w.l.waiting == []
    ensures Settle(w).l.history == w.l.history && Settle(w).l.dropped == w.l.dropped
  {}

  lemma StoreLedger(w: World, entry: string, appendOk: bool)
    ensures var l := StoreEntry(w, entry, appendOk).0.l;
            && l.dropped == w.l.dropped
            && l.history == w.l.history + if AfterAppendRaw(w.s.log, entry, appendOk).1 == Stored then [Trim(entry, NEWLINES)] else []
  {
    hide AfterAppendRaw, Trim;
  }

  /** The log of an active session is what its world holds. */
  lemma ActiveLog(j: J.Journal, session: J.Session, s: Service)
    requires session in j.active && J.Inv(j) && Depicts(j, session, s)
    ensures j.active[session] < |j.logs| && session != "" && s.started
    ensures s.log == J.LogOf(j, j.active[session]) && s.log.rawTail == j.logs[j.active[session]].rawTail
  {
    ActiveIsCurrent(j, session);
    ActiveStarted(j, session, s);
    hide Depicts, Current;
    StartedLog(j, session, j.active[session], s);
  }

  lemma WrittenLedger(cfg: Config, j: J.Journal, w: World, e: J.Event)
    requires e.Written? && J.Inv(j) && Depicts(j, e.session, w.s)
    ensures var l := SessionStep(cfg, w, e.session in j.active, e).l;
            && l.history == w.l.history + Stores(j, e, e.session)
            && l.dropped == w.l.dropped + (if Drops(cfg, j, e, e.session) then Elements(w.l.waiting) else {})
  {
    hide J.Inv, Depicts, AfterAppendRaw, Trim, TriggerCompaction, Stale, Elements, J.LogOf, TotalLength;
    if e.session in j.active {
      ActiveLog(j, e.session, w.s);
      StaleAgrees(cfg, j, e.session, w.s, e.now);
      StoreLedger(w, e.entry, e.appendOk);
      TriggerLedger(cfg, StoreEntry(w, e.entry, e.appendOk).0, e.now, e.stamp, e.halfOk);
    }
  }

  lemma StoppedLedger(cfg: Config, j: J.Journal, w: World, e: J.Event)
    requires e.Stopped? && J.Inv(j) && Depicts(j, e.session, w.s) && C.Inv(w)
    ensures var l := SessionStep(cfg, w, e.session in j.active, e).l;
            && l.history == w.l.history + Stores(j, e, e.session)
            && l.dropped == w.l.dropped + (if Drops(cfg, j, e, e.session) then Elements(w.l.waiting) else {})
  {
    hide J.Inv, Depicts, C.Inv, AfterAppendRaw, Trim, StopTriggers, Stale, J.TailCalls, Elements, J.LogOf, Settle, Untimed, StoreEntry;
    if e.session in j.active {
      ActiveStarted(j, e.session, w.s);
      StopTriggersLedger(cfg, j, w, e);
      StoppedWaits(cfg, w, e);
      var w1 := StopTriggers(cfg, w, e);
      var w2 := StoreEntry(w1, e.entry, e.appendOk).0;
      StoreLedger(w1, e.entry, e.appendOk);
      SettleLedger(Untimed(w2));
      assert Untimed(w2).l == w2.l by { UntimedLedger(w2); }
    }
  }

  lemma UntimedLedger(w: World)
    ensures Untimed(w).l == w.l
  {}

  lemma StopTriggersLedger(cfg: Config, j: J.Journal, w: World, e: J.Event)
    requires e.Stopped? && e.session in j.active && J.Inv(j) && Depicts(j, e.session, w.s)
    ensures j.active[e.session] < |j.logs|
    ensures var w1 := StopTriggers(cfg, w, e);
            && w1.l.history == w.l.history
            && w1.l.dropped == w.l.dropped + (if Drops(cfg, j, e, e.session) then Elements(w.l.waiting) else {})
            && (AfterAppendRaw(w1.s.log, e.entry, e.appendOk).1 == AfterAppendRaw(J.LogOf(j, j.active[e.session]), e.entry, e.appendOk).1)
  {
    hide J.Inv, Depicts, TriggerCompaction, Stale, Elements, J.LogOf, AfterAppendRaw, TotalLength;
    ActiveLog(j, e.session, w.s);
    StaleAgrees(cfg, j, e.session, w.s, e.now);
    TriggerLedger(cfg, w, e.now, e.stamp, e.halfOk);
    AppendOutcome(w.s.log, StopTriggers(cfg, w, e).s.log, e.entry, e.appendOk);
  }

  /** Whether a raw entry is stored does not depend on the log. */
  lemma AppendOutcome(a: Log, b: Log, entry: string, appendOk: bool)
    ensures AfterAppendRaw(a, entry, appendOk).1 == AfterAppendRaw(b, entry, appendOk).1
  {
    hide Trim, Contains, HasDelimiters, Print;
  }

  /** After the stop entry, nothing waits without a request. */
  lemma StoppedWaits(cfg: Config, w: World, e: J.Event)
    requires C.Inv(w) && w.s.started && e.Stopped?
    ensures var w2 := Untimed(StoreEntry(StopTriggers(cfg, w, e), e.entry, e.appendOk).0);
            w2.s.pending == map[] ==> w2.l.waiting == []
  {
    hide C.Inv, TriggerCompaction, AfterAppendRaw, Trim;
    C.TriggerCompactionInv(cfg, w, e.now, e.stamp, e.halfOk);
    WaitingIsPending(StopTriggers(cfg, w, e));
  }

  lemma WaitingIsPending(w: World)
    requires C.Inv(w)
    ensures w.s.pending == map[] <==> w.l.waiting == []
  {
    hide C.MemoryMirrorsFile, C.LedgerMatches, C.Conserved, C.PromptOf, TimeLike;
  }

  lemma ReplyLedger(cfg: Config, w: World, id: PromptId, text: string, io: ReplyIO)
    requires C.Inv(w) && id in w.s.pending
    ensures var l := HandleReply(cfg, w, id, text, io).l;
            var lost := Blank(text)
              || AfterAppendSummary(w.s.log, FormattedSummary(w.s.pending[id], text), io.appendOk).1 in {Rejected, WriteFailed};
            l.history == w.l.history && l.dropped == w.l.dropped + if lost then Elements(w.l.waiting) else {}
    ensures HandleReply(cfg, w, id, text, io).s.pending == map[] ==> HandleReply(cfg, w, id, text, io).l.waiting == []
  {
    hide C.Inv, HandleReply, Blank, FormattedSummary, AfterAppendSummary, Elements;
    C.DroppedOnlyByNamedEvents(cfg, w, ReplyArrived(id, text, io));
    C.ReplyKeepsHistory(cfg, w, id, text, io);
    C.HandleReplyInv(cfg, w, id, text, io);
    WaitingIsPending(HandleReply(cfg, w, id, text, io));
  }

  lemma RepliedLedger(cfg: Config, j: J.Journal, w: World, e: J.Event)
    requires e.Replied? && J.Inv(j) && Depicts(j, e.request.session, w.s) && C.Inv(w)
    ensures var l := SessionStep(cfg, w, e.request.session in j.active, e).l;
            && l.history == w.l.history
            && l.dropped == w.l.dropped + (if Drops(cfg, j, e, e.request.session) then Elements(w.l.waiting) else {})
  {
    hide J.Inv, Depicts, C.Inv, HandleReply, Settle, Blank, FormattedSummary, AfterAppendSummary, Elements, J.LogOf;
    var q := e.request;
    PendingMatches(j, q, w.s);
    if q in j.pending {
      AnsweredLog(j, q, w.s);
      ReplyLedger(cfg, w, q.stamp, e.text, e.io);
      SettleLedger(HandleReply(cfg, w, q.stamp, e.text, e.io));
    }
  }

  lemma CreatedLedger(cfg: Config, j: J.Journal, w: World, e: J.Event)
    requires e.Created? && Depicts(j, e.session, w.s) && C.MemoryMirrorsFile(w.s)
    ensures var l := SessionStep(cfg, w, e.session in j.active, e).l;
            l.history == w.l.history + Stores(j, e, e.session) && l.dropped == w.l.dropped
  {
    hide Depicts, C.MemoryMirrorsFile, AfterAppendRaw, Trim, HandleStart, Open;
    Starting(j, e.session, w);
  }

  lemma OwnLedger(cfg: Config, j: J.Journal, w: World, e: J.Event)
    requires !e.ShutDown? && J.Inv(j) && Depicts(j, SessionOf(e), w.s) && C.Inv(w) && C.MemoryMirrorsFile(w.s)
    ensures var l := SessionStep(cfg, w, SessionOf(e) in j.active, e).l;
            && l.history == w.l.history + Stores(j, e, SessionOf(e))
            && l.dropped == w.l.dropped + (if Drops(cfg, j, e, SessionOf(e)) then Elements(w.l.waiting) else {})
  {
    hide J.Inv, Depicts, C.Inv, C.MemoryMirrorsFile, SessionStep, Elements, StoredLine, AfterAppendRaw, Stale, TotalLength, J.TailCalls, AfterAppendSummary, Blank, Trim;
    match e
    case Created(session, entry, readOk, appendOk) => CreatedLedger(cfg, j, w, e);
    case Written(session, entry, appendOk, now, stamp, halfOk) => WrittenLedger(cfg, j, w, e);
    case Stopped(session, entry, appendOk, now, stamp, halfOk) => StoppedLedger(cfg, j, w, e);
    case Replied(q, text, io) => RepliedLedger(cfg, j, w, e);
    case ShutDown =>
  }

  lemma ShutDownLedger(cfg: Config, j: J.Journal, w: World, e: J.Event, session: J.Session)
    requires e.ShutDown?
    ensures Stores(j, e, session) == [] && Drops(cfg, j, e, session)
    ensures ClearMemory(w).l.history == w.l.history && ClearMemory(w).l.dropped == w.l.dropped + Elements(w.l.waiting)
  {}

  lemma LedgerElsewhere(cfg: Config, j: J.Journal, e: J.Event, session: J.Session)
    requires !e.ShutDown? && SessionOf(e) != session
    ensures Stores(j, e, session) == [] && !Drops(cfg, j, e, session)
  {
    hide AfterAppendRaw, Trim, TotalLength, Blank, AfterAppendSummary, Stale;
  }

  /** What each event does to a session's ledger, told from the journal before it: the history grows
      by the session's own entry if the log takes it, and entries are dropped exactly by a blank
      reply, a summary that could not be stored, a stale compaction reaped or a shutdown, and then
      they are exactly the waiting ones. */
  lemma JournalDropsOnlyByNamedEvents(cfg: Config, j: J.Journal, worlds: Worlds, e: J.Event, session: J.Session)
    requires Follows(j, worlds)
    ensures var l, l' := WorldAt(worlds, session).l, WorldAt(WorldsStep(cfg, j, worlds, e), session).l;
            && l'.history == l.history + Stores(j, e, session)
            && l'.dropped == l.dropped + (if Drops(cfg, j, e, session) then Elements(l.waiting) else {})
  {
    hide J.Inv, Depicts, C.Inv, Follows, C.MemoryMirrorsFile, SessionStep, ClearMemory, Drops, Stores, Elements;
    var w := WorldAt(worlds, session);
    FollowedAt(j, worlds, session);
    if e.ShutDown? {
      ClearedInitial();
      ShutDownLedger(cfg, j, w, e, session);
    } else if session == SessionOf(e) {
      OwnLedger(cfg, j, w, e);
    } else {
      LedgerElsewhere(cfg, j, e, session);
    }
  }

  // ---------------------------------------------------------------- two objects on one file

  lemma SummaryWritten(log: Log, other: Log, text: string, diskOk: bool)
    requires AfterAppendSummary(log, text, diskOk).1 == Stored
    requires other.summaries == log.summaries && other.rawTail == log.rawTail
    ensures var log' := AfterAppendSummary(log, text, diskOk).0;
            AfterAppendSummary(other, text, diskOk) == (log', Stored) && log'.file.Some? && log'.rawTail == log.rawTail
  {
    hide Contains, HasDelimiters, HasPrefix, Trim, Print;
  }

  lemma ArchivalWritten(cfg: Config, log: Log, io: ReplyIO)
    requires C.Settled(log) && log.file.Some?
    ensures var after := J.AfterArchival(cfg, log, io); C.Settled(after) && after.file.Some? && after.rawTail == log.rawTail
  {
    hide C.Settled, Print;
    C.SplitKeepsSettled(log, OverBudget(log.summaries, cfg.summaryBudget), io.commitOk);
  }

  /** A stored reply leaves the raw tail of its log alone and its lists settled; what was in the
      file before makes no difference. */
  lemma ReplyOverwrites(cfg: Config, log: Log, other: Log, range: Pending, text: string, io: ReplyIO)
    requires C.Settled(log) && TimeLike(range.startTime) && TimeLike(range.endTime) && !Blank(text)
    requires AfterAppendSummary(log, FormattedSummary(range, text), io.appendOk).1 == Stored
    requires other.summaries == log.summaries && other.rawTail == log.rawTail
    ensures var after := J.AfterReply(cfg, other, range, text, io);
            && after.file.Some? && after.rawTail == log.rawTail && Open(after.file) == after
  {
    hide C.Settled, Blank, FormattedSummary, AfterAppendSummary, TimeLike, TotalLength, J.AfterArchival, Open;
    var summary := FormattedSummary(range, text);
    SummaryWritten(log, other, summary, io.appendOk);
    C.SummaryKeepsSettled(log, range, text, io.appendOk);
    ArchivalWritten(cfg, AfterAppendSummary(log, summary, io.appendOk).0, io);
    C.SettledReopens(J.AfterReply(cfg, other, range, text, io));
  }

  /** The log a pending request is for, in a journal without reuse so far. */
  lemma PendingLog(j: J.Journal, worlds: Worlds, q: J.Request)
    requires Follows(j, worlds) && q in j.pending
    ensures var p, onFile := j.pending[q], Open(J.FileOf(j, q.session));
            && p.log < |j.logs| && p.session == q.session && j.logs[p.log].session == q.session
            && J.LogOf(j, p.log) == onFile && C.Settled(onFile) && onFile.file == J.FileOf(j, q.session)
            && TimeLike(p.range.startTime) && TimeLike(p.range.endTime)
  {
    hide J.Inv, Depicts, C.Settled, Follows, TimeLike, C.Conserved, C.LedgerMatches, C.PromptOf, ParseFile;
    var w := WorldAt(worlds, q.session);
    FollowedAt(j, worlds, q.session);
    AnsweredLog(j, q, w.s);
    Starting(j, q.session, w);
  }

  lemma EntryWritten(log: Log, entry: string, diskOk: bool)
    requires AfterAppendRaw(log, entry, diskOk).1 == Stored
    ensures var log' := AfterAppendRaw(log, entry, diskOk).0;
            log'.file.Some? && log'.summaries == log.summaries && log'.rawTail == log.rawTail + [Trim(entry, NEWLINES)]
  {
    hide Contains, HasDelimiters, Trim, Print;
  }

  lemma CreatedInTwo(j: J.Journal, session: J.Session, opened_: Log, log: Log, n: nat)
    requires n < |j.logs| && log.file.Some?
    ensures |J.AddLog(j, session, opened_).logs| == |j.logs| + 1
    ensures var j' := J.Activate(J.WithLog(J.AddLog(j, session, opened_), |j.logs|, log), session, |j.logs|);
            && |j'.logs| == |j.logs| + 1 && j'.logs[n] == j.logs[n]
            && j'.logs[|j.logs|] == J.Lists(session, log.summaries, log.rawTail)
            && j'.active == j.active[session := |j.logs|] && j'.pending == j.pending
            && J.FileOf(j', session) == log.file
  {}

  /** A session comes to life with a log object of its own. */
  lemma CreatedShape(cfg: Config, j: J.Journal, e: J.Event, n: nat)
    requires e.Created? && e.session != "" && e.readOk && n < |j.logs|
    requires AfterAppendRaw(Open(J.FileOf(j, e.session)), e.entry, e.appendOk).1 == Stored
    ensures var log, j' := AfterAppendRaw(Open(J.FileOf(j, e.session)), e.entry, e.appendOk).0, J.Step(cfg, j, e);
            && |j'.logs| == |j.logs| + 1 && j'.logs[n] == j.logs[n]
            && j'.logs[|j.logs|] == J.Lists(e.session, log.summaries, log.rawTail)
            && j'.active == j.active[e.session := |j.logs|] && j'.pending == j.pending
            && J.FileOf(j', e.session) == log.file
  {
    hide AfterAppendRaw, Open, Trim, J.WithLog, J.AddLog, J.Activate;
    var opened_ := Open(J.FileOf(j, e.session));
    var log := AfterAppendRaw(opened_, e.entry, e.appendOk).0;
    EntryWritten(opened_, e.entry, e.appendOk);
    CreatedInTwo(j, e.session, opened_, log, n);
    assert J.Step(cfg, j, e) == J.Activate(J.WithLog(J.AddLog(j, e.session, opened_), |j.logs|, log), e.session, |j.logs|) by {
      AddedLog(j, e.session, opened_);
    }
  }

  /** A reply writes the file from its own log object only. */
  lemma RepliedShape(cfg: Config, j: J.Journal, q: J.Request, text: string, io: ReplyIO, n: nat)
    requires q in j.pending && j.pending[q].log < |j.logs| && j.logs[j.pending[q].log].session == q.session
    requires n < |j.logs| && n != j.pending[q].log
    ensures var p := j.pending[q];
            var after, j' := J.AfterReply(cfg, J.LogOf(j, p.log), p.range, text, io), J.Step(cfg, j, J.Replied(q, text, io));
            && |j'.logs| == |j.logs| && j'.logs[n] == j.logs[n] && j'.active == j.active
            && (after.file.Some? ==> J.FileOf(j', q.session) == after.file)
  {
    hide J.AfterReply, J.ArchivedBy;
  }

  /** What reuse costs: the next session's first entry stands in the file, and the reply to the old
      request writes it away again; only the memory of the new object still has it. */
  lemma ReuseLosesEntry(cfg: Config, j: J.Journal, worlds: Worlds, e: J.Event, q: J.Request, text: string, io: ReplyIO)
    requires Follows(j, worlds) && J.ReusesPendingId(j, e) && q in j.pending && q.session == e.session
    requires AfterAppendRaw(Open(J.FileOf(j, e.session)), e.entry, e.appendOk).1 == Stored && !Blank(text)
    requires j.pending[q].log < |j.logs|
    requires AfterAppendSummary(J.LogOf(j, j.pending[q].log), FormattedSummary(j.pending[q].range, text), io.appendOk).1 == Stored
    ensures var before, entry := Open(J.FileOf(j, e.session)).rawTail, Trim(e.entry, NEWLINES);
            var created := J.Step(cfg, j, e);
            var replied := J.Step(cfg, created, J.Replied(q, text, io));
            && Open(J.FileOf(created, e.session)).rawTail == before + [entry]
            && Open(J.FileOf(replied, e.session)).rawTail == before
            && e.session in replied.active && replied.active[e.session] < |replied.logs|
            && replied.logs[replied.active[e.session]].rawTail == before + [entry]
  {
    hide C.Settled, AfterAppendRaw, Trim, Follows, J.AfterReply, J.Step, AfterAppendSummary, FormattedSummary, Blank, TimeLike, Open, J.Unresolved;
    PendingLog(j, worlds, q);
    var before, p := Open(J.FileOf(j, e.session)), j.pending[q];
    var log1, created := AfterAppendRaw(before, e.entry, e.appendOk).0, J.Step(cfg, j, e);
    EntryWritten(before, e.entry, e.appendOk);
    C.StoreKeepsSettled(before, e.entry, e.appendOk);
    C.SettledReopens(log1);
    CreatedShape(cfg, j, e, p.log);
    ReplyOverwrites(cfg, before, J.LogOf(created, p.log), p.range, text, io);
    RepliedShape(cfg, created, q, text, io, |j.logs|);
  }
}
