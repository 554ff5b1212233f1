/** What each event of the journal service does to its tables, logs and files, told from the state
    before: for every event, when it does anything, and what it leaves.  No handler is mentioned. */
module JournalEffects {
  import opened Wrappers
  import opened Text
  import opened LogFormat
  import opened RollingLogSpec
  import opened ConversationLogSpec
  import C = Conservation
  import opened ConversationEffects
  import J = Journal
  import K = JournalConservation

  // ---------------------------------------------------------------- compaction

  /** The session's guard is free, or its compaction is older than the timeout. */
  predicate Opens(cfg: Config, j: J.Journal, session: J.Session, now: int) {
    || session !in j.inFlight
    || (session in j.startedAt && j.startedAt[session] != 0 && now - j.startedAt[session] >= cfg.staleTimeout)
  }

  /** The requests of the other sessions. */
  function Others(j: J.Journal, session: J.Session): map<J.Request, J.JournalPending> {
    map q: J.Request | q in j.pending && q.session != session :: j.pending[q]
  }

  /** The table of requests once this one has been made. */
  function Requested(j: J.Journal, session: J.Session, stamp: int, n: nat, text: string): map<J.Request, J.JournalPending> {
    Others(j, session)[J.Request(session, stamp) := J.JournalPending(session, n, ExtractTimeRange(text))]
  }

  /** A compaction that is tried: with the older half written, the request goes to log n and its prompt
      is published; without, the guard is free. */
  ghost predicate Tried(j: J.Journal, session: J.Session, n: nat, now: int, stamp: int, halfOk: bool, j': J.Journal)
    requires n < |j.logs|
  {
    var tail, summaries := j.logs[n].rawTail, j.logs[n].summaries;
    var h := if halfOk then Half(|tail|) else 0;
    var text := Join(tail[..Half(|tail|)], "\n\n");
    && j'.active == j.active && j'.archives == j.archives
    && j'.logs == j.logs[n := J.Lists(j.logs[n].session, summaries, tail[h..])]
    && j'.files == (if halfOk then j.files[j.logs[n].session := Print(summaries, tail[h..])] else j.files)
    && j'.startedAt == j.startedAt[session := now]
    && j'.inFlight == (if halfOk then j.inFlight + {session} else j.inFlight - {session})
    && j'.pending == (if halfOk then Requested(j, session, stamp, n, text) else Others(j, session))
    && j'.prompts == j.prompts + if halfOk then [J.JournalPrompt(J.Request(session, stamp), text)] else []
  }

  ghost predicate HasText(j: J.Journal, n: nat) {
    n < |j.logs| && j.logs[n].rawTail != [] && forall k :: 0 <= k < |j.logs[n].rawTail| ==> j.logs[n].rawTail[k] != ""
  }

  lemma SameListsWritten(j: J.Journal, n: nat, log: Log)
    requires n < |j.logs| && log.file == J.FileOf(j, j.logs[n].session)
    ensures J.WithLog(j, n, log) == j.(logs := j.logs[n := J.Lists(j.logs[n].session, log.summaries, log.rawTail)])
  {}

  lemma RequestDone(j: J.Journal, session: J.Session, n: nat, now: int, stamp: int, halfOk: bool)
    requires HasText(j, n) && session !in j.inFlight && Others(j, session) == j.pending
    ensures Tried(j, session, n, now, stamp, halfOk, J.RequestSummary(j, session, n, now, stamp, halfOk))
  {
    hide Join, AfterOlderHalf, ExtractTimeRange, Print;
    var log := J.LogOf(j, n);
    HalvesExactly(log, halfOk);
    if !halfOk { SameListsWritten(j, n, AfterOlderHalf(log, halfOk).0); }
    assert j.prompts + [] == j.prompts && j.logs[n].rawTail[0..] == j.logs[n].rawTail;
    assert j.logs[n := j.logs[n]] == j.logs;
  }

  lemma StaleDone(cfg: Config, j: J.Journal, session: J.Session, now: int)
    requires J.Inv(j) && session in j.inFlight && Opens(cfg, j, session, now)
    ensures J.CheckStaleSession(cfg, j, session, now)
         == j.(pending := Others(j, session), inFlight := j.inFlight - {session}, startedAt := j.startedAt - {session})
  {
    hide J.GuardPerSession;
    var j' := J.CheckStaleSession(cfg, j, session, now);
    assert forall q :: q in j.pending ==> j.pending[q].session == q.session;
    assert j'.pending == Others(j, session);
  }

  lemma FreeHasNone(j: J.Journal, session: J.Session)
    requires J.Inv(j) && session in j.active && session !in j.inFlight
    ensures Others(j, session) == j.pending
  {
    assert !J.Unresolved(j, session);
    J.NoneOfSession(j, session);
  }

  lemma TriggerDone(cfg: Config, j: J.Journal, session: J.Session, n: nat, now: int, stamp: int, halfOk: bool)
    requires J.Inv(j) && session in j.active && HasText(j, n)
    ensures var j' := J.TriggerCompaction(cfg, j, session, n, now, stamp, halfOk);
            if Opens(cfg, j, session, now) then Tried(j, session, n, now, stamp, halfOk, j') else j' == j
  {
    hide J.RequestSummary, J.Inv, Join, ExtractTimeRange, Print, J.CheckStaleSession;
    if session !in j.inFlight {
      FreeHasNone(j, session);
      RequestDone(j, session, n, now, stamp, halfOk);
    } else if Opens(cfg, j, session, now) {
      StaleDone(cfg, j, session, now);
      var cleared := j.(pending := Others(j, session), inFlight := j.inFlight - {session}, startedAt := j.startedAt - {session});
      OthersAgain(j, session, cleared);
      RequestDone(cleared, session, n, now, stamp, halfOk);
      ClearedFirst(j, session, cleared, n, now, stamp, halfOk, J.RequestSummary(cleared, session, n, now, stamp, halfOk));
    } else {
      NotStale(cfg, j, session, now);
    }
  }

  lemma NotStale(cfg: Config, j: J.Journal, session: J.Session, now: int)
    requires !Opens(cfg, j, session, now)
    ensures J.CheckStaleSession(cfg, j, session, now) == j
  {}

  lemma OthersAgain(j: J.Journal, session: J.Session, cleared: J.Journal)
    requires cleared.pending == Others(j, session)
    ensures Others(cleared, session) == cleared.pending
  {}

  lemma ClearedFirst(j: J.Journal, session: J.Session, cleared: J.Journal, n: nat, now: int, stamp: int, halfOk: bool, j': J.Journal)
    requires cleared == j.(pending := Others(j, session), inFlight := j.inFlight - {session}, startedAt := j.startedAt - {session})
    requires n < |j.logs| && Tried(cleared, session, n, now, stamp, halfOk, j')
    ensures Tried(j, session, n, now, stamp, halfOk, j')
  {
    hide Join, ExtractTimeRange, Print;
    OthersAgain(j, session, cleared);
    assert j.inFlight - {session} + {session} == j.inFlight + {session};
    assert (j.startedAt - {session})[session := now] == j.startedAt[session := now];
  }

  // ---------------------------------------------------------------- output and tool changes

  /** The journal once the session's log has taken an entry, or refused it. */
  function WithEntry(j: J.Journal, n: nat, entry: string, appendOk: bool): J.Journal
    requires n < |j.logs|
  {
    var t, lists := Trim(entry, {'\n'}), j.logs[n];
    if TakesRaw(t) && appendOk
    then j.(logs := j.logs[n := J.Lists(lists.session, lists.summaries, lists.rawTail + [t])],
            files := j.files[lists.session := Print(lists.summaries, lists.rawTail + [t])])
    else j
  }

  lemma EntryDone(j: J.Journal, n: nat, entry: string, appendOk: bool)
    requires n < |j.logs|
    ensures J.WithLog(j, n, AfterAppendRaw(J.LogOf(j, n), entry, appendOk).0) == WithEntry(j, n, entry, appendOk)
  {
    hide AfterAppendRaw, Trim, TakesRaw, Print;
    AppendsExactly(J.LogOf(j, n), entry, appendOk);
    assert j.logs[n := j.logs[n]] == j.logs;
    if !(TakesRaw(Trim(entry, {'\n'})) && appendOk) { SameListsWritten(j, n, J.LogOf(j, n)); }
  }

  /** Output, or a change of tool, in a session: nothing without an active journal.  Otherwise the entry
      is stored exactly when it is taken and the write goes through; and, stored or not, a compaction is
      tried exactly when the tail is over the threshold then and the session's guard is free or stale. */
  lemma WrittenExactly(cfg: Config, j: J.Journal, worlds: K.Worlds, e: J.Event)
    requires K.Follows(j, worlds) && e.Written?
    ensures var j' := J.Step(cfg, j, e);
            if e.session !in j.active then j' == j
            else
              var n := j.active[e.session];
              && n < |j.logs| && j.logs[n].session == e.session
              && var j1 := WithEntry(j, n, e.entry, e.appendOk);
                 if TotalLength(j1.logs[n].rawTail) > cfg.compactionThreshold && Opens(cfg, j, e.session, e.now)
                 then Tried(j1, e.session, n, e.now, e.stamp, e.halfOk, j') else j' == j1
  {
    hide J.Inv, K.Follows, J.TriggerCompaction, AfterAppendRaw, J.WithLog, TotalLength, Tried, WithEntry;
    K.FollowedAt(j, worlds, e.session);
    if e.session in j.active {
      J.ActiveLog(j, e.session);
      var n := j.active[e.session];
      EntryDone(j, n, e.entry, e.appendOk);
      J.WithLogKeepsInv(j, n, AfterAppendRaw(J.LogOf(j, n), e.entry, e.appendOk).0);
      var j1 := WithEntry(j, n, e.entry, e.appendOk);
      LongTailIsThere(j1.logs[n].rawTail, cfg.compactionThreshold);
      if TotalLength(j1.logs[n].rawTail) > cfg.compactionThreshold {
        TextAfterEntry(j, worlds, e.session, e.entry, e.appendOk);
        TriggerDone(cfg, j1, e.session, n, e.now, e.stamp, e.halfOk);
      }
    }
  }

  /** The entries of an active session's log have text, before and after one more. */
  lemma ActiveText(j: J.Journal, worlds: K.Worlds, session: J.Session)
    requires K.Follows(j, worlds) && session in j.active && j.active[session] < |j.logs|
    ensures forall k :: 0 <= k < |j.logs[j.active[session]].rawTail| ==> j.logs[j.active[session]].rawTail[k] != ""
  {
    hide J.Inv, K.Follows, K.Depicts, C.Inv;
    var w := K.WorldAt(worlds, session);
    K.FollowedAt(j, worlds, session);
    K.ActiveLog(j, session, w.s);
    RunningLog(w);
  }

  lemma TextAfterEntry(j: J.Journal, worlds: K.Worlds, session: J.Session, entry: string, appendOk: bool)
    requires K.Follows(j, worlds) && session in j.active && j.active[session] < |j.logs|
    requires WithEntry(j, j.active[session], entry, appendOk).logs[j.active[session]].rawTail != []
    ensures HasText(WithEntry(j, j.active[session], entry, appendOk), j.active[session])
    ensures var j1 := WithEntry(j, j.active[session], entry, appendOk);
            && j1.active == j.active && j1.pending == j.pending && j1.inFlight == j.inFlight && j1.startedAt == j.startedAt
  {
    hide K.Follows, Trim, Print, Contains, HasDelimiters;
    ActiveText(j, worlds, session);
  }

  // ---------------------------------------------------------------- stopping

  /** A stop of a session that is active: a last compaction is tried exactly when the tail is over the
      threshold and over 1000 bytes and the guard is free or stale; then the stop entry goes to what is
      left of the raw tail, so no compaction has taken it; then the session is not active, holds no guard
      and has no start time, but its request stays. */
  lemma StoppedExactly(cfg: Config, j: J.Journal, worlds: K.Worlds, e: J.Event) returns (j1: J.Journal)
    requires K.Follows(j, worlds) && e.Stopped?
    ensures var j' := J.Step(cfg, j, e);
            if e.session !in j.active then j' == j
            else
              var n := j.active[e.session];
              && n < |j.logs| && j.logs[n].session == e.session
              && (if TotalLength(j.logs[n].rawTail) > cfg.compactionThreshold && TotalLength(j.logs[n].rawTail) > 1000
                     && Opens(cfg, j, e.session, e.now)
                  then Tried(j, e.session, n, e.now, e.stamp, e.halfOk, j1) else j1 == j)
              && n < |j1.logs|
              && j' == WithEntry(j1, n, e.entry, e.appendOk).(active := j.active - {e.session},
                                                             inFlight := j1.inFlight - {e.session},
                                                             startedAt := j1.startedAt - {e.session})
  {
    hide J.Inv, K.Follows, J.TriggerCompaction, AfterAppendRaw, J.WithLog, TotalLength, Tried, WithEntry;
    j1 := j;
    K.FollowedAt(j, worlds, e.session);
    if e.session in j.active {
      J.ActiveLog(j, e.session);
      var n := j.active[e.session];
      var size := TotalLength(j.logs[n].rawTail);
      LongTailIsThere(j.logs[n].rawTail, cfg.compactionThreshold);
      if size > cfg.compactionThreshold && size > 1000 {
        ActiveText(j, worlds, e.session);
        TriggerDone(cfg, j, e.session, n, e.now, e.stamp, e.halfOk);
        TriedKeeps(j, e.session, n, e.now, e.stamp, e.halfOk, J.TriggerCompaction(cfg, j, e.session, n, e.now, e.stamp, e.halfOk));
        j1 := J.TriggerCompaction(cfg, j, e.session, n, e.now, e.stamp, e.halfOk);
      }
      EntryDone(j1, n, e.entry, e.appendOk);
      EntryKeeps(j1, n, e.entry, e.appendOk);
    }
  }

  lemma TriedKeeps(j: J.Journal, session: J.Session, n: nat, now: int, stamp: int, halfOk: bool, j': J.Journal)
    requires n < |j.logs|
    ensures Tried(j, session, n, now, stamp, halfOk, j') ==> j'.active == j.active && |j'.logs| == |j.logs|
  {}

  lemma EntryKeeps(j: J.Journal, n: nat, entry: string, appendOk: bool)
    requires n < |j.logs|
    ensures var j' := WithEntry(j, n, entry, appendOk);
            j'.active == j.active && j'.inFlight == j.inFlight && j'.startedAt == j.startedAt && j'.pending == j.pending
  {}

  // ---------------------------------------------------------------- starting, replies, shutdown

  /** The start of a session: nothing without an ID or when its file cannot be read.  Otherwise a log
      object is opened on the session's file, and the session becomes active with it exactly when the
      start entry is stored or blank. */
  lemma CreatedExactly(cfg: Config, j: J.Journal, e: J.Event)
    requires e.Created?
    ensures var j' := J.Step(cfg, j, e);
            if e.session == "" || !e.readOk then j' == j
            else
              var lists := ReadLists(J.FileOf(j, e.session));
              var j1 := j.(logs := j.logs + [J.Lists(e.session, lists.0, lists.1)]);
              var t := Trim(e.entry, {'\n'});
              && |j.logs| < |j1.logs|
              && j' == if t == "" || (TakesRaw(t) && e.appendOk)
                       then WithEntry(j1, |j.logs|, e.entry, e.appendOk).(active := j.active[e.session := |j.logs|]) else j1
  {
    hide AfterAppendRaw, Trim, TakesRaw, ReadLists, WithEntry, J.WithLog;
    if e.session != "" && e.readOk {
      var opened_ := Open(J.FileOf(j, e.session));
      AppendsExactly(opened_, e.entry, e.appendOk);
      var j1 := J.AddLog(j, e.session, opened_);
      EntryDone(j1, |j.logs|, e.entry, e.appendOk);
      EntryKeeps(j1, |j.logs|, e.entry, e.appendOk);
      assert J.LogOf(j1, |j.logs|) == opened_;
    }
  }

  /** A reply to a pending request: it goes into the log the request names, as a reply does in the world
      of that session alone, and the request, its guard and its start time go, whatever came of it. */
  lemma RepliedExactly(cfg: Config, j: J.Journal, worlds: K.Worlds, q: J.Request, text: string, io: ReplyIO) returns (n: nat)
    requires K.Follows(j, worlds)
    ensures var j' := J.Step(cfg, j, J.Replied(q, text, io));
            if q !in j.pending then j' == j
            else
              var w, p := K.WorldAt(worlds, q.session), j.pending[q];
              && q.stamp in w.s.pending && p.log < |j.logs| && p.log < |j'.logs|
              && (exists w' :: ReplyDone(cfg, w, q.stamp, text, io, n, w')
                    && J.LogOf(j', p.log) == w'.s.log && J.ArchiveOf(j', q.session) == w'.s.archive)
              && j'.pending == j.pending - {q} && j'.inFlight == j.inFlight - {q.session}
              && j'.startedAt == j.startedAt - {q.session} && j'.active == j.active && j'.prompts == j.prompts
  {
    hide J.Inv, K.Follows, K.Depicts, C.Inv, J.AfterReply, J.ArchivedBy, ReplyDone, HandleReply, J.WithLog, J.AddBatches, J.LogOf;
    n := 0;
    if q in j.pending {
      var w, p := K.WorldAt(worlds, q.session), j.pending[q];
      K.FollowedAt(j, worlds, q.session);
      K.AnsweredLog(j, q, w.s);
      n := ReplyExactly(cfg, w, q.stamp, text, io);
      K.ReplyAgrees(cfg, w, q.stamp, text, io);
      K.ReplyFile(cfg, w.s.log, p.range, text, io);
      var after, batches := J.AfterReply(cfg, w.s.log, p.range, text, io), J.ArchivedBy(cfg, w.s.log, p.range, text, io);
      J.WithLogKeepsInv(j, p.log, after);
      J.LogFileOf(j, p.log);
      J.WrittenBack(j, p.log, after);
      var j1 := J.WithLog(j, p.log, after);
      J.BatchesDoNotMatter(j1, p.session, batches);
      ArchiveAfter(j, p.log, after, q.session, batches);
      ArchiveIs(j, q.session, w.s);
      J.SameLogs(j1, J.Resolve(J.AddBatches(j1, p.session, batches), q, p.session), p.log);
      J.PromptsStay(j, p.log, after);
    }
  }

  lemma ArchiveIs(j: J.Journal, session: J.Session, s: Service)
    requires K.Depicts(j, session, s)
    ensures s.archive == J.ArchiveOf(j, session)
  {
    hide K.PromptsOf, K.StartTime, K.HoldsLog, K.SamePending;
  }

  lemma ArchiveAfter(j: J.Journal, n: nat, log: Log, session: J.Session, batches: seq<seq<string>>)
    requires n < |j.logs|
    ensures J.ArchiveOf(J.AddBatches(J.WithLog(j, n, log), session, batches), session) == J.ArchiveOf(j, session) + batches
  {
    assert J.ArchiveOf(j, session) + [] == J.ArchiveOf(j, session);
  }

  /** After a shutdown no session is active, no request is pending and no guard is held; logs, files,
      archives and prompts are as they were. */
  lemma ShutDownExactly(cfg: Config, j: J.Journal)
    ensures J.Step(cfg, j, J.ShutDown) == j.(active := map[], pending := map[], inFlight := {}, startedAt := map[])
  {}
}
