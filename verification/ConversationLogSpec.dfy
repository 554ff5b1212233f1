/** The conversation log service as a state machine: its handlers as atomic steps over the rolling
    log, the pending compaction and its guard, with a ledger of what became of every entry. */
module ConversationLogSpec {
  import opened Wrappers
  import opened Text
  import opened LogFormat
  import opened RollingLogSpec
  import opened Sanitize

  type PromptId = int

  datatype Config = Config(compactionThreshold: nat, summaryBudget: nat, staleTimeout: int)

  datatype Origin = User | AI | Tool | System | Other

  datatype Turn = Turn(time: string, origin: Origin, text: string)

  datatype Pending = Pending(startTime: string, endTime: string)

  /** A prompt published for the AI adapter. */
  datatype Prompt = Prompt(id: PromptId, text: string)

  /** While stopped there is no rolling log in memory: `log` keeps the file only. */
  datatype Service = Service(
    started: bool,
    log: Log,
    pending: map<PromptId, Pending>,
    inFlight: bool,
    startedAt: int,
    prompts: seq<Prompt>,
    archive: seq<seq<string>>)

  /** A summary and the entries it stands for. */
  datatype Covered = Covered(summary: string, entries: seq<nat>)

  /** What became of each stored entry, by its number in the history. */
  datatype Ledger = Ledger(
    history: seq<string>,
    archived: seq<Covered>,
    live: seq<Covered>,
    waiting: seq<nat>,
    raw: seq<nat>,
    dropped: set<nat>)

  datatype World = World(s: Service, l: Ledger)

  /** How the writes of one reply go. */
  datatype ReplyIO = ReplyIO(appendOk: bool, fallbackOk: bool, archive: ArchiveWrite, commitOk: bool)

  datatype Event =
    | TurnArrived(turn: Turn, now: int, id: PromptId, logOk: bool, appendOk: bool, halfOk: bool)
    | ReplyArrived(replyTo: PromptId, text: string, io: ReplyIO)
    | ShutDown
    | Crash
    | StartUp(readOk: bool)

  // ---------------------------------------------------------------- texts

  /** The length of the white space character a byte string begins with, or 0. */
  function SpaceLength(s: string): nat {
    if s == "" then 0
    else if s[0] in "\t\n\U{000B}\U{000C}\r " then 1
    else if HasPrefix(s, "\U{00C2}\U{0085}") || HasPrefix(s, "\U{00C2}\U{00A0}") then 2
    else if HasPrefix(s, "\U{00E1}\U{009A}\U{0080}") || HasPrefix(s, "\U{00E2}\U{0081}\U{009F}") || HasPrefix(s, "\U{00E3}\U{0080}\U{0080}") then 3
    else if HasPrefix(s, "\U{00E2}\U{0080}") && |s| >= 3
            && ('\U{0080}' <= s[2] <= '\U{008A}' || s[2] in "\U{00A8}\U{00A9}\U{00AF}") then 3
    else 0
  }

  /** `strings.TrimSpace(s) == ""`. */
  predicate Blank(s: string) {
    s == "" || (0 < SpaceLength(s) <= |s| && Blank(s[SpaceLength(s)..]))
  }

  function RoleOf(origin: Origin): string {
    match origin
    case User => "user"
    case AI => "ai"
    case Tool => "tool"
    case System => "system"
    case Other => "unknown"
  }

  function Entry(turn: Turn): string {
    turn.time + " [" + RoleOf(turn.origin) + "] " + Truncate(SanitizeForRollingLog(turn.text), |turn.text|)
  }

  predicate Digit(c: char, hi: char) { '0' <= c <= hi }

  /** The regular expression for a time of day, at position i. */
  predicate TimeAt(s: string, i: nat) {
    && i + 8 <= |s|
    && ((Digit(s[i], '1') && Digit(s[i + 1], '9')) || (s[i] == '2' && Digit(s[i + 1], '3')))
    && s[i + 2] == ':' && Digit(s[i + 3], '5') && Digit(s[i + 4], '9')
    && s[i + 5] == ':' && Digit(s[i + 6], '5') && Digit(s[i + 7], '9')
  }

  predicate TimeLike(t: string) { |t| == 8 && '\n' !in t && '<' !in t }

  /** All leftmost, non-overlapping times of day. */
  function TimesFrom(s: string, i: nat): (times: seq<string>)
    ensures forall k :: 0 <= k < |times| ==> TimeLike(times[k])
    decreases |s| - i
  {
    if i + 8 > |s| then []
    else if TimeAt(s, i) then [s[i..i + 8]] + TimesFrom(s, i + 8)
    else TimesFrom(s, i + 1)
  }

  function ExtractTimeRange(s: string): (r: Pending)
    ensures TimeLike(r.startTime) && TimeLike(r.endTime)
  {
    var times := TimesFrom(s, 0);
    if times == [] then Pending("??:??:??", "??:??:??") else Pending(times[0], times[|times| - 1])
  }

  lemma TimesFit(s: string)
    ensures forall k: nat :: TimeAt(s, k) ==> k + 8 <= |s|
  {
    hide Digit;
  }

  lemma {:induction false} ScannedTimes(s: string, i: nat) returns (first: int, last: int)
    ensures var times := TimesFrom(s, i);
            if times == [] then forall k :: i <= k ==> !TimeAt(s, k)
            else && i <= first <= last && TimeAt(s, first) && TimeAt(s, last)
                 && times[0] == s[first..first + 8] && (forall k :: i <= k < first ==> !TimeAt(s, k))
                 && times[|times| - 1] == s[last..last + 8] && (forall k :: last + 8 <= k ==> !TimeAt(s, k))
    decreases |s| - i
  {
    hide TimeAt;
    TimesFit(s);
    first, last := i, i;
    if i + 8 <= |s| {
      if TimeAt(s, i) {
        var f, l := ScannedTimes(s, i + 8);
        var rest := TimesFrom(s, i + 8);
        if rest != [] { last := l; assert ([s[i..i + 8]] + rest)[|rest|] == rest[|rest| - 1]; }
      } else {
        first, last := ScannedTimes(s, i + 1);
      }
    }
  }

  /** The range runs from the first time of day in the text to the last, overlapping ones being read
      from the left; without any it is two placeholders. */
  lemma TimeRangeExact(s: string) returns (first: int, last: int)
    ensures var r := ExtractTimeRange(s);
            if forall k :: 0 <= k ==> !TimeAt(s, k) then r == Pending("??:??:??", "??:??:??")
            else && 0 <= first <= last && TimeAt(s, first) && TimeAt(s, last)
                 && r.startTime == s[first..first + 8] && (forall k :: 0 <= k < first ==> !TimeAt(s, k))
                 && r.endTime == s[last..last + 8] && (forall k :: last + 8 <= k ==> !TimeAt(s, k))
  {
    hide TimeAt, TimesFrom;
    TimesFit(s);
    first, last := ScannedTimes(s, 0);
  }

  /** The en dash between the times is three bytes of UTF-8. */
  function Title(p: Pending): string {
    "[summary] " + p.startTime + " \U{00E2}\U{0080}\U{0093} " + p.endTime
  }

  function FormattedSummary(p: Pending, reply: string): string {
    HEADER + Title(p) + "\n" + SanitizeForSummary(reply)
  }

  // ---------------------------------------------------------------- compaction

  function Elements(ids: seq<nat>): set<nat> { set i | i in ids }

  /** The waiting entries will never be summarized. */
  function DropWaiting(l: Ledger): Ledger {
    l.(dropped := l.dropped + Elements(l.waiting), waiting := [])
  }

  /** `checkStaleCompaction`. */
  function CheckStale(cfg: Config, w: World, now: int): World {
    if w.s.startedAt == 0 || now - w.s.startedAt < cfg.staleTimeout then w
    else World(w.s.(pending := map[], inFlight := false, startedAt := 0), DropWaiting(w.l))
  }

  /** The part of `triggerCompaction` after the guard has been taken. */
  function Compact(w: World, now: int, id: PromptId, halfOk: bool): World {
    var s := w.s.(inFlight := true, startedAt := now);
    var (log, text, r) := AfterOlderHalf(s.log, halfOk);
    if r == WriteFailed || text == "" then World(s.(inFlight := false, log := log), w.l)
    else
      var mid := HalfCount(|s.log.rawTail|);
      World(s.(log := log,
               pending := s.pending[id := ExtractTimeRange(text)],
               prompts := s.prompts + [Prompt(id, text)]),
            if mid <= |w.l.raw| then w.l.(waiting := w.l.raw[..mid], raw := w.l.raw[mid..]) else w.l)
  }

  function TriggerCompaction(cfg: Config, w: World, now: int, id: PromptId, halfOk: bool): World {
    if !w.s.inFlight then Compact(w, now, id, halfOk)
    else
      var cleared := CheckStale(cfg, w, now);
      if cleared.s.inFlight then cleared else Compact(cleared, now, id, halfOk)
  }

  function StoreEntry(w: World, entry: string, appendOk: bool): (World, Outcome) {
    var (log, r) := AfterAppendRaw(w.s.log, entry, appendOk);
    (World(w.s.(log := log),
           if r == Stored
           then w.l.(history := w.l.history + [Trim(entry, NEWLINES)], raw := w.l.raw + [|w.l.history|])
           else w.l), r)
  }

  function StoreTurn(w: World, turn: Turn, appendOk: bool): (World, Outcome) {
    StoreEntry(w, Entry(turn), appendOk)
  }

  function HandleTurn(cfg: Config, w: World, turn: Turn, now: int, id: PromptId, appendOk: bool, halfOk: bool): World {
    if !w.s.started || Blank(turn.text) then w else
      var (w1, r) := StoreTurn(w, turn, appendOk);
      if (r == Stored || r == Ignored) && TotalLength(w1.s.log.rawTail) > cfg.compactionThreshold
      then TriggerCompaction(cfg, w1, now, id, halfOk)
      else w1
  }

  // ---------------------------------------------------------------- replies

  function TriggerArchival(cfg: Config, w: World, io: ReplyIO): World {
    var n := OverBudget(w.s.log.summaries, cfg.summaryBudget);
    if n == 0 then w else
      var s := if io.archive == NotArchived then w.s
               else w.s.(archive := w.s.archive + [w.s.log.summaries[..n]]);
      if io.archive != Archived then World(s, w.l) else
        var (log, r) := AfterCommitArchival(s.log, n, io.commitOk);
        World(s.(log := log),
              if r == Stored && n <= |w.l.live|
              then w.l.(archived := w.l.archived + w.l.live[..n], live := w.l.live[n..])
              else w.l)
  }

  /** The pending compaction is taken out and the guard released. */
  function Release(s: Service, id: PromptId): Service {
    s.(pending := s.pending - {id}, inFlight := false, startedAt := 0)
  }

  /** The waiting entries are now covered by a live summary. */
  function Cover(l: Ledger, summary: string): Ledger {
    l.(live := l.live + [Covered(summary, l.waiting)], waiting := [])
  }

  function HandleReply(cfg: Config, w: World, id: PromptId, text: string, io: ReplyIO): World {
    if id !in w.s.pending then w else
      var s := Release(w.s, id);
      if Blank(text) then World(s, DropWaiting(w.l)) else
        var summary := FormattedSummary(w.s.pending[id], text);
        var (log, r) := AfterAppendSummary(s.log, summary, io.appendOk);
        if r == Rejected || r == WriteFailed then World(s, DropWaiting(w.l)) else
          var covered := World(s.(log := log), Cover(w.l, Trim(summary, NEWLINES)));
          if TotalLength(log.summaries) > cfg.summaryBudget then TriggerArchival(cfg, covered, io) else covered
  }

  // ---------------------------------------------------------------- starting and stopping

  function ClearMemory(w: World): World {
    World(w.s.(started := false, log := Log([], [], w.s.log.file), pending := map[], inFlight := false, startedAt := 0),
          DropWaiting(w.l))
  }

  function HandleShutdown(w: World): World {
    if w.s.started then ClearMemory(w) else w
  }

  function HandleStart(w: World, readOk: bool): World {
    if w.s.started || !readOk then w else World(w.s.(started := true, log := Open(w.s.log.file)), w.l)
  }

  // ---------------------------------------------------------------- the daily log

  /** A summary that could not be stored, as it goes to the daily log. */
  function Fallback(p: Pending, reply: string): string {
    "[compaction-fallback] " + FormattedSummary(p, reply)
  }

  /** The summary for this reply cannot be stored. */
  predicate SummaryFails(w: World, id: PromptId, text: string, io: ReplyIO) {
    id in w.s.pending && !Blank(text)
    && AfterAppendSummary(w.s.log, FormattedSummary(w.s.pending[id], text), io.appendOk).1 in {Rejected, WriteFailed}
  }

  /** What an event adds to the daily log, which is only ever appended to: every turn, whether or not
      the rolling log takes it, and the summaries the rolling log did not take. */
  function Logged(w: World, e: Event): seq<string> {
    match e
    case TurnArrived(turn, _, _, logOk, _, _) => if w.s.started && !Blank(turn.text) && logOk then [Entry(turn)] else []
    case ReplyArrived(id, text, io) => if SummaryFails(w, id, text, io) && io.fallbackOk then [Fallback(w.s.pending[id], text)] else []
    case _ => []
  }

  // ---------------------------------------------------------------- runs

  function Step(cfg: Config, w: World, e: Event): World {
    match e
    case TurnArrived(turn, now, id, _, appendOk, halfOk) => HandleTurn(cfg, w, turn, now, id, appendOk, halfOk)
    case ReplyArrived(id, text, io) => HandleReply(cfg, w, id, text, io)
    case ShutDown => HandleShutdown(w)
    case Crash => ClearMemory(w)
    case StartUp(readOk) => HandleStart(w, readOk)
  }

  const INITIAL := World(
    Service(false, Log([], [], None), map[], false, 0, [], []),
    Ledger([], [], [], [], [], {}))

  function Run(cfg: Config, w: World, events: seq<Event>): World
    decreases |events|
  {
    if events == [] then w else Run(cfg, Step(cfg, w, events[0]), events[1..])
  }

  function LoggedOver(cfg: Config, w: World, events: seq<Event>): seq<string>
    decreases |events|
  {
    if events == [] then [] else Logged(w, events[0]) + LoggedOver(cfg, Step(cfg, w, events[0]), events[1..])
  }
}
