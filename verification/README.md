# A verified model of Nupi's memory, bus and wire formats

This project models, in Dafny, the parts of the Nupi daemon whose correctness spans many steps or
whole files, and proves what they promise. `dafny verify dfyconfig.toml` checks the whole project.

- **Rolling logs.** A conversation, and every session journal, is kept as a live file of summaries
  and raw entries between tags. `LogFormat` is the printer and the parser and says exactly which
  entries survive the trip; `RollingLogSpec` is the engine as a value, with writes that may fail and
  crashes anywhere; `RollingLog` is the engine as the object it is, with its byte counters and its
  rollbacks. `Sanitize` is the cleaning of text on its way in, and exactly when the log then takes it;
  `SanitizeExact` says what cleaning takes out and that it takes out nothing else.
- **Compaction.** The older half of a raw tail is sent off to be summarized, the reply may be late,
  empty or never come, and old summaries move to an archive. `ConversationLogSpec` has the handlers
  as atomic steps with a ledger of what became of every entry; `Conservation` proves over every run
  that nothing is lost silently, and `ConversationEffects` what every event does, told of the lists,
  the guard, the request and the prompt alone; `ConversationLog` is the service with its fields.
  `Journal` is the same protocol with one log and one guard for each session, and requests that outlive their
  session; `JournalConservation` proves of every session what `Conservation` proves of the one log, and
  `JournalEffects` what every event does; `JournalService` is the service with its tables of shared log objects.
- **The event bus.** `EventBus` has delivery to one subscription as small steps of any number of
  publishers and closers, the drain goroutine and the consumer. `BusSafety` proves what every
  interleaving keeps, `BusOrder` exactly when overflow keeps every envelope in order, and
  `BusProgress` that no interleaving deadlocks. `BusDelivery` proves which envelopes each strategy
  keeps and gives up, `BusClosing` what is left after a close, and `BusThrough` that whatever is kept
  can always reach the consumer. `OverflowBuffer` is the ring as an array.
- **The search index.** `Chunker` cuts markdown into chunks, and `ChunkBoundaries` says where they
  begin; `IndexSpec` and `Indexer` keep the tables of chunks, files and embeddings in step with the
  disk, and `IndexEffects` says what one sync does to the rows of a path; `Hybrid` ranks results.
- **Byte formats and a rate limiter.** `Frames` has the length-prefixed frames between the daemon and
  its JavaScript host, `WavFormat` and `Wav` the WAV writer and reader (section "Waveform Audio File
  Format (WAVE)" of the Multimedia Programming Interface and Data Specifications 1.0), and `RateLimit`
  how often the AI is prompted about a session's output. `FrameLayout` and `WavLayout` say what stands
  at which byte.

Conventions. A log's text is a sequence of bytes, one `char` each; in `Chunker` a `char` is a
character and sizes count its UTF-8 bytes. A file is replaced whole or not at all. Clocks, prompt
IDs, the outcome of writes, the order of map iteration and the replies of the embedding provider
are arguments or free choices, so every statement holds for all of them. A handler of a service
is one atomic step; the bus is modelled step by step.

Where the code does not do what its comments say, the model follows the code and a lemma has the
exact condition:

- `AppendSummary` promises round-trip fidelity, but a summary other than the first whose text does
  not start on its header line changes on reload (`LogFormat.RoundTrip`,
  `LogFormat.AcceptedButNotRoundTripping`).
- The sanitizers promise text that the log accepts, but removing a tag can splice another together,
  a cut at 64 KiB right after a blank line makes a forbidden triple newline, and a reply that begins
  with a newline and a header puts a second header into its summary (`Sanitize.EntryAccepted` and
  `Sanitize.SummaryAccepted` have the conditions; `Sanitize.SplicedTag`, `Sanitize.CutIsRefused` and
  `Sanitize.HeadedReplyIsRefused` the texts).
- The overflow path promises order. It keeps it, and loses nothing, exactly as long as no publisher
  whose push the ring refused evicts an envelope, finds the channel full again, or sends its own past
  envelopes in the drain goroutine's hand or in the ring (`BusOrder.StepKeepsOrder`,
  `BusOrder.InOrderExactly`). A refusal alone need not break order
  (`BusProgress.OvertakenOnceRefused` is a run in which it does, `BusProgress.RefusedYetInOrder` one in
  which it does not).
- A session that starts under an ID whose compaction is still pending shares its file with the old
  log object (`Journal.StepInvExact`), and the reply to the old request then writes the new entries
  out of the file (`JournalConservation.ReuseLosesEntry`).
- A file edited without a new modification time is not indexed again (`IndexSpec.SyncIsRebuild`,
  `IndexSpec.SyncsEndAsRebuildExactly`, `IndexSpec.SameMtimeIsMissed`).
- The host's frame writer does not check the limit its peer enforces (`Frames.ReaderRoundTrip`).
- The WAV writer takes format values and lengths that its header fields cannot hold, and the reader
  refuses files without samples or with more than 2^28 bytes of them (`WavFormat.RoundTrip`).
- The bytes of a `fmt ` chunk beyond its first 16 are to be skipped, but they have been read with the
  chunk already, and the next chunk is then looked for as many bytes too late
  (`WavLayout.LongFormatSkipsTwice`).

## Model

| member | source | states |
|---|---|---|
| `Text.SplitExact` | internal/awareness/rolling_log.go:567-591 | cutting at a separator as `strings.Split` does it gives the one list of parts that join to the text, the separator neither in the last nor starting inside any other with what follows it |
| `Text.TrimExact` | internal/awareness/rolling_log.go:110-147 | trimming gives the one text that neither begins nor ends in the cut set and stands in the original between characters of the set |
| `Text.TrimAround` | internal/awareness/rolling_log.go:535-536 | the cut characters put around trimmed text are exactly what trimming takes away |
| `Text.SplitJoin` | internal/awareness/rolling_log.go:491-591 | splitting undoes joining when no part hides or completes a separator |
| `Text.ReplacesFromLeft` | internal/awareness/journal.go:852-892 | replacing as `strings.ReplaceAll` does it goes from the left: an occurrence at the front is replaced and skipped, any other first character stays |
| `LogFormat.HasDelimiters` | internal/awareness/rolling_log.go:653-658 | true exactly of text that contains one of the four tags |
| `LogFormat.ParseSummaries` | internal/awareness/rolling_log.go:561-581 | the loop computes the section's summaries as a function of the text |
| `LogFormat.ParseRawTail` | internal/awareness/rolling_log.go:587-600 | the loop computes the section's entries as a function of the text |
| `LogFormat.ParseRollingLogFile` | internal/awareness/rolling_log.go:531-554 | both sections are found by their tags, trimmed and split; a missing tag gives nothing |
| `LogFormat.ParsePrinted` | internal/awareness/rolling_log.go:476-600 | what parsing a printed file gives, for any accepted entries: the raw tail unchanged, and the summaries as one reload leaves them |
| `LogFormat.PrintedFile` | internal/awareness/rolling_log.go:476-526 | the file is, character for character, both tagged sections with blank lines inside the tags and between summaries, and two between entries |
| `LogFormat.SectionOfAnyFile` | internal/awareness/rolling_log.go:542-554 | of any text, a section is what stands between the first opening tag and the first closing tag after it, and empty exactly when there are no such tags or nothing between them |
| `LogFormat.AnyFileIsRead` | internal/awareness/rolling_log.go:531-600 | of any file whatever, well formed or not, both lists are the trimmed, non-blank pieces of their sections, in order, summaries after the first with their header again |
| `LogFormat.RoundTrip` | internal/awareness/rolling_log.go:476-600 | for all accepted entries, parsing what was printed returns the same two lists if and only if every summary but the first has text on its header line |
| `LogFormat.ReloadSettles` | internal/awareness/rolling_log.go:458-600 | one reload settles a log: the summaries it returns are accepted ones and no later reload changes them |
| `LogFormat.AcceptedButNotRoundTripping` | internal/awareness/rolling_log.go:146-176 | three summaries that are accepted and that a restart changes, one of them lost |
| `RollingLogSpec.HalfCount` | internal/awareness/rolling_log.go:204-216 | compaction takes half of the entries, rounded down, but one entry when there is only one |
| `RollingLogSpec.OverBudgetIsLeast` | internal/awareness/rolling_log.go:255-277 | the summaries picked for archival are the shortest prefix whose removal brings the total within budget |
| `RollingLogSpec.AppendsExactly` | internal/awareness/rolling_log.go:109-176 | an entry, or a summary, is stored if and only if it is accepted and the write goes through; then it stands trimmed at the end of its list and the file is the printed lists, and otherwise nothing changes |
| `RollingLogSpec.HalvesExactly` | internal/awareness/rolling_log.go:204-234 | the first half of the entries, rounded down but at least one, is handed out joined and gone from the file if and only if there is one and the write goes through |
| `RollingLogSpec.OperationsKeepDurable` | internal/awareness/rolling_log.go:109-310 | every operation, its write failing or not, leaves accepted entries in memory and a file that reads back as them |
| `RollingLogSpec.Restart` | internal/awareness/rolling_log.go:76-95 | reopening keeps the raw tail whole, and everything exactly when the summaries round-trip |
| `RollingLogSpec.EveryRunIsDurable` | internal/awareness/rolling_log.go:76-526 | over every run from a new log, with failing writes and crashes anywhere, the file reads back as the lists, so a further crash loses no raw entry and changes nothing exactly when the summaries round-trip |
| `RollingLogSpec.AlignedAtParagraph` | internal/awareness/rolling_log.go:424-455 | for every text and budget, the context is an end of the joined summaries: all of them when they fit, and otherwise at least the budget, beginning right after the last header boundary before the cut, else the last blank line, else at the cut |
| `RollingLog.RollingLog.constructor` | internal/awareness/rolling_log.go:76-95 | opening any file gives the parsed lists with exact byte counters |
| `RollingLog.RollingLog.PersistToFile` | internal/awareness/rolling_log.go:476-526 | the file becomes the printed lists, or stays as it was |
| `RollingLog.RollingLog.AppendRaw` | internal/awareness/rolling_log.go:109-136 | the new lists, file and outcome are those of the specification, a failed write taking everything back; the counters stay exact |
| `RollingLog.RollingLog.AppendSummary` | internal/awareness/rolling_log.go:146-176 | likewise for summaries, which need their header and no second one |
| `RollingLog.RollingLog.ShouldCompact` | internal/awareness/rolling_log.go:194-198 | decides on the true total length of the raw tail, though it reads a counter |
| `RollingLog.RollingLog.ShouldArchive` | internal/awareness/rolling_log.go:238-242 | decides on the true total length of the summaries |
| `RollingLog.RollingLog.OlderHalf` | internal/awareness/rolling_log.go:204-234 | hands out the joined older half and removes it, or nothing changes when the write fails |
| `RollingLog.RollingLog.OlderSummaries` | internal/awareness/rolling_log.go:255-277 | the counting loop finds the shortest prefix of `OverBudgetIsLeast` |
| `RollingLog.RollingLog.CommitArchival` | internal/awareness/rolling_log.go:286-310 | removes n summaries or changes nothing; committing what OlderSummaries returned leaves the total within budget |
| `RollingLog.RollingLog.Archive` | internal/awareness/rolling_log.go:326-365 | one batch is appended to the archive; a write that reports an error may still have reached it |
| `RollingLog.RollingLog.GetContext` | internal/awareness/rolling_log.go:369-455 | the whole raw tail, and the joined summaries when they fit the budget, else an end of them, at least the budget long, that begins at the boundary `AlignedAtParagraph` names |
| `Sanitize.CollapseExcessiveNewlines` | internal/awareness/journal.go:898-914 | the loop with a counter keeps at most two newlines of every run |
| `Sanitize.CleanedEntry` | internal/awareness/journal.go:880-892 | the result has no carriage return and never three newlines in a row, and holds a tag only if removing tags spliced one together |
| `Sanitize.EntryAccepted` | internal/awareness/journal.go:390-412 | an entry of cleaned, truncated text is refused if and only if a spliced tag is left or the cut falls right after a blank line; text without tags only in the latter case |
| `Sanitize.CleanedSummary` | internal/awareness/journal.go:852-871 | the result holds no header after a blank line, and begins with one after a newline exactly when the stripped reply did |
| `Sanitize.SummaryAccepted` | internal/awareness/journal.go:745-765 | a generated header over a cleaned reply is refused if and only if a spliced tag is left or the stripped reply begins with a newline and a header; once stored it survives every reload |
| `Sanitize.SplicedTag` | internal/awareness/journal.go:880-892 | a text from which cleaning makes a delimiter tag |
| `Sanitize.CutIsRefused` | internal/awareness/journal.go:390-412 | any 65534 plain characters, a blank line and one more character give an entry that is refused |
| `Sanitize.HeadedReplyIsRefused` | internal/awareness/journal.go:745-765 | any plain reply that begins with a newline and a header is refused |
| `SanitizeExact.LineEndings` | internal/awareness/journal.go:852-855 | each carriage return and newline pair, and each lone carriage return, becomes exactly one newline; every other character stays, in order |
| `SanitizeExact.OnlyTagsGo` | internal/awareness/journal.go:856-892 | stripping gets from the text to its result by taking out one tag after another, and nothing else |
| `SanitizeExact.EveryTagGoes` | internal/awareness/journal.go:856-892 | text between any number of tags of one kind comes out joined without them |
| `SanitizeExact.RunsOfNewlines` | internal/awareness/journal.go:898-914 | of a run of n newlines anywhere, min(n, 2) are kept, and all before and after it |
| `SanitizeExact.HeadersAreDemoted` | internal/awareness/journal.go:852-871 | in a plain reply a header at the front or after a blank line gets one more mark; apart from runs of newlines nothing else changes |
| `SanitizeExact.PlainLineStays` | internal/awareness/journal.go:852-892 | a plain line goes in as it is |
| `SanitizeExact.CutExactly` | internal/awareness/journal.go:390-412 | text over 65536 bytes is cut there and followed by a line with its original length in decimal; shorter text is untouched |
| `ConversationLogSpec.TimeRangeExact` | internal/awareness/journal.go:837-843 | the range runs from the first time of day in the text to the last one read from the left, or is two placeholders exactly when there is none |
| `Conservation.StepInv` | internal/awareness/conversation_log.go:325-718 | every handler keeps the ledger balanced, the memory a mirror of the file and the guard exact |
| `Conservation.NothingIsLostSilently` | internal/awareness/conversation_log.go:325-718 | over every run, with failing writes, crashes and restarts, the entries archived, summarized, waiting and raw are the stored ones in order less those dropped, the file and the archive hold what the ledger says, and the guard is set exactly when the one compaction is pending |
| `Conservation.DroppedOnlyByNamedEvents` | internal/awareness/conversation_log.go:138-664 | entries are dropped exactly by an empty reply, a summary that cannot be stored, the reaping of a stale compaction, a shutdown or a crash, and then exactly the waiting ones |
| `Conservation.LeavesOnlyOnceArchived` | internal/awareness/conversation_log.go:672-718 | summaries leave the live file from the oldest on, by position, only in the handling of a reply whose archive write and commit succeeded; each that left stands in the archive and the rest keep their order |
| `Conservation.EveryEntryIsLogged` | internal/awareness/conversation_log.go:325-379 | as long as the writes to the daily log succeed, every entry the rolling log ever stored stands there, whatever a run drops |
| `Conservation.CrashAndRestart` | internal/awareness/conversation_log.go:99-194 | a crash and a restart bring back both lists exactly; only the waiting entries go |
| `ConversationEffects.TurnExactly` | internal/awareness/conversation_log.go:325-379 | what a turn does to every field: nothing when not started or blank; else the entry is at the end of the tail if taken and written; then, if the tail is over the threshold and the guard free or stale, the older half is waiting, its request pending and its prompt, which quotes it, published, or the guard released when the write fails |
| `ConversationEffects.TurnAsksExactly` | internal/awareness/conversation_log.go:325-554 | from any state a run reaches and with a fresh ID: that ID is pending afterwards if and only if the service is started, the text is not blank, the entry is stored, the new tail is over the threshold, the guard was free or stale, and the write of the other half succeeds |
| `ConversationEffects.ReplyExactly` | internal/awareness/conversation_log.go:599-718 | what a reply does: nothing unless pending; the guard is freed; the summary is the newest one, covering what waited, if and only if the reply is not blank, the summary is taken and written; then the least prefix over budget is archived, and removed if and only if that write and the commit succeed |
| `ConversationEffects.LoggedExactly` | internal/awareness/conversation_log.go:325-379 | the daily log gets every turn that is heard and every summary that could not be stored, as long as its write succeeds |
| `ConversationEffects.LifeExactly` | internal/awareness/conversation_log.go:99-194 | a shutdown or crash empties memory and gives up what waited, file and archive staying; a start reads the file |
| `ConversationEffects.PlainEntry` | internal/awareness/conversation_log.go:325-396 | how a turn of one plain line stands in the log |
| `ConversationEffects.BlankText` | internal/awareness/conversation_log.go:325-332 | text with a visible ASCII character is not blank, ASCII spaces alone are |
| `ConversationLog.ConversationLogService.Start` | internal/awareness/conversation_log.go:99-134 | opens the log from its file unless it is running or cannot be read |
| `ConversationLog.ConversationLogService.Shutdown` | internal/awareness/conversation_log.go:138-194 | clears the pending compaction, its guard and the log in memory; the file stays |
| `ConversationLog.ConversationLogService.HandleTurn` | internal/awareness/conversation_log.go:325-379 | the fields change as the state machine's step for a turn, ledger included, and the daily log gets the entry whatever the rolling log makes of it |
| `ConversationLog.ConversationLogService.TriggerCompaction` | internal/awareness/conversation_log.go:498-511 | the guard lets one compaction through, or a second once a stale one has been reaped |
| `ConversationLog.ConversationLogService.RequestSummary` | internal/awareness/conversation_log.go:512-554 | the older half leaves the tail and is pending with its time range, or the guard is released |
| `ConversationLog.ConversationLogService.CheckStaleCompaction` | internal/awareness/conversation_log.go:562-581 | a compaction older than the timeout is dropped with its guard, a younger one kept |
| `ConversationLog.ConversationLogService.HandleCompactionReply` | internal/awareness/conversation_log.go:599-664 | the fields change as the state machine's step for a reply, running or not; a summary the rolling log refuses goes to the daily log |
| `ConversationLog.ConversationLogService.StoreSummary` | internal/awareness/conversation_log.go:626-656 | header and cleaned reply are stored, or written to the daily log as a fallback |
| `ConversationLog.ConversationLogService.TriggerArchival` | internal/awareness/conversation_log.go:672-718 | summaries are committed away only after their archive write |
| `Journal.StepInvExact` | internal/awareness/journal.go:243-780 | every event keeps each live session's guard set exactly when it has its one compaction pending, for the log in use, if and only if it is not the start of a session, readable and with its first entry taken, under an ID with a compaction pending |
| `Journal.GuardOverRuns` | internal/awareness/journal.go:243-780 | the same over all runs that never reuse such an ID |
| `Journal.EmptyIsGuarded` | internal/awareness/journal.go:96-107 | a new service meets the guard invariant |
| `Journal.StopLeavesRequest` | internal/awareness/journal.go:293-349 | whatever request a stopped session leaves behind, just made or long pending, is for the log it was using, as the session leaves it, though its guard is gone |
| `Journal.StopLeavesOneExactly` | internal/awareness/journal.go:293-349 | a stop leaves a request if and only if its tail passes both thresholds, the guard is free or stale and an older half is handed out, or, no compaction being triggered or let through, one was in flight already |
| `Journal.StoppedSessionIsFinalized` | internal/awareness/journal.go:293-780 | from the stop to the summary: however many events come between, the reply to any request of the stopped session goes into the log as the session left it |
| `Journal.FinalizationReachesRetainedLog` | internal/awareness/journal.go:293-780 | however long the reply to such a request takes, it finds the log as the session left it and goes into it and its file |
| `JournalEffects.WrittenExactly` | internal/awareness/journal.go:364-468 | output or a tool change of an active session: the entry is at the end of its tail if taken and written, and, written or not, a compaction is tried exactly when the tail is over the threshold and the guard free or stale: the older half leaves, its request is pending for that log and its prompt quotes it; nothing else changes, in this session or any other |
| `JournalEffects.StoppedExactly` | internal/awareness/journal.go:293-349 | a stop tries a last compaction exactly when the tail is over the threshold and over 1000 bytes and the guard free or stale; the stop entry then goes behind what is left, and only after that the session is let go of, its request staying |
| `JournalEffects.CreatedExactly` | internal/awareness/journal.go:243-289 | a start opens a log object on the session's file, and the session is active with it if and only if it has an ID, its file can be read and its entry is stored or blank |
| `JournalEffects.RepliedExactly` | internal/awareness/journal.go:711-834 | a reply goes into the log its request names just as a reply goes into the log of one conversation, and request, guard and start time go, whatever comes of it |
| `JournalEffects.ShutDownExactly` | internal/awareness/journal.go:140-226 | a shutdown empties the tables and leaves files, archives and prompts |
| `JournalConservation.JournalsConserve` | internal/awareness/journal.go:243-835 | for every session, over every run that reuses no ID with a compaction pending: the entries archived, summarized, waiting and raw are the stored ones in order less those dropped, file and archive hold what the ledger says, entries wait exactly while the session has a request, whose prompt quotes them, and every log object still referred to holds what the file holds |
| `JournalConservation.JournalDropsOnlyByNamedEvents` | internal/awareness/journal.go:243-780 | a session's history grows by its own entry exactly when its log takes it, and entries are dropped exactly by a blank reply, a summary that cannot be stored, the reaping of a stale compaction or a shutdown, and then exactly the waiting ones |
| `JournalConservation.StepFollows` | internal/awareness/journal.go:243-780 | each event changes every session of the journal as the world of that session alone changes, and the ledgers stay balanced |
| `JournalConservation.ReuseLosesEntry` | internal/awareness/journal.go:243-780 | after a reuse the new session's first entry stands in the file until the old request is answered, and then in memory only |
| `JournalService.JournalService.HandleSessionCreated` | internal/awareness/journal.go:243-289 | the journal becomes active with a log object of its own only if its file can be read and its start entry is stored; the entry names the remembered tool and goes to the daily log |
| `JournalService.JournalService.HandleOutput` | internal/awareness/journal.go:364-422 | empty output is passed over unless the session waits; otherwise the formatted entry is appended, compaction is tried after that, failed or not, when the tail is over the threshold, and the daily log gets the entry |
| `JournalService.JournalService.HandleToolChanged` | internal/awareness/journal.go:432-468 | likewise for a change of tool, which is remembered whether or not the session is active |
| `JournalService.JournalService.HandleSessionStopped` | internal/awareness/journal.go:293-349 | compaction comes before the formatted stop entry, which goes to both logs, and the session's log, guard and tool are let go of after it |
| `JournalService.JournalService.TriggerCompaction` | internal/awareness/journal.go:611-623 | the per-session guard lets one compaction through, or a second once a stale one has been reaped |
| `JournalService.JournalService.RequestSummary` | internal/awareness/journal.go:624-668 | the older half leaves the tail of the log object, the request is filed with that object and its prompt published, or the guard is released |
| `JournalService.JournalService.CheckStaleCompaction` | internal/awareness/journal.go:673-699 | the loop drops exactly the requests of a session whose compaction is stale |
| `JournalService.JournalService.HandleCompactionReply` | internal/awareness/journal.go:711-780 | the reply goes to the log object its request holds, whether or not the session is still active; a summary that cannot be stored goes to the daily log; the session's guard is freed |
| `JournalService.JournalService.TriggerArchival` | internal/awareness/journal.go:791-834 | summaries of the log object are committed away only after their archive write |
| `JournalService.JournalService.Shutdown` | internal/awareness/journal.go:140-226 | every session's log, request, guard and tool is let go of |
| `OverflowBuffer.OverflowBuffer.constructor` | internal/eventbus/overflow.go:21-31 | a new ring is empty, of the given capacity or of 512 |
| `OverflowBuffer.OverflowBuffer.Push` | internal/eventbus/overflow.go:34-51 | wherever the head stands, appends to the sequence the ring holds and leaves a token, or refuses exactly when full |
| `OverflowBuffer.OverflowBuffer.Pop` | internal/eventbus/overflow.go:54-66 | wherever the head stands, removes the oldest, or refuses exactly when empty |
| `BusSafety.StepInv` | internal/eventbus/bus.go:99-368 | one step of any publisher, closer, the drain goroutine or the consumer keeps the whole invariant |
| `BusSafety.EveryInterleavingIsSafe` | internal/eventbus/bus.go:99-368 | in every state of every interleaving nothing was sent on a closed channel or closed twice, no wake-up is lost, envelopes are in order until one is refused, none vanishes, and the drop counter is exact up to increments under way |
| `BusSafety.DeliverFindsItOpen` | internal/eventbus/bus.go:307-343 | while a publisher holds the bus lock inside a delivery, the event channel is not closed |
| `BusSafety.DrainKeepsWakeup` | internal/eventbus/overflow.go:77-100 | the drain goroutine never goes to wait on a non-empty ring without a token left, one about to be, or cancellation |
| `BusDelivery.NewestIsTurnedAway` | internal/eventbus/bus.go:307-343 | with drop-newest, over every interleaving, what is received and in the channel only grows at its end, so nothing that entered is lost, and an envelope is lost only in its own send and when that finds the channel full |
| `BusDelivery.OldestGivesWay` | internal/eventbus/bus.go:307-357 | with drop-oldest, over every run in which nobody else publishes meanwhile, closers and the consumer moving as they like: a publication that gets as far as sending ends with its envelope last in line; either nothing is lost, or it found the channel full and exactly the oldest in the channel at the eviction is |
| `BusDelivery.DecidedOnce` | internal/eventbus/bus.go:99-357 | with any strategy, a publication, nobody else publishing, records its envelope exactly once by the time it unlocks, unless it gave up, and it gives up only when it finds the route gone, the close flag set or its context done |
| `BusDelivery.OpenWhileNobodyCloses` | internal/eventbus/bus.go:99-343 | as long as nobody closes or shuts down, the subscription is routed and open |
| `BusClosing.CloseIsComplete` | internal/eventbus/bus.go:187-305 | once the one who set the close flag is done, over every interleaving of closes and shutdowns, both channels have been closed exactly once, the drain goroutine has left and the route is gone |
| `BusClosing.NothingAfterwards` | internal/eventbus/bus.go:99-305 | once the route is gone it stays gone, and nothing is ever sent, lost or evicted again |
| `BusThrough.PublishedAlone` | internal/eventbus/bus.go:99-368 | from any open state, a publication that runs by itself appends its envelope when there is room; in a full channel drop-newest gives up the envelope, drop-oldest the oldest and appends, counting one drop; with overflow it goes to the end of the ring |
| `BusThrough.EverythingGetsThrough` | internal/eventbus/overflow.go:77-100 | from every reachable state that is neither being closed nor about to be signalled, a run of the drain goroutine and the consumer delivers all that was kept, in its order, which is everything published in order of publication when the ring never refused |
| `BusProgress.PublisherMoves` | internal/eventbus/bus.go:99-116 | a publisher past the lock never waits |
| `BusProgress.CancelledDrainMoves` | internal/eventbus/overflow.go:77-100 | once cancelled, the drain goroutine can always move on to its end |
| `BusProgress.NoDeadlock` | internal/eventbus/bus.go:187-305 | no interleaving ends in a deadlock: as long as any operation is unfinished some actor or the drain goroutine can move |
| `BusOrder.StepKeepsOrder` | internal/eventbus/bus.go:318-368 | a publisher's or closer's step from a state with everything in order and nothing lost keeps it so, for distinct envelopes, if and only if it neither evicts, nor finds the channel full after a refused push, nor sends past envelopes in hand or in the ring |
| `BusOrder.InOrderExactly` | internal/eventbus/bus.go:99-368 | every interleaving of an overflow subscription ends with all distinct envelopes received or on their way in order if and only if none of its steps is one of those three |
| `BusOrder.DisordersAfterRefusal` | internal/eventbus/bus.go:318-357 | such a step is taken only after the ring has refused an envelope |
| `BusProgress.OvertakenOnceRefused` | internal/eventbus/bus.go:318-357 | a run in which an envelope overtakes an older one because the ring was full, though nothing is lost |
| `BusProgress.RefusedYetInOrder` | internal/eventbus/bus.go:318-357 | a run in which the ring refuses an envelope and order is kept, the ring having been cleared before it is sent |
| `Chunker.SplitByHeaders` | internal/awareness/chunker.go:65-94 | the loop over lines with its fence flag and builder computes the sections of the text |
| `Chunker.SectionsAreExact` | internal/awareness/chunker.go:65-94 | sections begin at exactly the first line with text and the later headers outside fenced blocks; joined by newlines they are the text, less the line breaks it began with |
| `Chunker.SplitByParagraphs` | internal/awareness/chunker.go:97-107 | the trimmed, non-blank pieces between blank lines |
| `Chunker.ExpandSections` | internal/awareness/chunker.go:34-42 | sections over 2000 bytes become their paragraphs, the others stay whole |
| `Chunker.BuildChunks` | internal/awareness/chunker.go:44-59 | small texts are merged into the last chunk in place; chunks are numbered from 0 |
| `Chunker.ChunkMarkdown` | internal/awareness/chunker.go:22-60 | the chunks of the document, numbered from 0; what they are is `ChunkBoundaries.ChunksExactly` |
| `Chunker.ChunksKeepText` | internal/awareness/chunker.go:22-60 | for every document the chunks hold its visible characters, each once and in order, and all but the first have at least 20 bytes |
| `Chunker.TextsAreSmall` | internal/awareness/chunker.go:28-43 | a text that goes into a chunk and is over 2000 bytes is a single paragraph |
| `ChunkBoundaries.ChunksExactly` | internal/awareness/chunker.go:22-60 | for every document: with at least two sections the pieces are the sections, those over 2000 bytes cut at their blank lines, and otherwise the paragraphs; the chunks are the trimmed, non-blank pieces in order, one of under 20 bytes joined by a blank line to the text before it |
| `ChunkBoundaries.SectionsBeginChunks` | internal/awareness/chunker.go:22-60 | with at least two sections, each one of 20 to 2000 bytes begins a chunk of its own, which starts with exactly its trimmed text, later sections later ones |
| `ChunkBoundaries.SizedSectionsAreTheChunks` | internal/awareness/chunker.go:22-60 | when all sections are of that size the chunks are exactly the trimmed sections |
| `ChunkBoundaries.LinesAreTold` | internal/awareness/chunker.go:65-94 | a line is a header, or a fence, exactly when its text between any spaces begins with two or three number signs and a space, or with three backquotes or tildes |
| `IndexSpec.SyncIsRebuild` | internal/awareness/indexer.go:242-385 | an incremental sync gives what a rebuild gives if and only if every file skipped for its unchanged modification time has the rows it should have |
| `IndexSpec.SyncsEndAsRebuild` | internal/awareness/indexer.go:242-385 | after any edits and syncs, however many transactions failed, one sync without failures gives what a rebuild gives, if modification times tell contents apart |
| `IndexSpec.SyncsEndAsRebuildExactly` | internal/awareness/indexer.go:242-385 | after any edits and failing syncs, one sync without failures gives what a rebuild gives if and only if every file skipped for its unchanged modification time has the chunks and size of the file last indexed under its path |
| `IndexSpec.RoundsAreTraced` | internal/awareness/indexer.go:242-469 | at any time the rows of every path are exactly those of a file that some sync found there |
| `IndexSpec.SameMtimeIsMissed` | internal/awareness/indexer.go:296-309 | an edit that keeps the modification time leaves the old rows |
| `IndexSpec.NothingToDo` | internal/awareness/indexer.go:296-347 | a sync that finds the recorded times and no file gone changes nothing |
| `IndexEffects.SyncExactly` | internal/awareness/indexer.go:242-530 | for any tables, disk and failures, at any path: a markdown file that is found, its transaction succeeding and its recorded modification time not its own, has exactly one row for each chunk, with its type by folder and its project, and its file row; otherwise rows stay while the file is found or its removal fails; no other path has rows |
| `IndexEffects.ClassifyFiles` | internal/awareness/indexer.go:499-530 | the type is that of the conversations, journals or topics folder the file lies in, at the top or in a project, else unknown; the slug is the project's |
| `Indexer.Index.IndexFile` | internal/awareness/indexer.go:389-443 | one transaction replaces the rows of the file and drops its embeddings, or changes nothing |
| `Indexer.Index.RemoveFile` | internal/awareness/indexer.go:446-469 | one transaction takes away all rows of the file, or changes nothing |
| `Indexer.Index.IndexChanged` | internal/awareness/indexer.go:293-333 | for any order of iteration, exactly the new and modified files whose transactions succeed are indexed, and their chunks listed with their present texts; a cancelled loop leaves the files not reached as they were |
| `Indexer.Index.RemoveGone` | internal/awareness/indexer.go:335-347 | for any order of iteration, exactly the recorded files no longer found lose their rows; a cancelled loop leaves those not reached |
| `Indexer.Index.StoreEmbeddings` | internal/awareness/embedding.go:128-145 | each vector of the batch is stored under its chunk, but for rows that fail |
| `Indexer.Index.EmbedChunks` | internal/awareness/embedding.go:80-125 | one call for each batch of 100 until the context is cancelled; degraded exactly when a call reports an error; the chunks of every batch that succeeded have their embedding, and no other chunk gets one |
| `Indexer.Index.BackfillEmbeddings` | internal/awareness/embedding.go:150-222 | every embedding stays sound; if the query and all calls succeed and nothing is cancelled every chunk has one |
| `Indexer.Index.Sync` | internal/awareness/indexer.go:242-365 | the tables after it are the specification's, whatever the order, a cancelled sync being one in which the transactions not reached failed; whatever the provider does, every embedding is of an existing chunk and its present text; every chunk of the files indexed has one when the first calls all succeed, and every chunk at all when nothing is cancelled, no first call errs and the backfill succeeds |
| `Indexer.Index.RebuildIndex` | internal/awareness/indexer.go:371-385 | with no transaction failing and nothing cancelled the tables are those of the files on disk |
| `Hybrid.NormalizeScores` | internal/awareness/hybrid.go:15-56 | in place, scores end in [0, 1] with the largest at 1, in the same order with the same ties, and the smallest at 0 unless all are alike |
| `Hybrid.JaccardSimilarity` | internal/awareness/hybrid.go:105-122 | shared tokens over all tokens, counted from one side in any order |
| `Hybrid.JaccardMeasures` | internal/awareness/hybrid.go:105-122 | within [0, 1], symmetric, 0 exactly for disjoint sets and 1 exactly for equal non-empty ones |
| `Hybrid.MmrRerank` | internal/awareness/hybrid.go:127-193 | min(maxResults, n) distinct results for any order of iteration; the first is the earliest of the highest score, and for each later one weight * score - (1 - weight) * m, m being the largest Jaccard similarity to an earlier pick, is at least that of every result remaining |
| `Hybrid.PickNext` | internal/awareness/hybrid.go:160-182 | a remaining candidate that no other beats |
| `Hybrid.RelevanceFalls` | internal/awareness/hybrid.go:127-193 | marginal relevance never rises from one pick to the next, for any weight from 0 to 1 |
| `Hybrid.RelevanceOnlyIsTopK` | internal/awareness/hybrid.go:127-193 | with all the weight on relevance the picks are the top results by score, best first |
| `Hybrid.DiversityOnlyIsLeastAlike` | internal/awareness/hybrid.go:127-193 | with no weight on relevance each later pick has the least largest similarity to the earlier ones |
| `Hybrid.EqualScoresPreferUnlike` | internal/awareness/hybrid.go:127-193 | of two results with the same score and a weight below 1, the one more like the earlier picks is never picked before the other |
| `Frames.FrameParser.ProcessData` | internal/jsruntime/host.js:241-266 | a call hands out the frames complete so far and keeps the rest |
| `Frames.ParseMore` | internal/jsruntime/host.js:241-266 | more bytes only extend what was parsed |
| `Frames.ChunkingDoesNotMatter` | internal/jsruntime/host.js:241-266 | however any stream is cut into chunks, the same frames come out, the same length is fatal and the same bytes are kept |
| `Frames.FramesRoundTrip` | internal/jsruntime/host.js:241-266 | any payloads framed and delivered in any pieces come out in order up to the first over 16 MiB; all of them, with the buffer empty, if and only if none is |
| `Frames.ReaderAgreesWithParser` | internal/jsruntime/ipc.go:68-88 | on every stream, well formed or not, repeated reading gives the parser's frames, and a length is too large for it exactly when it is fatal to the parser |
| `Frames.ReaderRoundTrip` | internal/jsruntime/ipc.go:68-88 | the reader recovers all that was written if and only if nothing was over 16 MiB |
| `Frames.WriteFrame` | internal/jsruntime/ipc.go:50-66 | writes the frame, or refuses a payload over the limit and writes nothing |
| `Frames.HostWriteFrame` | internal/jsruntime/host.js:70-76 | writes the frame whatever its length |
| `Frames.ReadFull` | internal/jsruntime/ipc.go:69-86 | fills the buffer over any number of short reads, or with all there is |
| `Frames.ReadFrameFrom` | internal/jsruntime/ipc.go:68-88 | one frame, or which error, and the bytes left unread |
| `FrameLayout.FrameIsLengthAndPayload` | internal/jsruntime/ipc.go:50-66 | a frame is its length in four bytes, most significant first, and its payload |
| `FrameLayout.ParsedExactly` | internal/jsruntime/host.js:241-266 | of any stream, the parser hands out exactly the frames that stand one behind the other from its start, none over 16 MiB, and keeps the rest, which holds no complete frame or, exactly when it is fatal, announces over 16 MiB |
| `FrameLayout.ReaderEnds` | internal/jsruntime/ipc.go:68-88 | which error ends repeated reading of any stream |
| `WavFormat.RoundTrip` | internal/audioio/wav.go:27-272 | a finished file is read back with its format and exactly its samples if and only if the format values fit their fields and there are 1 to 2^28 bytes of samples |
| `WavFormat.WriteThenRead` | internal/audioio/wav.go:129-272 | in files of any size, reads of any sizes concatenate to a prefix of the samples, to all of them exactly once nothing remains, which with productive calls is after at most as many calls as bytes, if and only if no single call takes 2^32 bytes or more and wraps |
| `WavFormat.ReadDelivers` | internal/audioio/wav.go:129-154 | on any stream, truncated ones too, a read that does not wrap gives the next samples without gaps and reports the end exactly when the last has been delivered, unless the stream reports a fault; at the end of a truncated stream it gives nothing and reports no end |
| `WavFormat.WrappingReadsTooMuch` | internal/audioio/wav.go:129-154 | a read that wraps hands out at least 2^32 bytes, more than remain |
| `WavFormat.ChunksBounds` | internal/audioio/wav.go:27-126 | a reader that opens, on any bytes at all, has a usable format and 1 to 2^28 bytes to give |
| `WavFormat.OpenWritten` | internal/audioio/wav.go:27-126 | how the writer's header opens for every format and every length, errors included |
| `WavLayout.FinishedLayout` | internal/audioio/wav.go:207-272 | what stands at each byte of a finished file, for any accepted format and any samples: tags, sizes, format fields, least significant byte first, then the samples |
| `WavLayout.RatesLayout` | internal/audioio/wav.go:219-223 | bytes 28 to 34 hold the low bits of rate * channels * depth / 8 and of channels * depth / 8, as long as the machine's integers hold the products |
| `WavLayout.UnknownChunksAreSkipped` | internal/audioio/wav.go:99-107 | any chunks with other names are skipped with their padding, wherever they stand |
| `WavLayout.OpensAmongOthers` | internal/audioio/wav.go:27-126 | a file whose plain format chunk and samples stand among any such chunks opens with that format at the first sample |
| `WavLayout.LongFormatSkipsTwice` | internal/audioio/wav.go:58-92 | after a format chunk with extra bytes the next chunk is looked for exactly that many bytes behind its place |
| `Wav.NewReader` | internal/audioio/wav.go:27-126 | the chunk loop opens the stream as specified from wherever it is positioned |
| `Wav.ReadChunk` | internal/audioio/wav.go:45-110 | one chunk: recognised, parsed, skipped or refused |
| `Wav.Reader.Read` | internal/audioio/wav.go:129-154 | fills the front of the caller's buffer with what the stream gives of the samples that remain |
| `Wav.NewWriter` | internal/audioio/wav.go:186-205 | refuses a format that is not positive and leaves the file alone |
| `Wav.Writer.constructor` | internal/audioio/wav.go:207-231 | the header is written over the start of the file |
| `Wav.Writer.Write` | internal/audioio/wav.go:234-246 | appends what the file accepts of the samples and counts it in 32 bits |
| `Wav.Writer.Close` | internal/audioio/wav.go:249-272 | both sizes are patched in place, once; the samples and what follows them stay |
| `RateLimit.ConversationService.ShouldTriggerSessionOutput` | internal/conversation/service.go:248-261 | grants at most every two seconds and marks the time; other sessions are untouched |
| `RateLimit.ConversationService.ShouldBypassForWaitingFor` | internal/conversation/service.go:267-277 | grants at most every half second and marks both times |
| `RateLimit.ConversationService.HandlePipelineMessage` | internal/conversation/service.go:184-245 | a user is always answered; notable session output is held to the limit its waiting_for value calls for; the rest asks for nothing |
| `RateLimit.ConversationService.ClearSession` | internal/conversation/service.go:397-413 | both marks of the session go, no other |
| `RateLimit.GrantsAreSpaced` | internal/conversation/service.go:248-277 | over any requests with a monotone clock, an ordinary grant comes two seconds after every earlier grant and bypass grants are half a second apart |
| `RateLimit.GrantedExactly` | internal/conversation/service.go:227-277 | with a monotone clock a request is granted if and only if it is far enough from every grant before it: nothing is refused without need |
| `RateLimit.PromptsPerWindow` | internal/conversation/service.go:227-277 | at most L/500ms + 2 prompts in any window of length L, which is within (L/500ms + 1) + (L/2s + 1) |
| `RateLimit.BoundIsTight` | internal/conversation/service.go:227-277 | for every multiple of half a second a schedule meets that bound |

## Left out

- Live files edited by hand: `EveryRunIsDurable` and `Conservation` start from a new log, because a file that the log did not write may parse to lists it would not accept. Opening any file is modelled.
- Daily logs are sequences of lines: their files by date, file handles, directory creation and fsync are not modelled, and a write succeeds or fails as a whole.
- RollingLog.RollingLog.Archive: archive file names, the text layout of a batch and the refusal of a path that is empty or not absolute; a batch reaches the archive, or not, or does and still reports an error.
- ConversationLog.ConversationLogService.TriggerArchival: the sync event published after a successful archival.
- JournalService.JournalService.TriggerArchival: likewise.
- SliceRawTail, Slice and parseOneTurn (paging, and re-reading entries as turns): they would only add easy members.
- Races inside a handler of the conversation log or the journal (a reply finalised while the reaper runs): each handler is one atomic step.
- JournalService.JournalService.HandleSessionStopped: the exit code comes already printed in decimal.
- JournalService.JournalService.Shutdown: a service without a bus or never started, for which it does nothing, and the waiting for its goroutines.
- JournalConservation.JournalsConserve: runs that reuse an ID with a compaction pending are excluded, since two objects then write one file; `JournalConservation.ReuseLosesEntry` says what that costs.
- Journal.FinalizationReachesRetainedLog: assumes no session starts under the stopped session's ID meanwhile; `StepInvExact` shows that this is exactly what breaks the guard.
- Several subscriptions and topics at once: publishing delivers to each in turn under one shared lock, and the model follows one of them. The preference of a waiting writer on that lock is not modelled, nor is a subscription to a nil bus.
- OverflowBuffer.OverflowBuffer.Push: the mutex is taken as making the ring update one step; the wake-up is a separate step in `EventBus`.
- Fairness: `NoDeadlock` says that something can move, not that every actor gets its turn.
- SQLite itself, FTS5 and the schema, and the counting of files for the log line.
- Indexer.Index.Sync: sync events on the bus; the disk does not change while it runs, and a directory that cannot be walked is modelled by leaving out its files.
- Indexer.Index.RebuildIndex: a table that cannot be cleared.
- Vectors, their serialization, norms and cosine similarity: a vector is represented by the text it was made from.
- Floating-point rounding in `Hybrid`, tokenizing, temporal decay and the fusion of the two result lists.
- Invalid UTF-8 in markdown: `Chunker` works on characters.
- Frames.HostWriteFrame: payloads of 4 GiB and more, which the host's buffers do not hold.
- Wav.Writer.constructor: a seek or a write of the header that fails.
- Wav.Writer.Close: seeks and writes that fail while the header is patched, and the closing of the underlying file.
- Encoding labels of WAV formats and the duration estimate.
- WavLayout.RatesLayout: products of 2^63 and more, whose wrap-around `WavFormat` models and no field makes use of.
- BusDelivery.OldestGivesWay: several publishers at once, which can fill the place that one of them made; `BusSafety.EveryInterleavingIsSafe` covers their runs.
- Detach timers, tool caches, prompts and replies of the conversation service: no bound depends on them.
