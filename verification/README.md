# Verified model of the task platform

A Dafny model of five parts of the platform, with proofs that hold for all inputs, all runs and,
where several actors are involved, all interleavings. `dafny verify dfyconfig.toml` checks it.

| files | what they model |
|---|---|
| `Events`, `MessageHistory`, `Pipeline`, `Delivery`, `SerialDelivery`, `DeliveryRuns`, `Reconnection`, `HandoffHistory` | the event pipeline of a task: numbering, log, fan-out, streams that subscribe, replay and follow, clients that reconnect |
| `Lifecycle`, `LockOwners`, `RunningStatus`, `WatchdogBound`, `PromptLaws`, `TaskService` | status row, session lock, prompts, runtime events and watchdog as a state machine with a clock, theorems about its runs, and the service that takes its steps |
| `Text`, `Outline`, `TableSplit`, `Chunker`, `LineKinds`, `ChunkTheorems`, `Losslessness`, `Boundary`, `QueryTerms`, `TermWorth`, `RankFusion` | the text core of the knowledge base |
| `UsageLedger`, `QuotaGate` | usage events, their daily rollup, quotas, and the gate over whole runs |
| `Csv`, `Scopes`, `Router`, `Registry` | audit export, scope normalisation, model routing, runtime scheduling |
| `Options`, `Sets`, `Sorting` | small shared notions |

Services that update state in place are classes; each method's contract gives the whole new state
as a function of the old one, and the theorems about runs are about that function. Costs, load
ratios, probabilities and scores are exact reals. What stores, runtimes, routers and clocks answer
is a parameter, failures included. What the model's own vocabulary means (an answer, a message, a
term's worth, a tier's representative, a heading) is stated a second time, independently and in
fields, characters and numbers.

## How to read the main results

**Delivery.** `Delivery` lets any number of ingests and streams interleave step by step and assumes
nothing. At-most-once delivery and the accounting of every event hold for all interleavings.
Exactly-once needs one ingest at a time per task, no overflow of the 256-place channel and at most
5000 events to replay; `ExactlyOnceTail` shows that this is not quite enough and names the missing
condition. The log is read by a stream whose client already has everything in it, so `maxSeq` stays
0; if the event the client resumes from was stored but not yet announced when the stream
subscribed, the stream sends it again (`EchoRun`). `EchoPrecisely` says exactly when.

**Where the code falls short of its comments.** Each of these is a lemma with the input that shows
it and, where there is one, the exact condition under which the intent is met.

- The stream opened with `since=last_seq` yields exactly the missed tail, except for the echo above
  and except when the history was empty (`EchoRun`, `UnanchoredTail`). Two ingests in flight for
  one task lose an event for good without any overflow (`ConcurrentLossRun`).
- The paragraph boundary preferred by the chunker is no safeguard: at 700 runes the buffer is reset
  and what was in it is never emitted (`LongLineVanishes`). `LosslessExactly` says for which
  documents nothing is lost, `LastParagraphSurvives` what the boundary saves. It is compared as a
  byte offset with a count of runes, and is modelled so.
- An oversized table with nothing but blank lines after the line that closes its first row
  disappears (`OversizedTableVanishes`); when one is split at all is `TableIsSplitExactly`.
- Skipped heading levels make siblings nest (`SkippedLevelsNest`).
- The session lock has no owner, so a failing prompt can free the lock of another turn: after its
  own has expired, or well before that if an abort or a settled or error event released it and the
  next turn has begun (`LateFailureRun`, `FailureAfterReleaseRun`). `FailureFreesAnother` says
  exactly when.
- A settling event that overtakes the prompt's own return leaves the task running
  (`OvertakenPromptRun`); `AfterSettling` and `OvertakenPrompt` say exactly when a settled task runs
  again.
- The watchdog is precise only for timeouts within the life of the marker (`WatchdogImprecision`),
  and on time only for those one tick shorter (`LatencyBoundIsNeeded`).
- Ties between equally loaded runtimes go to the first one listed, not to the one with fewer active
  sessions (`TieIgnoresActive`, and exactly when in `TieBreakExactly`); a heartbeat after a lapse
  does not bring a runtime back once a listing has dropped it (`SilentRuntimeMustRegister`).
- A submission of scopes of which none survives, or a store interrupted before its first row, makes
  the capability visible to everyone (`VisibilityPreserved`, `InterruptedStore`).
- A quota check that fails lets the turn begin, and each such turn can raise the overshoot by what
  one turn may cost (`BoundedOvershoot`, `OvershootIsSharp`).
- The rollup and the raw events part when the second of the two writes of a report fails
  (`RollupAgreesExactly`).

## Model

| member | source | states |
|---|---|---|
| Pipelines.Pipeline.Ingest | internal/task/pipeline.go:32-66 | One ingest, with every way the store can answer it, is `IngestOutcome` on the task: next number, log extended, marker set, offered to every channel below its 256 places; a refused batch burns the number, one that only appended leaves an event nobody was told of; other tasks are untouched |
| Pipelines.OutcomesByAnswer | internal/task/pipeline.go:32-66 | Said by fields: a number is spent once given out, the event is last in the log unless the batch was refused, and only a batch applied in full marks the activity and reaches subscribers with room among 256 |
| Pipelines.Pipeline.FanOut | internal/task/pipeline.go:55-64 | Every live channel of the task gets the event exactly once, full channels drop it, whatever order the table yields them in |
| Pipelines.Pipeline.Subscribe | internal/task/pipeline.go:70-79 | A new empty channel under an id that no subscriber of any task holds; nothing else changes |
| Pipelines.Pipeline.Cancel | internal/task/pipeline.go:80-87 | Exactly that channel goes, and the table keeps no empty entries |
| Pipelines.Pipeline.Replay | internal/task/pipeline.go:91-124 | The scan returns the events above `since` in log order, only the newest `limit` of them when there are more |
| Pipelines.Pipeline.GetMessages | internal/task/server.go:676-696 | The loop returns the payloads at the places of exactly the finished messages of the replay, of every role, in order, and the maximum number over all scanned events |
| MessageHistory.MessagesAreHistory | internal/task/server.go:683-694 | What is collected are the payloads at a strictly increasing list of places: exactly the message_end events whose payload carries a role |
| MessageHistory.HistoryIsUnique | internal/task/server.go:683-694 | A log has one history in this sense |
| MessageHistory.HistoryIsWhole | internal/task/server.go:676-696 | For a log of up to 100000 events the history is that of the whole log and the anchor is the number of its last event |
| Pipelines.EventStream.SendHistory | internal/task/server.go:520-534 | Everything replayed is sent in order and `maxSeq` is its maximum |
| Pipelines.EventStream.Follow | internal/task/server.go:539-551 | Of the events taken off the channel exactly those above `maxSeq` are sent, in order; `maxSeq` no longer moves |
| Pipelines.AnchorIsLogMax | internal/task/server.go:681-686 | The anchor handed out is the maximum of the whole log even when the history was cut to its newest events |
| Pipelines.IngestIsThreeSteps | internal/task/pipeline.go:32-66 | An undisturbed ingest of the service is the protocol steps number, store, announce in a row: same counter, log and channels |
| Delivery.StepKeepsInv | internal/task/pipeline.go:32-124 | Every step of every concurrent ingest and stream keeps the invariant: distinct numbers; what a stream sent is its history followed by what it took off its channel above the history; each stored event after opening was offered or is waiting to be |
| Delivery.RunKeepsInv | internal/task/pipeline.go:32-124 | So the invariant holds in every state of every interleaving |
| Delivery.AtMostOnce | internal/task/server.go:516-551 | For every interleaving, overflow and concurrent ingests included, no stream sends an event twice and it sends persisted events only |
| Delivery.Accounting | internal/task/server.go:516-551 | For every interleaving each persisted event above the anchor is in exactly one place: sent, queued, about to be announced, or lost in one of three named ways |
| Delivery.LostStaysLost | internal/task/server.go:539-551 | A step that does not close the stream keeps a lost event lost and only extends what was sent |
| Delivery.LostForGood | internal/task/server.go:539-551 | In every continuation of a run in which the stream stays open, a lost event is never sent |
| SerialDelivery.ExactlyOnceTail | internal/task/server.go:516-551 | With one ingest at a time: sent, then queued above `maxSeq`, then in flight, is the log above the anchor in order, if and only if the replay was not cut at 5000, nothing newer was dropped, and no event at or below the anchor was announced after an empty replay |
| SerialDelivery.DrainedTail | internal/task/server.go:516-551 | The same for a drained stream: what was sent is exactly the log above the anchor, under exactly those conditions |
| SerialDelivery.EchoPrecisely | internal/task/server.go:516-546 | The last of these conditions, decided: it fails exactly when the anchor event itself was stored but not announced as the stream opened, was then announced to it, and the replay was empty |
| DeliveryRuns.EchoRun | internal/task/server.go:516-546 | A run in which that happens: a client resuming from the anchor its history gave it is sent the anchor event again |
| DeliveryRuns.ConcurrentLossRun | internal/task/pipeline.go:33-64 | A run with two ingests of one task in flight in which a resuming stream never sends a persisted event newer than its anchor, with no overflow |
| Delivery.LogGrows | internal/task/pipeline.go:44-47 | Along every run the log is only appended to |
| Events.LimitsInNumbers | internal/task/pipeline.go:115-121 | A replay is whole up to 5000 events and loses the oldest beyond, and a channel takes 256 |
| SerialDelivery.LosslessHandoff | proto/gen/task/task.pb.go:1512-1515 | History at one point of a run followed by the tail of a stream anchored at its `last_seq` is every message of the task once and in order, whatever is ingested in between (log not empty, conditions of the tail theorem); histories over 100000 events lose their oldest part only |
| SerialDelivery.UnanchoredTail | internal/task/server.go:520-551 | A stream without an anchor delivers exactly what is announced after it opened, so a handoff from an empty log loses what came in between |
| Reconnection.SessionSends | internal/task/server.go:516-551 | Whatever phase it was lost in, a stream with nothing truncated, dropped or echoed has sent a prefix of the log above its anchor |
| Reconnection.ResumptionLosesNothing | internal/task/server.go:520-551 | Over any number of such streams, each anchored at the last event received before, what was received and what the log holds above the last of it is the log above the first anchor, once and in order |
| Reconnection.ReconnectingTail | internal/task/server.go:520-551 | So what a client received in the streams it lost, followed by the tail of the one it follows, is every event above its first anchor once and in order |
| Reconnection.ReconnectingHandoff | proto/gen/task/task.pb.go:1512-1515 | With the history taken first: every message of the task once and in order, however often the client reconnects |
| HandoffHistory.HandoffIsWholeHistory | proto/gen/task/task.pb.go:1512-1515 | The history of the log as it was, followed by the history of what the stream delivers, is the history of the log as it is: every message_end event with a role, of whichever role, once and in order |
| HandoffHistory.ReconnectingIsWholeHistory | proto/gen/task/task.pb.go:1512-1515 | The same over any number of reconnections |
| TaskServices.TaskService.SendPrompt | internal/task/server.go:380-460 | The whole handler, failures of hosting and of the runtime call included, is the two steps of the state machine on this task and changes no other; accepted exactly if the checks pass, a session is hosted and the runtime accepts; a prompt to an archived task gets FailedPrecondition and touches nothing |
| TaskServices.TaskService.Admit | internal/task/server.go:380-434 | Every answer is given exactly in its case, and what is left of row, lock and log is as stated below |
| PromptLaws.PromptsAreAnswered | internal/task/server.go:380-434 | An if and only if in the fields of row, prompt and lock for each answer: not found, denied, archived, empty message, no router, no route, quota, unknown mode, busy, accepted; nothing changes before the checks of caller, task, message and model pass, then routing is logged and the override touches the row, the mode changes once quota and mode are in order, and only acceptance sets the lock, for 15 minutes |
| PromptLaws.AcquisitionsNeedAnOpenTask | internal/task/server.go:391-433 | In every run a lock is acquired only for a task that is there, not archived and not locked |
| PromptLaws.ArchivedTaskTakesNoPrompt | internal/task/server.go:391-393 | In every run, from the moment a task is archived no turn begins on it |
| PromptLaws.StepsLogTheirFrames | internal/task/server.go:480-608 | Which events, with which text, every step appends to the log, numbered on from the counter, and that it appends nothing else; deletion empties log and counter |
| PromptLaws.StepsLeaveTheRow | internal/task/store.go:104-182 | What every step leaves of status, title and mode |
| PromptLaws.StepsRenewTheRow | internal/task/store.go:104-182 | And which steps renew the time of the last change |
| PromptLaws.RequestsAreAnswered | internal/task/server.go:235-265 | The answers of update, abort and delete by whether there is a task, whose it is and whether it is archived |
| TaskServices.TaskService.PushEvent | internal/task/server.go:569-608 | Ingest, then status, lock release and idle frame by the kind of event |
| TaskServices.TaskService.AbortTurn | internal/task/server.go:480-499 | Releases the lock and synthesises the aborted frame if the task exists and the caller may |
| TaskServices.TaskService.UpdateTask | internal/task/store.go:104-134 | Guarded update of the row: an archived task accepts nothing but being archived again |
| TaskServices.TaskService.RemoveTask | internal/task/server.go:243-284 | Row, lock, log and counter go together, and only if there was a row; the activity marker stays |
| TaskServices.TaskService.SetRowStatus | internal/task/store.go:157-160 | The status changes unless the row is archived |
| TaskServices.TaskService.AcquireSessionLock | internal/task/registry.go:116-118 | Succeeds exactly when no live key is there, and then holds for the time to live |
| TaskServices.TaskService.ReleaseSessionLock | internal/task/registry.go:120-122 | The key goes, whoever set it; no other key does |
| TaskServices.TaskService.FailStuckTurn | internal/task/watchdog.go:91-108 | Lock, status and error event of one stuck turn |
| TaskServices.TaskService.WatchdogOnce | internal/task/watchdog.go:50-75 | One pass over the running tasks, in any order, takes exactly the watchdog step of every task |
| Lifecycle.ArchivedIsFinal | internal/task/store.go:104-160 | In every run an archived task stays archived until it is deleted, and a deleted one never comes back |
| Lifecycle.LockStep | internal/task/server.go:432-455 | The lock key is removed by exactly the listed releases and set by exactly the successful acquisitions |
| Lifecycle.LockDiscipline | internal/task/registry.go:116-122 | Between two acquisitions in any run there is an explicit release or more than 15 minutes |
| LockOwners.OwnerSetTheLock | internal/task/registry.go:116-122 | In every state of every run the lock key is there exactly if it has an owner, the last acquisition, not released since, and it expires 15 minutes after that |
| LockOwners.FailedPromptsAndTheLock | internal/task/server.go:432-455 | In every run a prompt refused at the lock or before leaves the lock and its owner as they were, busy means that an acquisition not older than 15 minutes owns it, and one that fails later leaves no lock |
| LockOwners.OwnLockIsKept | internal/task/server.go:432-455 | A turn that fails within 15 minutes of its acquisition, with no release since, finds its own lock in place |
| LockOwners.FailureFreesAnother | internal/task/server.go:437-454 | A failing turn removes a live lock that is not its own if and only if some acquisition after its own has not been released since and has not expired |
| LockOwners.TimelyFailureFreesItsOwn | internal/task/server.go:437-454 | So one that fails in time with no release since it began frees nobody else's lock, and nobody acquired meanwhile |
| LockOwners.FailureAfterReleaseRun | internal/task/server.go:437-495 | A run in which that happens within the time to live: a turn hangs in its runtime call, an abort, settled or error event releases its lock, the next turn takes it, and the first one fails |
| LockOwners.LateFailureRun | internal/task/server.go:437-454 | A run in which it happens after the first lock has expired |
| Lifecycle.MarkerFresh | internal/task/pipeline.go:49-50 | In every run a running task has a marker, and no marker is older than any ingest before it |
| Lifecycle.WatchdogPrecision | internal/task/watchdog.go:66-87 | Over every run, for timeouts up to the seven days the marker lives, a turn is failed only if every event was ingested longer ago than the timeout |
| Lifecycle.WatchdogImprecision | internal/task/watchdog.go:79-87 | The bound is exact: for every longer timeout there is a run that fails a turn with a younger event |
| Lifecycle.SurvivorsAreFresh | internal/task/watchdog.go:66-75 | Whatever is running after a tick was active no more than the timeout before that tick |
| Lifecycle.WatchdogLatency | internal/task/watchdog.go:35-75 | In runs with a tick at least every minute no task is ever found running and silent for longer than timeout plus one tick |
| WatchdogBound.NobodyIsSilentTooLong | internal/task/watchdog.go:35-75 | The same as a statement about runs, for timeouts up to one tick short of the seven days the marker lives |
| WatchdogBound.LatencyBoundIsNeeded | internal/task/watchdog.go:66-87 | For every longer timeout there is a run with a tick every minute in which a task is found running after a longer silence: a refused prompt renewed the row once the marker had expired |
| Lifecycle.QuietKeepsPipe | internal/task/pipeline.go:32-66 | Between two ingests the log, counter and marker do not change |
| Lifecycle.ReplayEndsWithLast | internal/task/pipeline.go:115-123 | A replay from before the last event ends with it, however truncated |
| Lifecycle.TerminalConvergence | internal/task/server.go:589-608 | After a settled or error event the lock is free; until the next ingest the task stays idle or archived and every replay from before ends with the idle frame |
| RunningStatus.RunningExactly | internal/task/server.go:456-456 | In every run the task is running exactly if an accepted prompt return or an agent_start found its row there and not archived, and nothing has stopped it since: settling, failed first prompt, archiving, deletion or watchdog |
| RunningStatus.AfterSettling | internal/task/server.go:589-606 | After a settling event the task is running again if and only if one of these started it since |
| RunningStatus.OvertakenPrompt | internal/task/server.go:445-458 | A turn that began before the settling event and is accepted after it leaves the task running if and only if the row is there and not archived, and without a lock unless one was acquired in between |
| RunningStatus.SettledUntilNewTurn | internal/task/server.go:589-606 | Settled with no prompt on its way, and without agent_start, the task does not run until a new prompt has begun and been accepted |
| RunningStatus.OvertakenPromptRun | internal/task/server.go:445-458 | The race as a run: running with a free lock after the turn has settled |
| Chunker.HeadingDepth | internal/kb/parse.go:118-131 | The loop computes the depth of a heading line: one to six `#` after spaces, then a space; zero otherwise |
| LineKinds.DepthExactly | internal/kb/parse.go:118-131 | A line is a heading of depth d exactly if it is spaces, d hashes from one to six, a space and anything |
| LineKinds.TitleExactly | internal/kb/parse.go:54-54 | The title is the line without the hashes it starts with, trimmed |
| LineKinds.TagsExactly | internal/kb/parse.go:39-46 | A table starts where a trimmed line begins with its tag and ends where the closing tag stands, in any case |
| LineKinds.TrailGrows | internal/kb/parse.go:133-133 | Titles are joined by " > " |
| LineKinds.BlocksAreWell | internal/kb/parse.go:34-69 | Every document is cut into text blocks, a heading or none and then lines that are neither heading nor table, and tables, from an opening line to the first closing one |
| Chunker.TakeTable | internal/kb/parse.go:41-47 | Consumes exactly the lines up to the first closing tag, or to the end |
| Chunker.ChunkLines | internal/kb/parse.go:34-69 | The one-pass scan with buffer, trail and section emits exactly the chunks of the pieces specified ahead of it |
| ChunkTheorems.ChunkMarkdown | internal/kb/parse.go:21-70 | Chunking a document is emitting the pieces of its blocks, a specification without buffer or loop state |
| ChunkTheorems.PendingIsPieces | internal/kb/parse.go:34-69 | The streaming view and the two-stage view, blocks first and pieces second, agree from every boundary on |
| Chunker.PiecesPartitionSource | internal/kb/parse.go:27-69 | The pieces cut the newline-terminated source into contiguous, disjoint slices in source order that leave nothing out |
| ChunkTheorems.PieceEmits | internal/kb/parse.go:27-69 | Chunk number m is emitted by one piece, at its place behind the chunks of all pieces before |
| ChunkTheorems.ChunkProvenance | internal/kb/parse.go:27-69 | Chunk number m comes from the slice of the source its piece fills, at a known place: a text chunk is the slice trimmed, a table chunk is part of the split of that table |
| ChunkTheorems.ChunksInSourceOrder | internal/kb/parse.go:27-69 | Chunks come in source order: of two chunks the later has the same slice, as parts of one table do, or one that starts at or after the end of the earlier |
| ChunkTheorems.ChunkSections | internal/kb/parse.go:48-58 | Chunk number m carries the heading trail in force in the block that its slice of the source lies in |
| ChunkTheorems.Lossless | internal/kb/parse.go:27-86 | With no oversized table the chunks carry all non-white characters of the document in order, if and only if every piece dropped at the target size was blank |
| ChunkTheorems.DropsExactlyInLongBlocks | internal/kb/parse.go:62-86 | Something is dropped exactly when some text block reaches 700 runes |
| ChunkTheorems.ShortDocumentsAreLossless | internal/kb/parse.go:21-86 | So documents of short text blocks and small tables lose no character |
| ChunkTheorems.LongLineVanishes | internal/kb/parse.go:78-86 | Any one-line text of 699 runes or more yields no chunk |
| Boundary.TextLineArrives | internal/kb/parse.go:62-86 | A text line leaves the buffer below 700 runes, or exactly the text behind the last empty line is kept, if that lies in bytes beyond half the runes, and nothing otherwise |
| Boundary.BlockAtTarget | internal/kb/parse.go:62-86 | A block that reaches the target with its last line becomes the chunk of what is kept |
| Boundary.LastParagraphSurvives | internal/kb/parse.go:62-86 | A document of text lines that reaches 700 runes with its last line yields exactly the text behind its last empty line, if that lies in bytes beyond half its runes and has ink, and no chunk otherwise |
| Boundary.SecondParagraphSurvives | internal/kb/parse.go:62-86 | Of two paragraphs that only together reach 700 runes the second comes out, as the only chunk, exactly when the first has more bytes than half the whole has runes |
| Losslessness.BlockLoses | internal/kb/parse.go:62-86 | From a block nothing but blanks is dropped if and only if it stays below 700 runes or is blank, provided its first ink comes early |
| Losslessness.HeadingHasEarlyInk | internal/kb/parse.go:52-60 | Under a heading it always does |
| Losslessness.LosslessExactly | internal/kb/parse.go:27-86 | Read off the document: with no oversized table, and with early first ink in long blocks without a heading, chunking is lossless if and only if no text block with ink reaches 700 runes |
| Losslessness.LateInkSurvives | internal/kb/parse.go:62-86 | The proviso is needed: a long line of white space can be dropped without loss |
| TableSplit.SplitTable | internal/kb/parse.go:88-116 | The loop computes the split defined on lists of lines |
| TableSplit.SmallTablesAreWhole | internal/kb/parse.go:89-91 | Up to 1500 runes a table is one chunk, and only then |
| TableSplit.ClosesRowExactly | internal/kb/parse.go:95-106 | A line closes a row if the tag stands in it, in any case |
| TableSplit.PartsCutEarly | internal/kb/parse.go:104-110 | No part but the last could have ended earlier |
| TableSplit.PartsConserve | internal/kb/parse.go:104-114 | From any state of the scan: parts joined are all lines up to a blank rest, none is blank, each but the last is full and ends with a closed row |
| TableSplit.RowsConserved | internal/kb/parse.go:88-116 | An oversized table keeps its rows: each chunk is the header and one part, the parts make up the lines after the header up to trailing blanks, and only the last may end inside a row |
| TableSplit.OversizedTableVanishes | internal/kb/parse.go:104-115 | It yields nothing exactly when only blank lines follow its first row |
| TableSplit.UnclosedTableStaysWhole | internal/kb/parse.go:92-115 | One in which no line closes a row is not split: it stays one chunk of any size |
| TableSplit.TableIsSplitExactly | internal/kb/parse.go:92-115 | An oversized table is split if and only if some line after its first row closes a row, reaches the target size together with the header, and is followed by more than blanks |
| Outlines.OutlineIsOpen | internal/kb/parse.go:118-133 | The reference outline holds exactly the headings after which only deeper ones came |
| Outlines.StackAtMostSix | internal/kb/parse.go:53-57 | The trail never has more than six entries |
| Outlines.TrailIsOutline | internal/kb/parse.go:53-57 | The trail is the outline after every heading if and only if no cut leaves a heading of the same or a deeper level on it |
| Outlines.UnskippedTrail | internal/kb/parse.go:53-57 | When levels are not skipped the trail has one entry per depth, each the last heading of that depth with nothing shallower after it |
| Outlines.SkippedLevelsNest | internal/kb/parse.go:53-57 | When they are, the second of two siblings becomes a child of the first |
| QueryTerms.SplitQueryTerms | internal/kb/parse.go:159-205 | The scan with two buffers and a seen set returns the deduplicated terms of the maximal runs |
| QueryTerms.TermsAreRunTerms | internal/kb/parse.go:155-205 | A term is returned exactly if it is a term of some maximal run; none twice; in the order of first occurrence |
| QueryTerms.TermsOfRun | internal/kb/parse.go:170-187 | A word comes in lower case, a CJK run of up to four characters whole, a longer one as exactly its adjacent pairs in order |
| QueryTerms.TermsExactly | internal/kb/parse.go:155-205 | So a term is returned exactly if it is one of these for some maximal run of the query |
| QueryTerms.KindsAtTheBounds | internal/kb/parse.go:207-210 | The first and last characters of the CJK and word ranges, and their neighbours |
| QueryTerms.DedupStable | internal/kb/parse.go:162-167 | Deduplication has no repetitions and what a prefix contributes comes first |
| QueryTerms.TermsCover | internal/kb/parse.go:177-188 | Every CJK character of the query, and every word character up to case, lies in some term |
| QueryTerms.TermsAtMost | internal/kb/parse.go:159-205 | A query has at most as many terms as characters |
| RankFusion.InsertionSort | internal/kb/rank.go:46-50 | The in-place sort by exchanges leaves exactly the functional insertion sort of what was there |
| RankFusion.SortIsStable | internal/kb/rank.go:46-50 | That sort is descending, and the entries of every score keep their order: a stable rearrangement |
| RankFusion.StableSortIsUnique | internal/kb/rank.go:46-50 | There is only one stable descending rearrangement |
| RankFusion.ScoreOf | internal/kb/rank.go:13-40 | The loops compute the score: per term, weight doubling with length, occurrences, early-position boost, capped density, or half a point for the section |
| RankFusion.TermScoreIsWorth | internal/kb/rank.go:21-40 | In numbers: a term of k runes standing at n places, leftmost without overlap, in r runes is worth 2^(k-1) n, times 1.15 if the first place lies, in bytes, before r/4, times one plus the lesser of nk/r and 0.3; half a point if it is only in the section; nothing otherwise |
| TermWorth.LeftmostUnique | internal/kb/rank.go:22-38 | The places are determined by text and term |
| TermWorth.WorthUnique | internal/kb/rank.go:21-40 | So a term is worth one number |
| TermWorth.OneRuneLongerDoubles | internal/kb/rank.go:28-39 | At equal number of places, position class and density, one more rune doubles the worth |
| RankFusion.ScoresUnique | internal/kb/rank.go:20-40 | Scores add over the terms, and a chunk has one score |
| RankFusion.ScoresIffHit | internal/kb/rank.go:21-41 | A chunk has a positive score exactly when some term occurs in its text, or in lower case in its section |
| RankFusion.RankScores | internal/kb/rank.go:9-52 | Best first, and holding exactly the candidates whose worths sum to a positive number, with that number |
| RankFusion.RankingIsHits | internal/kb/rank.go:9-52 | The ranking holds exactly the candidates some term hits, best first, ties in candidate order |
| RankFusion.FuseRRF | internal/kb/rank.go:62-102 | For every order in which a map yields its entries: each id of either list once, its first chunk, in descending total; or one list unchanged at the two ends of the weight |
| RankFusion.Consensus | internal/kb/rank.go:70-102 | A chunk ranked above another in every list that holds the other comes strictly before it, at every weight, for lists that name no id twice |
| RankFusion.RepetitionsBreakConsensus | internal/kb/rank.go:79-89 | A list that names a chunk twice scores it twice, and then consensus fails |
| RankFusion.HalfWeight | internal/kb/rank.go:70-102 | At weight one half ranks i and j in both lists beat rank k in one when both are below 60 + 2k, lose when both are above; in all cases the winner is decided by comparing (120+i+j)(60+k) with (60+i)(60+j), with a tie in total exactly at equality; so rank 61 in both beats every chunk found once |
| UsageLedger.UsageServer.ReportUsage | internal/usage/server.go:51-81 | The two writes, either of which may fail: event appended, row of the day and user upserted with the sums |
| UsageLedger.RollupRows | internal/usage/server.go:51-81 | After any sequence of reports each row of the rollup is the fold of the completed reports dated to it, is there exactly if there is one, and no key has two rows |
| UsageLedger.RowColumnsAreSums | internal/usage/server.go:65-78 | Column by column: input, output, all four kinds of tokens, cost and number of the completed reports of that day and user |
| UsageLedger.DayIsUtc | internal/usage/server.go:52-55 | The day is the UTC day of the report, or of its arrival if it has no time |
| UsageLedger.SpendIsCharged | internal/usage/server.go:101-107 | What the quota check compares is the cost of the completed reports of the user dated to the month |
| UsageLedger.RollupSums | internal/usage/server.go:101-107 | The rows of any period, a month for one user in particular, sum to the completed reports dated into it |
| UsageLedger.RollupAgainstEvents | internal/usage/server.go:51-81 | A user's rollup and raw events differ by exactly the half-written reports |
| UsageLedger.RollupAgreesExactly | internal/usage/server.go:51-81 | They agree in every column if and only if no report of the user was left half-written |
| UsageLedger.UsageServer.CheckQuota | internal/usage/server.go:118-127 | Allowed exactly when the month spend is below the limit; a failed read counts as nothing spent or as no quota set |
| UsageLedger.UsageServer.SetQuota | internal/usage/server.go:129-142 | Only an admin changes a limit, a limit of zero or less restores the default, nobody else is affected |
| UsageLedger.UsageServer.GetTaskUsage | internal/usage/server.go:352-378 | Totals are the sums over the task's events, the rows returned sum to the totals, and each row is the sum of its model's events |
| UsageLedger.TaskRowsSum | internal/usage/server.go:354-362 | Grouping by model loses nothing: rows sum to the events, one row exactly per model that has events |
| UsageLedger.ColumnsAreSums | internal/usage/server.go:354-374 | Every column is the sum of its field, and the total counts all four kinds of tokens |
| QuotaGate.SoundAnswer | internal/task/usage_adapter.go:46-56 | When the service answers and its reads succeed, the gate lets a turn begin exactly if the month spend is below the limit |
| QuotaGate.StepKeepsInv | internal/task/server.go:417-421 | Month spend plus what the turns in flight may still report stays below the bound at every begin, report, end, month change and limit change; a begin on a failed check raises the bound by C |
| QuotaGate.BoundedOvershoot | internal/task/usage_adapter.go:46-56 | In every run with at most n turns of a user in flight, each reporting at most C, limits never above m, and f turns begun on a check that got no answer or failed to read, the month spend stays below m + (n + f) C, whatever others do and whichever reports fail |
| QuotaGate.FreshStart | internal/usage/server.go:101-127 | The same from an empty ledger |
| QuotaGate.OvershootIsSharp | internal/usage/server.go:101-127 | No smaller bound holds: from any spend below the limit there is a run with f failed checks that adds exactly (n + f) C |
| Csv.AuditExport | internal/gateway/usage.go:195-203 | The loop writes the header and one line per record |
| Csv.ReadsField | internal/gateway/usage.go:126-131 | A reader following section 2 of RFC 4180 gets any field back from its escaped form, whatever follows |
| Csv.QuotesOnlyWhereNeeded | internal/gateway/usage.go:126-131 | A field without comma, quote or line feed is written as it is, any other is enclosed in quotes |
| Csv.ReadsRow | internal/gateway/usage.go:199-203 | A row of any fields is read back as those fields |
| Csv.RoundTrip | internal/gateway/usage.go:195-203 | Reading an export gives the six column names and exactly the records written, each field under its name, for all contents |
| Csv.ExportInjective | internal/gateway/usage.go:195-203 | Different logs have different exports |
| Scopes.EffectiveScope | internal/caps/scope.go:18-37 | The search with early return decides visibility: no scopes, or one that grants |
| Scopes.GrantsExactly | internal/caps/scope.go:22-35 | Whom one scope admits: "all" everyone, a department or role whoever has that one and has one, any other kind nobody |
| Scopes.NormalizeScopes | internal/caps/scope.go:41-70 | The result is in normal form: exactly the surviving scopes, each once, in ascending order |
| Scopes.SurvivesExactly | internal/caps/scope.go:44-58 | What survives, by the trimmed kind and value: all without its value, departments and roles with one |
| Scopes.LessExactly | internal/caps/scope.go:64-69 | The order is by kind and then by value |
| Scopes.NormalFormIsCanonical | internal/caps/scope.go:39-70 | Two submissions have the same normal form if and only if the same scopes survive |
| Scopes.NormalTwice | internal/caps/scope.go:39-70 | Normalising is idempotent |
| Scopes.NormalIsDistinct | internal/caps/store.go:56-62 | A normal form never violates the primary key it is stored under |
| Scopes.ScopeStore.SetScopes | internal/caps/store.go:52-64 | Replaces exactly the rows of one capability; stopped at any statement it leaves a prefix, and it succeeds exactly if all statements are accepted and no row repeats |
| Scopes.ScopeStore.ScopesFor | internal/caps/store.go:66-82 | Groups exactly the stored scopes by capability, in whatever order the rows come |
| Scopes.VisibilityPreserved | internal/caps/store.go:52-82 | After normalising, storing and reading back in any order visibility is that of the trimmed submission for all departments and roles, if and only if nothing was submitted or something survives; otherwise everyone sees the capability |
| Scopes.InterruptedStore | internal/caps/store.go:53-62 | A store stopped before its first row opens the capability to everyone, one stopped later only narrows it |
| Scopes.EffectiveCaps | internal/caps/store.go:222-236 | Of both kinds exactly the enabled and visible capabilities, in their order and with their repetitions |
| Scopes.SelectedMembers | internal/caps/store.go:220-236 | A capability is resolved for a user exactly if it is listed, enabled and visible to them |
| Router.PickTier | internal/task/router.go:263-289 | Found exactly if the tier has a candidate; the strong one costs at least as much as every strong candidate, the weak one at most as much as every weak candidate, and among equal costs its "provider/id" comes first |
| Router.RepresentativeIsExtreme | internal/task/router.go:263-289 | To represent a tier is to be its dearest or cheapest candidate in that sense |
| Router.PickIsOrderIndependent | internal/task/router.go:263-289 | For any order of the candidates the representative has the same cost and key, and is the same one if cost and key tell candidates apart |
| Router.JevDecide | internal/task/router.go:198-217 | For any order of the labels: the most probable one, alphabetically first among equals, and its lead over the best other; an error exactly without probabilities |
| Router.DecisionIsUnique | internal/task/router.go:201-217 | There is one such decision |
| Router.MarginGateIsImplied | internal/task/router.go:117-117 | For non-negative probabilities summing to at most 1 a top of 0.8 leaves a margin of 0.6, so acceptance is the probability gate alone |
| Router.MarginGateCanDecide | internal/task/router.go:117-117 | For numbers that sum to more it is not |
| Router.Resolve | internal/task/router.go:81-124 | Unroutable exactly if both tiers are empty; the cheapest weak model on an answer "simple" of at least 0.8 with a lead of at least 0.15 from a service that was asked, or if there is no strong one; the dearest strong model otherwise; and the decision named accordingly |
| Router.RouteIsOrderIndependent | internal/task/router.go:81-124 | Decision, cost and key of the route do not depend on the order of the candidates |
| Registry.RuntimeRegistry.Register | internal/task/registry.go:32-43 | Id, record with one place, and heartbeat key are set |
| Registry.RegistrationLives | internal/task/registry.go:32-43 | Healthy for fifteen seconds, known for a day |
| Registry.RuntimeRegistry.Heartbeat | internal/task/registry.go:45-55 | The beat is renewed; the load is recorded only if the runtime was healthy before it |
| Registry.HeartbeatLives | internal/task/registry.go:45-55 | Good for fifteen seconds; load and a day for the record only if healthy before |
| Registry.RuntimeRegistry.Get | internal/task/registry.go:57-70 | The record exactly if record and heartbeat are live |
| Registry.RuntimeRegistry.List | internal/task/registry.go:73-88 | In any order, exactly the healthy registered runtimes; the others are dropped |
| Registry.RuntimeRegistry.Pick | internal/task/registry.go:91-112 | The loop over some listing computes `Choice` |
| Registry.ChoiceIsLeastLoaded | internal/task/registry.go:97-111 | None exactly if nothing qualifies; otherwise the lowest exact load, and the largest capacity among those with as many active sessions, idle ones in particular |
| Registry.PickIsLeastLoaded | internal/task/registry.go:91-112 | The same in terms of the registry: least loaded among all healthy runtimes with capacity that are not excluded |
| Registry.PickInNumbers | internal/task/registry.go:91-112 | In whole numbers: not excluded, with capacity, and by cross multiplication no more loaded than any other such runtime; none only if there is no such runtime |
| Registry.ChoiceLoadIsOrderIndependent | internal/task/registry.go:97-107 | The load chosen is the same for every order of the listing |
| Registry.TieGoesToTheFirst | internal/task/registry.go:97-107 | Under load everything listed before the chosen runtime has a strictly higher load |
| Registry.TieIgnoresActive | internal/task/registry.go:90-107 | So a tie is not broken by the number of active sessions: two listings that choose differently |
| Registry.TieBreakExactly | internal/task/registry.go:90-107 | The documented tie-break, fewer active sessions, holds for every order of the listing if and only if the least load is zero or all least loaded runtimes have as many active sessions |
| Registry.NewsIsRecorded | internal/task/registry.go:32-55 | In every run the keys hold the latest news of a runtime that has been in time |
| Registry.TimelyRuntimeIsListed | internal/task/registry.go:45-88 | A runtime that registered and beat in time is listed with the load it last reported until a time to live after that |
| Registry.SilentRuntimeMustRegister | internal/task/registry.go:73-88 | A runtime that one listing found silent is never listed again, whatever it beats, until it registers |
| Registry.LateHeartbeatKeepsOldLoad | internal/task/registry.go:45-55 | A late beat that no listing preceded revives the runtime with its old load |

## Left out

- SerialDelivery.ExactlyOnceTail: the log does not expire after seven days and the task is not deleted while streams are open; a stream lives in one process with the pipeline.
- Reconnection.ReconnectingTail: each stream is taken to be free of truncation, overflow and echo, the exact conditions of the tail theorem.
- SerialDelivery.LosslessHandoff: the synthetic status frame a stream sends after its history reuses the number after `maxSeq`; it is not persisted and not part of what the stream is said to have sent, so resuming from its number is not covered.
- Pipelines.Pipeline.Replay: entries that do not decode are not in the modelled log, and a failing read is not modelled.
- Pipelines.Pipeline.GetMessages: who may read a task, and the JSON form of the messages, are left out.
- Lifecycle.TerminalConvergence: the events the service itself synthesises are always stored; `Pipelines.Pipeline.Ingest` has the failures.
- TaskServices.TaskService.SendPrompt: hosting a session on a runtime, its failover and its resume are one answer and one row update; updating a row never fails.
- TaskServices.TaskService.PushEvent: usage and tool metering and the context gauge are not part of this step.
- Lifecycle.WatchdogLatency: ticks are single steps; the abort call to the runtime has no effect on the task itself.
- Losslessness.LosslessExactly: documents with oversized tables, where the repeated header adds characters and a vanishing table takes some.
- ChunkTheorems.ChunkMarkdown: text is a sequence of Unicode scalar values, so invalid UTF-8 is not covered; lower-casing is of ASCII letters, as the tags searched for are ASCII.
- RankFusion.RankScores: rounding of the scores; lower-casing is a parameter.
- RankFusion.Consensus: lists that name an id twice; the search selects rows by their key, so such lists do not reach it.
- RankFusion.FuseRRF: rounding, so totals that tie in floating point only are not covered.
- UsageLedger.UsageServer.ReportUsage: 64-bit overflow of the counters and rounding of costs.
- UsageLedger.UsageServer.GetTaskUsage: the rows come in some order, not by descending cost, and a failing query is not modelled.
- QuotaGate.BoundedOvershoot: the cap on what a turn reports and the number of turns in flight are hypotheses; the service enforces neither.
- Csv.RoundTrip: the timestamp is rendered text without commas, quotes or line feeds; carriage returns are ordinary characters to the reader.
- Scopes.ScopeStore.SetScopes: updating and deleting the capability's own row.
- Router.Resolve: reading the model file, the HTTP call and the wording of the reason.
- Registry.RuntimeRegistry.List: a failing read of the id set, and other calls between two reads of one listing; JSON records are always well formed.
- Titles are cut at 80 characters instead of 80 bytes.
- The usage export leaves some fields unescaped and is not modelled.
- Authentication, user administration, artifacts, skill uploads, the agent runtimes, the web interface and deployment.
- The summary and listing queries GetUsageSummary, GetMyUsage and ListAuditLogs are not modelled.
