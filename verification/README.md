# Verified model of the admin shim's stateful cores

The admin shim sits between mobile and desktop clients and long-running agents. Under its HTTP and socket plumbing lie a
dozen small algorithms that keep state and make promises about order, replay, repair or equivalence. This project models
them in Dafny 4.11 and proves those promises. `dafny verify dfyconfig.toml` checks everything.

Each algorithm has a pure module that defines the state, its steps and what a run of steps leaves, with the theorems
about all runs, and most have a second module with the code in the shim's own form: a class whose fields are the
program's variables and whose methods and loops are proved to take exactly the steps of the pure module. The modules named
`...Meaning`, and `RunEnding`, say what those steps do in terms of requests, records, texts and times alone, without
naming the functions that compute it.

| area | theory | code in place |
|---|---|---|
| conversation cursors, replay log, resume | `ReplayLog`, `ConversationCursors`, `CursorMeaning` | `CursorService` |
| splitting a stream at interface tags | `StreamSplitter` (functions and lemmas) | `StreamSplitter.Splitter` |
| repairing transcripts | `Transcript`, `TranscriptHealing`, `HealingProperties`, `HealingAgain`, `HealingBlocks`, `HealingMeaning`, `RoleHealing` | `Healer`, `RoleHealing` |
| run frame log, replay plus live tail | `RunFrameLog`, `RunDelivery`, `RunSafety`, `RunDisorder`, `RunEnding` | `RunHub` |
| coalescing streams and chat replies | `StreamCoalescing`, `ChatCoalescing` | `Coalescer`, `ChatCoalescing.ChatStream` |
| search index | `SearchIndex`, `SearchMeaning` | `SearchIndexer` |
| schedules and the scheduler | `CronText`, `CronIntervals`, `CronScheduling`, `CronSafety`, `CronFires`, `CronMeaning`, `CronRestarts`, `CronRuns` | `CronScheduler` |
| approvals | `Approvals`, `ApprovalSafety`, `ApprovalMeaning` | `ApprovalDesk` |
| worker pool | `WorkerPool`, `PoolSafety`, `PoolCallers`, `PoolMeaning` | `AgentPool` |
| override limiter | `OverrideLimiter` | `OverrideTracker` |

`Basics` holds the option type and the parts of sequences that all modules share.

## Main results

- Cursors: compaction and the bounded cache are invisible; a resume never skips a frame silently, and without crashes it
  is refused exactly when some frame asked for is gone; no sequence number is used twice, even across a crash. What a
  resume answers is stated from the requests alone.
- Splitter: the output does not depend on how the input was cut into chunks.
- Healing: removed ids are gone, kept ids have exactly one result right behind their call, everything else keeps content
  and order. Healing again writes nothing exactly when no two kept ids share a record; otherwise results change places
  behind their own record only, and they are the same records exactly when those found in place were as the healer
  writes them.
- Run log: every subscription gets only lines above its cursor, none twice, by rising numbers, and nothing after done.
  A reading delivers every line above a position exactly when the numbers of those lines rise, and in a whole run the
  log is delivered whole exactly when every frame enters the file above the last line's number; then live tailing, ring,
  drain and restarts leave nothing out. Two places in the program break that. Whoever listens when a run ends is told.
- Coalescers: buffered forms equal plain folds; text is conserved per key; the streaming and the non-streaming chat reply
  show the same bubbles exactly when no chunk straddles a stop or usage frame.
- Search: an incremental update equals a full rebuild exactly when every source it leaves alone kept its rows.
- Cron: interval schedules keep their period for ever under an exact condition; over restarts and edits at any moment,
  catch-up fires a task exactly when it missed a minute, and repeats a minute only if its turn was cut off; a one-shot
  fires at most once per activation, plus once per boot inside its running turn and per pick of it while it was not both
  active and idle. Every start of a task is a fire, a pending timer, or a row that was gone when it was read.
- Approvals: a record leaves "pending" once, a turn is released once, releases agree with the record, and a
  policy is saved exactly with an approval for the session or for ever.
- Pool: no busy worker is closed to make room or for idleness; every caller is answered once; one spawn per key.
- Limiter: any hour holds at most twice the hourly limit, and that bound is reached.

## Where the code and its comments differ

The model follows the code.

- `conversation-healer.ts:385-390` says a trailing user run is removed entirely; `415-423` keeps its last record.
- `conversation-healer.ts:271-298` strips calls from `parts` or `content` only, while `592-605` also reads `tool_calls`
  arrays, and stale synthetic results of removed ids stay. `HealingProperties.RemovedIsGone` states both exactly, and
  `CallsLiveInParts` is the hypothesis where a second healing needs it.
- `stream-coalescer.ts:209-218` says every frame leaves exactly once and in order; frames of one window that share a key
  are merged, so this holds exactly for windows without a repeated key (`StreamCoalescing.UnchangedExactlyWhenDistinct`).
- `mobile-conversation-cursors.ts:299` slices with minus the maximum, so a maximum of 0 would keep every frame; the model
  does the same and the results hold for 0 as well.
- `search.ts:540-584` promises that stale results are never served; a conversation removed while another one advances is
  a counterexample (`SearchIndex.RemovedConversationStays`).
- `cron-scheduler.ts:295-298` calls the catch-up window open on both sides; the code includes its start (`328-364`).
- `crons.ts:645-648` accepts any number of hours, but a step that does not divide 24 starts again at midnight
  (`CronIntervals.HourStepIsExactExactly`), and `698-700` counts days on the day of the month
  (`CronIntervals.DaysNeverKeepPeriod`).
- `crons.ts:746-751` accepts fields that `756-772` never matches or only half reads (`CronText.PrintedMeans`).
- `cron-scheduler.ts:299-300` says a missed minute is caught up once, and only if the task has not fired since; the row is
  written only after the awaited turn (`246-265`), so a restart or another pick inside the turn fires the task again
  (`CronRuns.BrokenOneShotFiresTwice`, `CronRuns.CatchUpRepeatsABrokenMinute`); and the catch-up pass works from rows read
  at its start (`325`), so it fires a one-shot that has fired, or was disabled or deleted, since then
  (`CronRuns.CatchUpFiresAnEndedOneShot`).
- `restart-finalizer.ts:119-150` appends to the file of a run whose handle is alive, which `runs.ts:901-909` is not meant
  for: the handle repeats the line numbers (`RunDisorder.ShutdownLosesALine`).
- `mobile-channel-host.ts:738-795` numbers synthesized tool results from 900001 so that replay has them, and `808-821` then
  appends the last frames under small numbers, which replay skips (`RunDisorder.SynthesizedHidesTheTail`).
- `permissions.ts:670-693` says a limit of zero disables the limit; it disables overrides
  (`OverrideLimiter.ZeroAllowsNothing`).

## Model

| member | source | states |
|---|---|---|
| ReplayLog.ReplayableIsAliveSuffix | admin-shim/lib/mobile-conversation-cursors.ts:264-300 | Reading the log in assignment order (expired and acked entries skipped, sorted by sequence, last N kept) yields a suffix-shaped selection: exactly the entries from some point on that are alive. |
| ReplayLog.DeadStaysDead | admin-shim/lib/mobile-conversation-cursors.ts:264-300 | An entry that is expired, acked or pushed beyond the last N stays so under any later appends, acks and clock readings. |
| ReplayLog.SameReplay | admin-shim/lib/mobile-conversation-cursors.ts:264-328 | If a log lacks only dead entries of the full history, reading it gives the same frames as reading the full history. |
| ReplayLog.SortSorts | admin-shim/lib/mobile-conversation-cursors.ts:299 | The sort of a read gives the same entries by sequence number and leaves those of one number in order. |
| ConversationCursors.HistoryOrdered | admin-shim/lib/mobile-conversation-cursors.ts:83-104 | The frames of a conversation carry strictly increasing sequence numbers and non-decreasing times, none above the last assigned. |
| ConversationCursors.RunIsFaithful | admin-shim/lib/mobile-conversation-cursors.ts:209-328 | After every run of stamps, acks, resumes, compactions and crashes, the sidecar on disk holds the numbers assigned and acked, and the log on disk lacks only dead entries of the full history. |
| ConversationCursors.RepliesAreIdeal | admin-shim/lib/mobile-conversation-cursors.ts:83-158 | Every reply of the service is the reply computed from the full history that is never compacted. |
| ConversationCursors.CompactionIsInvisible | admin-shim/lib/mobile-conversation-cursors.ts:309-328 | Two runs with the same requests that differ only in whether and when compaction ran give the same reply to every request. |
| ConversationCursors.ResumeNeverSkips | admin-shim/lib/mobile-conversation-cursors.ts:125-144 | An ok resume carries exactly the frames logged above the requested sequence number, in order, once each, crashes between sidecar write and append included. |
| ConversationCursors.SequencesAreDense | admin-shim/lib/mobile-conversation-cursors.ts:83-104 | Without crashes each conversation is numbered 1, 2, 3, ... with no gap, whatever the interleaving with other conversations. |
| ConversationCursors.ResumeIsExact | admin-shim/lib/mobile-conversation-cursors.ts:125-144 | Without crashes an ok resume carries exactly afterSeq+1 to lastSeq, one frame each. |
| ConversationCursors.ResumeRefusedExactly | admin-shim/lib/mobile-conversation-cursors.ts:125-144 | Without crashes cursorExpired is answered if and only if some frame above the requested number is no longer replayable. |
| ConversationCursors.EmittedSeqsIncrease | admin-shim/lib/mobile-conversation-cursors.ts:83-104 | Any two frames emitted for a conversation have strictly increasing sequence numbers, across crashes: none is used twice. |
| CursorMeaning.ResumeMeans | admin-shim/lib/mobile-conversation-cursors.ts:125-144 | The whole of resume in terms of the requests alone: the number asked for is taken down to a whole one; the reply gives the number of frames and the oldest available; it is ok if and only if the caller has them all or the next frame is neither acknowledged, expired nor beyond the newest; and then it carries every later frame as stamped, in order, marked as replayed. |
| CursorMeaning.ResumeAfterWhole | admin-shim/lib/mobile-conversation-cursors.ts:179-182 | An ok reply to a resume after a whole number n carries exactly the frames from n+1 on. |
| CursorMeaning.ResumeTakesTheNumber | admin-shim/lib/mobile-conversation-cursors.ts:126-126 | Crashes or not, the number answered is the floor of a finite, non-negative number asked for and 0 of any other. |
| CursorMeaning.AckedMeans | admin-shim/lib/mobile-conversation-cursors.ts:146-158 | After every run the recorded ack reaches a number if and only if that is 0 or some ack request of the run reached it. |
| CursorMeaning.AckAnswers | admin-shim/lib/mobile-conversation-cursors.ts:146-158 | Every ack is answered with the frames assigned by then and with the numbers acknowledged, this request included. |
| CursorMeaning.StampEmits | admin-shim/lib/mobile-conversation-cursors.ts:83-104 | A stamp emits the frame itself under the next number. |
| CursorService.WithoutProperties | admin-shim/lib/mobile-conversation-cursors.ts:160-177 | Deleting a key from the recency order drops only that key and closes the gap it leaves, so the others keep their order. |
| CursorService.Cursors.GetState | admin-shim/lib/mobile-conversation-cursors.ts:160-177 | The cached or reloaded state equals the sidecar on disk, the key becomes the most recent, and the cache stays within its bound. |
| CursorService.Cursors.EvictOverCap | admin-shim/lib/mobile-conversation-cursors.ts:160-177 | Evicting the oldest keys brings the cache within its bound and loses nothing that is not on disk. |
| CursorService.Cursors.ReadReplayFrames | admin-shim/lib/mobile-conversation-cursors.ts:264-300 | The read loop returns exactly the replayable entries of the log. |
| CursorService.Cursors.MaybeCompactReplayLog | admin-shim/lib/mobile-conversation-cursors.ts:309-328 | Compaction rewrites the log to its replayable entries when it was counted due, and touches nothing else. |
| CursorService.Cursors.StampConversationFrame | admin-shim/lib/mobile-conversation-cursors.ts:83-104 | A stamp takes the step of the reference machine: sidecar first, then append, then possible compaction, and returns the stamped frame. |
| CursorService.Cursors.AckConversation | admin-shim/lib/mobile-conversation-cursors.ts:146-158 | An ack takes the step of the reference machine: the recorded ack never goes back. |
| CursorService.Cursors.ResumeConversation | admin-shim/lib/mobile-conversation-cursors.ts:125-144 | A resume changes nothing on disk and returns the reference answer. |
| CursorService.Cursors.StampAndDie | admin-shim/lib/mobile-conversation-cursors.ts:83-104 | A crash between the sidecar write and the append leaves the disk of the reference machine: the number is spent, the frame lost. |
| CursorService.Cursors.ResetCache | admin-shim/lib/mobile-conversation-cursors.ts:332-334 | Emptying the cache changes nothing but memory. |
| StreamSplitter.LongestSuffixPrefix | admin-shim/lib/a2ui-stream-splitter.ts:103-109 | The counting loop returns the length of the longest suffix of the text that is a proper prefix of the tag. |
| StreamSplitter.WithheldIsTagPrefix | admin-shim/lib/a2ui-stream-splitter.ts:135-185 | What is held back is always a proper prefix of the tag awaited. |
| StreamSplitter.ScanContinues | admin-shim/lib/a2ui-stream-splitter.ts:135-185 | Scanning two pieces one after the other, with the held-back tail carried over, gives what scanning them as one piece gives. |
| StreamSplitter.ScanIsBatch | admin-shim/lib/a2ui-stream-splitter.ts:135-203 | The incremental scan of a whole input, once flushed, equals the one-pass batch splitter: text, blocks and the unclosed flag. |
| StreamSplitter.ChunkIndependence | admin-shim/lib/a2ui-stream-splitter.ts:135-203 | For every cutting of an input into chunks, all text, the raw blocks in order and the unclosed flag equal those of the batch splitter on the joined input. |
| StreamSplitter.SameInputSameOutput | admin-shim/lib/a2ui-stream-splitter.ts:135-203 | Two cuttings of the same input give the same output. |
| StreamSplitter.BatchLosesNothing | admin-shim/lib/a2ui-stream-splitter.ts:135-203 | For every input, closed or not: it is the text pieces and blocks of the batch splitter put back together with their tags, and an open tag first begins at the end of each piece but the last, a close tag at the end of each block, and neither in what follows, so nothing is lost and no tag is missed. |
| StreamSplitter.TidySplitIsBatch | admin-shim/lib/a2ui-stream-splitter.ts:135-203 | An input has only one such split: whatever reassembles to the input with no tag inside pieces and blocks is what the batch splitter returns. |
| StreamSplitter.Splitter.Feed | admin-shim/lib/a2ui-stream-splitter.ts:135-185 | Feeding a chunk returns the text and blocks that the reference scan adds for it. |
| StreamSplitter.Splitter.Drain | admin-shim/lib/a2ui-stream-splitter.ts:140-184 | The loop of feed consumes the pending text tag by tag and leaves the held-back tail. |
| StreamSplitter.Splitter.Flush | admin-shim/lib/a2ui-stream-splitter.ts:187-203 | Flushing returns the withheld text, or reports an unclosed block, and the whole output is that of the batch splitter. |
| Transcript.SoleSiteExactly | admin-shim/lib/conversation-healer.ts:255-256 | A record index is the only site of an id exactly when it matches and no other does. |
| HealingMeaning.ResultsAreToldApart | admin-shim/lib/conversation-healer.ts:636-639 | A tool result counts as synthetic if and only if its record id is "heal-" or "synth-settle:" and anything, or contains ":heal-tool-result:"; with any other id, or none, it is a real result. |
| HealingMeaning.CallsAreFound | admin-shim/lib/conversation-healer.ts:587-605 | A record makes a call if and only if it is an assistant record with a call of that id among its parts or in a call array. |
| HealingMeaning.FateMeans | admin-shim/lib/conversation-healer.ts:244-258 | What becomes of an id, in terms of the records alone: never called, really answered, answered in place by the one synthetic result behind the last call, or to be settled. |
| HealingMeaning.ReportMeans | admin-shim/lib/conversation-healer.ts:244-258 | The three lists of the report in the same terms. |
| HealingMeaning.MachineMadeResultsDoNotRemove | admin-shim/lib/conversation-healer.ts:235-252 | An id all of whose results are synthetic is never removed. |
| HealingMeaning.SettledTwoRecordsStay | admin-shim/lib/conversation-healer.ts:250-262 | A call with one synthetic result right behind it comes back unchanged, whatever the ids. |
| HealingMeaning.SettlementStays | admin-shim/lib/conversation-healer.ts:636-639 | So does one settled at the end of its turn, whose result has an id starting with "synth-settle:". |
| HealingMeaning.DroppedMeans | admin-shim/lib/conversation-healer.ts:299-309 | A record is dropped if and only if it is a real result of an id that is called and really answered, or a synthetic one of an id to be settled. |
| HealingMeaning.SurvivorReads | admin-shim/lib/conversation-healer.ts:271-298 | Every other record comes back as it was, but that in assistant records each call of a removed id has become a note with its name and id. |
| HealingMeaning.NameMeans | admin-shim/lib/conversation-healer.ts:607-622 | The name of a call is that of the first named part with its id, else of the first named array entry, else unknown. |
| HealingMeaning.SettledResultReads | admin-shim/lib/conversation-healer.ts:311-348 | The result of a settled id stands alone at its place and reads: this id, the text of an interrupted call, the name of the call, the time, and a record id made of the parent and the id. |
| TranscriptHealing.SelectMembers | admin-shim/lib/conversation-healer.ts:244-258 | The ids of one fate are those requested ids that have it, in request order. |
| TranscriptHealing.FateFacts | admin-shim/lib/conversation-healer.ts:244-258 | What each fate says about the sites of an id in the transcript. |
| TranscriptHealing.Layout | admin-shim/lib/conversation-healer.ts:350-356 | A surviving record is followed by exactly its synthetic results and then by the next surviving record: the others keep content and order. |
| TranscriptHealing.Origin | admin-shim/lib/conversation-healer.ts:350-356 | Every record of the healed transcript is an old one or stands in the block behind one. |
| TranscriptHealing.StripMatches | admin-shim/lib/conversation-healer.ts:271-298 | Stripping calls changes only whether a record declares the stripped ids through its parts. |
| TranscriptHealing.SynthMatches | admin-shim/lib/conversation-healer.ts:317-348 | An inserted record is a synthetic result for its id and matches nothing else. |
| HealingProperties.RemovedIsGone | admin-shim/lib/conversation-healer.ts:269-302 | A removed id has no real result left; its calls are gone exactly if no call array lists it, and its stale synthetic results exactly if it had none. |
| HealingProperties.ParentAfter | admin-shim/lib/conversation-healer.ts:254-257 | The last record declaring a kept id survives and is still the last one declaring it. |
| HealingProperties.KeptHasOneResult | admin-shim/lib/conversation-healer.ts:304-356 | A kept id has exactly one result, a synthetic one, at its place behind the last record declaring it. |
| HealingProperties.BlockIsContiguous | admin-shim/lib/conversation-healer.ts:311-356 | Everything between a declaring record and a kept id's result is a synthetic result for an id with that same parent. |
| HealingProperties.HealLength | admin-shim/lib/conversation-healer.ts:358-360 | New length = old length - records removed + results inserted. |
| HealingProperties.FateAfter | admin-shim/lib/conversation-healer.ts:244-258 | What a second healing makes of each id: a kept one is in place if first behind its parent and settled otherwise, any other is unresolved. |
| HealingProperties.NothingRemovedTwice | admin-shim/lib/conversation-healer.ts:269-309 | A second healing removes no id. |
| HealingProperties.SecondHealing | admin-shim/lib/conversation-healer.ts:244-262 | A second healing writes nothing if and only if no two kept ids share their declaring record. |
| HealingProperties.SettlingMovesOnlyResults | admin-shim/lib/conversation-healer.ts:304-356 | When nothing is removed, healing changes only the synthetic results of the settled ids. |
| HealingProperties.InsertedRecord | admin-shim/lib/conversation-healer.ts:311-348 | The record at a settled id's place is the synthetic result built from its parent. |
| HealingAgain.SecondHealingKeepsTheRest | admin-shim/lib/conversation-healer.ts:304-356 | A second healing, at any clock, leaves every record that is not a result of a re-settled id as it is and in order. |
| HealingAgain.SecondResultIs | admin-shim/lib/conversation-healer.ts:304-348 | The record a second healing inserts for a re-settled id is the synthetic result built from the parent as the first healing left it, at its place behind that parent. |
| HealingAgain.SecondHealingPermutesExactly | admin-shim/lib/conversation-healer.ts:244-360 | With the same ids and clock, a second healing permutes the records if and only if every result found in place the first time, behind a record where others were inserted, was to the letter the one the healer writes; otherwise it is replaced. |
| HealingAgain.SecondHealingReplaces | admin-shim/lib/conversation-healer.ts:244-360 | A transcript where that happens: two calls in one record, the older result of the first in place. |
| HealingBlocks.SecondHealingStaysInBlocks | admin-shim/lib/conversation-healer.ts:311-356 | A second healing, at any clock, keeps the length, and every position keeps its record or changes one result for the result of an id with the same parent. |
| HealingBlocks.ResettledBehind | admin-shim/lib/conversation-healer.ts:244-262 | The ids a second healing re-settles behind a record are those whose results stand there, but the first. |
| Healer.IndexSites | admin-shim/lib/conversation-healer.ts:222-242 | The indexing pass finds exactly the call, real-result and stale-result sites of every requested id. |
| Healer.Classify | admin-shim/lib/conversation-healer.ts:244-258 | The classification loop computes the removed, settled and unresolved ids. |
| Healer.StripCalls | admin-shim/lib/conversation-healer.ts:265-298 | The editing loops strip the removed ids from every record and report exactly the records touched. |
| Healer.TouchedIsChanged | admin-shim/lib/conversation-healer.ts:293-296 | The records reported as edited are exactly those that stripping changes. |
| Healer.CollectRemoved | admin-shim/lib/conversation-healer.ts:299-309 | The removal set is exactly the set of dropped record indices. |
| Healer.BuildBlocks | admin-shim/lib/conversation-healer.ts:311-348 | The buckets hold each parent's synthetic results in order. |
| Healer.Materialize | admin-shim/lib/conversation-healer.ts:350-360 | The final loop writes the woven transcript and counts the insertions. |
| Healer.HealConversation | admin-shim/lib/conversation-healer.ts:202-380 | The whole healing returns the reference transcript and a report whose lists and counts are exact. |
| RoleHealing.RolesAreHealed | admin-shim/lib/conversation-healer.ts:392-471 | With a non-user record present: no two adjacent user records remain, exactly the last record of each user run and every non-user record are kept in order, and detection on the result is empty. |
| RoleHealing.DetectConsecutiveUserMessageIndices | admin-shim/lib/conversation-healer.ts:392-426 | The run loop returns the redundant indices in ascending order. |
| RoleHealing.HealConsecutiveUserMessages | admin-shim/lib/conversation-healer.ts:431-471 | Filtering by those indices gives the healed transcript. |
| RunFrameLog.RisesExactly | admin-shim/lib/runs.ts:854-932 | Over every interleaving the numbers of the log rise if and only if every frame entered the file above the number of the last line. |
| RunFrameLog.NumberedExactly | admin-shim/lib/runs.ts:854-932 | The lines carry their line numbers if and only if no frame is appended through a handle behind its file and none under a number of its own; then they rise. |
| RunFrameLog.NotBehind | admin-shim/lib/runs.ts:902-932 | That is so if frames are written past a handle only when there is none, and none under a number of its own. |
| RunDelivery.ReadIsWholeExactly | admin-shim/lib/mobile-channel-host.ts:1081-1106 | For any log and position: a reading delivers every line above the position if and only if the numbers of those lines rise. |
| RunDelivery.SubscribeIsWholeExactly | admin-shim/lib/mobile-channel-host.ts:1144-1155 | A new subscription gets every line above its cursor at once exactly then, whatever happened before, unless the user had stopped the run. |
| RunDelivery.DrainIsWholeExactly | admin-shim/lib/mobile-channel-host.ts:1181-1187 | The last reading at the end of a drain makes a subscription done, with every line above its position exactly then. |
| RunDelivery.WatchIsWholeExactly | admin-shim/lib/mobile-channel-host.ts:1214-1226 | So does a change of a watched file. |
| RunDelivery.WholeLogExactly | admin-shim/lib/mobile-channel-host.ts:1056-1155 | In every run that the user has not stopped: who subscribes from the beginning gets the whole log if and only if every frame entered the file above the number of the last line, and then so does everyone from any cursor. |
| RunSafety.RingBridges | admin-shim/lib/mobile-channel-host.ts:1199-1205 | The ring entries above a cursor are the missing tail of the handle's lines, unless the ring has shifted past it, which its oldest entry shows. |
| RunSafety.BridgeIsComplete | admin-shim/lib/mobile-channel-host.ts:1194-1208 | Filling a gap from disk and the rest from the ring brings a subscription at least to the handle's count, with nothing left out. |
| RunSafety.StepKeeps | admin-shim/lib/runs.ts:854-932 | Every step that puts a frame into the file only above the number of the last line keeps the numbers rising, the ring equal to the newest lines of the handle and every subscription without gaps. |
| RunSafety.DeliveredExactlyOnce | admin-shim/lib/mobile-channel-host.ts:1056-1211 | Over every interleaving, restarts included, in which frames enter the file by rising numbers: the lines above a cursor are those delivered, in order and once each, and then those above the position; while listening all of the handle's are delivered, and all of the file if no line is ahead of the handle; and the ring holds the newest 256 lines of the handle. |
| RunSafety.DeliveredByLine | admin-shim/lib/mobile-channel-host.ts:1056-1211 | If every frame enters under its line number, those are exactly the lines from the cursor to the position. |
| RunSafety.DoneIsComplete | admin-shim/lib/mobile-channel-host.ts:1167-1187 | In every run by rising numbers the step that reports done has delivered every line above the cursor. |
| RunSafety.DoneAtOnce | admin-shim/lib/mobile-channel-host.ts:1144-1152 | In every such run a subscription done at once got every line above its cursor, or nothing because the user had stopped the run. |
| RunDisorder.NothingAfterDone | admin-shim/lib/mobile-channel-host.ts:1124-1139 | In every run whatsoever nothing delivered is taken back, done is reported at most once and nothing follows it. |
| RunDisorder.EveryRunClimbs | admin-shim/lib/mobile-channel-host.ts:1081-1106 | In every run whatsoever a subscription gets only lines of the log above its cursor, by rising numbers, so none twice. |
| RunDisorder.ShutdownLosesALine | admin-shim/lib/restart-finalizer.ts:106-153 | The shutdown finalizer writes past live handles: a late frame repeats a line number, and a subscriber told it is done there never got that line. |
| RunDisorder.SynthesizedHidesTheTail | admin-shim/lib/mobile-channel-host.ts:738-825 | Tool results the host synthesizes are numbered from 900001 before the stop and usage frames are appended: a subscriber that comes later is told it is done and never gets those. |
| RunEnding.StatusIsFinal | admin-shim/lib/runs.ts:940-980 | In every run a run that has ended keeps its status for good. |
| RunEnding.FinalizeMeans | admin-shim/lib/runs.ts:1264-1300 | Only a live handle is finalized: it enters its grace window under the status given. |
| RunEnding.FinalizeOnDiskMeans | admin-shim/lib/runs.ts:940-980 | A run without a live handle is finalized by its record exactly if it still reads as running. |
| RunEnding.GraceMeans | admin-shim/lib/runs.ts:440-460 | The end of the grace window, and nothing else, takes the handle with its ring and its listeners. |
| RunEnding.RestartMeans | admin-shim/lib/runs.ts:484-512 | A new process has no handle and no ring, every old subscription has stopped, and the files stay. |
| RunEnding.RunDrains | admin-shim/lib/mobile-channel-host.ts:1160-1187 | In every run who listens is live, and drains, under the status of the run, exactly when it has ended. |
| RunEnding.ListenersAreTold | admin-shim/lib/runs.ts:469-478 | Whoever listens when the run is finalized is told so by its drain timer, under the status given, unless it leaves or the process ends before; and in runs by rising numbers it has then been delivered every line above its cursor, late ones included. |
| RunEnding.LatecomersAreTold | admin-shim/lib/mobile-channel-host.ts:1149-1158 | A subscription to a run that has ended is told at once, with nothing delivered if the user stopped it. |
| RunEnding.NotFoundExactly | admin-shim/lib/mobile-channel-host.ts:1061-1066 | A run is reported as not found exactly when it has no line. |
| RunEnding.AttachConnects | admin-shim/lib/mobile-channel-host.ts:1160-1211 | Attaching connects to the handle if there is one and else to the file, and reports an end that came in between. |
| RunEnding.WatchersAreTold | admin-shim/lib/mobile-channel-host.ts:1214-1226 | A watched file that changes after the end brings the news of it. |
| RunEnding.NothingAfterStop | admin-shim/lib/mobile-channel-host.ts:1125-1146 | In every run a subscription that has stopped stays as it is for good. |
| RunEnding.LeavingStops | admin-shim/lib/mobile-channel-host.ts:1125-1146 | Unsubscribing, or the end of the process, stops a subscription. |
| RunHub.Hub.AppendRunFrame | admin-shim/lib/runs.ts:854-899 | Append takes the step of the machine: number, log, ring with its bound, and fan-out; -1 when the handle is gone, and the line number while every frame enters under its own. |
| RunHub.Hub.AppendOnDisk | admin-shim/lib/runs.ts:910-932 | The frame becomes one more line of the file, numbered by the lines; ring and subscriptions know nothing of it. |
| RunHub.Hub.AppendSynthesized | admin-shim/lib/mobile-channel-host.ts:738-795 | The loop puts each synthesized result into the file under the next number from 900001. |
| RunHub.Hub.FinalizeOnDisk | admin-shim/lib/runs.ts:940-980 | A running run is finalized, through its handle if there is one and by its record otherwise; a terminal run is left alone. |
| RunHub.Hub.Restart | admin-shim/lib/runs.ts:484-512 | A new process has no handle, no ring and no subscriptions; log and status stay. |
| RunHub.Hub.SweepOnBoot | admin-shim/lib/runs.ts:991-1024 | A run without a handle that still reads as running is failed and gets two closing lines; any other is left alone. |
| RunHub.Hub.FinalizeRun | admin-shim/lib/runs.ts:469-478 | Finalizing flips the record, opens the grace window and sends the sentinel to every listener. |
| RunHub.Hub.GraceTimerFires | admin-shim/lib/runs.ts:440-460 | The end of the grace window drops ring and listeners. |
| RunHub.Hub.SubscribeToRun | admin-shim/lib/mobile-channel-host.ts:1056-1152 | The catch-up read with its terminal checks takes the step of the machine. |
| RunHub.Hub.AttachLive | admin-shim/lib/mobile-channel-host.ts:1157-1211 | Attaching, bridging from ring or disk and the last terminal check take the step of the machine. |
| RunHub.Hub.DrainTimerFires | admin-shim/lib/mobile-channel-host.ts:1181-1187 | The drain timer reads once more, reports done and stops. |
| RunHub.Hub.FileChanged | admin-shim/lib/mobile-channel-host.ts:1214-1226 | A subscription to a run without a handle, as after a restart, reads on when the file changes and checks for the end. |
| StreamCoalescing.TextConserved | admin-shim/lib/stream-coalescer.ts:169-203 | However the stream is cut into windows, the text of each message type and otid comes out complete and in order. |
| StreamCoalescing.WindowYield | admin-shim/lib/stream-coalescer.ts:237-403 | A window yields one frame per key in order of first appearance: the concatenated text, or the latest tool snapshot. |
| StreamCoalescing.UnchangedExactlyWhenDistinct | admin-shim/lib/stream-coalescer.ts:209-218 | A window leaves frame for frame if and only if no two of its frames share a key. |
| StreamCoalescing.BarrierSplits | admin-shim/lib/stream-coalescer.ts:237-337 | A frame that is not merged goes out once, after everything handled before it and before everything after it. |
| StreamCoalescing.KeyedPush | admin-shim/lib/stream-coalescer.ts:237-337 | One more keyed frame merges into its key's entry, or opens one at the end. |
| StreamCoalescing.MergeableExactly | admin-shim/lib/stream-coalescer.ts:261-312 | Frames that can be merged are exactly the assistant and reasoning frames with an otid and the tool calls with an id. |
| StreamCoalescing.SameKeyExactly | admin-shim/lib/stream-coalescer.ts:269-300 | Two of them merge exactly if they are texts of one type and otid or calls of one id. |
| StreamCoalescing.MergedTextReads | admin-shim/lib/stream-coalescer.ts:160-203 | Texts of one key read, merged, as the first of them with all their text in order, the latest date and number and, if they are reasoning, all their signatures in order. |
| StreamCoalescing.MergedToolReads | admin-shim/lib/stream-coalescer.ts:292-312 | Tool calls of one id read, merged, as the latest of them. |
| Coalescer.FindIsExact | admin-shim/lib/stream-coalescer.ts:113-127 | The two index maps point at the entry of exactly the keys that have one. |
| Coalescer.StreamCoalescer.Handle | admin-shim/lib/stream-coalescer.ts:237-337 | Handling a frame extends the current window, or flushes and forwards; the output is always the fold of the windows so far. |
| Coalescer.StreamCoalescer.FlushBucket | admin-shim/lib/stream-coalescer.ts:381-403 | A flush closes the current window, empties entries and index maps, and disarms the timer. |
| Coalescer.StreamCoalescer.TimerFires | admin-shim/lib/stream-coalescer.ts:371-379 | The timer closes the window. |
| Coalescer.StreamCoalescer.FlushAll | admin-shim/lib/stream-coalescer.ts:339-347 | Flushing everything leaves nothing pending and no timer armed. |
| Coalescer.StreamCoalescer.Dispose | admin-shim/lib/stream-coalescer.ts:349-354 | Disposing flushes what is pending first. |
| Coalescer.NoTextLost | admin-shim/lib/stream-coalescer.ts:237-403 | At any time what was put out plus what is pending is, per text key, all the text handled. |
| ChatCoalescing.CoalescedKeeps | admin-shim/lib/chat.ts:559-595 | Coalescing keeps all assistant text in order and every other frame untouched. |
| ChatCoalescing.CoalescedIsDone | admin-shim/lib/chat.ts:559-595 | Coalescing a coalesced list changes nothing, and a list is left as it is exactly when no two neighbours could be joined. |
| ChatCoalescing.ExtendReads | admin-shim/lib/chat.ts:575-587 | A joined bubble has both texts, an absent one being empty, and the id, date and number of the later frame. |
| ChatCoalescing.BodyExactly | admin-shim/lib/chat.ts:758-770 | The body of a reply is everything but stop reasons and usage. |
| ChatCoalescing.LastStopExactly | admin-shim/lib/chat.ts:758-764 | The stop reason put out is the last one. |
| ChatCoalescing.FirstUsageExactly | admin-shim/lib/chat.ts:765-769 | The usage put out is the first one. |
| ChatCoalescing.SentReads | admin-shim/lib/chat.ts:197-213 | A frame is written with all its fields but two: an id that is neither stable nor a client's is marked as passing, and its date is the start of the turn and some milliseconds by type. |
| ChatCoalescing.CoalesceAssistantFrames | admin-shim/lib/chat.ts:559-595 | The buffered coalescer equals the plain string-append fold. |
| ChatCoalescing.ChatStream.HandleFrame | admin-shim/lib/chat.ts:741-789 | After every frame, what is written and pending is the fold of the frames without stop and usage frames. |
| ChatCoalescing.ChatStream.FlushTail | admin-shim/lib/chat.ts:731-739 | In the end the written frames are the fold followed by the last stop reason and the first usage. |
| ChatCoalescing.RawCoalescing | admin-shim/lib/chat.ts:597-603 | Coalescing with stop and usage frames left in gives one extra bubble per chunk that straddles such a frame, so the same bubbles if and only if none does. |
| SearchIndex.MaxMtime | admin-shim/lib/search.ts:348-358 | The newest modification time: an upper bound that some file attains. |
| SearchIndex.AllRowsGroup | admin-shim/lib/search.ts:429-482 | The rows of a full rebuild, group by group: all block rows, and each conversation's own. |
| SearchIndex.UpdatedGroup | admin-shim/lib/search.ts:593-721 | An incremental update gives each re-indexed group the rows of a full rebuild and leaves every other group alone. |
| SearchIndex.IncrementalIsFull | admin-shim/lib/search.ts:593-721 | The incremental update leaves the multiset of rows of a full rebuild if and only if every group it does not re-index already has them. |
| SearchIndex.StaysExactExactly | admin-shim/lib/search.ts:540-584 | Stated on the sources: an exact index stays exact if and only if each source showing no newer file kept its rows. |
| SearchIndex.ForwardChangesSuffice | admin-shim/lib/search.ts:540-584 | When nothing was removed and everything altered or added has a newer file, the update is exact. |
| SearchIndex.FullRebuildCounts | admin-shim/lib/search.ts:487-538 | After a full rebuild the manifest counts the message and block rows of the table. |
| SearchIndex.IncrementalCounts | admin-shim/lib/search.ts:700-721 | The message count kept by subtraction and addition is the number of message rows, whatever changed in the sources. |
| SearchIndex.IncrementalSkipsOnlyTheCutoff | admin-shim/lib/search.ts:552-584 | An incremental plan leaves alone only sources all of whose files carry exactly the last indexed time. |
| SearchIndex.RemovedConversationStays | admin-shim/lib/search.ts:570-584 | The plan alone is not enough: removing one conversation while another advances plans an incremental update that keeps the removed rows. |
| SearchIndex.RunIsExact | admin-shim/lib/search.ts:487-721 | Over every sequence of source states whose stamps tell of their changes, the index stays exact and the manifest true. |
| SearchIndex.RunCounts | admin-shim/lib/search.ts:487-721 | Over every sequence of source states, whatever their stamps tell, the message and block counts of the manifest are those of the table. |
| SearchMeaning.BlockRowsRead | admin-shim/lib/search.ts:436-447 | One row for each block, in order, with its content. |
| SearchMeaning.ConvRowsRead | admin-shim/lib/search.ts:449-479 | A conversation has a row for its title and summary, unless empty, and one for each message with text, in order: role and type line, then the text. |
| SearchMeaning.FilesExactly | admin-shim/lib/search.ts:552-569 | The source files are those of the blocks and the one or two of each conversation. |
| SearchMeaning.PlanMeans | admin-shim/lib/search.ts:552-584 | Fresh if the files are those indexed, full if any is older than the last index or none newer or nothing is indexed, incremental otherwise. |
| SearchMeaning.ChangedMeans | admin-shim/lib/search.ts:593-640 | Blocks, or a conversation, are re-indexed exactly when one of their files is newer than the last index. |
| SearchMeaning.RunCountsRows | admin-shim/lib/search.ts:487-721 | After every run the manifest gives the numbers of message and block rows of the table. |
| SearchIndexer.CollectRows | admin-shim/lib/search.ts:429-482 | The collecting loops gather the rows and counts of a full rebuild. |
| SearchIndexer.NewestOf | admin-shim/lib/search.ts:348-358 | The loop finds the newest modification time. |
| SearchIndexer.Indexer.PlanBuild | admin-shim/lib/search.ts:552-584 | The stat-only pass returns the plan. |
| SearchIndexer.Indexer.FullRebuild | admin-shim/lib/search.ts:487-538 | Table and manifest become those of a full rebuild. |
| SearchIndexer.Indexer.ReplaceConversations | admin-shim/lib/search.ts:690-699 | Counting, deleting and inserting conversation by conversation gives the reference table and the prior count. |
| SearchIndexer.Indexer.IncrementalUpdate | admin-shim/lib/search.ts:593-721 | Table and manifest become those of the reference update. |
| SearchIndexer.Indexer.EnsureIndex | admin-shim/lib/search.ts:552-721 | Planning and then building takes one step of the run. |
| CronText.Decimal | admin-shim/lib/crons.ts:643-706 | A printed number is non-empty digits and reads back as itself. |
| CronText.ParseSigned | admin-shim/lib/crons.ts:762-771 | Digits behind a sign are read as that number, negative behind a minus, up to what does not go on with a digit. |
| CronText.NothingToParse | admin-shim/lib/crons.ts:762-771 | There is no number exactly when no digit stands first, nor behind one sign. |
| CronText.PrintedMeans | admin-shim/lib/crons.ts:753-772 | A field matches exactly the values its shape denotes; the valid shape star-dash-number matches nothing and the step of number-slash-number is not read. |
| CronText.ValidIsPrinted | admin-shim/lib/crons.ts:746-751 | Every valid field is the print of one of six shapes. |
| CronText.WordsOfText | admin-shim/lib/crons.ts:746-751 | Splitting a printed schedule gives back its five fields. |
| CronText.TextMeans | admin-shim/lib/crons.ts:823-837 | A printed schedule is valid and matches exactly the moments it means, day of month and day of week being alternatives when both are restricted. |
| CronText.ValidCronMeans | admin-shim/lib/crons.ts:746-751 | Every valid expression, however spaced, has the meaning of one schedule. |
| CronIntervals.ClosestIsNearest | admin-shim/lib/crons.ts:652-655 | The reduce finds a divisor of least distance, the first of them in a tie. |
| CronIntervals.RoundedIsNearestDivisor | admin-shim/lib/crons.ts:643-660 | A request below an hour is rounded to a divisor of 60 and none is nearer. |
| CronIntervals.MinutesAreExact | admin-shim/lib/crons.ts:643-660 | Below an hour the printed schedule is valid and matches at exact spacing on the unbounded minute line, across hours and days. |
| CronIntervals.HourStepIsExactExactly | admin-shim/lib/crons.ts:645-648 | A step of k hours is exactly spaced if and only if k divides 24. |
| CronIntervals.IntervalKeepsPeriodExactly | admin-shim/lib/crons.ts:662-702 | Every accepted interval prints a valid schedule; on every civil calendar it keeps the period asked for, as rounded, for ever if and only if the request is in hours, is one day, or rounds to less than an hour or to hours that divide 24. |
| CronIntervals.IntervalKeepsSomePeriodExactly | admin-shim/lib/crons.ts:662-702 | It is exactly spaced for ever, at whatever period, if and only if it is one of those or asked for as about a day or more in minutes or seconds, of which only midnight is left. |
| CronIntervals.HourStepKeepsSomePeriodExactly | admin-shim/lib/crons.ts:645-648 | A step of k hours is exactly spaced, at whatever period, if and only if k divides 24 or exceeds it. |
| CronIntervals.DaysNeverKeepPeriod | admin-shim/lib/crons.ts:698-700 | Two days or more, counted on the day of the month, keep no period whatever, at any phase, on any civil calendar. |
| CronIntervals.TwoDaysSlip | admin-shim/lib/crons.ts:698-700 | Every two days, for one, matches on the 30th of July, not on the 1st of August, and then on the 2nd. |
| CronIntervals.DayIntervalCanMatchExactly | admin-shim/lib/crons.ts:698-700 | An interval of several days can match some day if and only if it is at most 31. |
| CronIntervals.DateMatchesItself | admin-shim/lib/crons.ts:704-706 | The schedule of a date is valid and matches exactly the moments with its minute, hour, day and month. |
| CronScheduling.LatestMatchIsLatest | admin-shim/lib/cron-scheduler.ts:351-364 | The backward minute loop finds the latest matching whole minute of the window, or none if there is none. |
| CronScheduling.RecurringWantedExactly | admin-shim/lib/cron-scheduler.ts:348-371 | A recurring task is caught up if and only if some whole minute of the window matches and it has not fired since. |
| CronMeaning.PickedTaskStarts | admin-shim/lib/cron-scheduler.ts:230-283 | A task that a tick finds active, due, not overdue and not picked in this minute is remembered and started: by a timer if it is recurring with a positive jitter, else at once if its row is active then. |
| CronMeaning.OthersAreNotStarted | admin-shim/lib/cron-scheduler.ts:230-238 | Any other is passed over, except that an active one-shot overdue by more than the threshold is marked missed. |
| CronMeaning.StartsAreAccountedFor | admin-shim/lib/cron-scheduler.ts:238-283 | In every run, of each task: its starts in this life are its fires by ticks and timers, its pending timers, and the starts that found its row missing or inactive. |
| CronMeaning.JitteredTaskFires | admin-shim/lib/cron-scheduler.ts:273-281 | In every run a task picked with a jitter is fired by the next timer of it, whatever else happens in this life, if its row is active then. |
| CronMeaning.TimerFiresTask | admin-shim/lib/cron-scheduler.ts:241-281 | A timer fires its task if the row is active then, and is used up. |
| CronMeaning.DueMeans | admin-shim/lib/cron-scheduler.ts:160-172 | A one-shot is due from its own time and offset on, anything else in the minutes its schedule matches. |
| CronMeaning.TickSeesTheFile | admin-shim/lib/cron-scheduler.ts:182-230 | In every run a tick goes through exactly the rows active in the file when it begins, and its minute forgets the last one. |
| CronMeaning.TurnEndWrites | admin-shim/lib/cron-scheduler.ts:246-270 | At the end of a turn the row as it is then is marked fired, or counts one more fire, and the tick time is stamped; no other row changes. |
| CronMeaning.WindowMeans | admin-shim/lib/cron-scheduler.ts:310-325 | The catch-up window goes from the last tick, or the cap before now if that is later, to the start of the current minute. |
| CronMeaning.BootMeans | admin-shim/lib/cron-scheduler.ts:440-523 | A boot takes over the tick time, forgets everything but the file, and catches up only if a tick was recorded before. |
| CronMeaning.PatchMeans | admin-shim/lib/crons.ts:505-523 | An edit changes what it names of one row and nothing else. |
| CronMeaning.AddAndDeleteMean | admin-shim/lib/crons.ts:408-492 | Adding and deleting touch one row. |
| CronSafety.TicksStartOncePerMinute | admin-shim/lib/cron-scheduler.ts:210-246 | In one lifetime ticks never start a task twice in the same minute, as long as a tick visits tasks only while no later minute has begun. |
| CronSafety.TicksThatDoNotOverlap | admin-shim/lib/cron-scheduler.ts:478-500 | Ticks that begin only when those before them are through stay in their minute. |
| CronSafety.CatchUpRepeatsOnlyBrokenTurns | admin-shim/lib/cron-scheduler.ts:367-371 | Over restarts at any moment, inside running turns too: a catch-up fire for a minute that the task had fired in or after, in an earlier life, means that turn never ended. |
| CronFires.CatchUpFiresExactlyWhatWasMissed | admin-shim/lib/cron-scheduler.ts:310-391 | From every boot of every run to the next: once through, the catch-up pass has fired each task of the file exactly once if it missed its time in the window and never otherwise, whatever ticks, edits and turns came in between. |
| CronFires.CatchUpSettles | admin-shim/lib/cron-scheduler.ts:367-371 | Once a turn of this life has ended, its recurring row is not wanted for the window of this life any more. |
| CronFires.OneShotsAreAccountedFor | admin-shim/lib/cron-scheduler.ts:246-265 | In every run the one-shot fires of a task, and one more while it is active and idle, number at most its activations plus its lapses: boots inside its running turn, and picks of it while it was not both active and idle. |
| CronFires.OneShotFiresOncePerActivation | admin-shim/lib/cron-scheduler.ts:246-265 | A task fires as a one-shot no more often than it was added or enabled if no boot, tick or timer reaches it inside its running turn and the catch-up pass reaches it only while its row is active and no turn of it runs. |
| CronFires.PicksExactly | admin-shim/lib/cron-scheduler.ts:233-283 | Which steps start a task as a one-shot, in terms of what they find: ticks and timers read its row, the catch-up pass its snapshot. |
| CronFires.PickLapses | admin-shim/lib/cron-scheduler.ts:246-265 | A pick, by a pass or a timer, lapses if and only if it falls inside a running turn of the task, or is made by the catch-up pass and the row was fired, disabled or deleted since the boot. |
| CronRestarts.BootInsideATurnFiresAgain | admin-shim/lib/cron-scheduler.ts:246-265 | In any file, a boot inside the running turn of a one-shot lets the next tick, when it gets to its row, fire it again while it is still due. |
| CronRestarts.TickInsideATurnFiresAgain | admin-shim/lib/cron-scheduler.ts:210-265 | In any file, so does a tick of a later minute inside the turn, in the same process. |
| CronRestarts.CatchUpIgnoresLaterChanges | admin-shim/lib/cron-scheduler.ts:310-349 | The catch-up pass fires a wanted one-shot of its snapshot whatever became of its row. |
| CronRestarts.LateVisitRepeatsAStart | admin-shim/lib/cron-scheduler.ts:210-246 | A tick that reaches a task after a later minute began starts it again in its own, earlier minute. |
| CronRuns.BrokenOneShotFiresTwice | admin-shim/lib/cron-scheduler.ts:246-265 | A run: a one-shot added once fires twice, because the process died inside its turn. |
| CronRuns.CatchUpFiresAnEndedOneShot | admin-shim/lib/cron-scheduler.ts:310-349 | A run: a one-shot added once fires twice with no boot and no pick inside its turn, because the catch-up pass waited for another turn while a tick fired it, and then fired its snapshot. |
| CronRuns.CatchUpRepeatsABrokenMinute | admin-shim/lib/cron-scheduler.ts:351-379 | A run: catch-up fires a recurring task for the minute it had fired in, because the process died inside that turn. |
| CronRuns.RestartRepeatsTheMinute | admin-shim/lib/cron-scheduler.ts:460-478 | A run: the memory of the minute is not kept across a restart, and a task is started twice in one minute. |
| CronScheduler.Scheduler.UpdateTaskAndTickTime | admin-shim/lib/crons.ts:525-538 | The row and the tick time are written together, and only if the row is still there. |
| CronScheduler.Scheduler.FireIfActive | admin-shim/lib/cron-scheduler.ts:246-256 | The row is read again and a turn starts only if it is still active. |
| CronScheduler.Scheduler.WriteFired | admin-shim/lib/cron-scheduler.ts:256-265 | When the turn has ended the row as it is then, if it is still there, becomes fired or counts one more fire. |
| CronScheduler.Scheduler.HandleMissedOneShot | admin-shim/lib/cron-scheduler.ts:168-180 | An overdue active one-shot is marked missed. |
| CronScheduler.Scheduler.VisitOnTickOf | admin-shim/lib/cron-scheduler.ts:233-283 | One task of a tick: missed, skipped, delayed by jitter, or its turn started. |
| CronScheduler.Scheduler.BeginTick | admin-shim/lib/cron-scheduler.ts:210-232 | A tick turns the minute, refreshes the cache and stands at its first task. |
| CronScheduler.Scheduler.FindLatestMatch | admin-shim/lib/cron-scheduler.ts:351-364 | The backward loop computes the latest match. |
| CronScheduler.Scheduler.VisitOnCatchUpOf | admin-shim/lib/cron-scheduler.ts:328-379 | One task of the catch-up pass: passed over, or its turn started for the minute it missed. |
| CronScheduler.Scheduler.PlanCatchUp | admin-shim/lib/cron-scheduler.ts:310-330 | The window from the last tick, or the cap, to the current minute, and the rows active now; nothing without one. |
| CronScheduler.Scheduler.AdvancePass | admin-shim/lib/cron-scheduler.ts:233-283 | One round of a loop takes the step of the machine, up to the await of the turn it starts. |
| CronScheduler.Scheduler.FinishTurn | admin-shim/lib/cron-scheduler.ts:256-265 | The end of an awaited turn takes the step of the machine and frees its loop. |
| CronScheduler.Scheduler.RunPass | admin-shim/lib/cron-scheduler.ts:233-287 | Left alone, a loop goes through all its tasks, each turn awaited before the next task, in steps of its own pass only. |
| CronScheduler.Scheduler.TimerExpires | admin-shim/lib/cron-scheduler.ts:272-279 | A jitter timer fires the task if its row is still active. |
| CronScheduler.Scheduler.StartScheduler | admin-shim/lib/cron-scheduler.ts:440-523 | Starting claims the lease, forgets the memory and plans the catch-up pass; what ran before is lost. |
| CronScheduler.Scheduler.AddTask | admin-shim/lib/crons.ts:408-464 | A new active row at the end of the file; running turns and passes are untouched. |
| CronScheduler.Scheduler.PatchTask | admin-shim/lib/crons.ts:505-523 | The first row with that id is edited in place, and found says whether there was one. |
| CronScheduler.Scheduler.DeleteTask | admin-shim/lib/crons.ts:483-492 | The loop removes the first row with that id, and found says whether there was one. |
| ApprovalSafety.StepKeeps | admin-shim/lib/pending-approval.ts:194-268 | Every step keeps: one gate per waiting turn, the record of a durable turn its own, and each effect at most once. |
| ApprovalSafety.EachThingHappensOnce | admin-shim/lib/pending-approval.ts:194-268 | Over every interleaving a record leaves pending at most once, is audited and broadcast by the funnel at most once, and its turn is released at most once. |
| ApprovalSafety.ReleaseAgreesWithRecord | admin-shim/lib/agent-pool.ts:118-130 | A durable turn released with a decision has that decision, and no other, in its record and its audit. |
| ApprovalSafety.AuditedExactlyWhenDecided | admin-shim/lib/pending-approval.ts:223-243 | The funnel audits a request with a verdict if and only if it wrote that verdict to the record. |
| ApprovalSafety.FailureAgreesWhenPrompt | admin-shim/lib/letta-sdk-adapter.ts:1156-1170 | When parked code runs on before the next event, a turn released by timeout, eviction or sweep has a record that was never approved or denied. |
| ApprovalSafety.LateDecisionDisagrees | admin-shim/lib/agent-pool.ts:159-176 | That hypothesis is needed: after every run in which a durable turn waits, any decision between the timeout of its gate and its resumption is written to the record although the turn fails. Promise continuations run before the next event, so the program itself cannot receive this interleaving. |
| ApprovalSafety.SweepLeavesNonePending | admin-shim/lib/pending-approval.ts:306-364 | After the boot sweep no record is pending, and sweeping again changes nothing. |
| ApprovalMeaning.DecisionMeans | admin-shim/lib/pending-approval.ts:194-268 | A decision on a pending record writes the verdict, audits it, saves a policy if it approves for the session or for ever, settles the turn with just that decision, and tells it, in this order and nothing else. |
| ApprovalMeaning.PolicyExactly | admin-shim/lib/pending-approval.ts:233-243 | A policy with a scope is saved by a decision if and only if it approves with just that scope and that is the session or for ever. |
| ApprovalMeaning.PoliciesFollowApprovals | admin-shim/lib/pending-approval.ts:233-243 | Over every interleaving a policy is saved only for the session or for ever, and only with an approval written to the record. |
| ApprovalMeaning.LateDecisionIsIgnored | admin-shim/lib/pending-approval.ts:200-207 | A decision where nothing is pending changes nothing. |
| ApprovalMeaning.SocketMeans | admin-shim/lib/mobile-channel-host.ts:880-906 | Over the socket a record is decided as over REST; without one only the gate is settled. |
| ApprovalMeaning.FailureMeans | admin-shim/lib/agent-pool.ts:132-180 | A timeout or an eviction settles a waiting turn with a failure and writes nothing. |
| ApprovalMeaning.ShimRestartMeans | admin-shim/lib/restart-finalizer.ts:86-104 | A shim restart lets the turn go on, approves a pending record once, and saves no policy. |
| ApprovalMeaning.ResumeMeans | admin-shim/lib/letta-sdk-adapter.ts:1156-1194 | A settled turn goes on with its outcome, is gone, and has cleared its record. |
| ApprovalMeaning.SweepMeans | admin-shim/lib/pending-approval.ts:306-364 | A sweep expires the pending records of its list, fails the turns that wait for them, and touches no other record or turn. |
| ApprovalMeaning.DecisionReachesTheTurn | admin-shim/lib/pending-approval.ts:245-256 | After every run in which a durable turn waits, a decision is what the turn goes on with and what the record and the audit say. |
| ApprovalDesk.Desk.ConsumeGate | admin-shim/lib/agent-pool.ts:118-147 | The first call consumes the gate and settles the turn; later calls do nothing. |
| ApprovalDesk.Desk.ResolveApproval | admin-shim/lib/pending-approval.ts:194-268 | The funnel takes its step and reports found, already resolved, and the status. |
| ApprovalDesk.Desk.HandleUserAction | admin-shim/lib/mobile-channel-host.ts:880-906 | A socket decision goes through the funnel when a record exists and straight to the gate otherwise. |
| ApprovalDesk.Desk.HandleRestDecision | admin-shim/server.ts:2069-2076 | A decision over REST goes through the funnel. |
| ApprovalDesk.Desk.FailGate | admin-shim/lib/agent-pool.ts:132-142 | A timeout or an eviction fails the gate once. |
| ApprovalDesk.Desk.ResolveShimRestart | admin-shim/lib/restart-finalizer.ts:86-104 | A shim restart settles the gate and then the record with the same approval. |
| ApprovalDesk.Desk.AskAndPark | admin-shim/lib/letta-sdk-adapter.ts:1078-1158 | The record is written before the turn parks. |
| ApprovalDesk.Desk.RunOn | admin-shim/lib/letta-sdk-adapter.ts:1156-1194 | The resumed turn audits failures, clears its record and answers allow exactly for an approval. |
| ApprovalDesk.Desk.SweepOnBoot | admin-shim/lib/pending-approval.ts:306-364 | The sweep loop expires each pending record. |
| ApprovalDesk.SweepCountsEachOnce | admin-shim/lib/pending-approval.ts:306-364 | The number returned is the number of distinct pending runs, however often the listing names them. |
| WorkerPool.VictimIsLeastRecentlyUsedIdle | admin-shim/lib/agent-pool.ts:664-676 | The cap victim is idle and no idle worker was used longer ago; there is none if and only if every worker is busy. |
| WorkerPool.SortIsStable | admin-shim/lib/agent-pool.ts:665-668 | Workers last used at the same instant keep their map order in the sort. |
| WorkerPool.VictimIsFirstOfItsUse | admin-shim/lib/agent-pool.ts:665-670 | Among idle workers last used at the same instant the victim is the one that comes first in the map. |
| PoolMeaning.VictimExactly | admin-shim/lib/agent-pool.ts:664-676 | The cap victim is the idle worker used longest ago, the first such in the map, and there is none exactly when all are busy. |
| PoolMeaning.MakingRoomMeans | admin-shim/lib/agent-pool.ts:664-685 | At the cap the victim is closed and room is made on; below it, or with every worker busy, nothing is closed. |
| PoolMeaning.LiveWorkerServes | admin-shim/lib/agent-pool.ts:627-631 | A live worker of the key serves the caller, and nothing else changes. |
| PoolMeaning.OthersWait | admin-shim/lib/agent-pool.ts:632-662 | Without a live worker the dead one is forgotten and the caller waits, at the spawn under way or at one started now after making room. |
| PoolMeaning.SpawnMeans | admin-shim/lib/agent-pool.ts:687-711 | A finished spawn pools one new idle worker and serves it to every waiting caller in turn. |
| PoolMeaning.SpawnedIsServedNext | admin-shim/lib/agent-pool.ts:697-711 | The next get of the key is served that very worker. |
| PoolMeaning.FailedSpawnMeans | admin-shim/lib/agent-pool.ts:689-711 | A failed spawn pools nothing and refuses every waiting caller in turn. |
| PoolMeaning.EvictMeans | admin-shim/lib/agent-pool.ts:724-740 | A manual eviction takes the worker of the key out, rejects the approval its run waits for, and closes it. |
| PoolMeaning.HousekeepingMeans | admin-shim/lib/agent-pool.ts:955-975 | Of each entry: a dead one is forgotten, one idle for longer than the limit is closed like a victim, any other is left alone. |
| PoolSafety.EvictionEnds | admin-shim/lib/agent-pool.ts:664-685 | The cap loop ends below the cap or with every pooled worker busy, and keeps every busy worker. |
| PoolSafety.HousekeepRemovesExactly | admin-shim/lib/agent-pool.ts:955-975 | Housekeeping removes exactly the dead and the idle expired workers. |
| PoolSafety.BusyWorkersAreNeverClosed | admin-shim/lib/agent-pool.ts:627-713 | In no run does get or housekeeping close a busy worker. |
| PoolSafety.ClosedIsNeverHandedOut | admin-shim/lib/agent-pool.ts:627-713 | A worker leaves the pool at most once and is never handed out afterwards. |
| PoolCallers.EveryCallerIsAnsweredOnce | admin-shim/lib/agent-pool.ts:627-713 | Every call of get is answered at most once, and while unanswered it waits at exactly one spawn. |
| PoolCallers.OneSpawnPerKey | admin-shim/lib/agent-pool.ts:633-643 | A key has exactly one spawn outstanding while callers wait for it, and none otherwise. |
| AgentPool.SortByUse | admin-shim/lib/agent-pool.ts:665-668 | The insertion loop computes the sort of the entries by last use. |
| AgentPool.Pool.FindVictim | admin-shim/lib/agent-pool.ts:665-670 | Sorting and searching give the cap victim. |
| AgentPool.Pool.MakeRoom | admin-shim/lib/agent-pool.ts:664-685 | The loop takes the eviction steps. |
| AgentPool.Pool.GetWorker | admin-shim/lib/agent-pool.ts:627-713 | A live worker is served at once; otherwise the caller joins or starts the spawn of its key. |
| AgentPool.Pool.FinishSpawn | admin-shim/lib/agent-pool.ts:687-711 | A finished spawn pools the worker and serves every waiting caller. |
| AgentPool.Pool.FailSpawn | admin-shim/lib/agent-pool.ts:700-711 | A failed spawn refuses every waiting caller and pools nothing. |
| AgentPool.Pool.RunHousekeep | admin-shim/lib/agent-pool.ts:955-975 | The housekeeping loop takes the step of the machine. |
| AgentPool.Pool.EvictKey | admin-shim/lib/agent-pool.ts:724-740 | A manual eviction drops and closes the worker and rejects its gate. |
| OverrideLimiter.AnyHourHoldsTwiceTheLimit | admin-shim/lib/permissions.ts:642-722 | Any span of at most one hour holds at most twice the hourly limit of accepted overrides per key, and every turn at most its limit. |
| OverrideLimiter.AnySixtyMinutes | admin-shim/lib/permissions.ts:642-655 | The same bound for any 3600000 milliseconds. |
| OverrideLimiter.AttemptMeans | admin-shim/lib/permissions.ts:699-722 | In every run an attempt is accepted exactly below both limits, under its turn and at the time it is recorded; other keys stay as they are. |
| OverrideLimiter.NewTurnMeans | admin-shim/lib/permissions.ts:658-667 | A new turn clears the turn counter of its key and only that. |
| OverrideLimiter.TwiceIsReached | admin-shim/lib/permissions.ts:642-655 | The bound is attained for every key and all limits that allow an override per turn: two full bursts a millisecond apart. |
| OverrideLimiter.ZeroAllowsNothing | admin-shim/lib/permissions.ts:699-716 | A limit of zero accepts nothing, in any run. |
| OverrideTracker.Tracker.GetState | admin-shim/lib/permissions.ts:642-655 | The state is created on first use and rotated after more than an hour. |
| OverrideLimiter.CheckCounts | admin-shim/lib/permissions.ts:699-716 | After any run the check reports the turn limit, the hour limit or none exactly by the overrides accepted in this turn and in this window. |
| OverrideTracker.Tracker.CheckRateLimit | admin-shim/lib/permissions.ts:699-716 | The check reports the first limit that is hit, and none exactly when fewer overrides than the limits were accepted in this turn and in this window. |
| OverrideTracker.Tracker.RecordOverride | admin-shim/lib/permissions.ts:718-722 | Recording raises both counters of the current state. |
| OverrideTracker.Tracker.ResetTurnCounter | admin-shim/lib/permissions.ts:658-667 | A new turn clears the turn counter and only that. |
| OverrideTracker.Tracker.TryOverride | admin-shim/lib/letta-sdk-adapter.ts:951-962 | The adapter records and audits exactly when fewer overrides than the limits were accepted in this turn and in this window. |
| OverrideTracker.Tracker.AppendAudit | admin-shim/lib/permissions.ts:725-730 | The audit log is always the newest thousand entries. |

## Left out

Assumptions on the surroundings:

- Files: a write or append succeeds and is atomic; torn lines, malformed files, permissions and disk faults are not
  modelled, except a crash between a sidecar write and the append that follows it.
- Callbacks run to completion and do not call back into the object that invoked them.
- The event loop: a synchronous stretch of code is one step. Where a step awaits, the model says so below.
- Clocks do not go back in `CronScheduling` and `OverrideLimiter`; `ConversationCursors` states this as a hypothesis.
- Time zones and daylight saving: local time is a function of the whole minute; the interval results take a clock without
  daylight saving. A minute key that repeats when clocks are set back is not modelled.
- JSON, hashing, regular expressions over error texts, sqlite and full-text ranking: values, equality of file lists, given
  ids, and a table of rows.
- Numbers are unbounded integers; parseInt of more digits than a double holds is not modelled.

Not modelled because it holds little state or only easy members: HTTP routing, sockets, the SDK session, settings,
attachments, models, event buses, lease and lock files (their sections are atomic steps), `healUnexpectedToolResults`,
widget validation and metrics of the splitter, garbage collection of old tasks (a deletion here), jitter hashing, the
parsing of interval words and clock times, reversal of the audit log.

Narrower than the code:

- CursorService.Cursors.StampConversationFrame: the `updated_at` time of a sidecar is not modelled, because nothing reads it.
- RunSafety.DeliveredExactlyOnce: for runs by rising numbers; for the others `RunDelivery.ReadIsWholeExactly` says what each
  reading leaves out and `RunDisorder.EveryRunClimbs` what holds all the same. Reading and attaching are two steps, which
  allows more than the code does; errors of listeners and of the file watcher are not modelled; a run is finalized once
  through its handle.
- HealingProperties.KeptHasOneResult: assumes the requested ids distinct and non-empty, as the error parser delivers them.
- HealingProperties.SecondHealing: this and `HealingAgain` also assume that removed calls live in parts; the agent and conversation id and the
  ISO form of the time in an inserted record are not modelled.
- Coalescer.StreamCoalescer.Handle: one bucket, as the code has one key for all frames; the length of the timer is not modelled.
- ChatCoalescing.ChatStream.HandleFrame: frames arrive reshaped; dates are offsets from the start of the turn.
- SearchIndex.RunIsExact: the listing of conversations and of their files is one list, and building reads one source state.
- CronScheduling.RecurringWantedExactly: the local time of a minute does not depend on its seconds.
- CronFires.OneShotFiresOncePerActivation: assumes that the ids of added tasks are fresh, as random ids are; the cap on active
  tasks per agent is not modelled. A process goes away as a whole: stopping the scheduler while its process runs on, and
  handing the lease to another process that is alive, are not modelled.
- ApprovalSafety.EachThingHappensOnce: a run parks one tool at a time; two parked at once would share one gate and one record.
- ApprovalDesk.Desk.ResolveApproval: who decided, reasons, times and action ids are not modelled; neither are the frames the sweep
  appends and the runs it finalizes.
- AgentPool.Pool.GetWorker: a caller that waits is answered by the step that ends its spawn; closing a worker is one step.
- PoolSafety.BusyWorkersAreNeverClosed: manual and forced evictions and shutdown may close a busy worker, as in the code.
- OverrideTracker.Tracker.TryOverride: the parsing of the configured limits is not modelled.
