# dopilot, verified models

dopilot is a scheduler made of a server and outbound-only agents joined by Redis Streams. Delivery is
at-least-once and a process can die between any two durable writes. This project models its crash-prone parts
and proves what they promise over every run. `dafny verify dfyconfig.toml` checks all of it.

How crashes and the outside world appear: what scrapyd, the downloads, the reads and the unlinks answer is an argument
(`World`, `Round`, `Luck`), so a contract says exactly what each answer leads to. That the process dies, that a call
raises what nobody handles, and whether Redis takes an event of the stop machine, is nondeterministic (`:= *` in a body);
each of them moves a ghost counter, so a contract can say what nothing else can prevent. Ghost fields
record what was ever written, published, signalled or handed over.

| file | part |
|---|---|
| `AttemptHistory`, `SignalHistory`, `StateStore`, `Events`, `Agent` | the agent's stop, reclaim and cleanup machine for one execution: a monitor over everything observable, the theorems on every run it allows, the state file, the event outbox, and every handler proved to keep to the monitor |
| `KeyedLock` | the reference-counted per-execution lock |
| `LogTail`, `LogPublisher` | the byte-offset log publisher, its cursor, cap, token bucket and rotation, against files that are cut under it |
| `LogReceiver`, `LogReassembly`, `LogPipeline` | the server's log consumer, what any delivery leaves in the file, and both ends together |
| `DirGauge`, `Retention` | the exact directory gauge, and the crash-safe two-phase delete and eviction |
| `SentSweep`, `StreamGuard` | the paged sweep over sent commands with its latency bound, and the stream trimmer |
| `EventApply` | events, server verdicts and task roll-up |
| `PathQuoting`, `HistoryRewrite` | git path quoting and the history rewriter |
| `ScrapyCommand`, `ScrapyProgram`, `ScrapyRoundTrip` | the command parser and printer, and that parsing undoes printing |
| `ScrapyCounting`, `ScrapyWrongWord`, `ScrapyExact` | exactly when it does, for all dictionaries at once |
| `ScrapyLastWins` | what an accepted command means, pair by pair |
| `WebWords`, `WebMirror` | the web form's word splitter and check, and when they agree with the parser |

Where code and documentation differ, the code is modelled:

- The log publisher's header promises no false gap from replay (apps/agent/dopilot_agent/redis/logs.py:9-11).
  `LogPipeline.CrashBeforeTheCursor` is a publisher run that makes one, and `LogPipeline.NoFalseGapIff` says exactly
  which streams make none.
- The sweep documents 2*ceil(N/batch)+1 calls; two fewer always suffice (`SentSweep.BoundedSweep`).
- The synthesizer is documented as the parser's inverse (scrapy_command.py:178-187).
  It is not for every value; `ScrapyExact.PrintParseIff` gives the exact condition on the whole command.
- The web form is meant to refuse only what the parser refuses. `WebMirror.FormAcceptsIff` gives the condition on
  commands in which no double quote is escaped, and two lemmas show both ways it breaks.
- "Reclaim stays lost" holds for the life of one state file. After cleanup a redelivered run starts a new life, in
  which a flood stop can report `canceled`.
- A cancel that arrives while a reclaim is in flight is left alone, so it is never answered `canceled`
  (`Agents.CommandConsumer.HandleCancel`).
- A half-written reserved file reads as no state but still blocks creation, so redelivered runs report `lost`
  (`Agents.CommandConsumer.HandleRun`).
- Bytes acknowledged by Redis whose cursor write then fails are not charged to the token bucket; the rate bound is
  about bytes charged (`LogPublishers.LogPublisher.Account` keeps the difference in `slipped`).

## Model

| member | source | states |
|---|---|---|
| `AttemptHistory.NoUntrackedProcess` | apps/agent/dopilot_agent/redis/commands.py:1178-1348 | Once a stop of a started scrapyd attempt is on disk, the state file is deleted, or its job id changed, only after a later listjobs showed that job neither running nor pending. |
| `AttemptHistory.OwedUntilGone` | apps/agent/dopilot_agent/redis/commands.py:1220-1253 | From the recorded stop on, the job stays owed, and the record alive, for as long as no listjobs shows the job gone. |
| `AttemptHistory.CancelIsOwedOrDelivered` | apps/agent/dopilot_agent/redis/commands.py:1186-1271 | After a recorded cancel, the record is written done with nothing owed, or deleted, only after `canceled` was handed to the publisher. |
| `AttemptHistory.ReclaimStaysLost` | apps/agent/dopilot_agent/redis/commands.py:1079-1110 | From a recorded reclaim until a cancel command arrives or the record ends, `canceled` is never emitted and the only terminal recorded is `lost`. |
| `AttemptHistory.ScheduledOnce` | apps/agent/dopilot_agent/redis/commands.py:721-868 | Between two schedule calls for one execution the state file was deleted: a redelivered run never starts a second job. |
| `AttemptHistory.StopSticks` | apps/agent/dopilot_agent/state/store.py:270-285 | A recorded stop intent and its time are never dropped, replaced or re-dated while the record lives. |
| `AttemptHistory.HandedMeans` | apps/agent/dopilot_agent/redis/events.py:138-163 | The monitor's "handed" bit is true exactly when `canceled` was handed over since the recorded stop. |
| `SignalHistory.IntentBeforeSignal` | apps/agent/dopilot_agent/redis/commands.py:1113-1133 | A signal to a started attempt that is not flooding is sent only after its stop was written to disk in this life of the record. |
| `SignalHistory.EscalationWasAcked` | apps/agent/dopilot_agent/redis/commands.py:1135-1165 | A recorded escalation was acknowledged by scrapyd, for that signal and that job, earlier in the run. |
| `SignalHistory.KillFollowsTerm` | apps/agent/dopilot_agent/redis/commands.py:1178-1218 | A stop sends KILL only after scrapyd acknowledged TERM for the same job and the grace period of the stop on disk has passed. |
| `SignalHistory.ResentKillsArePaced` | apps/agent/dopilot_agent/redis/commands.py:1272-1300 | Two KILLs re-sent to a process that outlived its stop are the retry interval apart, unless something failed for good in between. |
| `SignalHistory.ReclaimOfWrappedUpIsQuiet` | apps/agent/dopilot_agent/redis/commands.py:1079-1110 | Until the next input nothing is signalled after a reclaim of a wrapped-up attempt. |
| `SignalHistory.SignalWasSent` | apps/agent/dopilot_agent/redis/commands.py:1135-1165 | What a handler says it sent, it sent: the signal, job and time in the ledger were observed since the last input. |
| `StateStores.StateStore.CreateReserved` | apps/agent/dopilot_agent/state/store.py:151-192 | Exclusive creation: at most one caller creates; a half-written file exists but reads as no state. |
| `StateStores.StateStore.PromoteStarted` | apps/agent/dopilot_agent/state/store.py:194-204 | Writes phase and job id in one step, and nothing when there is no state. |
| `StateStores.StateStore.MarkDone` | apps/agent/dopilot_agent/state/store.py:234-268 | Terminal, kill_pending and terminal_pending change in one atomic write. |
| `StateStores.StateStore.MarkStopRequested` | apps/agent/dopilot_agent/state/store.py:270-285 | Records intent and time in one write; from then on the job is owed. |
| `StateStores.StateStore.MarkStopEscalation` | apps/agent/dopilot_agent/state/store.py:287-299 | Records the acknowledged signal and nothing else. |
| `StateStores.StateStore.MarkCleanupPending` | apps/agent/dopilot_agent/state/store.py:301-307 | Records a deferred cleanup and nothing else. |
| `StateStores.StateStore.MarkKillAttempt` | apps/agent/dopilot_agent/state/store.py:309-315 | Records when the last KILL went out and nothing else. |
| `StateStores.StateStore.ClearKillPending` | apps/agent/dopilot_agent/state/store.py:317-323 | Clears the kill debt and nothing else; allowed only when the job was shown gone. |
| `StateStores.StateStore.ClearTerminalPending` | apps/agent/dopilot_agent/state/store.py:325-331 | Clears the owed terminal and nothing else; allowed only once `canceled` was handed over. |
| `StateStores.StateStore.MarkCanceled` | apps/agent/dopilot_agent/state/store.py:333-343 | Sets only the canceled flag. |
| `StateStores.StateStore.MarkLogFlood` | apps/agent/dopilot_agent/state/store.py:345-363 | Sets the flood flags; the first time stays, the escalation is updated. |
| `StateStores.StateStore.MarkLogCapped` | apps/agent/dopilot_agent/state/store.py:365-371 | Sets only the log_capped flag. |
| `StateStores.StateStore.Delete` | apps/agent/dopilot_agent/state/store.py:411-418 | Removes the record; allowed only when no job and no `canceled` is owed. |
| `Events.EventPublisher.Emit` | apps/agent/dopilot_agent/redis/events.py:138-163 | Returning normally implies the event is in the stream, in the outbox, or discarded by the file cap, and in the stream unless Redis refused it; with an outbox only a death of the process keeps it from returning, and without one only a refused XADD does. |
| `Events.EventPublisher.ReplayOutbox` | apps/agent/dopilot_agent/redis/events.py:165-195 | A completed replay leaves nothing queued, and without a cap everything ever handed over is then in the stream; only a refused XADD or a death ends a replay early. |
| `Events.EventPublisher.EnforceOutboxCap` | apps/agent/dopilot_agent/redis/events.py:89-117 | Makes room for one file under the cap by discarding oldest files only. |
| `Events.EventPublisher.NothingIsLost` | apps/agent/dopilot_agent/redis/events.py:89-195 | Every event ever handed over is in the stream or still queued, or the file cap discarded it; without a cap the last cannot happen. |
| `Agents.ScrapyRunner.Stop` | apps/agent/dopilot_agent/runners/scrapyd.py:108-164 | The canceled flag is set exactly if scrapyd acknowledged for a job it listed; the rest of the record is untouched, and an acknowledgement is for this signal and this job. |
| `Agents.ScrapyRunner.IsJobAlive` | apps/agent/dopilot_agent/runners/scrapyd.py:190-220 | Only a successful listjobs without the job answers false, and only that answer settles the owed job. |
| `Agents.ScrapyRunner.CurrentStatus` | apps/agent/dopilot_agent/runners/scrapyd.py:222-249 | A terminal is finished or canceled; an unreachable scrapyd is never one. |
| `Agents.CommandConsumer.RepublishCurrent` | apps/agent/dopilot_agent/redis/events.py:329-389 | A missing record is announced as lost, a reserved one as failed, a finished one with its result, a running one as running or, if scrapyd shows that it left, as its own end, and one with a stop in flight not at all. |
| `Agents.CommandConsumer.SendStopSignal` | apps/agent/dopilot_agent/redis/commands.py:1135-1165 | The signal goes out, and the escalation is recorded exactly if scrapyd acknowledged it; the rest of the stop record is untouched. |
| `Agents.CommandConsumer.BeginStop` | apps/agent/dopilot_agent/redis/commands.py:1113-1133 | The intent is on disk before anything can fail; a second stop leaves the first alone. |
| `Agents.CommandConsumer.StopWatchdog` | apps/agent/dopilot_agent/redis/commands.py:1178-1218 | Past the confirmation deadline the stop is settled, whatever scrapyd and Redis answer, unless the process dies. Before it listjobs decides: a job that is gone is wrapped up, with the terminal on disk and `canceled` handed over; a listed one gets TERM until that is acknowledged and KILL after the grace period, each sent now; an unreachable scrapyd changes nothing. |
| `Agents.CommandConsumer.FinalizeStop` | apps/agent/dopilot_agent/redis/commands.py:1220-1253 | Records the terminal with what is still owed and hands over canceled for a cancel; for a reclaim it records lost and hands over nothing; only a fault keeps it from completing. |
| `Agents.CommandConsumer.ReclaimWatchdog` | apps/agent/dopilot_agent/redis/commands.py:1255-1300 | Delivers an owed terminal first, then pursues the process, then runs a deferred cleanup; the recorded terminal never moves. |
| `Agents.CommandConsumer.PursueKill` | apps/agent/dopilot_agent/redis/commands.py:1272-1300 | By the listing: a job that is gone ends the debt and lets a waiting cleanup run; a listed one gets KILL now if the interval has passed, with the time on disk; an unreachable scrapyd leaves the debt. |
| `Agents.CommandConsumer.RunDeferredCleanup` | apps/agent/dopilot_agent/redis/commands.py:1302-1324 | Runs a deferred cleanup only when nothing is outstanding. |
| `Agents.CommandConsumer.FinishScrapyAttempt` | apps/agent/dopilot_agent/redis/commands.py:363-416 | A natural end is recorded once and handed over. |
| `Agents.CommandConsumer.FloodWatchdog` | apps/agent/dopilot_agent/redis/commands.py:467-528 | Marks a log at the cap, for good, and sends the request that the age of the flood calls for; only flags move, and without a flood nothing does. |
| `Agents.CommandConsumer.FloodStages` | apps/agent/dopilot_agent/redis/commands.py:467-528 | A flood calls for TERM at first, KILL after the grace period, and after two of them for the one crawler process itself, once. |
| `Agents.CommandConsumer.DoTick` | apps/agent/dopilot_agent/redis/commands.py:302-361 | A pass does what record and listing ask for: it settles an overdue stop, drives one that is not overdue, records and tells the end of a job that left, pursues a process that outlived its stop, and delivers an owed terminal. With an outbox only a fault of the process keeps it from completing. |
| `Agents.CommandConsumer.HandleRun` | apps/agent/dopilot_agent/redis/commands.py:721-868 | An existing record, even a torn one, is only re-announced. A fresh one is reserved and accepted; if command, download and schedule are good it ends started under its job id and told running, otherwise recorded and told failed. |
| `Agents.CommandConsumer.HandleCancel` | apps/agent/dopilot_agent/redis/commands.py:1040-1077 | A cancel with nothing running is answered at once; one for a running attempt is recorded first, with TERM sent behind it; a stop in flight, of either intent, is left alone. |
| `Agents.CommandConsumer.HandleReclaim` | apps/agent/dopilot_agent/redis/commands.py:1079-1110 | A genuine end wins and is recorded and told; an attempt still running gets the reclaim on disk and TERM sent; a wrapped-up attempt is neither revived nor signalled, its record is announced again; a stop in flight is left alone. |
| `Agents.CommandConsumer.HandleStop` | apps/agent/dopilot_agent/redis/commands.py:1040-1110 | Dispatches on the local record's runner; a cancel of a running scrapyd attempt always leaves a recorded stop that owes the job. |
| `Agents.CommandConsumer.HandleCleanup` | apps/agent/dopilot_agent/redis/commands.py:1326-1371 | Cleanup is deferred durably while a stop, a kill or a terminal is outstanding, and otherwise removes the record. |
| `Agents.CommandConsumer.WheelExited` | apps/agent/dopilot_agent/redis/commands.py:998-1038 | A background exit verdict never overrides a recorded terminal. |
| `Agents.CommandConsumer.Recover` | apps/agent/dopilot_agent/redis/commands.py:227-300 | Reserved orphans fail, wheel orphans are lost, and a recorded stop survives the restart untouched with all it owes. |
| `Agents.CommandConsumer.Process` | apps/agent/dopilot_agent/redis/commands.py:679-711 | Every input is taken on once and achieves what record and answers bind it to: a tick as above, a run started or failed, a cancel answered or recorded with TERM sent, a reclaim likewise, a cleanup done or durably deferred, no reserved orphan after a restart; with an outbox only a fault keeps a tick, a run or a stop from completing. |
| `Agents.CommandConsumer.Serve` | apps/agent/dopilot_agent/redis/commands.py:1387-1413 | Any sequence of ticks, commands, faults and restarts appends its inputs, in order, to a history that stays legal and disciplined, so every theorem on histories speaks about it. |
| `KeyedLocks.KeyedLock.MutualExclusion` | apps/agent/dopilot_agent/redis/commands.py:196-221 | At most one task is inside the critical section per id. |
| `KeyedLocks.KeyedLock.TableIsExact` | apps/agent/dopilot_agent/redis/commands.py:196-221 | Every id in use has its entry; with no cancelled waiter no other id has one. |
| `KeyedLocks.KeyedLock.Register` | apps/agent/dopilot_agent/redis/commands.py:196-221 | Get-or-create plus count: later arrivals share the entry that is in use. |
| `KeyedLocks.KeyedLock.Acquire` | apps/agent/dopilot_agent/redis/commands.py:196-221 | Only an unheld entry is acquired, and only its holder changes. |
| `KeyedLocks.KeyedLock.Leave` | apps/agent/dopilot_agent/redis/commands.py:196-221 | The entry goes with its last user and with no other; a cancelled waiter leaks it. |
| `KeyedLocks.KeyedLock.Interleave` | apps/agent/dopilot_agent/redis/commands.py:196-221 | Any interleaving of register, acquire, cancel and leave keeps the invariant behind mutual exclusion. |
| `LogTail.ReadIsTrue` | apps/agent/dopilot_agent/redis/logs.py:124-131 | A read below the cap returns appended bytes, however often the file was cut. |
| `LogTail.CutIsSettled` | apps/agent/dopilot_agent/janitor.py:55-70 | What the flood watchdog leaves, the janitor recognizes: a cut file is not cut again. |
| `LogTail.TakenForCut` | apps/agent/dopilot_agent/janitor.py:55-70 | A file is taken for an already cut one exactly if all that is behind the cap is one marker line of at most 160 bytes. |
| `LogTail.FrontierIsReal` | apps/agent/dopilot_agent/redis/logs.py:158-161 | The publish frontier never runs past the appended bytes nor past content cap plus marker. |
| `LogTail.InStepAfter` | apps/agent/dopilot_agent/redis/logs.py:232-257 | A slice followed by its cursor write, or a repeated marker, never straddles the frontier. |
| `LogPublishers.Job.Cut` | apps/agent/dopilot_agent/redis/commands.py:424-453 | The watchdog leaves exactly cap bytes and one marker, idempotently, and the bytes below the cap stay the appended ones. |
| `LogPublishers.Job.Sweep` | apps/agent/dopilot_agent/janitor.py:439-452 | The janitor cuts only what is above the cap and carries no marker, and keeps the bytes below the cap. |
| `LogPublishers.Job.Meanwhile` | apps/agent/dopilot_agent/redis/commands.py:424-453 | Any mix of appends, cuts, half-done cuts, flags and lost cursors keeps the file truthful below the cap and the stream honest. |
| `LogPublishers.LogPublisher.Refill` | apps/agent/dopilot_agent/redis/logs.py:133-139 | Adds what the clock poured, up to two seconds' worth. |
| `LogPublishers.LogPublisher.Spend` | apps/agent/dopilot_agent/redis/logs.py:147-149 | Takes exactly the bytes published: the clamp at zero never bites. |
| `LogPublishers.LogPublisher.PublishSlice` | apps/agent/dopilot_agent/redis/logs.py:232-255 | For each fate of the XADD and of the cursor write: the stream gains the genuine slice exactly if the XADD landed, the cursor moves exactly if it was heard and written, and tokens are taken or the bytes counted as slipped. |
| `LogPublishers.LogPublisher.PublishMarker` | apps/agent/dopilot_agent/redis/logs.py:172-194 | The marker goes out right behind the last content byte, pays the bucket, and closes the tail when recorded. |
| `LogPublishers.LogPublisher.ReadRaw` | apps/agent/dopilot_agent/redis/logs.py:124-131 | The bytes of the file at the offset, at most as many as wanted and fewer only at its end, and all of them appended bytes; none if the file cannot be read. |
| `LogPublishers.LogPublisher.Step` | apps/agent/dopilot_agent/redis/logs.py:212-257 | One iteration: trouble is reported only when something went wrong, a dry stop only when the bucket is short, being caught up only at the end of the file; without limits it publishes exactly the next chunk of the file and moves the cursor behind it exactly if every write was made. |
| `LogPublishers.LogPublisher.Tail` | apps/agent/dopilot_agent/redis/logs.py:210-257 | A turn in which nothing goes wrong ends only at the end of the file, at the cap with its marker out, or with a short bucket, whatever is appended and cut meanwhile; it keeps the stream in step, and lands no more bytes than the bucket held. |
| `LogPublishers.LogPublisher.PublishAttempt` | apps/agent/dopilot_agent/redis/logs.py:196-291 | The same for a whole turn; a capped execution is not tailed again, a failed slice ends the turn, and otherwise the EOF of an ended execution, and of no other, goes out, once per process life. |
| `LogPublishers.LogPublisher.Turn` | apps/agent/dopilot_agent/redis/logs.py:308-332 | A turn starts with a whole token; after one in which nothing goes wrong nothing of the execution waits to be published, or the bucket is short. |
| `LogPublishers.LogPublisher.PublishOnce` | apps/agent/dopilot_agent/redis/logs.py:308-332 | One tick: refill, then one turn each from where the last tick ran dry, ended early only by a bucket with less than a token; with a token after the refill at least one turn is taken. |
| `LogPublishers.LogPublisher.Ticks` | apps/agent/dopilot_agent/redis/logs.py:133-332 | From any refill on at most 2*rate + rate*(t1-t0) bytes are spent. As many ticks as there are executions give each a turn, if the bucket has a whole token after every refill, and so in particular if it has one after the first and a token's worth of time passes between ticks. |
| `LogPublishers.TickBringsNearer` | apps/agent/dopilot_agent/redis/logs.py:308-332 | A tick gives its turns and brings every other execution at least one turn closer. |
| `LogReceiver.PlanWrite` | apps/server/dopilot_server/services/logs.py:83-107 | By the lengths alone: nothing is cut that fits the cap and the budget; what exceeds the cap is clipped behind a size-cap marker if that fits the budget; otherwise only a dir-budget marker is left, if it fits; a budgeted write never takes the gauge past its budget. |
| `LogReceiver.LogConsumer.WriteSettled` | apps/server/dopilot_server/services/logs.py:110-128 | Whatever prefix landed is what file and gauge agree on. |
| `LogReceiver.LogConsumer.Apply` | apps/server/dopilot_server/services/logs.py:131-242 | An entry that is accepted and fits is appended whole, behind a gap marker if it jumped; one past the cap is clipped; one past the budget is dropped but for a marker; answer, reason and recorded size say so. Any other entry changes nothing but, behind a cut, the cursor. A failed write leaves the row and a prefix; a budgeted gauge never rises above max(budget, before). |
| `LogReceiver.LogConsumer.Accept` | apps/server/dopilot_server/services/logs.py:170-214 | Gap marking, plan, write, row update, with the file exactly the old bytes plus the plan. |
| `LogReassembly.Reassembly` | apps/server/dopilot_server/services/logs.py:150-208 | Any delivery of genuine entries leaves increasing, non-overlapping slices with a marker at every jump, the cursor at their end, gap_count the number of jumps and the first jump recorded; every delivered entry starts behind the cursor. |
| `LogReassembly.CompleteMeansComplete` | apps/server/dopilot_server/services/logs.py:150-208 | Integrity is complete exactly when no gap was counted, and then the body is the first last_pulled_offset bytes sent. |
| `LogReassembly.RedeliveryIsSilent` | apps/server/dopilot_server/services/logs.py:159-160 | Redelivering anything already delivered, in any order, changes nothing. |
| `LogReassembly.InOrderNeverGaps` | apps/server/dopilot_server/services/logs.py:159-182 | Contiguous entries first seen in order, with any duplicates, record no gap and leave every byte up to the furthest entry. |
| `LogReassembly.CapOnlyClips` | apps/server/dopilot_server/services/logs.py:93-100 | With a size cap the file is the uncapped file clipped to cap bytes plus one marker, whatever is delivered, and the cursor moves as without a cap. |
| `LogPipeline.ToldIsGenuine` | apps/agent/dopilot_agent/redis/logs.py:158-257 | Every published entry is a slice of one logical log; with the cap at least the marker its end stays within the cap. |
| `LogPipeline.LogicalGrows` | apps/agent/dopilot_agent/redis/logs.py:158-161 | The logical log is only ever extended as the job appends. |
| `LogPipeline.NothingSkipped` | apps/agent/dopilot_agent/redis/logs.py:196-257 | Every byte below the frontier is in some published entry. |
| `LogPipeline.EndToEnd` | apps/server/dopilot_server/services/logs.py:150-208 | However published entries are lost, repeated and reordered, the server holds slices of the log, and without gaps a prefix of it. |
| `LogPipeline.NoFalseGapIff` | apps/agent/dopilot_agent/redis/logs.py:9-11 | Delivered in order, no prefix of a published stream records a gap when it is continued where it ends, if and only if no entry starts before the frontier and ends after it. |
| `LogPipeline.CaughtUpIffNoStraddle` | apps/agent/dopilot_agent/redis/logs.py:9-11 | Delivered in order, the server has exactly the published bytes after every entry, if and only if no entry straddles the frontier. |
| `LogPipeline.SteadyIsExact` | apps/agent/dopilot_agent/redis/logs.py:247-251 | As long as every slice got its cursor write, in-order delivery gives the server exactly what was published. |
| `LogPipeline.CrashBeforeTheCursor` | apps/agent/dopilot_agent/redis/logs.py:232-255 | A publisher run that makes a false gap: it dies after the XADD and before the cursor write, the job writes on, and the next process sends a longer slice again. |
| `LogPipeline.FalseGapAfterCrash` | apps/agent/dopilot_agent/redis/logs.py:9-11 | On the stream of that run the longer slice is dropped whole and the next one gaps, though nothing was lost. |
| `DirGauge.TotalChange` | apps/server/dopilot_server/logs/dir_gauge.py:89-103 | Changing one file moves the directory total by that file's change alone, so a measured delta keeps the gauge exact. |
| `DirGauge.LogsDirGauge.Calibrate` | apps/server/dopilot_server/logs/dir_gauge.py:105-112 | The walk over the directory sets the gauge to the true total. |
| `DirGauge.LogsDirGauge.Append` | apps/server/dopilot_server/services/logs.py:110-128 | After a full or partial append the gauge moved by what landed, and the clamp did not fire. |
| `DirGauge.LogsDirGauge.Remove` | apps/server/dopilot_server/services/maintenance.py:302-310 | An unlink lowers the gauge by the file's size, a failed one by nothing. |
| `DirGauge.LogsDirGauge.Truncate` | apps/server/dopilot_server/services/maintenance.py:337-350 | A cut leaves cap bytes and one marker, nothing below the cap changes, and the gauge follows. |
| `DirGauge.LogsDirGauge.Interleave` | apps/server/dopilot_server/logs/dir_gauge.py:89-112 | After any interleaving of appends, unlinks, cuts and calibrations the calibrated gauge is the true total of file sizes. |
| `DirGauge.TotalTake` | apps/server/dopilot_server/logs/dir_gauge.py:30-39 | The directory total does not depend on the order of the walk. |
| `Retention.CrashKeepsReferences` | apps/server/dopilot_server/services/maintenance.py:246-299 | At every crash point every body on disk is named by a committed row and every execution has its task. |
| `Retention.CrashLeavesNoDanglingRow` | apps/server/dopilot_server/services/maintenance.py:246-299 | At every crash point a committed row whose body was removed is expired, and a deleted row left no body. |
| `Retention.OthersKeepBodies` | apps/server/dopilot_server/services/maintenance.py:121-164 | Bodies of tasks that were not eligible stay byte for byte. |
| `Retention.OthersUntouched` | apps/server/dopilot_server/services/maintenance.py:281-297 | Tasks, executions, commands and rows outside the chosen set are unchanged. |
| `Retention.GoneWithTheTask` | apps/server/dopilot_server/services/maintenance.py:246-297 | Table by table: with a deleted task go exactly its executions, commands and rows; everything else stays as it was, but that rows of the chosen tasks are marked expired. |
| `Retention.RerunFinishes` | apps/server/dopilot_server/services/maintenance.py:193-195 | After any interruption a rerun chooses exactly what is left and aims at the same final state. |
| `Retention.LeftToChoose` | apps/server/dopilot_server/services/maintenance.py:121-164 | A delete, wherever it stands, takes nothing off anyone's list but what it deleted. |
| `Retention.NothingLeft` | apps/server/dopilot_server/services/maintenance.py:121-164 | A finished delete leaves nothing that the same sweep would choose. |
| `Retention.Sweep.Unlink` | apps/server/dopilot_server/services/maintenance.py:262-279 | Succeeds exactly if the body is gone and the attempt raised nothing; a body already missing is success; no other body changes. |
| `Retention.Sweep.UnlinkAll` | apps/server/dopilot_server/services/maintenance.py:258-279 | Without a crash exactly the bodies of the chosen tasks whose unlink goes right are gone; every task not reported failed has lost all of its bodies, every raising row fails its task, and no task fails without bad luck. |
| `Retention.Sweep.DeleteRows` | apps/server/dopilot_server/services/maintenance.py:281-297 | Children first: each statement deletes from one table, and after every one of them each execution has its task. |
| `Retention.Sweep.Cleanup` | apps/server/dopilot_server/services/maintenance.py:167-299 | A task goes only if it is terminal, all its logs are sealed, its outcome is recorded where that counts, it ended before the cutoff and it is on the list, if there is one; with no crash and no bad unlink all such tasks go. Wherever it dies it has only made progress towards the final state, and exactly the bodies whose unlink goes right are gone. |
| `Retention.Sweep.Retry` | apps/server/dopilot_server/services/maintenance.py:193-195 | Any number of attempts, dying anywhere and with any unlinks refused, aim at one final state; one attempt without a crash and a bad unlink reaches it, and later ones stay there. |
| `Retention.Sweep.NextVictim` | apps/server/dopilot_server/services/maintenance.py:445-449 | The oldest eligible task not skipped, or none exactly when every eligible task was skipped. |
| `Retention.Sweep.Evict` | apps/server/dopilot_server/services/maintenance.py:417-475 | Reports recovery exactly when the directory fits; gives up only at the victim limit or when every candidate was tried; every attempt deletes its victim or skips it, and a skipped one had a bad unlink or ended too late; only sealed, recorded, terminal tasks go, and none while an older one stays that was not skipped. |
| `SentSweep.PageIsLeast` | apps/server/dopilot_server/redis/dispatcher.py:227-243 | A page is the least keys of its source: a full batch, or all of them. |
| `SentSweep.Reconciler.Query` | apps/server/dopilot_server/redis/dispatcher.py:227-265 | The page query: least keys below the boundary and past the cursor. |
| `SentSweep.Reconciler.ReconcileOnce` | apps/server/dopilot_server/redis/dispatcher.py:183-319 | One call scans one page, wraps at most once, requeues exactly the rows known to be missing, and keeps its cursor only after a full page. |
| `SentSweep.SweepShrinks` | apps/server/dopilot_server/redis/dispatcher.py:222-243 | Whatever is added or re-stamped, a full page leaves at least a batch fewer rows ahead in the frozen sweep. |
| `SentSweep.AheadIsReached` | apps/server/dopilot_server/redis/dispatcher.py:222-319 | A row ahead of the cursor is scanned as soon as the pages cover what is ahead. |
| `SentSweep.BoundedSweep` | apps/server/dopilot_server/redis/dispatcher.py:202-319 | From any reachable state a row that is old enough and stays is in a scanned page within 2*ceil(n/batch)-1 calls; the source documents the weaker 2*ceil(n/batch)+1. |
| `EventApply.ReplayIsVerdict` | apps/server/dopilot_server/services/events.py:270-299 | Applying reports one at a time ends in the first authoritative terminal, else lost if told, else running if told, else pending. |
| `EventApply.Confluence` | apps/server/dopilot_server/services/events.py:270-299 | Whenever all authoritative terminals told agree, the execution ends in theirs, whatever the order, the repeats and the server's own lost verdicts. |
| `EventApply.OrderDoesNotMatter` | apps/server/dopilot_server/services/events.py:270-299 | Two runs told the same set of reports without conflicting terminals end alike. |
| `EventApply.TerminalsToldAreSaid` | apps/server/dopilot_server/services/events.py:207-315 | Over any interleaving, repeats and server verdicts included, the authoritative terminals an execution was told are exactly those its entries say. |
| `EventApply.DecidedEndsThere` | apps/server/dopilot_server/services/events.py:270-299 | If those agree, every interleaving ends the execution in the same terminal. |
| `EventApply.ConflictIsDecidedByOrder` | apps/server/dopilot_server/services/events.py:291-293 | With two different terminals the first one told stays. |
| `EventApply.HardIsAbsorbing` | apps/server/dopilot_server/services/events.py:291-293 | finished, failed and canceled are never left. |
| `EventApply.RollupMoves` | apps/server/dopilot_server/services/states.py:131-231 | A roll-up is final except for lost, and the next one is always along a task edge. |
| `EventApply.Ledger.TaskMeans` | apps/server/dopilot_server/services/states.py:212-230 | The task is terminal exactly when all its executions are: failed if one failed, else lost if one is lost, else canceled if one was canceled, else complete. |
| `EventApply.Ledger.ApplyEvent` | apps/server/dopilot_server/services/events.py:207-315 | Exact duplicates and unknown executions change nothing; otherwise the execution is what all reports so far say and the task what its executions say; no execution ever has two unresolved reclaims. |
| `EventApply.Ledger.Decide` | apps/server/dopilot_server/services/events.py:274-299 | Each answer goes with its transition; a lost execution takes a new reason from the agent, and from the server only where it has none. |
| `EventApply.ConvergeFirst` | apps/server/dopilot_server/services/executions.py:203-227 | Why a queued task must converge to running before it is rolled up: queued has an edge to the verdict exactly if some execution did not finish, and running always has one. |
| `EventApply.Ledger.UpdateTask` | apps/server/dopilot_server/services/events.py:156-189 | The task is rolled up exactly when its executions are all terminal, re-rolling a lost one. |
| `EventApply.Ledger.MarkLost` | apps/server/dopilot_server/redis/reconcile.py:94-132 | Only an active execution becomes lost, and the task follows. |
| `EventApply.Ledger.Interleave` | apps/server/dopilot_server/redis/reconcile.py:94-132 | Over any interleaving of stream entries and server verdicts each execution was told its distinct entries in order of arrival; where their authoritative terminals agree it ends in theirs; task and executions stay in step and hard terminals stay. |
| `PathQuoting.Unquote` | scripts/redaction/rewrite_history.py:59-76 | The index loop reads exactly the specified escapes, and fails where a number is not octal or not a byte. |
| `PathQuoting.Quote` | scripts/redaction/rewrite_history.py:79-93 | The loop writes exactly the specified quoted form. |
| `PathQuoting.QuoteRoundTrip` | scripts/redaction/rewrite_history.py:59-93 | Every byte string comes back from its quoted form. |
| `PathQuoting.QuoteIsInjective` | scripts/redaction/rewrite_history.py:314-326 | Comparing quoted paths is comparing paths. |
| `PathQuoting.QuotedIsOneLine` | scripts/redaction/rewrite_history.py:79-93 | A quoted path contains no newline. |
| `PathQuoting.QuotedIsPrintable` | scripts/redaction/rewrite_history.py:79-93 | A quoted path is printable ASCII, and contains a blank only within quotes. |
| `PathQuoting.GitQuotingIsRead` | scripts/redaction/rewrite_history.py:56-76 | Every path is read back from git's own quoting: letters, octal escapes and raw bytes. |
| `HistoryRewrite.RewriteCommutes` | scripts/redaction/rewrite_history.py:314-359 | Applying the mapped, settled changes to the mapped parent tree gives exactly the mapped commit tree, file by file stub, else given blob, else text rules, when the path map merges no two paths of either tree. |
| `HistoryRewrite.SettlingIsNeeded` | scripts/redaction/rewrite_history.py:314-326 | Without settling, a rename made by the commit itself would lose the file. |
| `HistoryRewrite.HistoryPreserved` | scripts/redaction/rewrite_history.py:185-311 | Every commit of a history ends up with its own tree, mapped. |
| `HistoryRewrite.Collisions` | scripts/redaction/rewrite_history.py:170-181 | Reports exactly the trees in which the path map merges two paths. |
| `HistoryRewrite.Settle` | scripts/redaction/rewrite_history.py:314-326 | The loop drops exactly the deletes of paths the commit also writes. |
| `HistoryRewrite.LineIsKept` | scripts/redaction/rewrite_history.py:318-326 | Every modification keeps its line, and so does every deletion of a path not written. |
| `HistoryRewrite.LineComesFrom` | scripts/redaction/rewrite_history.py:329-347 | Every line that is left comes from one change of a path mapped there. |
| `ScrapyProgram.RejectUnquotedMetacharacters` | packages/protocol/dopilot_protocol/scrapy_command.py:79-92 | Refuses exactly the texts with a bare metacharacter or an open quote. |
| `ScrapyProgram.Tokenize` | packages/protocol/dopilot_protocol/scrapy_command.py:95-102 | Scan, then POSIX word splitting, with their errors. |
| `ScrapyProgram.ParseScrapyCommand` | packages/protocol/dopilot_protocol/scrapy_command.py:110-159 | The loop computes the specified parse, error reasons included; LastWriteWins and PrintParseIff say what that parse means. |
| `ScrapyProgram.BuildScrapyCommand` | packages/protocol/dopilot_protocol/scrapy_command.py:178-195 | The loops compute the specified command text. |
| `ScrapyProgram.AcceptedIsWellFormed` | packages/protocol/dopilot_protocol/scrapy_command.py:135-157 | An accepted command has names of the allowed form, each key once, and no control character in a value. |
| `ScrapyLastWins.LastWriteWins` | packages/protocol/dopilot_protocol/scrapy_command.py:135-157 | An accepted command is its spider and flags each with a pair; of the pairs behind a flag the last one for a key decides, and the keys stand in the order of their first writes. |
| `ScrapyRoundTrip.PrintThenParse` | packages/protocol/dopilot_protocol/scrapy_command.py:110-195 | For names matching their patterns and surviving values, parsing the built command returns the same spider and the same dictionaries in the same order. |
| `ScrapyExact.PrintParseIff` | packages/protocol/dopilot_protocol/scrapy_command.py:110-195 | For every spider and all dictionaries with valid names, the built command parses back to them if and only if no key repeats and every value survives: no control character, no double quote, a single quote only if it needs quoting, every backslash before something other than a backslash. |
| `ScrapyExact.SurvivesMeans` | packages/protocol/dopilot_protocol/scrapy_command.py:105-195 | Which values those are, character by character. |
| `ScrapyExact.ScanStaysOpen` | packages/protocol/dopilot_protocol/scrapy_command.py:171-175 | A double quote in any value leaves the scan of the whole command open or refused, whatever follows, when the splitter reads every part. |
| `ScrapyWrongWord.WrongWord` | packages/protocol/dopilot_protocol/scrapy_command.py:171-175 | A value the splitter misreads is never the word it yields at that place, whatever flags and values follow. |
| `ScrapyExact.ReadInOrder` | packages/protocol/dopilot_protocol/scrapy_command.py:110-159 | A command that comes back was read with each entry from its own pair and in order: no stray word can make up for a lost one. |
| `ScrapyExact.MisreadIsLost` | packages/protocol/dopilot_protocol/scrapy_command.py:171-195 | With a misread value anywhere the command does not come back. |
| `WebMirror.Tokenize` | apps/web/lib/scrapyCommand.ts:21-62 | The character loop computes the specified web words or refusal. |
| `WebMirror.CheckScrapyCommand` | apps/web/lib/scrapyCommand.ts:64-107 | The loop over the words computes the specified verdict. |
| `WebWords.TokensAgreeIff` | apps/web/lib/scrapyCommand.ts:21-62 | Of commands the parser's splitter takes apart the form sees the same words if and only if between double quotes no backslash escapes a backslash or a double quote. |
| `WebWords.TokensClose` | apps/web/lib/scrapyCommand.ts:21-62 | Unless a double quote is escaped the two see the same words up to doubled backslashes, or the same refusal. |
| `WebMirror.FormAcceptsIff` | apps/web/lib/scrapyCommand.ts:64-107 | Unless a double quote is escaped between double quotes, of the commands accepted by the parser the form accepts exactly those in which no name ends with a newline. |
| `WebMirror.AcceptedByTheForm` | apps/web/lib/scrapyCommand.ts:64-107 | On one line, every such command the parser accepts the form accepts, outer trimming included. |
| `WebMirror.NewlineBreaksTheMirror` | apps/web/lib/scrapyCommand.ts:81-84 | A quoted newline behind the spider is accepted by the parser and refused by the form. |
| `WebMirror.EscapesBreakTheMirror` | apps/web/lib/scrapyCommand.ts:21-62 | An escaped quote inside quotes is one pair to the parser and a stray word to the form. |
| `StreamGuards.StreamGuard.EnforceOnce` | apps/server/dopilot_server/redis/stream_guard.py:88-145 | At most eight rounds; usage ends within budget or the stream is empty; survivors are the newest entries and every removed one is counted. Whatever the entries weigh, the stream is cleared exactly if a cut left nothing or the budget is still missed after a round that freed less than a twentieth or was the eighth; with uniform entries one round suffices. |
| `StreamGuards.StreamGuard.Cut` | apps/server/dopilot_server/redis/stream_guard.py:114-120 | A cut removes at least one oldest entry and, with uniform entries, lands within one entry of 80% of the budget. |
| `StreamGuards.OneCutSuffices` | apps/server/dopilot_server/redis/stream_guard.py:114-115 | With uniform entries one cut keeps more than 80% of the budget less one entry and at most 80%, and empties the stream exactly if one entry exceeds that share. |

## Left out

- LogPublishers.LogPublisher.Ticks: bytes spent in one process life; after a restart the bucket is full again, and slipped bytes are not counted.
- LogPublishers.LogPublisher.PublishOnce: an exception while reading one execution is modelled as a failed turn; log counters and status fields are not modelled.
- StreamGuards.OneCutSuffices: exact reals in place of floats; rounding is not modelled.
- PathQuoting.Unquote: Python's `int(s, 8)` also takes signs, blanks, underscores and a `0o` prefix; only plain octal digits are modelled.
- HistoryRewrite.RewriteCommutes: M and D changes of blobs only; C, R, deleteall, inline data and gitlinks of fast-export, file/directory clashes and commit-id remapping are not modelled, and the parsing of a source line into mode, reference and path is taken as done.
- SentSweep.BoundedSweep: assumes that a key not present at one call carries a stamp no older than that call's cutoff; command ids are ordered numbers.
- Retention.Sweep.Cleanup: other writers between its steps touch other tasks only; counters of the summary and the dry run are not modelled; two rows with one path belong to one task.
- EventApply.Ledger.ApplyEvent: heartbeats, timestamps, exit statistics, notifications and the dispatcher's own failure marks are not modelled; one task at a time.
- WebMirror.FormAcceptsIff: says nothing about commands with an escaped double quote; there the form can refuse (EscapesBreakTheMirror) or see other pairs than the parser.
- ScrapyExact.PrintParseIff: names match their patterns; a name that does not is refused or read as another word.
- ScrapyProgram.BuildScrapyCommand: non-string values are taken as their text.
- LogReceiver.LogConsumer.Apply: base64, SSE fan-out, the stop_logs command and the notification on truncation are not modelled.
- Events.EventPublisher.ReplayOutbox: unreadable outbox files are not modelled.
- Agents.CommandConsumer.Serve: one execution; stats, heartbeats and the wheel subprocess beyond its state-file effects are not modelled.
- KeyedLocks.KeyedLock.Interleave: fairness of the underlying asyncio lock is not modelled.
- The dispatcher's per-row delivery and give-up bookkeeping, the artifact cache sweep, the upload quota, drained-log finalization, schedules and the circuit breaker: they would add easy members.
- Web UI, authentication, configuration, dashboards, views, HTTP, SQL, Redis and scrapyd clients: plumbing.
