# Verified model of the ingest and analysis backend

This project models the parts of the backend in which processes, retries, limits and token arithmetic interact, and
proves what they guarantee. `dafny verify dfyconfig.toml` checks everything.

## What is modelled

**The FULL_BLOG batch protocol** (`BatchProtocol`, `BatchGuarantees`, `BatchProgress`, `BatchDeliveries`,
`BatchRetries`, `BatchDeadlines`, `BatchTexts`, `BatchShortfalls`, `BatchWorker`). Many worker
processes track one batch in Redis: a set of document ids, a counter, a deadline set once, and a status key that serves
as a lock. The protocol is a state machine in which every Redis command, database transaction and broker publish is one
atomic step. Any number of handlers interleave in any order. A command may succeed, raise without effect, take effect
and then raise, or be cut short by a crash. `BatchWorker.Cluster` is the handler in the source's own order of commands;
between any two of its commands other processes take any steps, and everything it does is a run of the machine.

**The two at-least-once workers** (`RetryQueue`, `RetryBounds`, `FollowUps`, `PendingClaims`, `Workers`). One machine covers the ingest worker on the
Redis stream and the analysis worker on the RabbitMQ queue: deliveries, takeovers of pending messages, settlement,
retries with a raised count, dead-lettering. `Workers.Broker` holds both handlers, the failure handler, the stream reads
and the ingest loop as methods on top of that machine.

**The token bucket** (`TokenBucket`, `WallClock`): the Lua script with its hash, expiry and retry time, and whole traces of calls.

**The chunker** (`Paragraphs`, `TokenWindows`, `Packing`, `Chunker`, `ChunkLaws`, `ChunkSizes`): paragraph splitting, greedy packing,
sliding windows, overlap. The tokenizer is an arbitrary pair of functions; a lemma that needs a law of it says so.

**The document index** (`EmbeddingCache`, `DocumentIndex`, `BlogSnapshot`): the cache, the merge of hits and misses, upsert,
the ingest transaction with rollback, and the snapshot service on top.

**The conversation** (`Conversation`, `ConversationService`): the token and turn limits of a session with up to k calls in
flight, resets and expiries. **The retrieval query** (`Retrieval`): the three best-chunk-per-document queries.

## Assumptions

- A batch runs within the 24 hours its Redis keys live. All messages of a batch carry the same user and expected count.
- Posts carry distinct, non-empty external ids; `blog_id` is numeric.
- A command that is retried inside the Redis client counts as one command.
- Ingests are serial transactions, the cache key hash is injective, and the embedding function is deterministic.
- The bucket parameters of a key are fixed, the refill rate is positive, and token counts are reals: rounding of
  floating-point numbers is not modelled.
- The documents table has its unique key on user, source type and external id.

## Where the code does less than its comments say

- `completed` can be left. A worker whose completing write took effect but whose reply was lost goes on to write
  `failed`. `LeavingCompleted` gives the exact step, `CanLeaveCompletedIff` the exact states from which it
  can happen, `LostReplyLeavesCompleted` a run.
- The counter counts handler runs, not documents. A retried post is counted twice, and the snapshot can then be built
  without a post although no deadline has passed (`RetryShortensSnapshot`). `SnapshotExactIff` gives the exact condition,
  one the worker could check: the set it reads has as many members as are expected. `SnapshotIsExact` derives from it
  that a batch in which no post was counted twice before the trigger is complete.
- A batch can be left with its status at `creating` and no worker on it, and is then never published
  (`AbandonedForever`). While nothing has been published and messages of the batch may still be delivered, that is
  the only obstacle: a message can come out if and only if the lock is not abandoned (`CanPublishIffNotAbandoned`). A run
  has abandoned its lock if and only if one of three faults hit (`AbandonedIffOrphaned`): a worker crashed inside snapshot
  creation (`CrashAbandonsBatch`), the command that won the lock lost its reply, with no crash at all
  (`LostReplyAbandonsBatch`), or the failure mark did not reach Redis.
- The partial snapshot after the deadline is promised for a batch with missing posts, but only a handler looks at the
  deadline. When the last handler has ended without publishing, because the missing posts were dead-lettered or the
  message that failed used up its retries, nobody ever finds the deadline passed (`NobodySeesDeadline`). Without further
  deliveries an unpublished batch can still be published if and only if its lock is not abandoned and some handler is
  running that does not just mark a failure (`CanPublishUndeliveredIff`). What retries achieve is `RetriedBatchPublishes`:
  when at least the expected number of increments was made and every failed handler was followed by another increment,
  the message is out once all handlers have ended, unless the lock was abandoned.
- The entry is acknowledged before the batch is tracked and the analysis is requested. A crash in between loses that
  follow-up for good (`CrashLosesFollowUp`). A settled message can still be followed up, retried or dead-lettered if and
  only if it has been, or a handler has it in hand (`CanFollowUpIffInHand`); a follow-up goes missing only when a handler
  dies after its acknowledgement (`FollowedUpOrCut`).
- A non-numeric expected count raises outside the handler's `try`: the message kills every worker that takes it. An
  unsettled message can still be settled if and only if it is not such a message (`CanSettleIffNotPoison`).
- XAUTOCLAIM looks at ten pending entries for each one asked for and the worker always starts at the oldest, so idle
  entries behind many fresh ones are not reached (`IdleBehindFresh`; `ClaimedIff` gives the exact condition).
- Several instances with clocks that disagree can exceed the bucket's bound over a wall-clock window
  (`SteppingBackBreaksWallClockBound`). For given clock readings the bound holds for all parameters and costs if and only
  if the clock never steps back in the window (`WallClockBoundIff`).
- Key expiry can show when clocks disagree: it stays invisible for all parameters and costs if and only if between two
  calls the clock of Redis never runs ahead of the callers' clocks by more than the minute of slack that the script adds
  to the time to live, and a millisecond (`ExpiryInvisibleIff`).
- The packing does not count the blank lines between paragraphs, so a packed chunk can exceed the chunk size
  (`SeparatorsExceedChunkSize`, on a text of two words). `JoinCount` and `FinalCount` give the exact size of a chunk for
  any tokenizer, `ChunkSizeBound` a bound for one whose joins cost at most a given number of tokens.
- The chunker's constructor accepts a negative overlap, and then tokens are skipped: a token list is rebuilt if and only
  if the overlap is not negative or the list fits into one window (`RebuildsIff`).
- The class comment of the chunker speaks of sentences; the code slices tokens, and so does the model.
- A fault between the two appends of a chat call leaves an unanswered message or a reply without its question
  (`FirstCutBreaksAlternation`).
- The documents under `docs/etc` and the architecture decision record describe an older crawler; the model follows the
  code.

## Model

| member | source | states |
|---|---|---|
| `BatchGuarantees.MutualExclusion` | app/worker/ingest_worker.py:225-242 | in every run at most one worker is inside snapshot creation, and the status is `creating` meanwhile unless its own completing write took effect without a reply |
| `BatchGuarantees.PublishBound` | app/worker/ingest_worker.py:219-285 | in every run the messages taken by the broker number at most one plus the faults that hit after a message was taken and before the completing write was acknowledged |
| `BatchGuarantees.LateFaultStep` | app/worker/ingest_worker.py:267-285 | a step counts such a fault exactly when the publish or the completing write takes effect without a reply, or the completing write is refused |
| `BatchProgress.PublishBoundIsMet` | app/worker/ingest_worker.py:219-285 | for every batch and every n a run with n such faults and n + 1 messages: the bound cannot be lowered |
| `BatchGuarantees.FaultFreePublishesOnce` | app/worker/ingest_worker.py:219-242 | without faults, once at least the expected number of handlers has run and all have finished, exactly one message is out and the status is `completed` |
| `BatchGuarantees.PostsFound` | app/service/blog_snapshot_service.py:57-64 | a worker of the batch that builds the snapshot always finds a post, so the not-found error never ends a batch |
| `BatchGuarantees.OneSnapshot` | app/service/blog_snapshot_service.py:49-97 | all messages of a batch name one snapshot document of its user, the only one, and each lists every post in its content |
| `BatchGuarantees.SnapshotNeverChanges` | app/service/blog_snapshot_service.py:48-55 | a committed snapshot is the same after any further events, including updates of its posts |
| `BatchGuarantees.SnapshotCoversTrigger` | app/worker/ingest_worker.py:202-219 | a snapshot has every document counted up to the count that triggered it, only documents of the batch, and fewer than expected only when its writer found the deadline passed |
| `BatchGuarantees.ExactAtRead` | app/worker/ingest_worker.py:250-251 | when a worker reads the set, the posts it will find are exactly the expected ones if and only if the set has as many members as are expected |
| `BatchGuarantees.SnapshotWasRead` | app/worker/ingest_worker.py:250-265 | a committed snapshot has exactly the posts of the set at the moment the worker whose commit added it had read it |
| `BatchTexts.SnapshotTexts` | app/service/blog_snapshot_service.py:57-70 | in every run a committed snapshot holds the texts its posts had at one moment, when its writer looked them up before its commit |
| `BatchGuarantees.SnapshotExactIff` | app/worker/ingest_worker.py:219-265 | in every run the committed snapshot has exactly the expected posts if and only if the set had that many members when the worker that wrote it read it |
| `BatchGuarantees.SnapshotIsExact` | app/worker/ingest_worker.py:202-219 | and so it has without the deadline and without a post counted twice before the trigger |
| `BatchGuarantees.LeavingCompleted` | app/worker/ingest_worker.py:275-285 | the status leaves `completed` if and only if a worker marks the batch failed, and that worker's completing write had taken effect |
| `BatchGuarantees.CanLeaveCompletedIff` | app/worker/ingest_worker.py:275-285 | a completed status is left by some continuation if and only if a worker is about to mark the batch failed |
| `BatchGuarantees.CompletedStays` | app/worker/ingest_worker.py:225-242 | in every run in which no completing write loses its reply, a status of `completed` is never left |
| `BatchProgress.AbandonedForever` | app/worker/ingest_worker.py:227-231 | once the status is `creating` with no worker inside, no events whatever publish anything |
| `BatchProgress.CanPublishIffNotAbandoned` | app/worker/ingest_worker.py:219-285 | in every run in which nothing has been published yet, some continuation, which may deliver further messages of the batch, publishes if and only if the lock is not abandoned |
| `BatchDeliveries.CanPublishUndeliveredIff` | app/worker/ingest_worker.py:210-242 | in every run in which nothing has been published yet, some continuation without further deliveries publishes if and only if the lock is not abandoned and a handler is running that does not just mark a failure |
| `BatchShortfalls.NobodySeesDeadline` | app/worker/ingest_worker.py:210-219 | a run with one of two posts counted and a free lock, after which, without further deliveries, nothing is ever published, however far the deadline is passed |
| `BatchRetries.DecidedBatchPublishes` | app/worker/ingest_worker.py:206-285 | when no handler fails after an increment that reached the expected count, or that came after the deadline with a clock not set back, and all have ended, a message is out unless the lock was abandoned |
| `BatchRetries.RetriedBatchPublishes` | app/worker/ingest_worker.py:206-285 | in every run with faults and crashes: when every failed handler is followed by another increment, at least the expected number was made, and all handlers have ended, a message is out unless the lock was abandoned |
| `BatchRetries.DutyStep` | app/worker/ingest_worker.py:219-242 | a step that does not fail keeps some handler responsible for the message until it is out |
| `BatchDeliveries.TimedStep` | app/worker/ingest_worker.py:194-231 | every step keeps a deadline for each handler that will look at it, and a status for each that was refused the lock |
| `BatchProgress.StartOver` | app/worker/ingest_worker.py:210-242 | with the lock free or failed, one more delivery of any post brings one message out after the deadline, without a fault |
| `BatchProgress.EnteringAbandoned` | app/worker/ingest_worker.py:225-285 | a step abandons the lock if and only if it is a crash inside, a lost reply of the command that wins the lock, or a refused failure mark |
| `BatchProgress.AbandonedIffOrphaned` | app/worker/ingest_worker.py:225-285 | a run has abandoned its lock if and only if one of its steps was such a fault |
| `BatchGuarantees.DeadlineIsFixed` | app/worker/ingest_worker.py:194-200 | once set, the deadline is the same after any further events |
| `BatchDeadlines.DeadlineWasSet` | app/worker/ingest_worker.py:194-200 | in every run a deadline is the clock of the event that set it plus 1800 |
| `BatchDeadlines.LateIsOverdue` | app/worker/ingest_worker.py:210-219 | a handler that counts as late looked at the deadline more than 1800 seconds after an earlier event of the run set it |
| `BatchDeadlines.LateRowIsOverdue` | app/worker/ingest_worker.py:210-219 | so did, before its commit, the worker that wrote a snapshot that counts as late |
| `BatchDeadlines.PartialIsOverdue` | app/worker/ingest_worker.py:198-219 | a snapshot with fewer than the expected posts counted was written by a worker that looked more than 1800 seconds after the deadline was set |
| `BatchDeadlines.OnTimeWaits` | app/worker/ingest_worker.py:210-219 | a handler that looks at most 1800 seconds after it was set, with fewer than the expected posts counted, ends there and changes nothing |
| `BatchShortfalls.RetryShortensSnapshot` | app/worker/ingest_worker.py:202-219 | a run in which a retried post is counted twice and the snapshot lacks the other post |
| `BatchShortfalls.LostReplyLeavesCompleted` | app/worker/ingest_worker.py:275-285 | a run that goes from `completed` to `failed` |
| `BatchShortfalls.CrashAbandonsBatch` | app/worker/ingest_worker.py:225-242 | a run in which all posts are counted, and after a crash nothing is ever published |
| `BatchShortfalls.LostReplyAbandonsBatch` | app/worker/ingest_worker.py:227 | a run without a crash in which all posts are counted and nothing is ever published |
| `BatchProtocol.InvRun` | app/worker/ingest_worker.py:167-285 | mutual exclusion, counting, snapshot and publishing invariants hold together in every run |
| `BatchProtocol.MutexStep` | app/worker/ingest_worker.py:33-43 | every step of every handler keeps the lock exclusive, including the failed-to-creating script |
| `BatchProtocol.CountingStep` | app/worker/ingest_worker.py:202-219 | every step keeps the counter equal to the number of increments, each by a handler that had added its document first |
| `BatchProtocol.SnapshotsStep` | app/worker/ingest_worker.py:250-274 | every step keeps the snapshot row and the published id lists in agreement |
| `BatchProtocol.OriginsStep` | app/worker/ingest_worker.py:203 | every collected id stays the id of a document handled for this batch |
| `BatchProtocol.PublishingStep` | app/worker/ingest_worker.py:267-285 | every step keeps each message but one paid for by a fault |
| `BatchProtocol.FindSnapshot` | app/service/blog_snapshot_service.py:30-33 | the row found is the user's, and none is found only if there is none |
| `BatchWorker.Cluster.HandleFullBlogBatch` | app/worker/ingest_worker.py:167-242 | the handler, command by command among other processes, is a run of the protocol and ends finished or raised |
| `BatchWorker.Cluster.TrackBatch` | app/worker/ingest_worker.py:187-200 | metadata, then the deadline, in this order |
| `BatchWorker.Cluster.CountPost` | app/worker/ingest_worker.py:202-208 | the document id, then the counter, whose reply is the handler's count |
| `BatchWorker.Cluster.EnterSnapshot` | app/worker/ingest_worker.py:225-239 | the worker goes on to the snapshot only by setting the missing status or winning the takeover |
| `BatchWorker.Cluster.RetryFailed` | app/worker/ingest_worker.py:229-239 | a batch that is creating or completed is left alone; a failed one is taken over only by the transition |
| `BatchWorker.Cluster.CreateSnapshotAndPublish` | app/worker/ingest_worker.py:244-285 | snapshot, message, completing write; an exception in any of them marks the batch failed and is raised |
| `BatchWorker.Cluster.BuildSnapshot` | app/worker/ingest_worker.py:250-265 | ids, user and snapshot transaction lead to the publish or to the failure mark |
| `BatchWorker.Cluster.CommitSnapshot` | app/service/blog_snapshot_service.py:49-97 | the lookup and the write end at the publish, and at the failure mark only when a command faulted |
| `BatchWorker.Cluster.LookUp` | app/service/blog_snapshot_service.py:49-64 | an existing snapshot or the posts lead to the write; finding neither would raise, and does not happen |
| `BatchWorker.Cluster.TakeOver` | app/worker/ingest_worker.py:232-239 | the reply of the script decides whether the worker goes on |
| `BatchWorker.IsRunExec` | app/worker/ingest_worker.py:167-285 | everything a cluster has done is a run of the protocol, so all its guarantees apply |
| `RetryQueue.NothingLost` | app/worker/ingest_worker.py:107-137 | with a crash possible between any two commands, a settled message has its document or job committed, or a successor in the queue, or a dead-letter copy |
| `RetryQueue.SafeStep` | app/worker/analysis_worker.py:84-182 | every step of either worker keeps settled messages covered and every run in step with what it has published |
| `RetryQueue.RetriesAreCopies` | app/worker/ingest_worker.py:357-362 | in every run a retry has the fields of the message it retries and a count larger by one |
| `RetryBounds.PoisonIsForever` | app/worker/ingest_worker.py:78-79 | in every run a message with a non-numeric expected count is never settled, retried or dead-lettered |
| `FollowUps.CanSettleIffNotPoison` | app/worker/ingest_worker.py:72-137 | after any events, an unsettled message of either worker can still be settled if and only if it is not one with a non-numeric expected count on the stream |
| `FollowUps.CommittedWasAccepted` | app/worker/analysis_worker.py:84-124 | in every run of either worker, each committed document or job comes from a message that some handler has read as valid, and on the queue with its correlation id resolved |
| `FollowUps.FollowedUpOrCut` | app/worker/ingest_worker.py:133-165 | in every run of the ingest worker a settled message was followed up, retried or dead-lettered, or a handler is or died between its acknowledgement and that |
| `FollowUps.CutByDeath` | app/worker/ingest_worker.py:137-165 | a follow-up counts as cut only when a handler died over the acknowledged message, before the follow-up or in giving the message up |
| `FollowUps.CanFollowUpIffInHand` | app/worker/ingest_worker.py:137-165 | after any events, a settled message can still be followed up, retried or dead-lettered if and only if it has been or an active handler has it |
| `FollowUps.CrashLosesFollowUp` | app/worker/ingest_worker.py:137-157 | a run with a crash right after the acknowledgement, after which the follow-up never happens |
| `FollowUps.RefusedCommitIsRetried` | app/worker/ingest_worker.py:133-165 | a run in which the commit raises without effect: nothing is committed, and a retry with count 1 waits |
| `FollowUps.LostAckRetriesCommitted` | app/worker/ingest_worker.py:133-165 | a run in which the acknowledgement loses its reply: the message is committed and settled, and retried all the same |
| `FollowUps.CompletionIsBestEffort` | app/worker/analysis_worker.py:184-216 | once it has acknowledged its commit a run of the analysis worker never retries or rejects the message, whatever events follow |
| `FollowUps.RejectIsFinal` | app/worker/analysis_worker.py:86-92 | in every run of the analysis worker a rejected message is settled by the reject alone |
| `RetryBounds.OneDescendant` | app/worker/ingest_worker.py:357-379 | without crashes and takeovers each produced message has exactly one descendant not handed on, with its payload: waiting, running, completed and committed, or dead-lettered once |
| `RetryBounds.RunBound` | app/worker/ingest_worker.py:357-386 | ... and is handled at most max(0, max_retries - retry_count) + 1 times, retries included |
| `RetryBounds.TotalRunBound` | app/worker/analysis_worker.py:93-109 | ... and all runs together stay within the sum of these budgets, unresolved correlation ids included |
| `RetryBounds.OrderlyStep` | app/worker/analysis_worker.py:218-232 | every undisturbed step keeps chains unforked, one run per message, and each retry one smaller in budget |
| `Workers.Broker.RunIngest` | app/worker/ingest_worker.py:59-68 | the runs it reports are exactly those that reads and claims handed to the worker; all have ended, and unless the process died the message of each is settled and accounted for |
| `Workers.Broker.Turn` | app/worker/ingest_worker.py:63-67 | one turn claims, else reads, and handles all it is handed; it is handed nothing only when every message has been delivered |
| `Workers.Broker.CommitAndAck` | app/worker/ingest_worker.py:133-137 | the work, then the acknowledgement; an exception in either goes to the failure handler |
| `Workers.Broker.HandleAll` | app/worker/ingest_worker.py:66-67 | every message of a delivery is handled to its end, or dies with the process |
| `Workers.Broker.Read` | app/repository/crawl_queue.py:41-49 | the next undelivered entries in order, at most a batch, and all of them if fewer |
| `Workers.Broker.ClaimPending` | app/repository/crawl_queue.py:51-64 | of the oldest pending entries, ten for each one asked for, those that are idle, in stream order, at most a batch |
| `PendingClaims.ClaimedIff` | app/repository/crawl_queue.py:51-64 | an entry is claimed if and only if it is pending and idle, fewer than ten batches are pending before it, and fewer than a batch of these are idle |
| `PendingClaims.ClaimedInOrder` | app/repository/crawl_queue.py:51-64 | the claimed entries are at most a batch, oldest first |
| `PendingClaims.IdleBehindFresh` | app/repository/crawl_queue.py:51-64 | for every batch size, an idle entry behind ten times as many fresh ones is not claimed, and nothing is |
| `Workers.Broker.HandleIngest` | app/worker/ingest_worker.py:72-165 | the ingest handler among other processes is a run of the machine; a poison message kills it, and unless it dies an invalid message ends dead-lettered and a valid one done, or handed on or dead-lettered by its retry count |
| `Workers.Broker.HandleAnalysis` | app/worker/analysis_worker.py:84-132 | the same for the analysis handler: unless it dies, an invalid message ends dead-lettered, one with an unresolved correlation id handed on while its count is below max_retries and dead-lettered after that |
| `Workers.Broker.HandleFailure` | app/worker/ingest_worker.py:357-379 | publish the retry, then settle; or give the message up, depending on its count |
| `Workers.Broker.SendToDlq` | app/repository/crawl_queue.py:77-81 | copy to the dead-letter queue, then settle |
| `RetryQueue.ClosedStep` | app/repository/crawl_queue.py:66-71 | every step keeps: only delivered messages are settled, and a handler that ended alive has settled its message |
| `Workers.IsRunExec` | app/worker/ingest_worker.py:59-68 | everything a broker has done is a run of the retry machine |
| `TokenBucket.RateLimiter.Consume` | app/core/rate_limiter.py:24-98 | one atomic evaluation: what it finds, its reply, the new hash and expiry of its own key, and no other key; after any calls with one set of parameters and clocks that agree, the reply is the one the trace of all calls on the key calls for |
| `TokenBucket.RateLimiter.Evaluate` | app/core/rate_limiter.py:28-45 | the script between its read and its write, with its arithmetic written out |
| `TokenBucket.ClosedForm` | app/core/rate_limiter.py:24-47 | after the refill the tokens are the minimum over all earlier calls of capacity plus refill since then minus grants since then, and a call is denied exactly when some window cannot pay |
| `TokenBucket.WindowBound` | app/core/rate_limiter.py:33-41 | grants in any window of any trace never exceed capacity plus the refill credited in it |
| `TokenBucket.UptimeIsWallClock` | app/core/rate_limiter.py:33-47 | the credited length equals the wall-clock length if and only if the clock never steps back in the window |
| `TokenBucket.WallClockBound` | app/core/rate_limiter.py:33-47 | with such clocks, grants never exceed capacity plus rate times length |
| `WallClock.WallClockBoundIff` | app/core/rate_limiter.py:33-47 | for any clock readings the bound holds for all parameters and costs if and only if the clock never steps back in the window |
| `TokenBucket.SteppingBackBreaksWallClockBound` | app/core/rate_limiter.py:47 | two grants at one instant from a bucket of one, after a late clock |
| `TokenBucket.ExpiryInvisible` | app/core/rate_limiter.py:28-50 | in every trace in which the clock of Redis keeps within the slack of the callers' clocks (`ClocksAgree`), expiring keys find the same tokens and write the same hash as if keys lived forever |
| `WallClock.ExpiryInvisibleIff` | app/core/rate_limiter.py:28-50 | for any clock readings expiry is invisible for all parameters and costs if and only if the clocks agree within that slack and a millisecond |
| `TokenBucket.TokensInRange` | app/core/rate_limiter.py:33-41 | tokens stay between 0 and the capacity over every trace |
| `TokenBucket.RetryAfterIsExact` | app/core/rate_limiter.py:42-45 | after a denial, whatever denied probes come between, a call is allowed from `retry_after_ms` on and not a millisecond earlier |
| `TokenBucket.OversizedNeverGranted` | app/core/rate_limiter.py:39-45 | a cost above the capacity is never granted |
| `TokenBucket.HeaderIsLeast` | app/api/error_handlers.py:15 | the Retry-After header is the least number of seconds that suffices |
| `TokenBucket.RemainingIsBurst` | app/core/rate_limiter.py:52 | the truncated reply is the largest burst that would be granted at once |
| `Paragraphs.ParagraphsKeepInk` | app/service/chunker.py:31-35 | splitting loses nothing but white space, and no paragraph is blank |
| `Paragraphs.SplitIff` | app/service/chunker.py:35 | splitting yields the one list of parts that joins to the text with blank lines, none with a blank line in it and none but the last with a newline at its end |
| `Paragraphs.StripExact` | app/service/chunker.py:31 | stripping takes white space off both ends, and all of it |
| `Paragraphs.ParagraphsExact` | app/service/chunker.py:31-35 | the paragraphs are the stripped parts in order, and only blank parts are left out |
| `TokenWindows.WindowSizes` | app/service/chunker.py:75-79 | every window has at most the chunk size, and all but the last exactly that |
| `TokenWindows.LastWindow` | app/service/chunker.py:78-79 | the last window ends with the text |
| `TokenWindows.WindowsShare` | app/service/chunker.py:74-77 | consecutive windows share exactly the overlap |
| `TokenWindows.WindowsRebuild` | app/service/chunker.py:71-80 | dropping the shared tokens of every later window gives back the token list |
| `TokenWindows.WindowCount` | app/service/chunker.py:75-79 | no window, one, or 1 + ceil((n - size) / (size - overlap)) of them |
| `TokenWindows.CeilDivLeast` | app/service/chunker.py:74-75 | the ceiling in that count is the least number of steps that reach the end |
| `TokenWindows.RebuildsIff` | app/service/chunker.py:24-25 | a token list is rebuilt if and only if the overlap is not negative or the list fits into one window |
| `TokenWindows.RebuildsIffNonNegative` | app/service/chunker.py:24-25 | rebuilding works for all token lists if and only if the overlap is not negative |
| `Packing.PackIsTheGreedy` | app/service/chunker.py:35-59 | the pieces partition the paragraphs in order, none is empty or above the chunk size, no paragraph would have fitted into the piece before it, and they are the only such packing |
| `Packing.PackIsGreedy` | app/service/chunker.py:40-59 | the loop, from any open buffer on, yields such a packing |
| `Packing.GreedyUnique` | app/service/chunker.py:51-56 | there is only one greedy packing of a list of paragraphs |
| `Packing.FewPieces` | app/service/chunker.py:51-53 | neighbouring pieces together hold more than one chunk size |
| `Packing.PieceBound` | app/service/chunker.py:40-59 | T tokens without a long paragraph make at most 2T / size + 1 pieces |
| `Chunker.TextChunker.Create` | app/service/chunker.py:23-28 | construction fails exactly when the chunk size is not above the overlap |
| `Chunker.TextChunker.Chunk` | app/service/chunker.py:30-66 | the loops compute the overlapped rendering of the packing; chunk i has index i and the token count of its content |
| `Chunker.TextChunker.PackParagraphs` | app/service/chunker.py:40-59 | the packing loop renders exactly the greedy packing |
| `Chunker.TextChunker.SliceLongText` | app/service/chunker.py:71-80 | the slicing loop yields the decoded windows and always ends at its break |
| `Chunker.TextChunker.OverlapChunks` | app/service/chunker.py:82-91 | every later chunk is prefixed with the decoded last tokens, `overlap` of them or all there are, of the original chunk before it, and a blank line |
| `Chunker.OverlapExact` | app/service/chunker.py:82-91 | the same of the rendering all chunking results are stated in, for overlaps of either sign |
| `Chunker.JoinIsJoined` | app/service/chunker.py:46 | the paragraphs of a chunk are joined with blank lines |
| `ChunkLaws.OverlapIsInvertible` | app/service/chunker.py:82-91 | removing the tails gives back the chunks, for any tokenizer |
| `ChunkLaws.ChunksKeepText` | app/service/chunker.py:30-66 | without long paragraphs the chunks less their tails hold the whole text but for white space, in order, for any tokenizer |
| `ChunkLaws.ChunksKeepTokens` | app/service/chunker.py:30-80 | for every text: the chunks less their tails render pieces that hold the whole text but for white space, in order, and the windows of a long paragraph rebuild its tokens |
| `ChunkLaws.NoChunksIffBlank` | app/service/chunker.py:31-33 | a text has no chunks if and only if it is blank |
| `ChunkSizes.JoinCount` | app/service/chunker.py:46-59 | a joined group counts its paragraphs plus what its joins cost, for any tokenizer |
| `ChunkSizes.FinalCount` | app/service/chunker.py:61-66 | the exact count of every final chunk, tail included, for any tokenizer |
| `ChunkSizes.ChunkSizeBound` | app/service/chunker.py:82-91 | when a join costs at most `cost` tokens, a final chunk has at most chunk size plus overlap plus `cost` for each paragraph of its piece |
| `ChunkSizes.SeparatorsExceedChunkSize` | app/service/chunker.py:51-59 | a text of two short paragraphs that becomes one chunk above the chunk size |
| `EmbeddingCache.EmbeddingCache.GetMany` | app/repository/embedding_cache.py:37-53 | hits and misses of every text, the misses in order |
| `EmbeddingCache.EmbeddingCache.SetMany` | app/repository/embedding_cache.py:55-67 | all entries are written and stay faithful, or on a length mismatch none |
| `EmbeddingCache.EmbeddingCache.EmbedWithCache` | app/service/document_service.py:176-205 | for any contents of the cache and any duplicates the result is the embedding of each text, every text that was missing is stored afterwards, a fault raises when it hits a step taken, and the cache stays faithful all the same |
| `EmbeddingCache.EmbeddingCache.Expire` | app/repository/embedding_cache.py:66 | entries that expire, also between the lookup and the write, leave the cache faithful |
| `EmbeddingCache.Merge` | app/service/document_service.py:188-205 | the loop takes every miss when it reaches it, so its assertion never fires |
| `EmbeddingCache.MergedIsEmbedAll` | app/service/document_service.py:188-205 | the merged list is the list of embeddings |
| `DocumentIndex.ReplayIndexed` | app/service/document_service.py:47-78 | after every history of new documents, updates, blank contents and rolled-back failures, the chunks of every document are those of its content, in order, with counts and embeddings, and keys are unique |
| `DocumentIndex.IngestedIndexed` | app/service/document_service.py:52-73 | one ingest keeps that for every document, not only its own |
| `DocumentIndex.RowsReplaced` | app/service/document_service.py:152 | replacing one document's chunks leaves all others' as they were |
| `DocumentIndex.KeysStayUnique` | app/domain/models.py:59-62 | writing the target row keeps keys unique |
| `DocumentIndex.LastIngestWins` | app/service/document_service.py:137-168 | a document holds what its last committed ingest wrote, whatever happened to others since |
| `DocumentIndex.DocumentService.UpsertDocument` | app/service/document_service.py:137-168 | the row with the request's key is overwritten and loses its chunks, else a row is added; it fails only on a key that was not looked up |
| `DocumentIndex.DocumentService.IngestAndChunk` | app/service/document_service.py:47-78 | what the open transaction holds afterwards, and the chunk count |
| `DocumentIndex.DocumentService.StoreChunks` | app/service/document_service.py:59-73 | one row per chunk with its embedding is added, or nothing |
| `DocumentIndex.DocumentService.Ingest` | app/core/database.py:31-42 | all of it is committed or nothing; what is committed is the upsert column by column; it fails if and only if the external id is empty and taken, the commit raises, or chunks exist and a fault hits their embedding; a commit that takes effect and raises has written the same; the index stays in step |
| `DocumentIndex.IngestedIsWritten` | app/service/document_service.py:137-168 | the row whose user, type and non-empty external id equal the request's is overwritten, else a row is added; every row that differs in one of them keeps its columns and its chunks; no two rows share all three |
| `DocumentIndex.RowsOfExact` | app/domain/models.py:75-105 | the chunk rows of a document are all rows with its id, in order |
| `DocumentIndex.Database.FindByExternalId` | app/repository/document_repository.py:22-30 | finds the row with the key if and only if there is one; several never occur |
| `DocumentIndex.Database.Create` | app/repository/document_repository.py:14-17 | adds the row under a fresh id unless its key is taken |
| `DocumentIndex.ZipRows` | app/service/document_service.py:63-72 | one row per chunk with its own embedding, in order |
| `BlogSnapshot.BlogSnapshotService.CreateSnapshot` | app/service/blog_snapshot_service.py:35-97 | an existing snapshot is returned and nothing changes; else the committed row has the posts that exist, each with its title and first 3000 characters, in the order of the ids, and the metadata of the batch; without any post it fails |
| `BlogSnapshot.BlogSnapshotService.FindExistingSnapshot` | app/service/blog_snapshot_service.py:26-33 | finds the one snapshot of the user and batch if and only if it exists |
| `BlogSnapshot.BlogSnapshotService.CollectPosts` | app/service/blog_snapshot_service.py:57-61 | the rows at increasing places of the id list, and every place whose id has a row |
| `BlogSnapshot.FoundInOrder` | app/service/blog_snapshot_service.py:57-61 | a row is found if and only if an id of the list has it, in the order of the list |
| `BlogSnapshot.PostIsPart` | app/service/blog_snapshot_service.py:66-70 | every collected post appears in the aggregated content |
| `BlogSnapshot.SnapshotRequestIsSnapshot` | app/service/blog_snapshot_service.py:66-89 | the snapshot request column by column: key, joined parts, and metadata whose numerals stand for the ids |
| `Conversation.UsageBound` | app/service/conversation_service.py:77-117 | with at most k calls in flight, each consuming at most c tokens, usage never exceeds max_tokens - 1 + k c, under any interleaving, fault, reset or expiry |
| `Conversation.UsageBoundIsMet` | app/service/conversation_service.py:77-117 | for all limits, every k and every call size a run reaches that bound |
| `Conversation.HistoryBound` | app/service/conversation_service.py:86-111 | the history never exceeds 2 max_turns - 1 + 2k messages |
| `Conversation.HistoryBoundIsMet` | app/service/conversation_service.py:86-111 | for all limits and every k a run reaches that bound |
| `Conversation.ExpiryReopens` | app/repository/conversation_repository.py:27-49 | however much a session has used, a call passes both checks again after its keys have expired or a reset |
| `Conversation.HistoryAlternates` | app/service/conversation_service.py:109-111 | with one call at a time the history holds whole turns of a message and the reply of the same call, as long as nothing cuts the two appends apart |
| `Conversation.FirstCutBreaksAlternation` | app/service/conversation_service.py:109-111 | the first cut of any kind breaks that |
| `ConversationService.Session.Chat` | app/service/conversation_service.py:73-126 | one call among others: it raises only when its last command did, is refused only at a limit it has seen reached, answered only after seeing both kept, and then it reports the counter it raised and what is left |
| `ConversationService.Session.Admit` | app/service/conversation_service.py:77-88 | the two checks, each against the session as its command finds it: an admitted call has seen room for its tokens and then for its turn |
| `ConversationService.Session.Exchange` | app/service/conversation_service.py:95-114 | the model's reply, the two appends in order, and the tokens to be charged |
| `ConversationService.Session.Issue` | app/repository/conversation_repository.py:27-44 | one command of a call: it succeeds on the state it sees, or raises with or without effect |
| `ConversationService.Session.ResetSession` | app/repository/conversation_repository.py:46-49 | both keys are deleted at once, and no call is touched |
| `ConversationService.IsRunExec` | app/service/conversation_service.py:73-126 | everything a session has done is a run of the machine, so the bounds apply |
| `Retrieval.AnswerIsTop` | app/repository/context_retrieval_repository.py:69-88 | whatever order SQL gives ties, the answer has at most k documents, each once with its best chunk, in descending score, and no chunk left out scores higher |
| `Retrieval.AnswerIsWalk` | app/repository/context_retrieval_repository.py:69-88 | with distinct scores the answer is the walk over all chunks by descending score that keeps the first of each document and stops at k |
| `Retrieval.DistinctOnBest` | app/repository/context_retrieval_repository.py:70-82 | keeping the first row of each document in that order keeps one best row of every document |
| `Retrieval.JoinExact` | app/repository/context_retrieval_repository.py:77-81 | the candidates are exactly the chunks of the documents that each query admits, with title, first 300 characters and similarity |
| `Retrieval.AnswerRowsMatch` | app/repository/context_retrieval_repository.py:69-88 | every row of an answer is about a document of the queried type, and for own posts of that user and not the excluded one, with the title, preview and similarity of one of its chunks |
| `Retrieval.SearchAnswers` | app/repository/context_retrieval_repository.py:113-222 | there is always an answer |
| `Retrieval.SearchFindsBest` | app/repository/context_retrieval_repository.py:84-88 | each matching document is in the answer with a chunk at least as good as any of its own, or the answer is full of rows at least as good |

## Left out

- TokenBucket.RateLimiter.Consume: floating-point rounding and the number formatting of Redis are not modelled; tokens are reals.
- Chunker.TextChunker.Chunk: the constructor also accepts a chunk size below one above a still smaller overlap; what chunking does then is not modelled. The configured sizes are positive.
- BatchWorker.Cluster.TrackBatch: the writes of the `expected`, `blog_id` and `correlation_id` keys are not among its commands; nothing in the protocol depends on them.
- ChunkLaws.ChunksKeepText: long paragraphs are excluded, because decoding part of a multi-byte character loses text; `ChunksKeepTokens` covers every text at token level.
- ChunkSizes.ChunkSizeBound: needs a bound on the cost of a join and a decoder whose results do not encode to more tokens; `FinalCount` is exact without either.
- RetryBounds.OneDescendant: crashes and takeovers are excluded, because both can fork a chain; `NothingLost` is the statement for all runs.
- Workers.Broker.ClaimPending: idle times are an arbitrary set of ids chosen at the call; the clock behind them, and entries deleted from the stream, are not modelled.
- Workers.Broker.HandleAnalysis: the completion events are best effort and have no effect in the model.
- DocumentIndex.DocumentService.Ingest: concurrent ingests are serial; what the database does about interleaved transactions is not modelled. A second ingest with an empty external id fails on the unique key, because it is not looked up.
- Retrieval.AnswerIsTop: scores are reals; not-a-number scores of zero vectors and the approximate index are not modelled.
- The influencer upsert and the EXPIRE after each write: they carry no decision.
- `_decode_messages` and the JSON forms of messages: flattening and parsing only.
- The rate limit and document check before a chat call, the system prompt and the retrieval section: they read only.
- The analysis service, the diagnosis service, prompts, model replies, HTML extraction and the tokenizer's own code: foreign calls, arbitrary functions here.
- The profile embedding service and the influencer repository: each looks up one row and inserts it if it is missing.
- Routers, dependencies, health checks, tracing, logging, configuration loading, clients and migrations: wiring.
- The URL security module and the similarity repository: not used by the current code.
