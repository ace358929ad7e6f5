# Posthorn, verified

A Dafny model of Posthorn, a self-hosted mail gateway: HTTP and SMTP ingresses hand
messages to an outbound provider, and an optional SQLite file makes accepted mail survive
provider outages and crashes. The project models the parts with state worth reasoning about
and proves what they keep over whole runs.

- **Durable retry queue.** The tables are maps, each SQL statement or transaction is one
  function (`Tables`), and the store and worker are classes whose methods run those
  statements (`Storage`, `RetryWorker`). `RetryProtocol` is the state machine in which
  ingress goroutines, the worker and the pruner interleave statement by statement, any
  statement may fail without effect, and a crash may fall anywhere, also between the two
  statements of crash recovery. `RetryInvariant` proves one invariant per submission;
  `RetryTheorems` reads off what every run guarantees, in terms of its events and tables,
  and `RetryRows` what the rows of the log hold.
  `WorkerProtocol` shows that a whole poll of the worker is a schedule of that machine,
  `DeliveryProtocol` the same for an ingress's delivery. `BoundedWait` shows that no due row
  starves, `ProtocolWait` states it for the machine. `Delivery` and `EndToEnd` connect the
  ingresses, the queue and the idempotency cache; `DeliveryLaws` says case by case what a
  delivery comes to. `Suppressions` is the suppression list, `ForwardQueue` the queue of
  lifecycle callbacks.
- **Rate limiter.** `RateLimit`, a token bucket over a bounded LRU map (`Recency`, and in
  `RecencyLaw` what it holds after any history). `RateLimitExact` says exactly which calls
  get through, `RateLimitRecency` which clients are remembered.
- **Idempotency cache.** `Idempotency` has both implementations and their refinement,
  `IdempotencySafety` the guarantees over interleaved requests, `IdempotencyRaces` the
  storage-backed form when its calls are not atomic, `IdempotencyRecency` what is evicted.
- **SMTP listener.** `SmtpConfig` and `SmtpSession` are the configuration and the state
  machine; `SmtpCommands` says what each command means, `SmtpHistory` where a session's
  transaction and identity come from, `SmtpTheorems` what every session keeps,
  `RecipientCap` how far the cap reaches. `ConnSlots` counts connections; `Headers` and
  `HeaderLaws` are the passthrough headers.
- **Encoders.** `SigV4` and `SigV4Laws` (URI encoding and canonical query); `HtmlText` (HTML
  to text) with what it does to links (`HtmlLinks`), to every kind of tag (`HtmlTags`), to
  attribute values (`HtmlAttributes`) and to whitespace (`HtmlWhitespace`), over Go's
  lower-casing of UTF-8 in `Utf8`.

`dafny verify dfyconfig.toml` checks the whole project.

## Conventions

Storage errors are a boolean per statement: a statement or transaction that reports an
error has had no effect. Ids are UUIDs and never repeat. One process has the file open.
Instants are integers in nanoseconds, truncated to whole seconds where a column stores
them; the limiter uses real seconds. Provider answers, TLS handshakes, base64, MIME
parsing, HTML entity decoding, letter case beyond ASCII, map iteration order and lookup
failures are parameters, and results hold for all of them. SQL leaves the order of rows
with equal times open, and so does the model.

Where the code and its comments differ the model follows the code, and a lemma shows both
that the documented property fails and exactly when it holds:

- A response is kept for replay only with status 200 or 422, not any 2xx. A client told
  202 "queued" that repeats its request has a second copy of its message queued
  (`QueuedRequestIsQueuedTwice`); with storage attached a repetition is replayed exactly when
  the message was sent at once, or had no recipient left, and no write on the way failed
  (`OnlyOkAndInvalidAreReplayed`, `RepeatedRequestIsReplayedIff`).
- Rows stored without content are called queue-ineligible, but crash recovery queues those
  that were in flight (`MetadataOnlyRowIsQueued`, `MetadataOnlyRowReachesQueue`).
- The storage-backed cache can grant a claim although a response is already stored, exactly
  when another request has answered and released the key between the check and the lock
  (`ClaimIsStaleIffAnsweredMeanwhile`, `StaleClaimCanHappen`).
- The "per session" recipient cap is a cap per mail transaction; it holds for sessions
  exactly as long as they open one (`RecipientsPerSession`, `CapIsTight`,
  `CapHoldsPerSessionIffOneMail`, `CapIsNotPerSession`).
- Plain text passes the HTML scanner unchanged exactly when it is ASCII
  (`PlainTextSurvivesIffAscii`).
- An HTML link with nothing else to be taken for its target keeps it exactly when
  lower-casing keeps the length of the attribute text before it, which it does not for a
  stray byte or the dotted capital I
  (`HrefReadsBackIff`, `ShiftedLinkLosesTarget`, `LatinTitleLosesTarget`, and in `Utf8`
  `StrayByteGrows`, `DottedCapitalShrinks`).

## Model

| member | source | states |
|---|---|---|
| RetryTheorems.QueuedMailIsNeverLost | core/storage/queue.go:34-159 | Over every run with crashes and failing statements, a submission whose client was told "queued" is still pending in the retry queue, or was accepted by the provider and recorded sent, or was recorded failed after a terminal answer or after all MAX_ATTEMPTS failures |
| RetryTheorems.RecordedMailIsAccountedFor | core/storage/storage.go:250-267 | Every submission whose pre-send row committed is pending in the queue, marked sending with a live owner or awaiting recovery, was accepted and recorded sent, or was recorded failed after a terminal inline answer, an ineligible or failed enqueue, a terminal background answer or the full ladder |
| RetryTheorems.TablesStayCoupled | core/storage/storage.go:203-207 | In every reachable state each queue row has a queued or sending submission and an attempt below the maximum, every queued submission has a queue row, and a sending submission without one is owned by a live send or awaits recovery |
| RetryTheorems.InvCouples | core/storage/queue.go:56-61 | The per-submission invariant implies the coupling of the two tables |
| RetryTheorems.PlacesAreExclusive | core/storage/storage.go:41-52 | A recorded submission is in exactly one of six places of its lifecycle |
| RetryInvariant.StepKeeps | core/storage/queue.go:34-159 | Every atomic step of ingress, worker, pruner, crash and Open keeps the invariant |
| RetryInvariant.RunKeeps | core/storage/queue.go:34-159 | So does every run |
| RetryInvariant.InitHolds | core/storage/storage.go:86-110 | A fresh installation satisfies it |
| RetryInvariant.RecordKeeps | core/storage/storage.go:304-347 | Writing the pre-send row keeps the invariant and makes the writer its owner |
| RetryInvariant.InlineEnqueueKeeps | core/gateway/handler.go:1044-1065 | The move into the queue after an exhausted inline send keeps it |
| RetryInvariant.InlineMarkSentKeeps | core/gateway/handler.go:1093-1097 | Recording an inline success keeps it, also when the write fails |
| RetryInvariant.InlineMarkFailedKeeps | core/gateway/handler.go:1067-1071 | Recording an inline failure keeps it, also when the write fails |
| RetryInvariant.ClaimMarkKeeps | core/storage/queue.go:87-106 | Claiming one row keeps it, also when the claim stops early |
| RetryInvariant.RecordOutcomeKeeps | core/storage/worker.go:136-182 | Recording the outcome of a background attempt keeps it |
| RetryInvariant.CrashKeeps | core/storage/storage.go:250-253 | A crash at any point keeps it |
| RetryInvariant.OpenInsertKeeps | core/storage/storage.go:255-260 | The first recovery statement keeps it, and so may be the last before another crash |
| RetryInvariant.OpenUpdateKeeps | core/storage/storage.go:261-266 | The second recovery statement keeps it |
| RetryTheorems.LadderBound | core/storage/queue.go:18-29 | No submission collects more than MAX_ATTEMPTS background failures over a whole run, and its attempt counter is the number recorded so far |
| RetryTheorems.LadderRung | core/storage/queue.go:114-143 | The k-th failure reschedules RETRY_BACKOFF[k] later with the index in range, or dead-letters exactly when k is MAX_ATTEMPTS; the room left strictly shrinks |
| RetryTheorems.ReopenAfterCrash | core/storage/storage.go:254-267 | After any run and a crash, Open leaves nothing in flight, every row that was is queued and due, and no attempt count is lost |
| RetryTheorems.PruneSparesPendingWork | core/storage/storage.go:470-484 | For any cutoff in any reachable state, pruning with its cascade leaves the retry queue and the suppression list as they were |
| RetryTheorems.ReplayIsFaithful | core/storage/worker.go:119-134 | Whenever the worker is about to send, the message it rebuilds is the one the client handed over |
| RetryRows.SentRowsTellTheAnswer | core/storage/storage.go:351-362 | Over every run, a row recorded sent carries the message id with which a provider accepted it during the run, the second in which that was written down, and no error |
| RetryRows.UnsentRowsTellTheError | core/storage/storage.go:365-373 | A row recorded failed carries the error of a provider that refused it, a pending one such an error or none, and no row but a sent one has a message id or a sending time |
| RetryRows.RowHoldsWhatWasRecorded | core/storage/storage.go:304-347 | Every other column of a recorded row stays what its ingress wrote, through retries, recovery and crashes |
| RetryRows.EventsFindTheirMail | core/lifecycle/handler.go:113-131 | A provider's event about a message id finds a submission that was accepted under it, and finds one whenever a sent row carries it |
| RetryRows.PruneGoesByAge | core/storage/storage.go:470-484 | Retention deletes a row exactly if it is finished and was created in a second before the cutoff's, and leaves the others as they are |
| RetryRows.RecordedRowGoesByAge | core/storage/storage.go:470-484 | So a recorded submission is deleted exactly when it is recorded sent or failed and arrived before the cutoff's second |
| RetryRows.FirstWait | core/storage/queue.go:34-47 | A message enters the queue at attempt zero, due a minute later |
| RetryRows.SuppressionsStay | core/storage/suppression.go:22-24 | Whatever happens to mail, retention and crashes included, the suppression list stays as it is |
| Tables.LadderWaits | core/storage/queue.go:18-29 | The ladder has five rungs, the first of a minute, each four times as long as the one before |
| RetryTheorems.MetadataOnlyRowIsQueued | core/storage/storage.go:254-260 | A row stored without content enters the queue exactly when crash recovery finds it in flight |
| RetryTheorems.MetadataOnlyRowReachesQueue | core/gateway/handler.go:1187-1192 | A run in which that happens and a message without recipients is queued |
| WorkerProtocol.ClaimDueRunsProtocol | core/storage/queue.go:61-107 | The claim loop does what its statements do as protocol steps, failures included |
| WorkerProtocol.ProcessDueRunsProtocol | core/storage/worker.go:92-183 | A whole poll, from selection through claim, sends and recorded outcomes to cancellation, is a run of the protocol that ends idle in the tables the worker's loops compute, having sent the same messages |
| WorkerProtocol.RecordingMovesOn | core/storage/worker.go:136-182 | The protocol's recording step writes what an attempt writes and goes on to the next row |
| Tables.RecoverMeetsSpec | core/storage/storage.go:254-267 | Recovery turns every sending row into a queued one with a queue row, keeps existing attempts, makes new rows due at once and touches nothing else |
| Tables.RecoveredIsUnique | core/storage/storage.go:254-267 | That description leaves only one possible result |
| Tables.RecoveryConverges | core/storage/storage.go:254-267 | Interrupting recovery between its statements does not change where it ends, and repeating it changes nothing |
| Tables.InterruptedRecoveriesConverge | core/storage/storage.go:254-267 | The same after any number of interrupted runs |
| Storage.Store.RecordSubmission | core/storage/storage.go:304-347 | Inserts the row unless its id is taken or the disk fails |
| Storage.Store.MarkStatus | core/storage/storage.go:365-373 | Sets status and error of an existing row only |
| Storage.Store.MarkSent | core/storage/storage.go:351-362 | Finalizes the row and removes its queue entry, or neither |
| Storage.Store.Enqueue | core/storage/queue.go:34-47 | Adds a queue row due after the first wait unless there is one, and marks the submission queued; refused by the foreign key without a submission |
| Storage.Store.DeadLetter | core/storage/queue.go:149-159 | Removes the queue row and marks the submission failed, or neither |
| Storage.Store.RecordRetryFailure | core/storage/queue.go:114-143 | Climbs one rung or dead-letters, and says which; an error without a queue row |
| Storage.Store.Prune | core/storage/storage.go:474-484 | Deletes old finished rows with the cascade |
| Storage.Store.RecoverInFlight | core/storage/storage.go:254-267 | Runs the two recovery statements, either of which may fail |
| Storage.SelectDue | core/storage/queue.go:62-66 | Returns a result of the ORDER BY and LIMIT over the due rows |
| Storage.SelectionMeans | core/storage/queue.go:62-66 | Such a result holds due rows, none twice, earliest first, no more than the limit, all of them if they are fewer or the limit is negative, and none later than one left out |
| Storage.Store.FindByMessageID | core/storage/storage.go:380-387 | The latest row with that provider id, none for an empty id |
| Storage.Store.AddSuppression | core/storage/suppression.go:38-54 | Refuses an empty address; a row that is there already keeps its first observation |
| Storage.Store.SuppressionFor | core/storage/suppression.go:56-75 | Finds a row exactly when the address is suppressed under any reason, and then the earliest, by reason if there is a tie |
| Storage.Store.RemoveSuppression | core/storage/suppression.go:77-86 | Deletes the address under every reason and counts the rows |
| Storage.Store.ClaimDue | core/storage/queue.go:61-107 | Claims such a selection row by row until a statement fails |
| Storage.ClaimMarksPrefix | core/storage/queue.go:56-107 | Whatever fails, the claimed rows are a prefix of the selection, marked sending and otherwise unchanged, the queue is untouched, and success means the whole selection |
| RetryWorker.Worker.BuildMessage | core/storage/worker.go:119-134 | Rebuilds the stored message, attachment by attachment |
| RetryWorker.Worker.Attempt | core/storage/worker.go:112-183 | Sends the rebuilt message and records sent, dead-lettered or retried by the class of the answer |
| RetryWorker.Worker.ProcessDue | core/storage/worker.go:92-110 | One poll claims a due selection, attempts it in order until cancelled, and records each outcome |
| ProtocolWait.DueRowIsPolledInTime | core/storage/queue.go:61-107 | In the retry protocol, after any run with crashes and failures: a due row with k others due no later is claimed within ceil((k+1)/limit) undisturbed polls, while ingresses, the pruner and their failures interleave |
| ProtocolWait.RunIsFollowed | core/storage/queue.go:34-159 | An undisturbed run of the protocol is a run of the queue machine with the same polls |
| BoundedWait.DueRowIsClaimedInTime | core/storage/queue.go:61-107 | The same bound in the queue machine, however arrivals and reschedules interleave |
| BoundedWait.PassedOverBound | core/storage/queue.go:114-143 | Each poll that passes over a due row uses up a full batch of those ahead, and none ever joins them |
| BoundedWait.RowsFollowStore | core/storage/queue.go:34-159 | The queue steps used there are the queue's share of the store's transactions |
| ForwardQueue.RowGoesByItsHistory | core/storage/forwardqueue.go:29-98 | Over every sequence of outcomes, a callback stays queued until it succeeds, fails terminally or has failed five times; while queued it is the callback as enqueued, and due 60 * 4^k seconds after its k-th failure |
| ForwardQueue.ForwardStore.ClaimDueForwards | core/storage/forwardqueue.go:42-63 | Hands over due callbacks as they are in the table, none twice, earliest first, and leaves a due one out only at the limit and then none earlier |
| ForwardQueue.ForwardLadderBound | core/storage/forwardqueue.go:68-98 | The lifecycle queue obeys the same bound over every sequence of outcomes |
| ForwardQueue.ForwardStore.EnqueueForward | core/storage/forwardqueue.go:31-40 | Adds a callback due after the first wait |
| ForwardQueue.ForwardStore.RecordForwardOutcome | core/storage/forwardqueue.go:68-98 | Removes, reschedules or drops the row, and says when it was dropped |
| Mail.RebuildInvertsStore | core/smtp/session.go:504-533 | A stored queue-eligible message is rebuilt exactly if and only if it has the shape its ingress builds |
| Transport.SendWithRetry | core/transport/retry.go:41-87 | At most one retry, only after a retryable answer and within the deadline; the last answer is the result |
| Transport.Classify | core/transport/retry.go:89-99 | Retryable means a transport error that is transient or rate-limited; everything else that failed is terminal |
| Suppressions.SuppressedIff | core/storage/suppression.go:32-86 | Neither case nor blanks dodge a suppression: after any calls an address is suppressed exactly when one that differs from it at most in these was added and not removed since |
| Suppressions.FirstObservationWins | core/storage/suppression.go:38-54 | A row is as it was first added since the address was last removed, whatever was added afterwards |
| Suppressions.SameAddressSameKey | core/storage/suppression.go:32-36 | Two addresses are stored under one key exactly if they differ at most in letter case and blanks around them |
| Delivery.FilterSuppressed | core/smtp/session.go:538-558 | Keeps exactly the recipients the check lets through, counts the rest, and degrades the gate on a failed lookup |
| Delivery.FilterConserves | core/smtp/session.go:535-558 | Recipients sent to and recipients set aside are an order-preserving partition of those given |
| Delivery.FilterIsExact | core/gateway/handler.go:1115-1141 | Only suppressed addresses are set aside, and none is sent to when no lookup fails |
| DeliveryLaws.KeepsIff | core/smtp/session.go:535-558 | A recipient is set aside exactly if storage works, its lookup succeeds and it is suppressed |
| Delivery.Deliver | core/gateway/handler.go:1030-1113 | Persist, send and settle: the verdict, the tables and the gate's health for every answer and every failing write; "queued" only with a committed queue row |
| Delivery.QueuedIffRowCommitted | core/gateway/handler.go:1044-1056 | For a new id the verdict is "queued" exactly when the retry queue holds the row afterwards |
| DeliveryLaws.VerdictIs | core/gateway/handler.go:1030-1113 | Accepted is sent, with the provider's id, whatever storage does; a refusal is queued exactly if it is transient or rate-limited, storage works, content is stored and both writes commit; and not sent, with the provider's error, otherwise |
| DeliveryLaws.DeliveryLeavesRow | core/gateway/handler.go:1030-1097 | The row left under a new id, column by column, and its queue row, for every answer and every failing write |
| DeliveryLaws.DeliveryTouchesNothingElse | core/gateway/handler.go:1030-1097 | No other row changes, and none at all if the pre-send row is not written |
| DeliveryLaws.GateStaysIff | core/gateway/handler.go:1030-1097 | The gate stays healthy exactly if none of the writes attempted failed |
| DeliveryLaws.StatusIs | core/gateway/handler.go:1040-1113 | 200 for mail that was sent; for queued mail 202 to the API and 200 to a form; 502 otherwise |
| DeliveryProtocol.DeliverRunsProtocol | core/gateway/handler.go:1033-1097 | Delivery is a schedule of the retry protocol and says "queued" exactly when the protocol makes that promise |
| EndToEnd.RetriedHeadersStayValid | core/transport/transport.go:126-154 | Headers valid at acceptance are valid at every background retry |
| EndToEnd.RepeatedRequestIsReplayedIff | core/gateway/handler.go:1007-1113 | With storage attached, a repeated API request is replayed exactly when the first was sent at once or had all recipients suppressed, every write on the way succeeded, the response is readable and its second has not come; otherwise it is claimed and sent again, after 202 always |
| EndToEnd.QueuedRequestIsQueuedTwice | core/gateway/handler.go:1312-1318 | On a healthy disk, a client told 202 that repeats its request is told 202 again, and two copies of one message are pending under two ids |
| EndToEnd.RepeatedRequestWithoutStorage | core/gateway/handler.go:684-718 | Without storage nothing is queued and a request is replayed exactly when it was sent, to the nanosecond |
| EndToEnd.Answer | core/gateway/handler.go:1007-1113 | Drop suppressed recipients, deliver and answer: the status, the tables and the gate's health |
| EndToEnd.AnswerIs | core/gateway/handler.go:1007-1113 | To the API 200 exactly for sent mail and for a request with nobody left to send to, 202 exactly with the row in the retry queue, 502 otherwise; and the row that logs a suppressed request |
| EndToEnd.ServeClaimed | core/gateway/handler.go:1299-1328 | The same for a request that holds its key: the cache gets the response with a kept status if the gate is still healthy, and the claim is released in any case |
| RateLimit.RateBound | core/ratelimit/ratelimit.go:83-118 | Over any stretch of calls with a clock that does not go back, one client gets through at most (evictions + 1) full buckets plus the refill for the elapsed time |
| RateLimitExact.AllowedExactlyWithinRate | core/ratelimit/ratelimit.go:83-118 | Exactly which calls get through: while a client is not evicted and the clock does not go back, a call is allowed if and only if, for every stretch from one of its earlier calls up to it, those allowed together with it come to no more than a full bucket plus the refill of the time in between |
| RateLimitRecency.TrackedIffCalledLately | core/ratelimit/ratelimit.go:95-105 | After any history from the empty table, a client is tracked if and only if it has called and fewer than maxKeys distinct others have called since its last call |
| RateLimit.SpendingBound | core/ratelimit/ratelimit.go:95-118 | The same with the client's balance as the potential |
| RateLimit.SpacedCallsAreAllowed | core/ratelimit/ratelimit.go:106-118 | A client whose calls are one refill apart is never refused |
| RateLimit.ClientsAreIsolated | core/ratelimit/ratelimit.go:95-118 | While a client is not evicted it is answered exactly as by a bucket of its own |
| RateLimit.NoEvictionsWhileRoom | core/ratelimit/ratelimit.go:56-75 | Nobody is evicted while the clients seen fit the table |
| RateLimit.NextValid | core/ratelimit/ratelimit.go:95-118 | The table stays within bounds and a call changes no other client's bucket |
| RateLimit.Limiter.New | core/ratelimit/ratelimit.go:62-81 | Refuses exactly the non-positive settings, and an unset size means the default |
| RateLimit.Limiter.AllowAt | core/ratelimit/ratelimit.go:95-118 | Refills by elapsed time up to capacity and takes a token if there is one |
| Idempotency.DurableRefinesCache | core/idempotency/durable.go:68-134 | With healthy storage, whole seconds and no eviction, both forms answer every sequence of calls alike, and pruning cannot be observed |
| Idempotency.DurableDeadline | core/storage/idem.go:38-61 | To the nanosecond: an entry is never served at or past its deadline and always up to a second before |
| Idempotency.EndpointsDoNotCollide | core/idempotency/durable.go:51-65 | A call for one endpoint never changes what another endpoint is served |
| Idempotency.CacheStepEntries | core/idempotency/cache.go:96-170 | What each call does to the stored entries, apart from recency |
| IdempotencyRecency.LeastRecentIsEvicted | core/idempotency/cache.go:96-160 | Storing evicts exactly when the key is new and the cache is full, and then the one entry that every other was stored, looked up or claimed against after |
| Idempotency.Cache.Lookup | core/idempotency/cache.go:96-119 | Exactly one of replay, in flight, or miss; an expired entry is dropped |
| Idempotency.Cache.ClaimInFlight | core/idempotency/cache.go:127-138 | Granted exactly when the key is neither in flight nor stored and unexpired |
| Idempotency.Cache.Store | core/idempotency/cache.go:146-160 | Stores with a fresh deadline and releases the claim |
| Idempotency.Cache.Abandon | core/idempotency/cache.go:166-170 | Releases the claim and nothing else |
| Idempotency.Durable.Lookup | core/idempotency/durable.go:68-87 | The same three answers from the file; a miss while degraded, and a miss that degrades the gate when the read fails |
| Idempotency.Durable.ClaimInFlight | core/idempotency/durable.go:90-114 | Granted exactly when nothing live can be read and the key is not in flight; a failed read goes unnoticed |
| Idempotency.Durable.Store | core/idempotency/durable.go:117-127 | Persists while healthy and always releases the claim; a failed write drops the response and degrades the gate |
| Idempotency.Durable.Abandon | core/idempotency/durable.go:130-134 | Releases the claim and nothing else |
| Idempotency.IdemStore.GetIdempotent | core/storage/idem.go:41-61 | A row is served until the second it expires, unless the read fails |
| Idempotency.IdemStore.PutIdempotent | core/storage/idem.go:21-36 | Last write wins for a key and endpoint; a failed one changes nothing |
| Idempotency.IdemStore.PruneIdempotency | core/storage/idem.go:64-71 | Removes exactly the expired rows, or nothing if it fails |
| IdempotencySafety.CacheClaimsExclude | core/idempotency/cache.go:121-138 | Two successful claims of a key have a release of it between them, over every interleaving |
| IdempotencySafety.ClaimsAreSeparated | core/idempotency/cache.go:96-170 | They are separated by an Abandon, an eviction, or a stored response whose lifetime ran out |
| IdempotencySafety.QuietKeyIsStable | core/gateway/handler.go:684-718 | In between, every lookup is in flight or replays exactly the response stored last |
| IdempotencySafety.OnlyOkAndInvalidAreReplayed | core/gateway/handler.go:1317-1328 | On the file, from claim to repetition: replayed exactly with status 200 or 422, if it could be written, can be read and has not expired; otherwise the repetition misses and is granted the claim |
| IdempotencySafety.OnlyOkAndInvalidAreReplayedInMemory | core/gateway/handler.go:1317-1328 | In memory the same to the nanosecond |
| IdempotencySafety.DurableClaimsExclude | core/idempotency/durable.go:90-103 | On the file, whatever fails at any call, two successful claims of a key have a release of it between them |
| IdempotencySafety.DurableClaimsAreSeparated | core/idempotency/durable.go:90-134 | They are separated by an Abandon, a response that could not be written, or one whose lifetime ran out, unless the file failed the second claim |
| IdempotencySafety.DurableReplaysLastWritten | core/idempotency/durable.go:68-127 | Whatever fails in between, a replay is exactly the response written last, and not expired |
| IdempotencyRaces.OneHolderPerKey | core/idempotency/durable.go:90-134 | One holder per key also when checks, locks, writes and releases interleave |
| IdempotencyRaces.ClaimIsStaleIffAnsweredMeanwhile | core/idempotency/durable.go:90-103 | A request that checks, waits while others act, and locks: it is granted the claim exactly when nobody holds the key, and over a live stored response exactly when, besides, another request has claimed, answered and released the key in between and its response has not expired |
| IdempotencyRaces.StaleClaimCanHappen | core/idempotency/durable.go:91-99 | A run in which that happens |
| SmtpTheorems.TransportGate | core/smtp/session.go:312-389 | After every command sequence, a message reaches the transport only with TLS and authentication as configured, an allowlisted envelope sender, at least one recipient, and recipients capped or allowlisted |
| SmtpTheorems.SessionStaysOk | core/smtp/session.go:80-132 | The session invariant behind it holds after every command sequence |
| SmtpTheorems.LoginHasProof | core/smtp/session.go:216-278 | A password-authenticated session presented a configured user's credentials since the last STARTTLS |
| SmtpHistory.HandedMailHasHistory | core/smtp/session.go:80-132 | Every message handed over has a history: an accepted MAIL that named its envelope sender under the same TLS state, accepted RCPTs that named its recipients in order, less the suppressed ones, and the login or certificate the configuration asks for |
| SmtpHistory.TransactionHasHistory | core/smtp/session.go:312-359 | An open transaction's sender and recipients are the addresses of the MAIL that opened it and of the RCPTs accepted since |
| SmtpHistory.CertificateHasProof | core/smtp/session.go:199-230 | A session authenticated by certificate went through a STARTTLS whose handshake verified one |
| SmtpTheorems.Data250Contract | core/smtp/session.go:361-499 | Once 354 is sent the transaction ends, and 250 is the reply exactly when the message is readable and the provider accepted, or its row is in the retry queue afterwards, or all recipients were suppressed; a queued row rebuilds to the message handed over |
| SmtpTheorems.HandedMessageIsWellFormed | core/smtp/parse.go:92-100 | What is sent goes to the envelope recipients only, in order, less the suppressed ones; its subject, reply address and HTML are the message's, its sender the From header or else the envelope sender, its text the message's or, if there is only HTML, derived from that; its shape can be stored and rebuilt, and its headers are the configured ones and valid |
| SmtpTheorems.RetryableMailIsTakenOver | core/smtp/session.go:442-466 | With storage working, mail the provider may take later is answered 250 and is in the retry queue |
| SmtpTheorems.AllSuppressedIsLogged | core/smtp/session.go:424-438 | A message whose recipients are all suppressed is answered 250 and logged with sender and subject and without content |
| RecipientCap.RecipientsPerSession | core/smtp/session.go:347-357 | Accepted recipients number at most the cap times the accepted MAIL commands |
| RecipientCap.CapIsTight | core/smtp/session.go:312-359 | For every accepted configuration with a cap and every n, some session with n accepted MAILs gets n times the cap of recipients |
| RecipientCap.CapHoldsPerSessionIffOneMail | core/smtp/session.go:602-606 | The cap holds for all sessions with n accepted MAILs exactly when n is at most one |
| RecipientCap.Opening | core/smtp/session.go:199-333 | Every accepted configuration lets some client come as far as MAIL |
| RecipientCap.CapIsNotPerSession | core/smtp/config.go:103-106 | An accepted configuration and a session that gets two recipients past its cap of one |
| SmtpSession.Session.HandleSTARTTLS | core/smtp/session.go:199-230 | An upgrade drops the open transaction and the authenticated user |
| SmtpSession.Session.HandleAUTH | core/smtp/session.go:235-297 | Sets the user only for known credentials; a spent budget closes the session |
| SmtpSession.Session.HandleMAIL | core/smtp/session.go:312-335 | Opens a transaction only past the TLS, authentication, syntax and sender checks |
| SmtpSession.Session.HandleRCPT | core/smtp/session.go:337-359 | Adds a recipient only inside a transaction, under the cap and on the allowlist |
| SmtpSession.Session.HandleDATA | core/smtp/session.go:361-499 | Replies, message sent, session state, tables and gate for every outcome, with the verdict that delivery derives from those tables; for a new id, 250 once delivery is reached exactly when accepted, queued or suppressed |
| SmtpSession.Session.Receive | core/smtp/session.go:361-409 | The prompt and the checks before delivery, with the reply and state of each refusal |
| SmtpSession.DataCases | core/smtp/session.go:421-499 | Replies, tables and gate of DATA by case, and 250 for a new id exactly when accepted, queued or suppressed |
| SmtpSession.Session.Forward | core/smtp/session.go:421-485 | Sends to the unsuppressed recipients if any and settles the outcome, else logs the suppressed submission: verdict, tables and gate |
| SmtpSession.Session.Examine | core/smtp/session.go:383-409 | The refusal a message earns by itself |
| SmtpSession.Session.ResetTransaction | core/smtp/session.go:602-606 | Clears the transaction and keeps the identity |
| SmtpCommands.VerbsIgnoreCase | core/smtp/session.go:94-131 | Every command is recognized exactly by its name in any letter case |
| SmtpCommands.OtherWordsAreRefused | core/smtp/session.go:128-129 | A word that is no command's name is answered 500 and changes nothing |
| SmtpCommands.LineReads | core/smtp/session.go:608-616 | The argument is what stands behind the first blank |
| SmtpCommands.AddressIsBracketed | core/smtp/session.go:618-640 | An address is read exactly from the prefix in any case, blanks, and the address in angle brackets, whatever follows |
| SmtpCommands.EntryAdmits | core/smtp/session.go:641-660 | An entry admits exactly everyone if it is a star, its own address, and with "*@" every address at that domain |
| SmtpCommands.PlainIsSplit | core/smtp/session.go:264-270 | Credentials are read exactly from an identity, a NUL, a name without NUL, a NUL and the password, which may hold more |
| SmtpCommands.AuthAnswers | core/smtp/session.go:235-297 | 235 exactly for the well-formed credentials of a configured user, who is then logged in; 535 otherwise, or 421 and the end of the session when the attempts are used up, and nobody new is logged in |
| SmtpCommands.AuthIsRefused | core/smtp/session.go:235-262 | 530 without the TLS required, 502 where passwords are not taken, 504 for another mechanism, no answer to a client that stays silent; nothing changes |
| SmtpCommands.MailAnswers | core/smtp/session.go:312-335 | 530 without TLS or authentication as configured, 550 for an address off the list, and otherwise a new transaction with that sender alone |
| SmtpCommands.RcptAnswers | core/smtp/session.go:337-359 | 503 outside a transaction, then 452 at the cap, then 550 off the list, and otherwise the recipient added last |
| SmtpCommands.NoAddressIsRefused | core/smtp/session.go:321-345 | MAIL and RCPT without a bracketed address are refused with 501 past the earlier checks and change nothing |
| SmtpCommands.StartTlsAnswers | core/smtp/session.go:199-230 | 502 without TLS material, 503 when TLS is on; a failed handshake changes nothing, a completed one forgets transaction and user and remembers a verified certificate |
| SmtpCommands.PlainAnswers | core/smtp/session.go:94-131 | The other commands: only RSET changes the session, and only QUIT and an AUTH answered 421 end it |
| SmtpCommands.DataIsRefused | core/smtp/session.go:361-485 | 503, 451, 552, 550, 554 and 451 each exactly in its case and in this order, with the transaction over once 354 was sent |
| SmtpSession.NewListener | core/smtp/listener.go:77-113 | A listener carries the canonical names of its configured headers; an accepted configuration with loadable TLS material is never refused |
| SmtpSession.MatchesAllowlist | core/smtp/session.go:644-660 | True exactly if some entry matches: a star, the address, or its domain |
| SmtpSession.VerifyUser | core/smtp/session.go:299-310 | True exactly for a configured pair of name and password |
| SmtpSession.EnvelopeAddressReadsBack | core/smtp/session.go:618-639 | The address a client writes between angle brackets is the one read |
| SmtpSession.PlainReadsBack | core/smtp/session.go:264-270 | User and password of an AUTH PLAIN message read back, also with NUL in the password |
| SmtpConfig.Validate | core/smtp/config.go:154-232 | Accepts exactly the configurations with the listed guarantees |
| SmtpConfig.AcceptedSettings | core/smtp/config.go:154-232 | The accepted configurations, setting by setting |
| SmtpConfig.RecipientsAreBounded | core/smtp/config.go:209-254 | An accepted configuration never leaves recipients without cap and without allowlist; the cap is as set, ten with neither set, and none exactly with an allowlist alone |
| ConnSlots.SlotsAreAccountedFor | core/smtp/listener.go:115-141 | Over every interleaving the global counter is the number of live connections and the sum of the per-address ones, both caps hold, and no empty entry remains |
| ConnSlots.SlotIsGrantedIff | core/smtp/listener.go:115-129 | Over every interleaving, a client gets a slot exactly when fewer connections than the cap are live and fewer of its own address than that cap, 100 and 16 unless set; one that gets none changes nothing |
| ConnSlots.LeavingMakesRoom | core/smtp/listener.go:131-141 | A connection that ends makes room for another from its address |
| ConnSlots.SlotTable.AcquireConnSlot | core/smtp/listener.go:117-129 | Grants a slot exactly when both caps have room |
| ConnSlots.SlotTable.ReleaseConnSlot | core/smtp/listener.go:132-141 | Gives it back and forgets an address with none left |
| Headers.AcceptedHeadersStayValid | core/smtp/parse.go:119-132 | Headers copied under an accepted configuration pass every transport's check |
| Headers.PassthroughNames | core/transport/transport.go:80-98 | The canonical names, distinct and allowed; refused only for a name off the list or listed twice |
| Headers.CopyHeaders | core/smtp/parse.go:119-132 | Refuses the message exactly for a value that cannot be carried, else copies the first values in configuration order |
| Headers.CheckHeaderValue | core/transport/transport.go:108-124 | True exactly for non-empty printable ASCII within the 998-character line of section 2.1.1 of RFC 5322 |
| Headers.ValidateHeaders | core/transport/transport.go:130-145 | True exactly for allowed canonical names without repeats and values that fit |
| Headers.CanonicalIdempotent | core/transport/transport.go:161-172 | A canonical name stays as it is |
| HeaderLaws.AcceptedNames | core/transport/transport.go:161-172 | A configured name is accepted exactly if it is one of the three in any letter case, blanks around it aside, and stands for that one |
| HeaderLaws.CopiesFirstValues | core/smtp/parse.go:108-132 | What is copied is the non-empty first value of each configured header, in the order of the configuration |
| HeaderLaws.TransportsAccept | core/transport/transport.go:126-154 | The check of every transport in full: three names, no repeats, printable ASCII, 998 characters |
| SigV4.CanonicalQueryIsFaithful | core/transport/awssigv4.go:101-117 | Two queries have the same canonical string if and only if they are the same multimap, whatever the map iteration order |
| SigV4.ReadInvertsJoin | core/transport/awssigv4.go:108-117 | The pairs can be read back from the string, so it is unambiguous |
| SigV4.DecodeInvertsEncode | core/transport/awssigv4.go:191-210 | Percent-decoding inverts the encoding on every byte string |
| SigV4.EncodedHasNoSeparators | core/transport/awssigv4.go:191-210 | Encoded text contains neither separator of the query string |
| SigV4.SortIsCanonical | core/transport/awssigv4.go:107-111 | Sorting gives the same list exactly for rearrangements of the same strings |
| SigV4Laws.ByteStands | core/transport/awssigv4.go:186-210 | Letters, digits and four marks stand for themselves, a slash does in paths, and any other byte is a percent sign and two upper-case hex digits |
| SigV4Laws.EncodeConcat | core/transport/awssigv4.go:191-210 | Text is encoded piece by piece |
| SigV4Laws.LeIffBefore | core/transport/awssigv4.go:103-111 | The order of keys and values: at the first place where two differ the smaller byte comes first, or the one that ends there |
| SigV4Laws.CanonicalQueryIsOrdered | core/transport/awssigv4.go:101-117 | The string lists each value of each key as often as the query has it, by key and then by value in that order, whatever the map iteration order |
| SigV4.AwsURIEncode | core/transport/awssigv4.go:191-210 | The loop computes the encoding |
| SigV4.CanonicalQuery | core/transport/awssigv4.go:101-117 | The loop computes the joined sorted pairs |
| HtmlText.EscapedTextReadsBack | core/template/htmltotext.go:26-123 | Escaped ASCII text comes out as itself up to whitespace |
| HtmlText.PlainTextSurvivesIffAscii | core/template/htmltotext.go:53-61 | Text without markup is unchanged by the scan exactly when it is ASCII |
| HtmlText.ElementContentIsDropped | core/template/htmltotext.go:80-91 | Nothing inside a style or script element reaches the output, up to its closing tag or the end |
| HtmlText.Next | core/template/htmltotext.go:53-118 | Every step of the scan moves strictly forward |
| HtmlTags.LineBreakRenders | core/template/htmltotext.go:92-93 | In ASCII text a br tag, in any letter case, with attributes and closing or not, is a line break |
| HtmlTags.BlockTagRenders | core/template/htmltotext.go:115-117 | So is the opening and the closing tag of each block element, by name |
| HtmlTags.ListItemRenders | core/template/htmltotext.go:109-114 | A list item opens with a line break and a dash, and its end adds nothing |
| HtmlTags.OtherTagRenders | core/template/htmltotext.go:87-118 | Any other tag adds nothing, a stray end of a link or of a dropped element included |
| HtmlTags.CommentRenders | core/template/htmltotext.go:63-70 | A comment adds nothing, up to its first end mark or the end of the page |
| HtmlTags.DroppedElementRenders | core/template/htmltotext.go:80-91 | A style or script element adds nothing, up to its closing tag or the end of the page |
| HtmlTags.LoneBracketIsText | core/template/htmltotext.go:71-79 | A bracket that opens no tag is text |
| HtmlTags.TagReads | core/template/htmltotext.go:134-174 | Every tag is parsed whole wherever it stands: name in lower case, attributes, closing, end |
| HtmlTags.TagInLinkRenders | core/template/htmltotext.go:36-52 | Inside a link, what such a tag adds belongs to the link's text |
| HtmlTags.UnclosedLinkRenders | core/template/htmltotext.go:119-121 | A link that is never closed ends with the page |
| HtmlTags.AdjoiningLinksRender | core/template/htmltotext.go:94-108 | A link inside which another opens ends there, and both show their targets |
| HtmlTags.OtherTargetIsHidden | core/template/htmltotext.go:103-106 | A target that is neither a web nor a mail address is not shown |
| HtmlAttributes.ValueReads | core/template/htmltotext.go:200-229 | A value in double, single or no quotes reads back, whatever blanks stand around the equals sign |
| HtmlAttributes.OpenQuoteTakesRest | core/template/htmltotext.go:212-222 | A quote that is never closed takes the rest of the attribute text |
| HtmlAttributes.NoValueWithoutEquals | core/template/htmltotext.go:200-209 | Without an equals sign there is no value |
| Utf8.DecodesEncoded | core/template/htmltotext.go:187-188 | Decoding UTF-8 reads back every scalar value that was encoded, whatever follows |
| Utf8.EncodesDecoded | core/template/htmltotext.go:187-188 | Encoding gives back what was decoded, except for a byte that begins no code point |
| Utf8.ToLowerConcat | core/template/htmltotext.go:187-188 | Lower-casing splits in front of every ASCII byte, whatever bytes come before it |
| Utf8.ToLowerAfterAscii | core/template/htmltotext.go:187-188 | ASCII text is lower-cased letter by letter, whatever follows |
| HtmlLinks.LinkRenders | core/template/htmltotext.go:26-123 | A link in ASCII text with a web or mail target, however quoted, comes out as its text with the target in parentheses unless the text shows it, if lower-casing keeps the length of the attribute text before the target and each earlier "href" continues a word or has no equals sign |
| HtmlLinks.ShiftedLinkLosesTarget | core/template/htmltotext.go:184-229 | If lower-casing changes that length, a link with no other equals sign or "href" to hit loses its target |
| HtmlLinks.LatinTitleLosesTarget | core/template/htmltotext.go:185-206 | A tag whose Latin-1 title byte grows to three bytes loses its target |
| HtmlLinks.HrefReadsBackIff | core/template/htmltotext.go:184-229 | For a link with nothing else to hit, the target is read back exactly when lower-casing keeps the length of the text before it |
| HtmlLinks.LinkReadsBack | core/template/htmltotext.go:134-174 | A link's opening tag is parsed whole, wherever it stands and even if quoted attribute text contains a bracket |
| HtmlLinks.HrefReadsBack | core/template/htmltotext.go:184-229 | The target of a link is read back from its attributes, double-quoted, single-quoted or bare, among whatever others, if lower-casing keeps the length of the text before it |
| HtmlText.AttrValue | core/template/htmltotext.go:184-229 | The loops compute an attribute's value, with the position found in the lower-cased text used in the text itself |
| HtmlText.NormalizedIsTidy | core/template/htmltotext.go:231-258 | No blanks at the ends, no double spaces, at most one blank line in a row |
| HtmlText.NormalizeIsIdempotent | core/template/htmltotext.go:234-258 | Normalizing twice is normalizing once |
| HtmlWhitespace.BlanksAreOneSeparator | core/template/htmltotext.go:231-258 | Between two words one space is left, or one line break, or one blank line, by whether the blanks between them held no line break, one, or more, in any of the three line endings |
| HtmlWhitespace.LeadingBlanksAreDropped | core/template/htmltotext.go:234-258 | Blanks at the beginning of a text are dropped |
| HtmlWhitespace.TrailingBlanksAreDropped | core/template/htmltotext.go:234-258 | The last word is kept and blanks behind it are dropped |
| HtmlText.HTMLToText | core/template/htmltotext.go:26-123 | The loop terminates on every input and computes the scan, decoded and normalized |
| HtmlText.ParseTag | core/template/htmltotext.go:139-174 | The loops compute the tag at a position |
| HtmlText.NormalizeWhitespace | core/template/htmltotext.go:234-258 | The loop computes the normalized text |

## Left out

- SQLite itself: pragmas, migrations, page limits and the JSON columns, which are taken to give back what was put in.
- A second process opening a live file, and a commit that reports an error but took effect.
- The storage probe that turns a degraded gate healthy again (after a call the gate may be healthy or not, as the next call finds it), metrics, logging and the command line.
- Provider clients, TLS, sockets, outbound SMTP, MIME and JSON parsing, HMAC and SHA-256: only their answers appear.
- The HTTP handler before delivery (spam checks, captcha, reputation, templates, attachments, response negotiation, key validation), and its map of suppressed addresses with reasons.
- Listing suppressions and the command line around them. Replaying a queued message does not look at the suppression list again, and neither does the model.
- Canonical headers, signed headers and the signature itself in SigV4.
- EHLO capability lines, reply texts and idle timeouts of the SMTP session: replies are their codes.
- Proxy-aware client addresses and CIDR parsing of the rate limiter.
- RateLimit.RateBound: holds for exact reals; the rounding of 64-bit floats is not modelled.
- RateLimitExact.AllowedExactlyWithinRate: holds for exact reals; rounded floats can decide the other way at the very boundary.
- RateLimit.SpacedCallsAreAllowed: holds for exact reals; at a spacing of exactly one refill, rounded floats can come to less than a token and refuse.
- RetryWorker.Worker.ProcessDue: the polling loop around it, its jitter and its metrics hooks are left out.
- ProtocolWait.DueRowIsPolledInTime: a crash, a cancellation or a failing statement of the worker starts the count of polls anew.
- IdempotencyRaces.ClaimIsStaleIffAnsweredMeanwhile: the finer interleaving is treated on a working file; failing statements are treated with whole calls.
- EndToEnd.ServeClaimed: nobody else changes the gate during one request; OnlyOkAndInvalidAreReplayed takes any health at each call.
- Idempotency.DurableRefinesCache: calls are atomic; the finer interleaving is treated apart.
- Suppressions.SuppressedIff: addresses are lower-cased in ASCII only.
- Storage.Store.FindByMessageID: normalizing a provider's event is left out; the lookup takes the id it yields.
- SmtpSession.Session.Receive: the write of the 354 prompt can fail, which leaves the transaction open as in the code; failures to write later replies are ignored as in the code.
- HtmlText.NormalizedIsTidy: blanks are those of ASCII, here and in HtmlWhitespace; Unicode spaces count as letters.
- HtmlLinks.LinkRenders: trimming of the link text is the library's and a parameter; the whitespace normalization around it knows ASCII blanks only.
- HtmlLinks.HrefReadsBackIff: where another equals sign or "href" stands behind the shifted position, what is read there instead is not stated.
