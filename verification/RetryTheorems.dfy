/**
 What the retry queue guarantees over whole runs. The statements speak of the events
 of the run and of the tables, not of the history the invariant carries along.
 */
module RetryTheorems {
  import opened Basics
  import opened Clock
  import opened Mail
  import opened Tables
  import opened Transport
  import opened RetryProtocol
  import opened RetryInvariant

  // ---- reading a run --------------------------------------------------------

  predicate HasStatus(db: Db, id: Id, status: Status) {
    id in db.submissions && db.submissions[id].status == status
  }

  /** At some moment of the run the submission's row has this status. */
  ghost predicate EverHadStatus(w: World, es: seq<Event>, id: Id, status: Status)
    requires IsRun(w, es)
    decreases |es|
  {
    || HasStatus(w.db, id, status)
    || (es != [] && EverHadStatus(Apply(w, es[0]), es[1..], id, status))
  }

  predicate ProviderAccepts(w: World, e: Event, id: Id) {
    || (e.InlineAnswer? && e.id == id && e.outcome.Accepted?)
    || (e.Send? && e.outcome.Accepted? && w.worker.Attempting? && w.worker.due != [] && w.worker.due[0].submission.id == id)
  }

  predicate ProviderRejectsRetry(w: World, e: Event, id: Id) {
    e.Send? && e.outcome.Terminal? && w.worker.Attempting? && w.worker.due != [] && w.worker.due[0].submission.id == id
  }

  /** A background failure of this submission is committed. */
  predicate FailureCommits(w: World, e: Event, id: Id) {
    && e.RecordOutcome? && e.diskOk && w.worker.Attempting? && w.worker.due != [] && w.worker.due[0].submission.id == id
    && w.worker.answer.Some? && w.worker.answer.value.Retryable? && id in w.db.queue
  }

  /** The ingress comes to the end of its means: a terminal answer, a retryable one for a
      submission that may not be queued, or an Enqueue that does not commit. */
  predicate IngressGivesUp(w: World, e: Event, id: Id) {
    || (e.InlineAnswer? && e.id == id && e.outcome.Terminal?)
    || (e.InlineAnswer? && e.id == id && e.outcome.Retryable? && id in w.inline && w.inline[id] == Trying(false))
    || (e.InlineEnqueue? && e.id == id && !(e.diskOk && CanEnqueue(w.db, id)))
  }

  ghost predicate EverGivenUp(w: World, es: seq<Event>, id: Id)
    requires IsRun(w, es)
    decreases |es|
  {
    es != [] && (IngressGivesUp(w, es[0], id) || EverGivenUp(Apply(w, es[0]), es[1..], id))
  }

  ghost predicate EverAccepted(w: World, es: seq<Event>, id: Id)
    requires IsRun(w, es)
    decreases |es|
  {
    es != [] && (ProviderAccepts(w, es[0], id) || EverAccepted(Apply(w, es[0]), es[1..], id))
  }

  ghost predicate EverRejected(w: World, es: seq<Event>, id: Id)
    requires IsRun(w, es)
    decreases |es|
  {
    es != [] && (ProviderRejectsRetry(w, es[0], id) || EverRejected(Apply(w, es[0]), es[1..], id))
  }

  /** How many background failures of this submission the run commits. */
  ghost function FailuresCommitted(w: World, es: seq<Event>, id: Id): nat
    requires IsRun(w, es)
    decreases |es|
  {
    if es == [] then 0
    else (if FailureCommits(w, es[0], id) then 1 else 0) + FailuresCommitted(Apply(w, es[0]), es[1..], id)
  }

  // ---- the history is honest ------------------------------------------------

  /** What a step adds to the history, it shows in the tables or in the event itself. */
  ghost predicate Honest(w: World, e: Event, w': World, id: Id) {
    && (id in w'.past.delivered ==> id in w.past.delivered || HasStatus(w'.db, id, Sent))
    && (id in w'.past.dead ==> id in w.past.dead || HasStatus(w'.db, id, Failed))
    && (id in w'.past.refused ==> id in w.past.refused || HasStatus(w'.db, id, Failed))
    && (id in w'.past.providerTook ==> id in w.past.providerTook || ProviderAccepts(w, e, id))
    && (id in w'.past.providerRefused ==> id in w.past.providerRefused || ProviderRejectsRetry(w, e, id))
  }

  lemma OutcomeHonest(w: World, now: int, diskOk: bool, id: Id)
    requires Inv(w) && Enabled(w, RecordOutcome(now, diskOk))
    ensures Honest(w, RecordOutcome(now, diskOk), RecordOutcomeStep(w, now, diskOk), id)
  {
    HeadIsQueued(w);
    hide Inv, Coupled, HeldIds, Begin, Unix, Count;
  }

  lemma InlineSentHonest(w: World, x: Id, now: int, diskOk: bool, id: Id)
    requires Inv(w) && Enabled(w, InlineMarkSent(x, now, diskOk))
    ensures Honest(w, InlineMarkSent(x, now, diskOk), InlineMarkSentStep(w, x, now, diskOk), id)
  {
    assert Coupled(ViewOf(w, x));
    hide Inv;
  }

  lemma InlineFailedHonest(w: World, x: Id, diskOk: bool, id: Id)
    requires Inv(w) && Enabled(w, InlineMarkFailed(x, diskOk))
    ensures Honest(w, InlineMarkFailed(x, diskOk), InlineMarkFailedStep(w, x, diskOk), id)
  {
    assert Coupled(ViewOf(w, x));
    hide Inv;
  }

  lemma StepHonest(w: World, e: Event, id: Id)
    requires Inv(w) && Enabled(w, e)
    ensures Honest(w, e, Apply(w, e), id)
  {
    hide Inv, InlineMarkSentStep, InlineMarkFailedStep, RecordOutcomeStep, PruneTx, RecoverInsert, RecoverUpdate, IsDueSelection;
    hide PreSendRow, EnqueueTx, InsertSubmission, HasStatus, SetStatus, DropQueueRow, CanEnqueue, Begin, Unix, IngressShape;
    if e.RecordOutcome? { OutcomeHonest(w, e.now, e.diskOk, id); }
    if e.InlineMarkSent? { InlineSentHonest(w, e.id, e.now, e.diskOk, id); }
    if e.InlineMarkFailed? { InlineFailedHonest(w, e.id, e.diskOk, id); }
  }

  lemma StepCounts(w: World, e: Event, id: Id)
    requires Enabled(w, e)
    ensures var w' := Apply(w, e);
            Count(w'.past.failures, id) == Count(w.past.failures, id) + (if FailureCommits(w, e, id) then 1 else 0)
  {
    if e.RecordOutcome? { OutcomeCounts(w, e.now, e.diskOk, id); }
    hide RecordOutcomeStep;
    hide MarkSentTx, EnqueueTx, DeadLetterTx, RetryFailureTx, SetStatus, PruneTx, RecoverInsert, RecoverUpdate, IsDueSelection, PreSendRow;
  }

  lemma OutcomeCounts(w: World, now: int, diskOk: bool, id: Id)
    requires w.worker.Attempting? && w.worker.due != [] && w.worker.answer.Some?
    ensures Count(RecordOutcomeStep(w, now, diskOk).past.failures, id)
            == Count(w.past.failures, id) + (if FailureCommits(w, RecordOutcome(now, diskOk), id) then 1 else 0)
  {
    if w.worker.answer.value.Retryable? {
      var x := w.worker.due[0].submission.id;
      if x in w.db.queue { RetryRecordedCounts(w.past, x, w.db.queue[x].attempt, id); }
    }
    hide MarkSentTx, DeadLetterTx, RetryFailureTx, RetryRecorded, Count, Begin;
  }

  lemma RetryRecordedCounts(past: History, x: Id, attempt: nat, id: Id)
    ensures Count(RetryRecorded(past, x, attempt).failures, id) == Count(past.failures, id) + (if x == id then 1 else 0)
  {
  }

  lemma StepKeepsPromises(w: World, e: Event, id: Id)
    requires Enabled(w, e)
    ensures id in w.past.promised || e == ReplyQueued(id) ==> id in Apply(w, e).past.promised
  {
    hide MarkSentTx, EnqueueTx, DeadLetterTx, RetryFailureTx, SetStatus, PruneTx, RecoverInsert, RecoverUpdate, IsDueSelection, PreSendRow;
  }

  lemma {:induction false} RunHonest(w: World, es: seq<Event>, id: Id)
    requires Inv(w) && IsRun(w, es)
    ensures var w' := Exec(w, es);
            && (id in w'.past.delivered ==> id in w.past.delivered || EverHadStatus(w, es, id, Sent))
            && (id in w'.past.dead ==> id in w.past.dead || EverHadStatus(w, es, id, Failed))
            && (id in w'.past.refused ==> id in w.past.refused || EverHadStatus(w, es, id, Failed))
            && (id in w'.past.providerTook ==> id in w.past.providerTook || EverAccepted(w, es, id))
            && (id in w'.past.providerRefused ==> id in w.past.providerRefused || EverRejected(w, es, id))
    decreases |es|
  {
    if es != [] {
      StepKeeps(w, es[0]);
      StepHonest(w, es[0], id);
      RunHonest(Apply(w, es[0]), es[1..], id);
    }
  }

  lemma {:induction false} RunCounts(w: World, es: seq<Event>, id: Id)
    requires IsRun(w, es)
    ensures Count(Exec(w, es).past.failures, id) == Count(w.past.failures, id) + FailuresCommitted(w, es, id)
    ensures id in w.past.promised || ReplyQueued(id) in es ==> id in Exec(w, es).past.promised
    decreases |es|
  {
    if es != [] {
      StepCounts(w, es[0], id);
      StepKeepsPromises(w, es[0], id);
      RunCounts(Apply(w, es[0]), es[1..], id);
    }
  }

  // ---- no accepted mail is lost ---------------------------------------------

  predicate PendingInQueue(db: Db, id: Id) {
    && id in db.queue && id in db.submissions
    && (db.submissions[id].status == Queued || db.submissions[id].status == Sending)
    && db.queue[id].attempt < MAX_ATTEMPTS
  }

  /** Once a client has been told "queued", then at every later moment of every run,
      with crashes and failing statements anywhere, the submission is still in the
      retry queue with a pending status; or the provider accepted it and its row was
      recorded sent; or its row was recorded failed, after a terminal answer to a
      background send or after the full ladder of failures. */
  lemma QueuedMailIsNeverLost(w: World, es: seq<Event>, id: Id)
    requires Init(w) && IsRun(w, es) && ReplyQueued(id) in es
    ensures
      || PendingInQueue(Exec(w, es).db, id)
      || (EverAccepted(w, es, id) && EverHadStatus(w, es, id, Sent))
      || (EverHadStatus(w, es, id, Failed)
          && (EverRejected(w, es, id) || FailuresCommitted(w, es, id) == MAX_ATTEMPTS))
  {
    InitHolds(w);
    RunKeeps(w, es);
    RunHonest(w, es, id);
    RunCounts(w, es, id);
    assert w.past.failures == map[];
    assert Coupled(ViewOf(Exec(w, es), id));
  }

  lemma OutcomeKeepsRecorded(w: World, now: int, diskOk: bool)
    requires Enabled(w, RecordOutcome(now, diskOk))
    ensures RecordOutcomeStep(w, now, diskOk).past.recorded == w.past.recorded
  {
    hide MarkSentTx, DeadLetterTx, RetryFailureTx;
  }

  lemma StepKeepsRecorded(w: World, e: Event, via: Ingress, id: Id, msg: Message, now: int)
    requires Inv(w) && Enabled(w, e)
    requires id in w.past.recorded || e == Record(via, id, msg, now, true)
    ensures id in Apply(w, e).past.recorded
  {
    if e == Record(via, id, msg, now, true) {
      assert Coupled(ViewOf(w, id));
    }
    if e.RecordOutcome? { OutcomeKeepsRecorded(w, e.now, e.diskOk); }
    hide Inv, Coupled, ViewOf, RecordOutcomeStep;
    hide MarkSentTx, EnqueueTx, DeadLetterTx, RetryFailureTx, SetStatus, PruneTx, RecoverInsert, RecoverUpdate, IsDueSelection, PreSendRow;
  }

  lemma {:induction false} RecordedStays(w: World, es: seq<Event>, via: Ingress, id: Id, msg: Message, now: int)
    requires Inv(w) && IsRun(w, es)
    requires id in w.past.recorded || Record(via, id, msg, now, true) in es
    ensures id in Exec(w, es).past.recorded
    decreases |es|
  {
    if es != [] {
      StepKeeps(w, es[0]);
      if id in w.past.recorded || es[0] == Record(via, id, msg, now, true) {
        StepKeepsRecorded(w, es[0], via, id, msg, now);
      }
      RecordedStays(Apply(w, es[0]), es[1..], via, id, msg, now);
    }
  }

  /** The ingress has given up on the submission, or has recorded that it did. */
  predicate GivenUp(w: World, id: Id) {
    id in w.past.refused || (id in w.inline && w.inline[id].Failing?)
  }

  lemma StepGivesUp(w: World, e: Event, id: Id)
    requires Enabled(w, e) && GivenUp(Apply(w, e), id)
    ensures GivenUp(w, id) || IngressGivesUp(w, e, id)
  {
    hide InsertSubmission, DropQueueRow, IngressShape, Begin, Unix, Count;
    hide MarkSentTx, EnqueueTx, DeadLetterTx, RetryFailureTx, SetStatus, PruneTx, RecoverInsert, RecoverUpdate, IsDueSelection, PreSendRow;
  }

  lemma {:induction false} RunGivesUp(w: World, es: seq<Event>, id: Id)
    requires IsRun(w, es) && GivenUp(Exec(w, es), id)
    ensures GivenUp(w, id) || EverGivenUp(w, es, id)
    decreases |es|
  {
    if es != [] {
      hide Apply, Enabled, GivenUp, IngressGivesUp;
      RunGivesUp(Apply(w, es[0]), es[1..], id);
      if GivenUp(Apply(w, es[0]), id) { StepGivesUp(w, es[0], id); }
    }
  }

  /** The wider promise: a submission whose pre-send row was committed is pending in
      the queue, or still marked sending (in the hands of a live sender, or waiting
      for the next Open); or the provider accepted it and its row was recorded sent; or
      its row was recorded failed, after the ingress gave up, after a terminal answer to
      a background send, or after the full ladder of failures. */
  lemma RecordedMailIsAccountedFor(w: World, es: seq<Event>, via: Ingress, id: Id, msg: Message, now: int)
    requires Init(w) && IsRun(w, es) && Record(via, id, msg, now, true) in es
    ensures var w' := Exec(w, es);
            || PendingInQueue(w'.db, id)
            || (WasSending(w'.db, id) && (id in w'.inline || id in w'.past.adrift || w'.mode == Down))
            || (EverAccepted(w, es, id) && EverHadStatus(w, es, id, Sent))
            || (EverHadStatus(w, es, id, Failed)
                && (EverGivenUp(w, es, id) || EverRejected(w, es, id) || FailuresCommitted(w, es, id) == MAX_ATTEMPTS))
  {
    InitHolds(w);
    RunKeeps(w, es);
    RunHonest(w, es, id);
    RunCounts(w, es, id);
    RecordedStays(w, es, via, id, msg, now);
    assert w.past.failures == map[] && !GivenUp(w, id);
    assert Coupled(ViewOf(Exec(w, es), id));
    if GivenUp(Exec(w, es), id) { RunGivesUp(w, es, id); }
  }

  // ---- the tables stay coupled ----------------------------------------------

  ghost predicate TablesCoupled(w: World) {
    && (forall id :: id in w.db.queue ==> PendingInQueue(w.db, id))
    && (forall id :: id in w.db.submissions && w.db.submissions[id].status == Queued ==> id in w.db.queue)
    && (forall id :: WasSending(w.db, id) && id !in w.db.queue ==>
          id in w.inline || (w.mode == Up && id in w.past.adrift) || w.mode == Down)
    && (forall id :: id in w.db.queue && id in w.inline ==> w.inline[id].Answering?)
  }

  lemma InvCouples(w: World)
    requires Inv(w)
    ensures TablesCoupled(w)
  {
    forall id
      ensures id in w.db.queue ==> PendingInQueue(w.db, id)
      ensures id in w.db.submissions && w.db.submissions[id].status == Queued ==> id in w.db.queue
      ensures WasSending(w.db, id) && id !in w.db.queue ==>
                id in w.inline || (w.mode == Up && id in w.past.adrift) || w.mode == Down
      ensures id in w.db.queue && id in w.inline ==> w.inline[id].Answering?
    {
      assert Coupled(ViewOf(w, id));
    }
  }

  lemma TablesStayCoupled(w: World, es: seq<Event>)
    requires Init(w) && IsRun(w, es)
    ensures TablesCoupled(Exec(w, es))
  {
    InitHolds(w);
    RunKeeps(w, es);
    InvCouples(Exec(w, es));
  }

  /** The six places a recorded submission can be in exclude each other. */
  lemma PlacesAreExclusive(v: View)
    requires Coupled(v) && v.recorded
    ensures (if OwnedInline(v) then 1 else 0) + (if AwaitsRecovery(v) then 1 else 0) + (if InQueue(v) then 1 else 0)
            + (if RecordedSent(v) then 1 else 0) + (if DeadLettered(v) then 1 else 0) + (if RefusedInline(v) then 1 else 0) == 1
  {
  }

  // ---- the ladder -----------------------------------------------------------

  /** Over a whole run, crashes included, no submission collects more than
      MAX_ATTEMPTS background failures. */
  lemma LadderBound(w: World, es: seq<Event>, id: Id)
    requires Init(w) && IsRun(w, es)
    ensures FailuresCommitted(w, es, id) <= MAX_ATTEMPTS
    ensures id in Exec(w, es).db.queue ==> Exec(w, es).db.queue[id].attempt == FailuresCommitted(w, es, id) < MAX_ATTEMPTS
  {
    InitHolds(w);
    RunKeeps(w, es);
    RunCounts(w, es, id);
    assert w.past.failures == map[];
    assert Coupled(ViewOf(Exec(w, es), id));
  }

  lemma FailureClimbs(w: World, id: Id, now: int)
    requires Inv(w) && Enabled(w, RecordOutcome(now, true)) && FailureCommits(w, RecordOutcome(now, true), id)
    ensures var k, after := w.db.queue[id].attempt + 1, RecordOutcomeStep(w, now, true).db;
            && (k >= MAX_ATTEMPTS <==> id !in after.queue)
            && (k >= MAX_ATTEMPTS ==> HasStatus(after, id, Failed))
            && (k < MAX_ATTEMPTS ==> after.queue[id] == QueueRow(k, Unix(now) + RETRY_BACKOFF[k]) && HasStatus(after, id, Queued))
            && id in after.submissions && after.submissions[id].lastError == w.worker.answer.value.error
  {
    HeadIsQueued(w);
    hide Inv, Coupled;
    var k := w.db.queue[id].attempt + 1;
    if k < MAX_ATTEMPTS { UnixShift(now, RETRY_BACKOFF[k]); }
  }

  /** The failure that makes it k either dead-letters, exactly when k is MAX_ATTEMPTS,
      or reschedules RETRY_BACKOFF[k] later; the room left on the ladder shrinks, and the
      row keeps the error. */
  lemma LadderRung(w: World, es: seq<Event>, id: Id, now: int)
    requires Init(w) && IsRun(w, es)
    requires Enabled(Exec(w, es), RecordOutcome(now, true)) && FailureCommits(Exec(w, es), RecordOutcome(now, true), id)
    ensures var k := FailuresCommitted(w, es, id) + 1;
            var before, after := Exec(w, es).db, RecordOutcomeStep(Exec(w, es), now, true).db;
            && 1 <= k <= MAX_ATTEMPTS
            && (k == MAX_ATTEMPTS <==> id !in after.queue)
            && (k == MAX_ATTEMPTS ==> HasStatus(after, id, Failed))
            && id in after.submissions && after.submissions[id].lastError == Exec(w, es).worker.answer.value.error
            && (k < MAX_ATTEMPTS ==>
                  && after.queue[id] == QueueRow(k, Unix(now) + RETRY_BACKOFF[k]) && HasStatus(after, id, Queued)
                  && MAX_ATTEMPTS - after.queue[id].attempt < MAX_ATTEMPTS - before.queue[id].attempt)
  {
    LadderBound(w, es, id);
    InitHolds(w);
    RunKeeps(w, es);
    hide IsRun, Exec, FailuresCommitted;
    FailureClimbs(Exec(w, es), id, now);
    hide Inv, RecordOutcomeStep, HasStatus;
  }

  // ---- recovery, pruning, replay --------------------------------------------

  /** Recovery of one row that was in flight. */
  lemma RowIsRecovered(w: World, id: Id)
    requires Inv(w) && WasSending(w.db, id)
    ensures var db := RecoverUpdate(RecoverInsert(w.db));
            PendingInQueue(db, id) && db.queue[id].nextAttemptAt <= Unix(w.clock) && db.queue[id].attempt == Count(w.past.failures, id)
  {
    assert Coupled(ViewOf(w, id));
    hide Inv;
  }

  /** Stop the process anywhere and open the file again: nothing is in flight, every
      row that was is queued and due now, and no attempt count has been lost. */
  lemma ReopenAfterCrash(w: World, es: seq<Event>)
    requires Init(w) && IsRun(w, es)
    ensures var before, after := Exec(w, es), Reopened(Exec(w, es));
            && after.mode == Up
            && (forall id :: !WasSending(after.db, id))
            && (forall id :: WasSending(before.db, id) ==>
                  && PendingInQueue(after.db, id)
                  && after.db.queue[id].nextAttemptAt <= Unix(after.clock)
                  && after.db.queue[id].attempt == FailuresCommitted(w, es, id))
  {
    var before := Exec(w, es);
    var after := Reopened(before);
    InitHolds(w);
    RunKeeps(w, es);
    RecoverMeetsSpec(before.db);
    assert w.past.failures == map[];
    hide IsRun, Exec, FailuresCommitted, Inv;
    forall id | WasSending(before.db, id)
      ensures PendingInQueue(after.db, id) && after.db.queue[id].nextAttemptAt <= Unix(after.clock)
      ensures after.db.queue[id].attempt == FailuresCommitted(w, es, id)
    {
      RowIsRecovered(before, id);
      RunCounts(w, es, id);
    }
  }

  /** Retention never touches pending work: for any cutoff, after any run, the cascade
      into the retry queue is empty and the suppression list is as it was. */
  lemma PruneSparesPendingWork(w: World, es: seq<Event>, cutoff: int)
    requires Init(w) && IsRun(w, es)
    ensures PruneTx(Exec(w, es).db, cutoff).queue == Exec(w, es).db.queue
    ensures PruneTx(Exec(w, es).db, cutoff).suppressions == Exec(w, es).db.suppressions
  {
    InitHolds(w);
    RunKeeps(w, es);
    PruneSpares(Exec(w, es), cutoff);
  }

  lemma StepKeepsOriginal(w: World, e: Event, via: Ingress, id: Id, msg: Message, now: int)
    requires Enabled(w, e)
    ensures id in w.past.used ==> id in Apply(w, e).past.used && Get(Apply(w, e).past.original, id) == Get(w.past.original, id)
    ensures e == Record(via, id, msg, now, true) && id !in w.db.submissions && QueueEligible(via) ==>
              id in Apply(w, e).past.used && Get(Apply(w, e).past.original, id) == Some(msg)
  {
    hide InsertSubmission, DropQueueRow, CanEnqueue, Begin, Unix, Count;
    hide MarkSentTx, EnqueueTx, DeadLetterTx, RetryFailureTx, SetStatus, PruneTx, RecoverInsert, RecoverUpdate, IsDueSelection, PreSendRow;
  }

  /** Once recorded, the message behind an id is fixed for the rest of the run. */
  lemma {:induction false} UsedKeepsOriginal(w: World, es: seq<Event>, via: Ingress, id: Id, msg: Message, now: int)
    requires IsRun(w, es) && id in w.past.used
    ensures Get(Exec(w, es).past.original, id) == Get(w.past.original, id)
    ensures Record(via, id, msg, now, true) !in es
    decreases |es|
  {
    if es != [] {
      StepKeepsOriginal(w, es[0], via, id, msg, now);
      UsedKeepsOriginal(Apply(w, es[0]), es[1..], via, id, msg, now);
      assert es == [es[0]] + es[1..];
    }
  }

  lemma {:induction false} OriginalIsKept(w: World, es: seq<Event>, via: Ingress, id: Id, msg: Message, now: int)
    requires Inv(w) && IsRun(w, es) && QueueEligible(via) && Record(via, id, msg, now, true) in es
    ensures Get(Exec(w, es).past.original, id) == Some(msg)
    decreases |es|
  {
    StepKeepsOriginal(w, es[0], via, id, msg, now);
    StepKeeps(w, es[0]);
    assert Coupled(ViewOf(w, id));
    if es[0] == Record(via, id, msg, now, true) {
      UsedKeepsOriginal(Apply(w, es[0]), es[1..], via, id, msg, now);
    } else {
      OriginalIsKept(Apply(w, es[0]), es[1..], via, id, msg, now);
    }
  }

  /** Faithful replay: whenever the worker is about to send, after any crashes and
      retries, the message it rebuilds is the one the client handed over. */
  lemma ReplayIsFaithful(w: World, es: seq<Event>, via: Ingress, msg: Message, now: int, outcome: Outcome)
    requires Init(w) && IsRun(w, es) && Enabled(Exec(w, es), Send(outcome)) && QueueEligible(via)
    requires Record(via, Exec(w, es).worker.due[0].submission.id, msg, now, true) in es
    ensures Rebuild(Exec(w, es).worker.due[0].submission) == msg
  {
    InitHolds(w);
    RunKeeps(w, es);
    var w' := Exec(w, es);
    OriginalIsKept(w, es, via, w'.worker.due[0].submission.id, msg, now);
    assert Faithful(w', w'.worker.due[0].submission);
  }

  // ---- metadata-only rows ---------------------------------------------------

  /** Only an ingress and crash recovery put rows into the queue. */
  lemma QueueGrowsBy(w: World, e: Event, id: Id)
    requires Enabled(w, e) && id !in w.db.queue
    ensures id in Apply(w, e).db.queue ==>
              (e.InlineEnqueue? && e.id == id) || (e == OpenInsert(true) && WasSending(w.db, id))
  {
    if e.RecordOutcome? {
      OutcomeNeverGrowsQueue(w, e.now, e.diskOk, id);
    }
  }

  lemma OutcomeNeverGrowsQueue(w: World, now: int, diskOk: bool, id: Id)
    requires Enabled(w, RecordOutcome(now, diskOk)) && id !in w.db.queue
    ensures id !in RecordOutcomeStep(w, now, diskOk).db.queue
  {
    hide Begin, RetryRecorded, Unix;
  }

  /** A row stored without content is documented as never entering the queue. It does
      in exactly one way: crash recovery finds it in flight. */
  lemma MetadataOnlyRowIsQueued(w: World, es: seq<Event>, e: Event, id: Id)
    requires Init(w) && IsRun(w, es) && Enabled(Exec(w, es), e)
    requires id !in Exec(w, es).past.original && id !in Exec(w, es).db.queue
    ensures id in Apply(Exec(w, es), e).db.queue <==> e == OpenInsert(true) && WasSending(Exec(w, es).db, id)
  {
    InitHolds(w);
    RunKeeps(w, es);
    assert Coupled(ViewOf(Exec(w, es), id));
    QueueGrowsBy(Exec(w, es), e, id);
  }

  const METADATA_ONLY := Http("/contact", "postmark", false, "")
  const SAMPLE := Message("from@example.com", ["to@example.com"], "", "hello", "body", "", 7, map[], [], [])

  lemma RunCons(w: World, e: Event, es: seq<Event>)
    requires Enabled(w, e) && IsRun(Apply(w, e), es)
    ensures IsRun(w, [e] + es) && Exec(w, [e] + es) == Exec(Apply(w, e), es)
  {
    assert ([e] + es)[1..] == es;
  }

  /** A crash while one submission is in flight, then a clean Open. */
  function Reopened(w: World): World {
    OpenUpdateStep(OpenInsertStep(CrashStep(w), true), true)
  }

  lemma ReopenRun(w: World)
    ensures IsRun(w, [Crash] + ([OpenInsert(true)] + ([OpenUpdate(true)] + [])))
    ensures Exec(w, [Crash] + ([OpenInsert(true)] + ([OpenUpdate(true)] + []))) == Reopened(w)
  {
    var w1 := CrashStep(w);
    var w2 := OpenInsertStep(w1, true);
    RunCons(w2, OpenUpdate(true), []);
    RunCons(w1, OpenInsert(true), [OpenUpdate(true)] + []);
    RunCons(w, Crash, [OpenInsert(true)] + ([OpenUpdate(true)] + []));
  }

  /** And it does happen: a fresh installation, one crash in the middle of one inline
      send, and the worker will replay a message with no recipients. */
  lemma MetadataOnlyRowReachesQueue(w: World)
    requires Init(w)
    ensures var es := [OpenInsert(true)] + ([OpenUpdate(true)]
                      + ([Record(METADATA_ONLY, SAMPLE.submissionID, SAMPLE, w.clock, true)]
                         + ([Crash] + ([OpenInsert(true)] + ([OpenUpdate(true)] + [])))));
            && IsRun(w, es)
            && PendingInQueue(Exec(w, es).db, SAMPLE.submissionID)
            && Rebuild(Exec(w, es).db.submissions[SAMPLE.submissionID]).to == []
  {
    InitHolds(w);
    var w1 := OpenInsertStep(w, true);
    OpenInsertKeeps(w, true);
    OpenUpdateKeeps(w1, true);
    var w2 := OpenUpdateStep(w1, true);
    CrashDuringMetadataOnlySend(w2);
    var tail := [Record(METADATA_ONLY, SAMPLE.submissionID, SAMPLE, w.clock, true)]
                + ([Crash] + ([OpenInsert(true)] + ([OpenUpdate(true)] + [])));
    RunCons(w1, OpenUpdate(true), tail);
    RunCons(w, OpenInsert(true), [OpenUpdate(true)] + tail);
  }

  lemma CrashDuringMetadataOnlySend(w: World)
    requires Inv(w) && w.mode == Up && SAMPLE.submissionID !in w.past.used
    ensures var es := [Record(METADATA_ONLY, SAMPLE.submissionID, SAMPLE, w.clock, true)]
                      + ([Crash] + ([OpenInsert(true)] + ([OpenUpdate(true)] + [])));
            && IsRun(w, es)
            && PendingInQueue(Exec(w, es).db, SAMPLE.submissionID)
            && Rebuild(Exec(w, es).db.submissions[SAMPLE.submissionID]).to == []
  {
    var id := SAMPLE.submissionID;
    var record := Record(METADATA_ONLY, id, SAMPLE, w.clock, true);
    assert Coupled(ViewOf(w, id));
    ReopenRun(Apply(w, record));
    RunCons(w, record, [Crash] + ([OpenInsert(true)] + ([OpenUpdate(true)] + [])));
  }
}
