/**
 The durable retry queue as a state machine. Every SQL statement and every
 transaction is one atomic step; inline senders, the retry worker and the pruner
 interleave freely; a crash may fall between any two steps, including between the
 two statements of crash recovery; and every statement may fail with no effect.

 One process at a time has the file open, and submission ids are never reused.
 */
module RetryProtocol {
  import opened Basics
  import opened Clock
  import opened Mail
  import opened Tables
  import opened Transport
  import opened Storage

  /** Where a live ingress goroutine stands with the row it has recorded. */
  datatype Inline =
    | Trying(queueable: bool)      // row committed as sending, send under way
    | Finishing(messageID: string) // provider accepted, MarkSent is next
    | Enqueueing(error: string)    // retryable failure, Enqueue is next
    | Failing(error: string)       // MarkStatus failed is next
    | Answering                    // Enqueue committed, the "queued" reply is next

  datatype Claim = Claim(id: Id, attempt: nat)

  /** The single retry worker: selecting and marking rows, then attempting them. */
  datatype Worker =
    | Idle
    | Claiming(todo: seq<Claim>, read: Option<Submission>, due: seq<DueRetry>)
    | Attempting(due: seq<DueRetry>, answer: Option<Outcome>)

  datatype Mode = Down | Recovering | Up

  datatype Cause = Rejected | Exhausted

  /** What has happened so far, independently of what the tables still hold. */
  datatype History = History(
    used: set<Id>,                // ids of every row ever inserted
    recorded: set<Id>,            // ids of every pre-send row
    original: map<Id, Message>,   // the message behind each queue-eligible row
    enqueued: set<Id>,            // Enqueue committed
    promised: set<Id>,            // the client was told "queued"
    providerTook: set<Id>,        // some send of it was accepted
    providerRefused: set<Id>,     // some background send of it failed terminally
    delivered: set<Id>,           // recorded sent
    dead: map<Id, Cause>,         // recorded failed by the worker
    refused: set<Id>,             // recorded failed by the ingress
    adrift: set<Id>,              // the ingress could not record its final outcome
    failures: map<Id, nat>)       // recorded background failures

  datatype World = World(
    db: Db,
    clock: int,
    mode: Mode,
    inline: map<Id, Inline>,
    worker: Worker,
    past: History)

  datatype Event =
    | Record(via: Ingress, id: Id, msg: Message, now: int, diskOk: bool)
    | RecordSuppressed(row: Submission, diskOk: bool)
    | InlineAnswer(id: Id, outcome: Outcome)
    | InlineMarkSent(id: Id, now: int, diskOk: bool)
    | InlineEnqueue(id: Id, now: int, diskOk: bool)
    | InlineMarkFailed(id: Id, diskOk: bool)
    | ReplyQueued(id: Id)
    | Poll(now: int, limit: nat, ids: seq<Id>)
    | ClaimRead(diskOk: bool, dropOk: bool)
    | ClaimMark(diskOk: bool)
    | ClaimEnd
    | Send(outcome: Outcome)
    | RecordOutcome(now: int, diskOk: bool)
    | Cancel
    | Prune(cutoff: int, diskOk: bool)
    | Crash
    | OpenInsert(diskOk: bool)
    | OpenUpdate(diskOk: bool)

  const NO_HISTORY := History({}, {}, map[], {}, {}, {}, {}, {}, map[], {}, {}, map[])

  /** A fresh installation about to open its empty file. */
  predicate Init(w: World) {
    && w.db.submissions == map[] && w.db.queue == map[]
    && 0 <= w.clock
    && w.mode == Down && w.inline == map[] && w.worker == Idle
    && w.past == NO_HISTORY
  }

  // ---- steps ----------------------------------------------------------------

  function Count(m: map<Id, nat>, id: Id): nat {
    if id in m then m[id] else 0
  }

  function Begin(due: seq<DueRetry>): Worker {
    if due == [] then Idle else Attempting(due, None)
  }

  ghost predicate Enabled(w: World, e: Event) {
    match e
    case Record(via, id, msg, now, _) =>
      w.mode == Up && id !in w.past.used && IngressShape(via, id, msg) && w.clock <= now
    case RecordSuppressed(row, _) =>
      w.mode == Up && row.id !in w.past.used && row.status == Suppressed
      && row.messageID == "" && row.sentAt.None? && row.lastError == ""
    case InlineAnswer(id, _) => id in w.inline && w.inline[id].Trying?
    case InlineMarkSent(id, now, _) => id in w.inline && w.inline[id].Finishing? && w.clock <= now
    case InlineEnqueue(id, now, _) => id in w.inline && w.inline[id].Enqueueing? && w.clock <= now
    case InlineMarkFailed(id, _) => id in w.inline && w.inline[id].Failing?
    case ReplyQueued(id) => id in w.inline && w.inline[id].Answering?
    case Poll(now, limit, ids) =>
      w.mode == Up && w.worker == Idle && w.clock <= now && IsDueSelection(w.db.queue, Unix(now), limit, ids)
    case ClaimRead(_, _) => w.worker.Claiming? && w.worker.todo != [] && w.worker.read == None
    case ClaimMark(_) => w.worker.Claiming? && w.worker.todo != [] && w.worker.read != None
    case ClaimEnd => w.worker.Claiming? && w.worker.todo == []
    case Send(_) => w.worker.Attempting? && w.worker.due != [] && w.worker.answer == None
    case RecordOutcome(now, _) =>
      w.worker.Attempting? && w.worker.due != [] && w.worker.answer != None && w.clock <= now
    case Cancel => w.worker.Attempting? && w.worker.answer == None
    case Prune(_, _) => w.mode == Up
    case Crash => true
    case OpenInsert(_) => w.mode == Down
    case OpenUpdate(_) => w.mode == Recovering
  }

  function RecordStep(w: World, via: Ingress, id: Id, msg: Message, now: int, diskOk: bool): World
    requires IngressShape(via, id, msg)
  {
    if diskOk && id !in w.db.submissions then
      w.(db := InsertSubmission(w.db, PreSendRow(via, id, msg, now)),
      clock := now,
      inline := w.inline[id := Trying(QueueEligible(via))],
      past := w.past.(used := w.past.used + {id},
      recorded := w.past.recorded + {id},
      original := if QueueEligible(via) then w.past.original[id := msg] else w.past.original))
    else w.(clock := now)
  }

  function RecordSuppressedStep(w: World, row: Submission, diskOk: bool): World {
    if diskOk && row.id !in w.db.submissions then
      w.(db := InsertSubmission(w.db, row), past := w.past.(used := w.past.used + {row.id}))
    else w
  }

  function InlineAnswerStep(w: World, id: Id, outcome: Outcome): World
    requires id in w.inline && w.inline[id].Trying?
  {
    match outcome
    case Accepted(m) =>
      w.(inline := w.inline[id := Finishing(m)],
      past := w.past.(providerTook := w.past.providerTook + {id}))
    case Retryable(err) =>
      w.(inline := w.inline[id := if w.inline[id].queueable then Enqueueing(err) else Failing(err)])
    case Terminal(err) => w.(inline := w.inline[id := Failing(err)])
  }

  function InlineMarkSentStep(w: World, id: Id, now: int, diskOk: bool): World
    requires id in w.inline && w.inline[id].Finishing?
  {
    var after := w.(inline := w.inline - {id}, clock := now);
    if diskOk then
      after.(db := MarkSentTx(w.db, id, w.inline[id].messageID, now),
      past := w.past.(delivered := w.past.delivered + {id}))
    else after.(past := w.past.(adrift := w.past.adrift + {id}))
  }

  function InlineEnqueueStep(w: World, id: Id, now: int, diskOk: bool): World
    requires id in w.inline && w.inline[id].Enqueueing?
  {
    if diskOk && CanEnqueue(w.db, id) then
      w.(db := EnqueueTx(w.db, id, now), clock := now,
      inline := w.inline[id := Answering],
      past := w.past.(enqueued := w.past.enqueued + {id}))
    else w.(clock := now, inline := w.inline[id := Failing(w.inline[id].error)])
  }

  function InlineMarkFailedStep(w: World, id: Id, diskOk: bool): World
    requires id in w.inline && w.inline[id].Failing?
  {
    var after := w.(inline := w.inline - {id});
    if diskOk then
      after.(db := SetStatus(w.db, id, Failed, w.inline[id].error),
      past := w.past.(refused := w.past.refused + {id}))
    else after.(past := w.past.(adrift := w.past.adrift + {id}))
  }

  function ReplyQueuedStep(w: World, id: Id): World {
    w.(inline := w.inline - {id}, past := w.past.(promised := w.past.promised + {id}))
  }

  ghost function PollStep(w: World, now: int, limit: nat, ids: seq<Id>): World
    requires IsDueSelection(w.db.queue, Unix(now), limit, ids)
  {
    w.(clock := now,
    worker := Claiming(seq(|ids|, i requires 0 <= i < |ids| => Claim(ids[i], w.db.queue[ids[i]].attempt)), None, []))
  }

  /** GetSubmission for the next claim. An error ends the claim with what it has; a
      missing parent drops the queue row, best effort. */
  function ClaimReadStep(w: World, diskOk: bool, dropOk: bool): World
    requires w.worker.Claiming? && w.worker.todo != []
  {
    var id := w.worker.todo[0].id;
    if !diskOk then w.(worker := Begin(w.worker.due))
    else if id in w.db.submissions then w.(worker := w.worker.(read := Some(w.db.submissions[id])))
    else
      w.(db := if dropOk then DropQueueRow(w.db, id) else w.db,
      worker := w.worker.(todo := w.worker.todo[1..]))
  }

  /** MarkStatus sending for the row just read. */
  function ClaimMarkStep(w: World, diskOk: bool): World
    requires w.worker.Claiming? && w.worker.todo != [] && w.worker.read.Some?
  {
    var claim, row := w.worker.todo[0], w.worker.read.value;
    if diskOk then
      w.(db := SetStatus(w.db, claim.id, Sending, row.lastError),
      worker := Claiming(w.worker.todo[1..], None,
                         w.worker.due + [DueRetry(row.(status := Sending), claim.attempt)]))
    else w.(worker := Begin(w.worker.due))
  }

  function SendStep(w: World, outcome: Outcome): World
    requires w.worker.Attempting? && w.worker.due != []
  {
    var id := w.worker.due[0].submission.id;
    w.(worker := w.worker.(answer := Some(outcome)),
    past := w.past.(
    providerTook := if outcome.Accepted? then w.past.providerTook + {id} else w.past.providerTook,
    providerRefused := if outcome.Terminal? then w.past.providerRefused + {id} else w.past.providerRefused))
  }

  /** The worker moves on; what it committed for the submission is in `db` and `past`. */
  function Recorded(w: World, now: int, db: Db, past: History): World
    requires w.worker.Attempting? && w.worker.due != []
  {
    w.(clock := now, worker := Begin(w.worker.due[1..]), db := db, past := past)
  }

  function RetryRecorded(past: History, id: Id, attempt: nat): History {
    var counted := past.(failures := past.failures[id := Count(past.failures, id) + 1]);
    if attempt + 1 >= MAX_ATTEMPTS then counted.(dead := counted.dead[id := Exhausted]) else counted
  }

  function RecordOutcomeStep(w: World, now: int, diskOk: bool): World
    requires w.worker.Attempting? && w.worker.due != [] && w.worker.answer.Some?
  {
    var id := w.worker.due[0].submission.id;
    if !diskOk then Recorded(w, now, w.db, w.past)
    else
      match w.worker.answer.value
      case Accepted(m) =>
        Recorded(w, now, MarkSentTx(w.db, id, m, now), w.past.(delivered := w.past.delivered + {id}))
      case Terminal(err) =>
        Recorded(w, now, DeadLetterTx(w.db, id, err), w.past.(dead := w.past.dead[id := Rejected]))
      case Retryable(err) =>
        if id !in w.db.queue then Recorded(w, now, w.db, w.past)
        else
          Recorded(w, now, RetryFailureTx(w.db, id, err, now), RetryRecorded(w.past, id, w.db.queue[id].attempt))
  }

  function CrashStep(w: World): World {
    w.(mode := Down, inline := map[], worker := Idle)
  }

  function OpenInsertStep(w: World, diskOk: bool): World {
    if diskOk then w.(db := RecoverInsert(w.db), mode := Recovering, past := w.past.(adrift := {})) else w
  }

  function OpenUpdateStep(w: World, diskOk: bool): World {
    if diskOk then w.(db := RecoverUpdate(w.db), mode := Up) else w.(mode := Down)
  }

  ghost function Apply(w: World, e: Event): World
    requires Enabled(w, e)
  {
    match e
    case Record(via, id, msg, now, diskOk) => RecordStep(w, via, id, msg, now, diskOk)
    case RecordSuppressed(row, diskOk) => RecordSuppressedStep(w, row, diskOk)
    case InlineAnswer(id, outcome) => InlineAnswerStep(w, id, outcome)
    case InlineMarkSent(id, now, diskOk) => InlineMarkSentStep(w, id, now, diskOk)
    case InlineEnqueue(id, now, diskOk) => InlineEnqueueStep(w, id, now, diskOk)
    case InlineMarkFailed(id, diskOk) => InlineMarkFailedStep(w, id, diskOk)
    case ReplyQueued(id) => ReplyQueuedStep(w, id)
    case Poll(now, limit, ids) => PollStep(w, now, limit, ids)
    case ClaimRead(diskOk, dropOk) => ClaimReadStep(w, diskOk, dropOk)
    case ClaimMark(diskOk) => ClaimMarkStep(w, diskOk)
    case ClaimEnd => w.(worker := Begin(w.worker.due))
    case Send(outcome) => SendStep(w, outcome)
    case RecordOutcome(now, diskOk) => RecordOutcomeStep(w, now, diskOk)
    case Cancel => w.(worker := Idle)
    case Prune(cutoff, diskOk) => if diskOk then w.(db := PruneTx(w.db, cutoff)) else w
    case Crash => CrashStep(w)
    case OpenInsert(diskOk) => OpenInsertStep(w, diskOk)
    case OpenUpdate(diskOk) => OpenUpdateStep(w, diskOk)
  }

  // ---- runs -----------------------------------------------------------------

  ghost predicate IsRun(w: World, es: seq<Event>)
    decreases |es|
  {
    es == [] || (Enabled(w, es[0]) && IsRun(Apply(w, es[0]), es[1..]))
  }

  ghost function Exec(w: World, es: seq<Event>): World
    requires IsRun(w, es)
    decreases |es|
  {
    if es == [] then w else Exec(Apply(w, es[0]), es[1..])
  }

  // ---- the invariant, one submission at a time ------------------------------

  /** Everything in the world that concerns one submission id. */
  datatype View = View(
    row: Option<Submission>, slot: Option<QueueRow>, inline: Option<Inline>, held: bool,
    mode: Mode, nowSec: int,
    used: bool, recorded: bool, original: Option<Message>, enqueued: bool, promised: bool,
    took: bool, refusedByProvider: bool, delivered: bool, dead: Option<Cause>, refused: bool,
    adrift: bool, failures: nat)

  function Get<V>(m: map<Id, V>, id: Id): Option<V> {
    if id in m then Some(m[id]) else None
  }

  function ClaimIds(todo: seq<Claim>): seq<Id> {
    seq(|todo|, i requires 0 <= i < |todo| => todo[i].id)
  }

  function DueRetryIds(due: seq<DueRetry>): seq<Id> {
    seq(|due|, i requires 0 <= i < |due| => due[i].submission.id)
  }

  /** The ids the worker is responsible for, in processing order. */
  function HeldIds(worker: Worker): seq<Id> {
    match worker
    case Idle => []
    case Claiming(todo, _, due) => DueRetryIds(due) + ClaimIds(todo)
    case Attempting(due, _) => DueRetryIds(due)
  }

  function ViewOf(w: World, id: Id): View {
    View(Get(w.db.submissions, id), Get(w.db.queue, id), Get(w.inline, id), id in HeldIds(w.worker),
         w.mode, Unix(w.clock),
         id in w.past.used, id in w.past.recorded, Get(w.past.original, id), id in w.past.enqueued,
         id in w.past.promised, id in w.past.providerTook, id in w.past.providerRefused,
         id in w.past.delivered, Get(w.past.dead, id), id in w.past.refused,
         id in w.past.adrift, Count(w.past.failures, id))
  }

  predicate NotInline(v: View) {
    v.inline.None? || v.inline.value.Answering?
  }

  /** Sending, and a live ingress goroutine will record the outcome. */
  predicate OwnedInline(v: View) {
    && v.row.Some? && v.row.value.status == Sending && v.slot.None? && !v.held
    && v.inline.Some? && !v.inline.value.Answering? && v.mode == Up
    && (v.inline.value.Finishing? ==> v.took)
    && ((v.inline.value.Trying? && v.inline.value.queueable) || v.inline.value.Enqueueing? ==> v.original.Some?)
    && !v.enqueued && !v.delivered && v.dead.None? && !v.refused && !v.adrift && v.failures == 0
  }

  /** Sending with no owner: waiting for the next Open to queue it. */
  predicate AwaitsRecovery(v: View) {
    && v.row.Some? && v.row.value.status == Sending && v.slot.None? && !v.held && v.inline.None?
    && (v.mode == Down || (v.mode == Up && v.adrift))
    && !v.enqueued && !v.delivered && v.dead.None? && !v.refused && v.failures == 0
  }

  /** In the retry queue with a pending status; a row being sent is one that was due. */
  predicate InQueue(v: View) {
    && v.slot.Some? && v.row.Some? && NotInline(v)
    && (v.row.value.status == Queued || v.row.value.status == Sending)
    && v.slot.value.attempt == v.failures < MAX_ATTEMPTS
    && (v.held || v.row.value.status == Sending ==> v.slot.value.nextAttemptAt <= v.nowSec)
    && !v.delivered && v.dead.None? && !v.refused && !v.adrift
  }

  predicate Done(v: View) {
    v.slot.None? && !v.held && NotInline(v) && !v.adrift
  }

  predicate RecordedSent(v: View) {
    && Done(v) && v.delivered && v.took && v.dead.None? && !v.refused && v.failures < MAX_ATTEMPTS
    && (v.row.Some? ==> v.row.value.status == Sent)
  }

  /** Failed for good by the worker: refused by the provider, or the whole ladder used up. */
  predicate DeadLettered(v: View) {
    && Done(v) && v.dead.Some? && !v.delivered && !v.refused
    && (v.dead.value.Rejected? ==> v.refusedByProvider && v.failures < MAX_ATTEMPTS)
    && (v.dead.value.Exhausted? ==> v.failures == MAX_ATTEMPTS)
    && (v.row.Some? ==> v.row.value.status == Failed)
  }

  /** Failed by the ingress, which then answers the client with an error. */
  predicate RefusedInline(v: View) {
    && Done(v) && v.inline.None? && v.refused && !v.enqueued && !v.delivered && v.dead.None? && v.failures == 0
    && (v.row.Some? ==> v.row.value.status == Failed)
  }

  /** An id with no pre-send row leaves no trace beyond a suppressed log entry. */
  predicate Untouched(v: View) {
    && (v.row.Some? ==> v.used && v.row.value.status == Suppressed)
    && v.slot.None? && v.inline.None? && !v.held && v.original.None? && !v.enqueued && !v.promised
    && !v.delivered && v.dead.None? && !v.refused && !v.adrift && v.failures == 0
  }

  /** The coupling invariant for one submission: it is in exactly one of six places. */
  predicate Coupled(v: View) {
    && (v.recorded ==> v.used)
    && (v.row.Some? && v.original.Some? ==> Rebuild(v.row.value) == v.original.value)
    && (v.promised ==> v.enqueued)
    && (v.inline == Some(Answering) ==> v.enqueued)
    && (v.enqueued ==> v.original.Some?)
    && (v.mode != Up ==> v.inline.None? && !v.held)
    && if v.recorded then
         OwnedInline(v) || AwaitsRecovery(v) || InQueue(v)
         || RecordedSent(v) || DeadLettered(v) || RefusedInline(v)
       else Untouched(v)
  }

  // ---- the worker's private state -------------------------------------------

  ghost predicate Faithful(w: World, row: Submission) {
    row.id in w.past.original ==> Rebuild(row) == w.past.original[row.id]
  }

  /** Held ids are distinct, every row in hand carries the submitted message, and an
      answer in hand is one the provider gave. */
  ghost predicate WorkerOk(w: World) {
    && (forall i, j :: 0 <= i < j < |HeldIds(w.worker)| ==> HeldIds(w.worker)[i] != HeldIds(w.worker)[j])
    && (w.worker != Idle ==> forall d :: d in w.worker.due ==> Faithful(w, d.submission))
    && (w.worker.Claiming? && w.worker.read.Some? ==>
          w.worker.todo != [] && w.worker.read.value.id == w.worker.todo[0].id && Faithful(w, w.worker.read.value))
    && (w.worker.Attempting? && w.worker.answer.Some? ==>
          && w.worker.due != []
          && (w.worker.answer.value.Accepted? ==> w.worker.due[0].submission.id in w.past.providerTook)
          && (w.worker.answer.value.Terminal? ==> w.worker.due[0].submission.id in w.past.providerRefused))
  }

  ghost predicate KeyedById(db: Db) {
    forall id :: id in db.submissions ==> db.submissions[id].id == id
  }

  ghost predicate Inv(w: World) {
    && 0 <= w.clock
    && KeyedById(w.db)
    && WorkerOk(w)
    && forall id :: Coupled(ViewOf(w, id))
  }
}
