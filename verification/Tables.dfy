/**
 The SQLite tables as maps, and each SQL statement or transaction as a function
 from tables to tables. A statement that reports an error has no effect; that case
 is handled by the callers, so the functions here describe what is committed.
 */
module Tables {
  import opened Basics
  import opened Clock
  import opened Mail

  /** Waits of the background ladder, in seconds. */
  const RETRY_BACKOFF: seq<int> := [60, 240, 960, 3840, 15360]
  const MAX_ATTEMPTS := 5

  function FourTo(k: nat): nat {
    if k == 0 then 1 else 4 * FourTo(k - 1)
  }

  /** The waits of the ladder: five, the first a minute, each four times the one before. */
  lemma LadderWaits(k: nat)
    requires k < MAX_ATTEMPTS
    ensures MAX_ATTEMPTS == 5 == |RETRY_BACKOFF| && RETRY_BACKOFF[k] == 60 * FourTo(k)
  {
    assert FourTo(1) == 4 && FourTo(2) == 16 && FourTo(3) == 64;
    assert FourTo(4) == 4 * FourTo(3);
  }

  datatype QueueRow = QueueRow(attempt: nat, nextAttemptAt: int)

  datatype SuppressionRow = SuppressionRow(sourceEndpoint: string, createdAt: int)

  /** Suppressions are keyed by normalized address and reason. */
  datatype Db = Db(
    submissions: map<Id, Submission>,
    queue: map<Id, QueueRow>,
    suppressions: map<(string, string), SuppressionRow>)

  // ---- submission log -------------------------------------------------------

  /** INSERT INTO submissions; refused by the primary key when the id is taken. */
  function InsertSubmission(db: Db, row: Submission): Db
    requires row.id !in db.submissions
  {
    db.(submissions := db.submissions[row.id := row])
  }

  /** UPDATE submissions SET status, last_error WHERE id: no row, no change. */
  function SetStatus(db: Db, id: Id, status: Status, lastError: string): Db {
    if id in db.submissions then
      db.(submissions := db.submissions[id := db.submissions[id].(status := status, lastError := lastError)])
    else db
  }

  function DropQueueRow(db: Db, id: Id): Db {
    db.(queue := db.queue - {id})
  }

  /** MarkSent: finalize the row and remove any queue entry, in one transaction. */
  function MarkSentTx(db: Db, id: Id, messageID: string, at: int): Db {
    var updated :=
      if id in db.submissions then
        db.(submissions := db.submissions[id := db.submissions[id].(
        status := Sent, messageID := messageID, sentAt := Some(Unix(at)), lastError := "")])
      else db;
    DropQueueRow(updated, id)
  }

  // ---- retry queue ----------------------------------------------------------

  /** Enqueue: the foreign key refuses a queue row without its submission. */
  predicate CanEnqueue(db: Db, id: Id) {
    id in db.queue || id in db.submissions
  }

  function EnqueueTx(db: Db, id: Id, now: int): Db
    requires CanEnqueue(db, id)
  {
    var rows :=
      if id in db.queue then db.queue
      else db.queue[id := QueueRow(0, Unix(now + RETRY_BACKOFF[0] * SECOND))];
    if id in db.submissions then
      db.(queue := rows, submissions := db.submissions[id := db.submissions[id].(status := Queued)])
    else db.(queue := rows)
  }

  function DeadLetterTx(db: Db, id: Id, lastError: string): Db {
    SetStatus(DropQueueRow(db, id), id, Failed, lastError)
  }

  /** RecordRetryFailure: one more rung of the ladder, or the dead letter. */
  function RetryFailureTx(db: Db, id: Id, lastError: string, now: int): Db
    requires id in db.queue
  {
    var attempt := db.queue[id].attempt + 1;
    if attempt >= MAX_ATTEMPTS then DeadLetterTx(db, id, lastError)
    else
      SetStatus(db.(queue := db.queue[id := QueueRow(attempt, Unix(now + RETRY_BACKOFF[attempt] * SECOND))]),
                id, Queued, lastError)
  }

  /** The rows `SELECT ... WHERE next_attempt_at <= now` may return. */
  function DueIds(queue: map<Id, QueueRow>, nowSec: int): set<Id> {
    set id | id in queue && queue[id].nextAttemptAt <= nowSec
  }

  /** A result of `ORDER BY next_attempt_at LIMIT limit` over the due rows. SQL leaves
      the order of equal times open, so several sequences may qualify. */
  ghost predicate IsDueSelection(queue: map<Id, QueueRow>, nowSec: int, limit: nat, ids: seq<Id>) {
    && (forall i, j :: 0 <= i < j < |ids| ==> ids[i] != ids[j])
    && (forall i :: 0 <= i < |ids| ==> ids[i] in DueIds(queue, nowSec))
    && (forall i, j :: 0 <= i < j < |ids| ==> queue[ids[i]].nextAttemptAt <= queue[ids[j]].nextAttemptAt)
    && (forall id, i :: id in DueIds(queue, nowSec) && id !in ids && 0 <= i < |ids| ==>
                          queue[ids[i]].nextAttemptAt <= queue[id].nextAttemptAt)
    && |ids| == (if |DueIds(queue, nowSec)| < limit then |DueIds(queue, nowSec)| else limit)
  }

  // ---- maintenance ----------------------------------------------------------

  predicate Prunable(row: Submission, cutoff: int) {
    row.createdAt < Unix(cutoff) && row.status != Sending && row.status != Queued
  }

  /** Prune, with the foreign key's ON DELETE CASCADE into the retry queue. */
  function PruneTx(db: Db, cutoff: int): Db {
    var doomed := set id | id in db.submissions && Prunable(db.submissions[id], cutoff);
    db.(submissions := db.submissions - doomed, queue := db.queue - doomed)
  }

  /** First statement of crash recovery: INSERT OR IGNORE every sending row, due at once. */
  function RecoverInsert(db: Db): Db {
    var missing := map id | id in db.submissions && db.submissions[id].status == Sending && id !in db.queue :: QueueRow(0, 0);
    db.(queue := db.queue + missing)
  }

  /** Second statement: every sending row becomes queued. */
  function RecoverUpdate(db: Db): Db {
    db.(submissions := map id | id in db.submissions ::
      if db.submissions[id].status == Sending then db.submissions[id].(status := Queued)
      else db.submissions[id])
  }

  function Recover(db: Db): Db {
    RecoverUpdate(RecoverInsert(db))
  }

  // ---- recovery converges ---------------------------------------------------

  ghost predicate WasSending(db: Db, id: Id) {
    id in db.submissions && db.submissions[id].status == Sending
  }

  /** What recovery must leave behind, said without naming its statements: nothing
      is in flight, every row that was in flight is queued with a queue row that
      keeps its attempt count if it had one and is due at once if it had none, and
      no other row of either table has changed. */
  ghost predicate Recovered(before: Db, after: Db) {
    && after.submissions.Keys == before.submissions.Keys
    && after.suppressions == before.suppressions
    && (forall id :: !WasSending(after, id))
    && (forall id :: WasSending(before, id) ==>
          && after.submissions[id] == before.submissions[id].(status := Queued)
          && id in after.queue
          && (id in before.queue ==> after.queue[id] == before.queue[id])
          && (id !in before.queue ==> after.queue[id] == QueueRow(0, 0)))
    && (forall id :: id in before.submissions && !WasSending(before, id) ==>
          after.submissions[id] == before.submissions[id])
    && (forall id :: !WasSending(before, id) ==>
          (id in after.queue <==> id in before.queue)
          && (id in before.queue ==> after.queue[id] == before.queue[id]))
  }

  lemma RecoverMeetsSpec(db: Db)
    ensures Recovered(db, Recover(db))
  {
  }

  /** The specification leaves no freedom, so it pins the code down completely. */
  lemma RecoveredIsUnique(before: Db, a: Db, b: Db)
    requires Recovered(before, a) && Recovered(before, b)
    ensures a == b
  {
    forall id
      ensures id in a.submissions ==> a.submissions[id] == b.submissions[id]
      ensures id in a.queue <==> id in b.queue
      ensures id in a.queue ==> a.queue[id] == b.queue[id]
    {
      assert WasSending(before, id) || !WasSending(before, id);
    }
    assert a.submissions == b.submissions;
    assert a.queue == b.queue;
  }

  lemma InsertTwice(db: Db)
    ensures RecoverInsert(RecoverInsert(db)) == RecoverInsert(db)
  {
    assert RecoverInsert(RecoverInsert(db)).queue == RecoverInsert(db).queue;
  }

  lemma NothingLeftToRecover(db: Db)
    requires forall id :: !WasSending(db, id)
    ensures Recover(db) == db
  {
    forall id | id in db.submissions ensures db.submissions[id].status != Sending {
      assert !WasSending(db, id);
    }
    assert RecoverInsert(db).queue == db.queue;
    assert RecoverUpdate(db).submissions == db.submissions;
  }

  /** A crash between the two statements, or after both, does not change where
      recovery ends; and a second full run changes nothing. */
  lemma RecoveryConverges(db: Db)
    ensures Recover(RecoverInsert(db)) == Recover(db)
    ensures Recover(Recover(db)) == Recover(db)
  {
    InsertTwice(db);
    RecoverMeetsSpec(db);
    NothingLeftToRecover(Recover(db));
    hide RecoverInsert, RecoverUpdate;
  }

  /** Any number of interrupted runs of recovery, each stopped after its first
      statement, followed by one complete run. */
  function InterruptedRecoveries(db: Db, n: nat): Db {
    if n == 0 then db else RecoverInsert(InterruptedRecoveries(db, n - 1))
  }

  lemma {:induction false} InterruptedRecoveriesConverge(db: Db, n: nat)
    ensures Recover(InterruptedRecoveries(db, n)) == Recover(db)
  {
    if n > 0 {
      RecoveryConverges(InterruptedRecoveries(db, n - 1));
      InterruptedRecoveriesConverge(db, n - 1);
    }
  }
}
