/**
 The retry worker: one poll claims the due rows, replays each through the transport
 and records the outcome before it goes on to the next.
 */
module RetryWorker {
  import opened Clock
  import opened Mail
  import opened Tables
  import opened Transport
  import opened Storage

  const DEFAULT_BATCH := 10

  function Batch(configured: int): int {
    if configured <= 0 then DEFAULT_BATCH else configured
  }

  /** The one write that ends an attempt. */
  function FinishTx(db: Db, id: Id, outcome: Outcome, now: int): Db {
    match outcome
    case Accepted(m) => MarkSentTx(db, id, m, now)
    case Terminal(err) => DeadLetterTx(db, id, err)
    case Retryable(err) => if id in db.queue then RetryFailureTx(db, id, err, now) else db
  }

  /** Entries i and on of a poll: `answer(i)` is the provider's answer, `clock(i)` the
      time the outcome is recorded and `disk(i)` whether that write commits. */
  function FinishEach(db: Db, due: seq<DueRetry>, n: nat, answer: nat -> SendResult, clock: nat -> int, disk: nat -> bool): Db
    requires n <= |due|
  {
    if n == 0 then db
    else
      var before := FinishEach(db, due, n - 1, answer, clock, disk);
      if disk(n - 1) then FinishTx(before, due[n - 1].submission.id, Classify(answer(n - 1)), clock(n - 1)) else before
  }

  class Worker {
    const store: Store
    const batchSize: int

    constructor (store: Store, batchSize: int)
      ensures this.store == store && this.batchSize == batchSize
    {
      this.store, this.batchSize := store, batchSize;
    }

    /** Rebuild the message of a claimed row, attachment by attachment. */
    method BuildMessage(entry: DueRetry) returns (msg: Message)
      ensures msg == Rebuild(entry.submission)
    {
      var row := entry.submission;
      var attachments := [];
      for i := 0 to |row.attachments|
        invariant attachments == row.attachments[..i]
      {
        var a := row.attachments[i];
        attachments := attachments + [Attachment(a.filename, a.contentType, a.data)];
      }
      msg := Message(row.from, row.toAddrs, row.replyTo, row.subject, row.bodyText, row.bodyHTML,
                     row.id, row.fields, attachments, row.headers);
    }

    /** One attempt: send, classify, record. */
    method Attempt(entry: DueRetry, answer: SendResult, now: int, diskOk: bool) returns (sent: Message)
      modifies store
      ensures sent == Rebuild(entry.submission)
      ensures store.Contents() == if diskOk then FinishTx(old(store.Contents()), entry.submission.id, Classify(answer), now)
                                  else old(store.Contents())
    {
      sent := BuildMessage(entry);
      var id := entry.submission.id;
      if answer.Took? {
        var recorded := store.MarkSent(id, answer.messageID, now, diskOk);
        return;
      }
      var terminal := true; // an error that is not a TransportError is terminal
      if answer.error.TransportError? {
        terminal := answer.error.kind != Transient && answer.error.kind != RateLimited;
      }
      if terminal {
        var recorded := store.DeadLetter(id, answer.error.message, diskOk);
        return;
      }
      var dead, recorded := store.RecordRetryFailure(id, answer.error.message, now, diskOk);
    }

    /** One poll. A failed claim still attempts the rows it got; cancellation is
        noticed between attempts, so `until` of them run. */
    method ProcessDue(now: int, claimDisk: nat -> bool, until: nat,
                      answer: nat -> SendResult, clock: nat -> int, disk: nat -> bool)
      returns (due: seq<DueRetry>, sent: seq<Message>, ghost claimed: Db)
      modifies store
      ensures var n := if until < |due| then until else |due|;
              && |sent| == n
              && (forall i :: 0 <= i < n ==> sent[i] == Rebuild(due[i].submission))
              && store.Contents() == FinishEach(claimed, due, n, answer, clock, disk)
      ensures !claimDisk(0) ==> due == [] && claimed == old(store.Contents())
      ensures claimDisk(0) ==> exists ids ::
                  && IsDueSelection(old(store.queue), Unix(now), if batchSize > 0 then batchSize else 10, ids)
                  && ClaimEach(old(store.Contents()), ids, AttemptsOf(old(store.queue), ids), [], claimDisk, 1).db == claimed
                  && ClaimEach(old(store.Contents()), ids, AttemptsOf(old(store.queue), ids), [], claimDisk, 1).due == due
    {
      hide FinishTx, ClaimEach, IsDueSelection, Rebuild, Classify, DueIds, AttemptsOf;
      var ok;
      ghost var ids;
      due, ok, ids := store.ClaimDue(now, Batch(batchSize), claimDisk);
      claimed := store.Contents();
      sent := [];
      var i := 0;
      while i < |due| && i < until
        invariant 0 <= i <= |due| && i <= until
        invariant |sent| == i && forall j :: 0 <= j < i ==> sent[j] == Rebuild(due[j].submission)
        invariant store.Contents() == FinishEach(claimed, due, i, answer, clock, disk)
      {
        var msg := Attempt(due[i], answer(i), clock(i), disk(i));
        sent := sent + [msg];
        i := i + 1;
      }
    }
  }
}
