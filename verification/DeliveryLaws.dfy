/**
 What a delivery comes to, case by case of the provider's answer and of the writes: the
 verdict, the row it leaves in the submission log and in the retry queue, and the gate.
 */
module DeliveryLaws {
  import opened Basics
  import opened Clock
  import opened Mail
  import opened Tables
  import opened Transport
  import opened Storage
  import opened Suppressions
  import opened Delivery

  /** The provider may take the message later: a transport error of a class worth retrying. */
  predicate TryAgain(answer: SendResult) {
    answer.Refused? && answer.error.TransportError? && (answer.error.kind == Transient || answer.error.kind == RateLimited)
  }

  /** An accepted answer, whatever storage does, is "sent" with the provider's message id.
      A refusal is "queued" exactly if it is worth retrying, storage works, the content is
      stored, and both writes commit; the client is told the provider's error otherwise. */
  lemma VerdictIs(db: Db, storing: bool, via: Ingress, id: Id, answer: SendResult, disk: Disk)
    ensures var queued := && storing && TryAgain(answer) && (via.Http? ==> via.logFailed)
                          && disk.recordOk && id !in db.submissions && disk.outcomeOk;
            VerdictOf(db, storing, via, id, answer, disk)
            == match answer
               case Took(m) => SentNow(m)
               case Refused(err) => if queued then QueuedForRetry else NotSent(err.message)
  {
  }

  /** What is left in the log under a new id: the pre-send row, with its outcome if the write
      of the outcome commits. */
  lemma DeliveryLeavesRow(db: Db, via: Ingress, id: Id, msg: Message, answer: SendResult, recordAt: int, outcomeAt: int, disk: Disk)
    requires id !in db.submissions && id !in db.queue && disk.recordOk
    ensures var after, recorded := Settled(db, via, id, msg, answer, recordAt, outcomeAt, disk), PreSendRow(via, id, msg, recordAt);
            var queueable := TryAgain(answer) && (via.Http? ==> via.logFailed);
            && id in after.submissions
            && (id in after.queue <==> queueable && disk.outcomeOk)
            && (id in after.queue ==> after.queue[id] == QueueRow(0, Unix(outcomeAt) + 60))
            && var row := after.submissions[id];
               && (answer.Took? && disk.outcomeOk ==>
                     row == recorded.(status := Sent, messageID := answer.messageID, sentAt := Some(Unix(outcomeAt))))
               && (queueable && disk.outcomeOk ==> row == recorded.(status := Queued))
               && (answer.Refused? && !(queueable && disk.outcomeOk) && disk.failOk ==>
                     row == recorded.(status := Failed, lastError := answer.error.message))
               && ((if answer.Took? then !disk.outcomeOk else !(queueable && disk.outcomeOk) && !disk.failOk) ==> row == recorded)
  {
    UnixShift(outcomeAt, 60);
    assert PreSendRow(via, id, msg, recordAt).lastError == "";
    hide PreSendRow, Unix;
  }

  /** Nothing else is touched, and nothing at all if the pre-send row is not written. */
  lemma DeliveryTouchesNothingElse(db: Db, via: Ingress, id: Id, msg: Message, answer: SendResult, recordAt: int, outcomeAt: int, disk: Disk, other: Id)
    requires other != id || !disk.recordOk || id in db.submissions
    ensures var after := Settled(db, via, id, msg, answer, recordAt, outcomeAt, disk);
            && (other in after.submissions <==> other in db.submissions)
            && (other in db.submissions ==> after.submissions[other] == db.submissions[other])
            && (other in after.queue <==> other in db.queue)
            && (other in db.queue ==> after.queue[other] == db.queue[other])
            && after.suppressions == db.suppressions
  {
    hide PreSendRow, Unix;
  }

  /** The writes of a delivery, and whether each committed: the pre-send row; then, if that
      is there, "sent" after an acceptance, the queue row after a refusal worth retrying,
      and "failed" after any other refusal or a queue row that did not commit. */
  ghost function Writes(db: Db, via: Ingress, id: Id, answer: SendResult, disk: Disk): seq<bool> {
    var recorded := disk.recordOk && id !in db.submissions;
    var queueable := TryAgain(answer) && (via.Http? ==> via.logFailed);
    if !recorded then [false]
    else if answer.Took? then [true, disk.outcomeOk]
    else if queueable then (if disk.outcomeOk then [true, true] else [true, false, disk.failOk])
    else [true, disk.failOk]
  }

  /** The gate stays healthy exactly if no write of the delivery failed. */
  lemma GateStaysIff(db: Db, via: Ingress, id: Id, answer: SendResult, disk: Disk)
    ensures StaysHealthy(db, via, id, answer, disk) <==> false !in Writes(db, via, id, answer, disk)
  {
  }

  /** The status a client of the JSON API sees, and one that posts a form: 200 if the message
      was sent; if it is queued, 202 for the API and 200 for the form; 502 otherwise. */
  lemma StatusIs(db: Db, storing: bool, via: Ingress, id: Id, answer: SendResult, disk: Disk)
    ensures var verdict := VerdictOf(db, storing, via, id, answer, disk);
            && (answer.Took? ==> HttpStatus(verdict, true) == HttpStatus(verdict, false) == 200)
            && (verdict.QueuedForRetry? ==> HttpStatus(verdict, true) == 202 && HttpStatus(verdict, false) == 200)
            && (answer.Refused? && !verdict.QueuedForRetry? ==> HttpStatus(verdict, true) == HttpStatus(verdict, false) == 502)
  {
  }

  /** Without working storage nothing is suppressed; with it, exactly the addresses that are
      listed and could be looked up are taken out. */
  lemma KeepsIff(db: Option<Db>, to: seq<string>, lookupOk: nat -> bool, i: nat)
    requires i < |to|
    ensures KeepFor(db, to, lookupOk)(i) <==> !(db.Some? && lookupOk(i) && IsSuppressed(db.value, to[i]))
  {
    hide IsSuppressed;
  }
}
