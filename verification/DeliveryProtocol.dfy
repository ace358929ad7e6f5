/**
 The delivery tail is a schedule of the retry protocol, and its "queued" verdict is the
 protocol's promise to the client. So what a 202 or a 250 "accepted for retry" stands
 for is what the protocol keeps over every later crash and failure.
 */
module DeliveryProtocol {
  import opened Mail
  import opened Tables
  import opened Transport
  import opened Delivery
  import opened RetryProtocol
  import opened RetryTheorems

  /** The ingress's steps after the pre-send row has been written. */
  function SettleEvents(via: Ingress, id: Id, answer: SendResult, at: int, disk: Disk): seq<Event> {
    match Classify(answer)
    case Accepted(_) => [InlineMarkSent(id, at, disk.outcomeOk)] + []
    case Retryable(_) =>
      if !QueueEligible(via) then [InlineMarkFailed(id, disk.failOk)] + []
      else if disk.outcomeOk then [InlineEnqueue(id, at, true)] + ([ReplyQueued(id)] + [])
      else [InlineEnqueue(id, at, false)] + ([InlineMarkFailed(id, disk.failOk)] + [])
    case Terminal(_) => [InlineMarkFailed(id, disk.failOk)] + []
  }

  function DeliverEvents(via: Ingress, id: Id, msg: Message, answer: SendResult, recordAt: int, at: int, disk: Disk): seq<Event> {
    [Record(via, id, msg, recordAt, disk.recordOk)]
    + (if disk.recordOk then [InlineAnswer(id, Classify(answer))] + SettleEvents(via, id, answer, at, disk) else [])
  }

  lemma RunNil(w: World)
    ensures IsRun(w, []) && Exec(w, []) == w
  {
  }

  lemma SettleRunsProtocol(w: World, via: Ingress, id: Id, answer: SendResult, at: int, disk: Disk)
    requires id in w.inline && w.inline[id] == Trying(QueueEligible(via)) && id in w.db.submissions && w.clock <= at
    ensures var answered := InlineAnswerStep(w, id, Classify(answer));
            var es := SettleEvents(via, id, answer, at, disk);
            && IsRun(answered, es)
            && Exec(answered, es).db == match Classify(answer)
                 case Accepted(m) => if disk.outcomeOk then MarkSentTx(w.db, id, m, at) else w.db
                 case Retryable(err) =>
                   if QueueEligible(via) && disk.outcomeOk then EnqueueTx(w.db, id, at)
                   else if disk.failOk then SetStatus(w.db, id, Failed, err) else w.db
                 case Terminal(err) => if disk.failOk then SetStatus(w.db, id, Failed, err) else w.db
  {
    hide IsRun, Exec, MarkSentTx, EnqueueTx, SetStatus;
    var w1 := InlineAnswerStep(w, id, Classify(answer));
    match Classify(answer)
    case Accepted(m) =>
      RunNil(InlineMarkSentStep(w1, id, at, disk.outcomeOk));
      RunCons(w1, InlineMarkSent(id, at, disk.outcomeOk), []);
    case Terminal(err) =>
      RunNil(InlineMarkFailedStep(w1, id, disk.failOk));
      RunCons(w1, InlineMarkFailed(id, disk.failOk), []);
    case Retryable(err) =>
      if !QueueEligible(via) {
        RunNil(InlineMarkFailedStep(w1, id, disk.failOk));
        RunCons(w1, InlineMarkFailed(id, disk.failOk), []);
      } else {
        var w2 := InlineEnqueueStep(w1, id, at, disk.outcomeOk);
        if disk.outcomeOk {
          RunNil(ReplyQueuedStep(w2, id));
          RunCons(w2, ReplyQueued(id), []);
          RunCons(w1, InlineEnqueue(id, at, true), [ReplyQueued(id)] + []);
        } else {
          RunNil(InlineMarkFailedStep(w2, id, disk.failOk));
          RunCons(w2, InlineMarkFailed(id, disk.failOk), []);
          RunCons(w1, InlineEnqueue(id, at, false), [InlineMarkFailed(id, disk.failOk)] + []);
        }
      }
  }

  lemma QueuedMeansPromised(db: Db, via: Ingress, id: Id, msg: Message, answer: SendResult, recordAt: int, at: int, disk: Disk)
    requires id !in db.submissions
    ensures VerdictOf(db, true, via, id, answer, disk).QueuedForRetry? <==> ReplyQueued(id) in DeliverEvents(via, id, msg, answer, recordAt, at, disk)
  {
  }

  /** An uninterrupted delivery on a healthy gate does what its protocol steps do, and
      tells the client "queued" exactly when the protocol makes that promise. */
  lemma DeliverRunsProtocol(w: World, via: Ingress, id: Id, msg: Message, answer: SendResult, recordAt: int, at: int, disk: Disk)
    requires Inv(w) && w.mode == Up && id !in w.past.used && IngressShape(via, id, msg) && w.clock <= recordAt <= at
    ensures var es := DeliverEvents(via, id, msg, answer, recordAt, at, disk);
            && IsRun(w, es)
            && Exec(w, es).db == Settled(w.db, via, id, msg, answer, recordAt, at, disk)
            && (VerdictOf(w.db, true, via, id, answer, disk).QueuedForRetry? <==> ReplyQueued(id) in es)
  {
    assert Coupled(ViewOf(w, id));
    QueuedMeansPromised(w.db, via, id, msg, answer, recordAt, at, disk);
    hide VerdictOf, Inv, IsRun, Exec, ViewOf, Coupled, MarkSentTx, EnqueueTx, SetStatus;
    var record := Record(via, id, msg, recordAt, disk.recordOk);
    var w1 := RecordStep(w, via, id, msg, recordAt, disk.recordOk);
    if disk.recordOk {
      SettleRunsProtocol(w1, via, id, answer, at, disk);
      RunCons(w1, InlineAnswer(id, Classify(answer)), SettleEvents(via, id, answer, at, disk));
      RunCons(w, record, [InlineAnswer(id, Classify(answer))] + SettleEvents(via, id, answer, at, disk));
    } else {
      RunNil(w1);
      RunCons(w, record, []);
    }
  }
}
