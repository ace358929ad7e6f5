/**
 What the rows of the submission log hold over whole runs: the content recorded at first,
 and, by status, what a provider answered and when that was written down.
 */
module RetryRows {
  import opened Basics
  import opened Clock
  import opened Mail
  import opened Tables
  import opened Transport
  import opened Storage
  import opened RetryProtocol
  import opened RetryInvariant
  import opened RetryTheorems

  // ---- what a run has said about each submission ----------------------------

  /** Message ids given by accepting providers, errors given by refusing ones, and the
      writes that recorded an acceptance. */
  datatype Facts = Facts(accepted: set<(Id, string)>, refused: set<(Id, string)>, written: set<(Id, string, int)>)

  const NOTHING := Facts({}, {}, {})

  function Plus(f: Facts, g: Facts): Facts {
    Facts(f.accepted + g.accepted, f.refused + g.refused, f.written + g.written)
  }

  function Answered(id: Id, outcome: Outcome): Facts {
    match outcome
    case Accepted(m) => NOTHING.(accepted := {(id, m)})
    case Retryable(err) => NOTHING.(refused := {(id, err)})
    case Terminal(err) => NOTHING.(refused := {(id, err)})
  }

  /** What one event adds: a provider's answer, or a committed write after an acceptance. */
  function Said(w: World, e: Event): Facts {
    match e
    case InlineAnswer(id, outcome) => Answered(id, outcome)
    case Send(outcome) =>
      if w.worker.Attempting? && w.worker.due != [] then Answered(w.worker.due[0].submission.id, outcome) else NOTHING
    case InlineMarkSent(id, now, diskOk) =>
      if diskOk && id in w.inline && w.inline[id].Finishing? then NOTHING.(written := {(id, w.inline[id].messageID, now)}) else NOTHING
    case RecordOutcome(now, diskOk) =>
      if diskOk && w.worker.Attempting? && w.worker.due != [] && w.worker.answer.Some? && w.worker.answer.value.Accepted?
      then NOTHING.(written := {(w.worker.due[0].submission.id, w.worker.answer.value.messageID, now)}) else NOTHING
    case _ => NOTHING
  }

  ghost function SaidBy(w: World, es: seq<Event>): Facts
    requires IsRun(w, es)
    decreases |es|
  {
    if es == [] then NOTHING else Plus(Said(w, es[0]), SaidBy(Apply(w, es[0]), es[1..]))
  }

  // ---- what that makes of a row ---------------------------------------------

  predicate ErrorKnown(f: Facts, id: Id, err: string) {
    err == "" || (id, err) in f.refused
  }

  predicate NotSentYet(row: Submission) {
    row.messageID == "" && row.sentAt == None
  }

  ghost predicate RowOk(f: Facts, row: Submission) {
    match row.status
    case Sent => row.lastError == "" && exists at :: (row.id, row.messageID, at) in f.written && row.sentAt == Some(Unix(at))
    case Failed => NotSentYet(row) && (row.id, row.lastError) in f.refused
    case Queued => NotSentYet(row) && ErrorKnown(f, row.id, row.lastError)
    case Sending => NotSentYet(row) && ErrorKnown(f, row.id, row.lastError)
    case Suppressed => NotSentYet(row)
  }

  ghost predicate LogOk(db: Db, f: Facts) {
    forall id :: id in db.submissions ==> RowOk(f, db.submissions[id])
  }

  predicate InlineOk(inline: map<Id, Inline>, f: Facts, id: Id) {
    id in inline ==>
      match inline[id]
      case Finishing(m) => (id, m) in f.accepted
      case Enqueueing(err) => (id, err) in f.refused
      case Failing(err) => (id, err) in f.refused
      case _ => true
  }

  predicate AnswerOk(worker: Worker, f: Facts) {
    && (worker.Claiming? && worker.read.Some? ==> ErrorKnown(f, worker.read.value.id, worker.read.value.lastError))
    && (worker.Attempting? && worker.due != [] && worker.answer.Some? ==>
          match worker.answer.value
          case Accepted(m) => (worker.due[0].submission.id, m) in f.accepted
          case Retryable(err) => (worker.due[0].submission.id, err) in f.refused
          case Terminal(err) => (worker.due[0].submission.id, err) in f.refused)
  }

  ghost predicate RowsOk(w: World, f: Facts) {
    && LogOk(w.db, f)
    && (forall id :: InlineOk(w.inline, f, id))
    && AnswerOk(w.worker, f)
    && (forall x :: x in f.written ==> (x.0, x.1) in f.accepted)
  }

  lemma LogGrows(db: Db, f: Facts, g: Facts)
    requires LogOk(db, f)
    ensures LogOk(db, Plus(f, g))
  {
    forall id | id in db.submissions ensures RowOk(Plus(f, g), db.submissions[id]) {
      assert RowOk(f, db.submissions[id]);
      var row := db.submissions[id];
      if row.status == Sent {
        var at :| (row.id, row.messageID, at) in f.written && row.sentAt == Some(Unix(at));
        assert (row.id, row.messageID, at) in Plus(f, g).written;
      }
    }
  }

  /** One row moves and is still right; the others are as they were. */
  lemma OneRowMoves(db: Db, db': Db, f: Facts, id: Id)
    requires LogOk(db, f)
    requires forall x :: x != id && x in db'.submissions ==> x in db.submissions && db'.submissions[x] == db.submissions[x]
    requires id in db'.submissions ==> RowOk(f, db'.submissions[id])
    ensures LogOk(db', f)
  {
    forall x | x in db'.submissions ensures RowOk(f, db'.submissions[x]) {
      if x != id { assert RowOk(f, db.submissions[x]); }
    }
  }

  lemma StatusRowOk(db: Db, f: Facts, id: Id, status: Status, err: string)
    requires LogOk(db, f) && KeyedById(db)
    requires id in db.submissions ==> db.submissions[id].status == Sending || db.submissions[id].status == Queued
    requires status == Sending || status == Queued || status == Failed
    requires if status == Failed then (id, err) in f.refused else ErrorKnown(f, id, err)
    ensures LogOk(SetStatus(db, id, status, err), f)
  {
    if id in db.submissions { assert RowOk(f, db.submissions[id]); }
    OneRowMoves(db, SetStatus(db, id, status, err), f, id);
  }

  lemma SentRowOk(db: Db, f: Facts, id: Id, m: string, at: int)
    requires LogOk(db, f) && KeyedById(db) && (id, m, at) in f.written
    ensures LogOk(MarkSentTx(db, id, m, at), f)
  {
    OneRowMoves(db, MarkSentTx(db, id, m, at), f, id);
  }

  lemma EnqueuedRowOk(db: Db, f: Facts, id: Id, now: int)
    requires LogOk(db, f) && KeyedById(db) && CanEnqueue(db, id)
    requires id in db.submissions ==> db.submissions[id].status == Sending || db.submissions[id].status == Queued
    ensures LogOk(EnqueueTx(db, id, now), f)
  {
    if id in db.submissions { assert RowOk(f, db.submissions[id]); }
    OneRowMoves(db, EnqueueTx(db, id, now), f, id);
  }

  lemma PrunedRowsOk(db: Db, f: Facts, cutoff: int)
    requires LogOk(db, f)
    ensures LogOk(PruneTx(db, cutoff), f)
  {
    forall id | id in PruneTx(db, cutoff).submissions ensures RowOk(f, PruneTx(db, cutoff).submissions[id]) {
      assert RowOk(f, db.submissions[id]);
    }
  }

  lemma RecoveredRowsOk(db: Db, f: Facts)
    requires LogOk(db, f)
    ensures LogOk(RecoverInsert(db), f) && LogOk(RecoverUpdate(db), f)
  {
    forall id | id in db.submissions ensures RowOk(f, RecoverUpdate(db).submissions[id]) {
      assert RowOk(f, db.submissions[id]);
    }
    forall id | id in RecoverInsert(db).submissions ensures RowOk(f, RecoverInsert(db).submissions[id]) {
      assert RowOk(f, db.submissions[id]);
    }
  }

  lemma NewRowOk(db: Db, f: Facts, row: Submission)
    requires LogOk(db, f) && row.id !in db.submissions
    requires (row.status == Suppressed || row.status == Sending) && NotSentYet(row) && row.lastError == ""
    ensures LogOk(InsertSubmission(db, row), f)
  {
    OneRowMoves(db, InsertSubmission(db, row), f, row.id);
  }

  lemma PreSendRowIsClean(via: Ingress, id: Id, msg: Message, now: int)
    ensures var row := PreSendRow(via, id, msg, now); NotSentYet(row) && row.lastError == ""
  {
  }

  // ---- every step keeps it --------------------------------------------------

  lemma IngressRowsOk(w: World, e: Event, f: Facts)
    requires Inv(w) && Enabled(w, e) && RowsOk(w, f)
    requires e.Record? || e.RecordSuppressed? || e.InlineMarkSent? || e.InlineEnqueue? || e.InlineMarkFailed?
    ensures LogOk(Apply(w, e).db, Plus(f, Said(w, e)))
  {
    var g := Plus(f, Said(w, e));
    LogGrows(w.db, f, Said(w, e));
    match e
    case Record(via, id, msg, now, diskOk) =>
      PreSendRowIsClean(via, id, msg, now);
      hide PreSendRow, LogOk;
      if diskOk && id !in w.db.submissions { NewRowOk(w.db, g, PreSendRow(via, id, msg, now)); }
    case RecordSuppressed(row, diskOk) =>
      hide LogOk;
      if diskOk && row.id !in w.db.submissions { NewRowOk(w.db, g, row); }
    case InlineMarkSent(id, now, diskOk) =>
      if diskOk { SentRowOk(w.db, g, id, w.inline[id].messageID, now); }
      hide MarkSentTx, LogOk, Inv;
    case InlineEnqueue(id, now, diskOk) =>
      assert Coupled(ViewOf(w, id));
      hide Inv, LogOk, EnqueueTx;
      if diskOk && CanEnqueue(w.db, id) { EnqueuedRowOk(w.db, g, id, now); }
    case InlineMarkFailed(id, diskOk) =>
      assert Coupled(ViewOf(w, id));
      assert InlineOk(w.inline, f, id);
      hide Inv, LogOk, SetStatus;
      if diskOk { StatusRowOk(w.db, g, id, Failed, w.inline[id].error); }
  }

  lemma WorkerRowsOk(w: World, e: Event, f: Facts)
    requires Inv(w) && Enabled(w, e) && RowsOk(w, f)
    requires e.ClaimRead? || e.ClaimMark?
    ensures LogOk(Apply(w, e).db, f)
  {
    var id := w.worker.todo[0].id;
    assert HeldIds(w.worker)[|w.worker.due|] == id;
    assert Coupled(ViewOf(w, id)) && InQueue(ViewOf(w, id));
    if e.ClaimMark? && e.diskOk {
      StatusRowOk(w.db, f, id, Sending, w.worker.read.value.lastError);
    }
    hide Inv, LogOk, SetStatus, Coupled, InQueue;
  }

  lemma OutcomeRowsOk(w: World, now: int, diskOk: bool, f: Facts)
    requires Inv(w) && Enabled(w, RecordOutcome(now, diskOk)) && RowsOk(w, f)
    ensures LogOk(RecordOutcomeStep(w, now, diskOk).db, Plus(f, Said(w, RecordOutcome(now, diskOk))))
  {
    var id, g := w.worker.due[0].submission.id, Plus(f, Said(w, RecordOutcome(now, diskOk)));
    HeadIsQueued(w);
    LogGrows(w.db, f, Said(w, RecordOutcome(now, diskOk)));
    if diskOk {
      match w.worker.answer.value
      case Accepted(m) => SentRowOk(w.db, g, id, m, now);
      case Terminal(err) => StatusRowOk(DropQueueRow(w.db, id), g, id, Failed, err);
      case Retryable(err) => RetriedRowOk(w.db, g, id, err, now);
    }
    hide Inv, LogOk, MarkSentTx, SetStatus, RetryFailureTx;
  }

  lemma RetriedRowOk(db: Db, f: Facts, id: Id, err: string, now: int)
    requires LogOk(db, f) && KeyedById(db) && id in db.queue && (id, err) in f.refused
    requires id in db.submissions ==> db.submissions[id].status == Sending || db.submissions[id].status == Queued
    ensures LogOk(RetryFailureTx(db, id, err, now), f)
  {
    var attempt := db.queue[id].attempt + 1;
    if attempt >= MAX_ATTEMPTS {
      StatusRowOk(DropQueueRow(db, id), f, id, Failed, err);
    } else {
      StatusRowOk(db.(queue := db.queue[id := QueueRow(attempt, Unix(now + RETRY_BACKOFF[attempt] * SECOND))]), f, id, Queued, err);
    }
    hide LogOk, SetStatus;
  }

  lemma StepLogOk(w: World, e: Event, f: Facts)
    requires Inv(w) && Enabled(w, e) && RowsOk(w, f)
    ensures LogOk(Apply(w, e).db, Plus(f, Said(w, e)))
  {
    hide Inv, LogOk, IngressShape, IsDueSelection;
    LogGrows(w.db, f, Said(w, e));
    match e
    case ClaimRead(_, _) => WorkerRowsOk(w, e, f); LogGrows(Apply(w, e).db, f, Said(w, e));
    case ClaimMark(_) => WorkerRowsOk(w, e, f); LogGrows(Apply(w, e).db, f, Said(w, e));
    case RecordOutcome(now, diskOk) => OutcomeRowsOk(w, now, diskOk, f);
    case Prune(cutoff, diskOk) => PrunedRowsOk(w.db, Plus(f, Said(w, e)), cutoff);
    case OpenInsert(_) => RecoveredRowsOk(w.db, Plus(f, Said(w, e)));
    case OpenUpdate(_) => RecoveredRowsOk(w.db, Plus(f, Said(w, e)));
    case Record(_, _, _, _, _) => IngressRowsOk(w, e, f);
    case RecordSuppressed(_, _) => IngressRowsOk(w, e, f);
    case InlineMarkSent(_, _, _) => IngressRowsOk(w, e, f);
    case InlineEnqueue(_, _, _) => IngressRowsOk(w, e, f);
    case InlineMarkFailed(_, _) => IngressRowsOk(w, e, f);
    case _ =>
  }

  lemma StepInlineOk(w: World, e: Event, f: Facts, id: Id)
    requires Enabled(w, e) && InlineOk(w.inline, f, id)
    ensures InlineOk(Apply(w, e).inline, Plus(f, Said(w, e)), id)
  {
    hide IngressShape, IsDueSelection, InsertSubmission, PreSendRow, MarkSentTx, EnqueueTx, SetStatus, DropQueueRow;
    hide DeadLetterTx, RetryFailureTx, PruneTx, RecoverInsert, RecoverUpdate, RetryRecorded, Begin, Unix;
  }

  lemma ReadErrorKnown(w: World, f: Facts)
    requires Inv(w) && LogOk(w.db, f) && w.worker.Claiming? && w.worker.todo != [] && w.worker.todo[0].id in w.db.submissions
    ensures var row := w.db.submissions[w.worker.todo[0].id]; ErrorKnown(f, row.id, row.lastError)
  {
    var id := w.worker.todo[0].id;
    assert HeldIds(w.worker)[|w.worker.due|] == id;
    assert Coupled(ViewOf(w, id)) && InQueue(ViewOf(w, id));
    assert RowOk(f, w.db.submissions[id]);
    hide HeldIds, Rebuild;
  }

  lemma StepAnswerOk(w: World, e: Event, f: Facts)
    requires Inv(w) && Enabled(w, e) && RowsOk(w, f)
    ensures AnswerOk(Apply(w, e).worker, Plus(f, Said(w, e)))
  {
    if e.ClaimRead? && e.diskOk && w.worker.todo[0].id in w.db.submissions { ReadErrorKnown(w, f); }
    hide Inv, LogOk, IngressShape, IsDueSelection, InsertSubmission, PreSendRow, MarkSentTx, EnqueueTx, SetStatus, DropQueueRow;
    hide DeadLetterTx, RetryFailureTx, PruneTx, RecoverInsert, RecoverUpdate, RetryRecorded, Unix;
  }

  lemma StepWrittenOk(w: World, e: Event, f: Facts)
    requires Enabled(w, e) && RowsOk(w, f)
    ensures var g := Plus(f, Said(w, e)); forall x :: x in g.written ==> (x.0, x.1) in g.accepted
  {
    if e.InlineMarkSent? { assert InlineOk(w.inline, f, e.id); }
    hide LogOk;
  }

  lemma StepRowsOk(w: World, e: Event, f: Facts)
    requires Inv(w) && Enabled(w, e) && RowsOk(w, f)
    ensures RowsOk(Apply(w, e), Plus(f, Said(w, e)))
  {
    StepLogOk(w, e, f);
    StepAnswerOk(w, e, f);
    StepWrittenOk(w, e, f);
    hide Inv, LogOk, AnswerOk, Apply, Enabled, Said, Plus, InlineOk;
    forall id ensures InlineOk(Apply(w, e).inline, Plus(f, Said(w, e)), id) {
      StepInlineOk(w, e, f, id);
    }
  }

  lemma PlusAssociates(f: Facts, g: Facts, h: Facts)
    ensures Plus(Plus(f, g), h) == Plus(f, Plus(g, h)) && Plus(f, NOTHING) == f && Plus(NOTHING, f) == f
  {
  }

  lemma {:induction false} RunRowsOk(w: World, es: seq<Event>, f: Facts)
    requires Inv(w) && IsRun(w, es) && RowsOk(w, f)
    ensures RowsOk(Exec(w, es), Plus(f, SaidBy(w, es)))
    decreases |es|
  {
    PlusAssociates(f, NOTHING, NOTHING);
    if es != [] {
      hide Inv, RowsOk, Apply, Enabled, Said, Plus;
      StepKeeps(w, es[0]);
      StepRowsOk(w, es[0], f);
      RunRowsOk(Apply(w, es[0]), es[1..], Plus(f, Said(w, es[0])));
      PlusAssociates(f, Said(w, es[0]), SaidBy(Apply(w, es[0]), es[1..]));
    }
  }

  lemma NothingYet(w: World)
    requires Init(w)
    ensures RowsOk(w, NOTHING)
  {
  }

  /** A row recorded sent carries the message id of a provider that accepted it during the
      run, the second in which that was written down, and no error. */
  lemma SentRowsTellTheAnswer(w: World, es: seq<Event>, id: Id)
    requires Init(w) && IsRun(w, es) && HasStatus(Exec(w, es).db, id, Sent)
    ensures var row, said := Exec(w, es).db.submissions[id], SaidBy(w, es);
            && row.lastError == "" && (id, row.messageID) in said.accepted
            && exists at :: (id, row.messageID, at) in said.written && row.sentAt == Some(Unix(at))
  {
    InitHolds(w);
    NothingYet(w);
    RunKeeps(w, es);
    RunRowsOk(w, es, NOTHING);
    PlusAssociates(SaidBy(w, es), NOTHING, NOTHING);
    hide IsRun, Exec, SaidBy, Coupled, ViewOf;
    var row := Exec(w, es).db.submissions[id];
    assert RowOk(SaidBy(w, es), row);
    assert row.id == id;
  }

  /** A row recorded failed carries the error of a provider that refused it during the run;
      a row still pending carries such an error or none; neither has a message id or a
      sending time. */
  lemma UnsentRowsTellTheError(w: World, es: seq<Event>, id: Id)
    requires Init(w) && IsRun(w, es) && id in Exec(w, es).db.submissions
    ensures var row, said := Exec(w, es).db.submissions[id], SaidBy(w, es);
            && (row.status == Failed ==> (id, row.lastError) in said.refused)
            && (row.status == Queued || row.status == Sending ==> row.lastError == "" || (id, row.lastError) in said.refused)
            && (row.status != Sent ==> row.messageID == "" && row.sentAt == None)
  {
    InitHolds(w);
    NothingYet(w);
    RunKeeps(w, es);
    RunRowsOk(w, es, NOTHING);
    PlusAssociates(SaidBy(w, es), NOTHING, NOTHING);
    hide IsRun, Exec, SaidBy, Coupled, ViewOf;
    var row := Exec(w, es).db.submissions[id];
    assert RowOk(SaidBy(w, es), row);
    assert row.id == id;
  }

  /** An event about a message id finds a submission that some provider accepted under it; and
      it finds one whenever a submission recorded sent carries it. */
  lemma EventsFindTheirMail(w: World, es: seq<Event>, messageID: string, found: Option<Submission>)
    requires Init(w) && IsRun(w, es) && IsFound(Exec(w, es).db, messageID, found)
    ensures found.Some? ==> found.value.status == Sent && (found.value.id, messageID) in SaidBy(w, es).accepted
    ensures messageID != "" && (exists id :: HasStatus(Exec(w, es).db, id, Sent) && Exec(w, es).db.submissions[id].messageID == messageID)
            ==> found.Some?
  {
    InitHolds(w);
    RunKeeps(w, es);
    hide IsRun, Exec, SaidBy, Coupled, ViewOf;
    if found.Some? {
      var id :| id in Exec(w, es).db.submissions && Exec(w, es).db.submissions[id] == found.value;
      UnsentRowsTellTheError(w, es, id);
      SentRowsTellTheAnswer(w, es, id);
    }
  }

  // ---- the content stays as recorded ----------------------------------------

  /** Equal but for what an outcome may change. */
  predicate SameContent(a: Submission, b: Submission) {
    b.(status := a.status, messageID := a.messageID, lastError := a.lastError, sentAt := a.sentAt) == a
  }

  /** The row of this submission, if it is still there, was there with the same content. */
  predicate ContentKept(db: Db, db': Db, id: Id) {
    id in db'.submissions ==> id in db.submissions && SameContent(db.submissions[id], db'.submissions[id])
  }

  lemma StatusKeepsContent(db: Db, x: Id, status: Status, err: string, id: Id)
    ensures ContentKept(db, SetStatus(db, x, status, err), id) && ContentKept(db, db, id)
  {
  }

  lemma SentKeepsContent(db: Db, x: Id, m: string, at: int, id: Id)
    ensures ContentKept(db, MarkSentTx(db, x, m, at), id)
  {
    hide Unix;
  }

  lemma QueueKeepsContent(db: Db, x: Id, err: string, now: int, id: Id)
    ensures CanEnqueue(db, x) ==> ContentKept(db, EnqueueTx(db, x, now), id)
    ensures ContentKept(db, DropQueueRow(db, x), id) && ContentKept(db, DeadLetterTx(db, x, err), id)
    ensures x in db.queue ==> ContentKept(db, RetryFailureTx(db, x, err, now), id)
  {
    hide SetStatus, Unix;
    StatusKeepsContent(db, x, Queued, err, id);
    StatusKeepsContent(DropQueueRow(db, x), x, Failed, err, id);
    if x in db.queue && db.queue[x].attempt + 1 < MAX_ATTEMPTS {
      var k := db.queue[x].attempt + 1;
      StatusKeepsContent(db.(queue := db.queue[x := QueueRow(k, Unix(now + RETRY_BACKOFF[k] * SECOND))]), x, Queued, err, id);
    }
  }

  lemma MaintenanceKeepsContent(db: Db, cutoff: int, id: Id)
    ensures ContentKept(db, PruneTx(db, cutoff), id)
    ensures ContentKept(db, RecoverInsert(db), id) && ContentKept(db, RecoverUpdate(db), id)
  {
  }

  lemma OutcomeKeepsContent(w: World, now: int, diskOk: bool, id: Id)
    requires Enabled(w, RecordOutcome(now, diskOk))
    ensures ContentKept(w.db, RecordOutcomeStep(w, now, diskOk).db, id)
  {
    var x := w.worker.due[0].submission.id;
    StatusKeepsContent(w.db, x, Sending, "", id);
    match w.worker.answer.value
    case Accepted(m) =>
      SentKeepsContent(w.db, x, m, now, id);
      hide ContentKept, MarkSentTx, Begin;
    case Terminal(err) =>
      QueueKeepsContent(w.db, x, err, now, id);
      hide ContentKept, DeadLetterTx, RetryFailureTx, Begin;
    case Retryable(err) =>
      QueueKeepsContent(w.db, x, err, now, id);
      hide ContentKept, DeadLetterTx, RetryFailureTx, RetryRecorded, Begin;
  }

  lemma NewRowKeepsContent(db: Db, row: Submission, id: Id)
    requires row.id !in db.submissions && row.id != id
    ensures ContentKept(db, InsertSubmission(db, row), id)
  {
  }

  lemma StepKeepsContent(w: World, e: Event, id: Id)
    requires Inv(w) && Enabled(w, e) && id in w.past.used
    ensures ContentKept(w.db, Apply(w, e).db, id)
  {
    hide Inv, ContentKept, SetStatus, MarkSentTx, EnqueueTx, DropQueueRow, InsertSubmission, PruneTx, RecoverInsert, RecoverUpdate;
    hide RecordOutcomeStep, PreSendRow, IngressShape, IsDueSelection, Begin, Unix;
    StatusKeepsContent(w.db, id, Sending, "", id);
    match e
    case RecordOutcome(now, diskOk) => OutcomeKeepsContent(w, now, diskOk, id);
    case Record(via, x, msg, now, diskOk) =>
      if diskOk && x !in w.db.submissions { NewRowKeepsContent(w.db, PreSendRow(via, x, msg, now), id); }
    case RecordSuppressed(row, diskOk) =>
      if diskOk && row.id !in w.db.submissions { NewRowKeepsContent(w.db, row, id); }
    case InlineMarkSent(x, now, _) => SentKeepsContent(w.db, x, w.inline[x].messageID, now, id);
    case InlineEnqueue(x, now, _) => QueueKeepsContent(w.db, x, "", now, id);
    case InlineMarkFailed(x, _) => StatusKeepsContent(w.db, x, Failed, w.inline[x].error, id);
    case ClaimRead(_, _) => QueueKeepsContent(w.db, w.worker.todo[0].id, "", 0, id);
    case ClaimMark(_) => StatusKeepsContent(w.db, w.worker.todo[0].id, Sending, w.worker.read.value.lastError, id);
    case Prune(cutoff, _) => MaintenanceKeepsContent(w.db, cutoff, id);
    case OpenInsert(_) => MaintenanceKeepsContent(w.db, 0, id);
    case OpenUpdate(_) => MaintenanceKeepsContent(w.db, 0, id);
    case _ =>
  }

  lemma {:induction false} RunKeepsContent(w: World, es: seq<Event>, id: Id)
    requires Inv(w) && IsRun(w, es) && id in w.past.used && id in Exec(w, es).db.submissions
    ensures id in w.db.submissions && SameContent(w.db.submissions[id], Exec(w, es).db.submissions[id])
    decreases |es|
  {
    if es != [] {
      StepKeeps(w, es[0]);
      StepKeepsOriginal(w, es[0], Smtp("", "", ""), id, SAMPLE, 0);
      hide Inv, Apply, Enabled;
      StepKeepsContent(w, es[0], id);
      RunKeepsContent(Apply(w, es[0]), es[1..], id);
    }
  }

  lemma {:induction false} ContentAsRecorded(w: World, es: seq<Event>, via: Ingress, id: Id, msg: Message, now: int)
    requires Inv(w) && IsRun(w, es) && Record(via, id, msg, now, true) in es && id in Exec(w, es).db.submissions
    ensures SameContent(PreSendRow(via, id, msg, now), Exec(w, es).db.submissions[id])
    decreases |es|
  {
    StepKeeps(w, es[0]);
    if es[0] == Record(via, id, msg, now, true) {
      assert Coupled(ViewOf(w, id));
      hide Inv, PreSendRow, IngressShape;
      RunKeepsContent(Apply(w, es[0]), es[1..], id);
    } else {
      hide Inv, PreSendRow, Apply, Enabled;
      ContentAsRecorded(Apply(w, es[0]), es[1..], via, id, msg, now);
    }
  }

  /** Column by column: at every later moment of the run, as long as the row is there, it
      says where the submission came from and when, and holds the whole message if it may
      be queued and none of it if the endpoint keeps metadata only. */
  lemma RowHoldsWhatWasRecorded(w: World, es: seq<Event>, via: Ingress, id: Id, msg: Message, now: int)
    requires Init(w) && IsRun(w, es) && Record(via, id, msg, now, true) in es && id in Exec(w, es).db.submissions
    ensures var row := Exec(w, es).db.submissions[id];
            && row.id == id && row.createdAt == Unix(now) && row.transport == via.transport
            && row.endpoint == (if via.Smtp? then via.listener else via.path)
            && row.clientIP == (if via.Smtp? then via.remoteIP else if via.logFailed then via.clientIP else "")
            && (via.Smtp? || via.logFailed ==>
                  && row.from == msg.from && row.toAddrs == msg.to && row.replyTo == msg.replyTo && row.subject == msg.subject
                  && row.bodyText == msg.bodyText && row.bodyHTML == msg.bodyHTML)
            && (via.Smtp? ==> row.headers == msg.headers && row.fields == map[] && row.attachments == [])
            && (via.Http? && via.logFailed ==> row.fields == msg.fields && row.attachments == msg.attachments && row.headers == [])
            && (via.Http? && !via.logFailed ==>
                  && row.from == "" && row.toAddrs == [] && row.replyTo == "" && row.subject == "" && row.bodyText == ""
                  && row.bodyHTML == "" && row.fields == map[] && row.attachments == [] && row.headers == [])
  {
    InitHolds(w);
    ContentAsRecorded(w, es, via, id, msg, now);
    hide Inv, IsRun, Exec, Coupled, ViewOf, Unix;
  }

  // ---- what goes by age -----------------------------------------------------

  /** Retention deletes a row exactly if it was created in an earlier second than the
      cutoff's and is finished, and leaves every other row as it is. */
  lemma PruneGoesByAge(db: Db, cutoff: int, id: Id)
    requires id in db.submissions
    ensures var row, after := db.submissions[id], PruneTx(db, cutoff).submissions;
            && (id !in after <==>
                  row.createdAt < Unix(cutoff) && (row.status == Sent || row.status == Failed || row.status == Suppressed))
            && (id in after ==> after[id] == row)
  {
  }

  /** So a recorded submission is deleted exactly when it is recorded sent or failed and
      the second of its arrival is before that of the cutoff. */
  lemma RecordedRowGoesByAge(w: World, es: seq<Event>, via: Ingress, id: Id, msg: Message, now: int, cutoff: int)
    requires Init(w) && IsRun(w, es) && Record(via, id, msg, now, true) in es && id in Exec(w, es).db.submissions
    ensures id !in PruneTx(Exec(w, es).db, cutoff).submissions <==>
            Unix(now) < Unix(cutoff) && (HasStatus(Exec(w, es).db, id, Sent) || HasStatus(Exec(w, es).db, id, Failed))
  {
    InitHolds(w);
    RunKeeps(w, es);
    RecordedStays(w, es, via, id, msg, now);
    RowHoldsWhatWasRecorded(w, es, via, id, msg, now);
    PruneGoesByAge(Exec(w, es).db, cutoff, id);
    hide IsRun, Exec, PruneTx;
    assert Coupled(ViewOf(Exec(w, es), id));
  }

  // ---- the waits ------------------------------------------------------------

  /** A message that enters the queue starts at attempt zero, due one minute later. */
  lemma FirstWait(w: World, es: seq<Event>, id: Id, now: int)
    requires Init(w) && IsRun(w, es) && Enabled(Exec(w, es), InlineEnqueue(id, now, true))
    ensures var after := Apply(Exec(w, es), InlineEnqueue(id, now, true)).db;
            id in after.queue && after.queue[id] == QueueRow(0, Unix(now) + 60) && HasStatus(after, id, Queued)
  {
    InitHolds(w);
    RunKeeps(w, es);
    UnixShift(now, 60);
    hide IsRun, Exec;
    assert Coupled(ViewOf(Exec(w, es), id));
  }

  // ---- suppressions ---------------------------------------------------------

  /** Whatever happens to mail, retention and crashes included, the suppression list stays. */
  lemma {:induction false} SuppressionsStay(w: World, es: seq<Event>)
    requires IsRun(w, es)
    ensures Exec(w, es).db.suppressions == w.db.suppressions
    decreases |es|
  {
    if es != [] {
      StepKeepsSuppressions(w, es[0]);
      hide Enabled, Apply;
      SuppressionsStay(Apply(w, es[0]), es[1..]);
    }
  }

  lemma StepKeepsSuppressions(w: World, e: Event)
    requires Enabled(w, e)
    ensures Apply(w, e).db.suppressions == w.db.suppressions
  {
    hide Enabled, Unix, RecordOutcomeStep, ClaimReadStep;
    if e.RecordOutcome? { OutcomeKeepsSuppressions(w, e.now, e.diskOk); }
    if e.ClaimRead? { ReadKeepsSuppressions(w, e.diskOk, e.dropOk); }
  }

  lemma OutcomeKeepsSuppressions(w: World, now: int, diskOk: bool)
    requires Enabled(w, RecordOutcome(now, diskOk))
    ensures RecordOutcomeStep(w, now, diskOk).db.suppressions == w.db.suppressions
  {
    hide Unix;
  }

  lemma ReadKeepsSuppressions(w: World, diskOk: bool, dropOk: bool)
    requires Enabled(w, ClaimRead(diskOk, dropOk))
    ensures ClaimReadStep(w, diskOk, dropOk).db.suppressions == w.db.suppressions
  {
  }
}
