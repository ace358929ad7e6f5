/**
 Every step of the retry protocol keeps the coupling invariant. Steps that touch
 one submission leave every other view as it was, up to the passing of time.
 */
module RetryInvariant {
  import opened Basics
  import opened Clock
  import opened Mail
  import opened Tables
  import opened Transport
  import opened RetryProtocol

  lemma InitHolds(w: World)
    requires Init(w)
    ensures Inv(w)
  {
    forall id ensures Coupled(ViewOf(w, id)) {
      assert Untouched(ViewOf(w, id));
    }
  }

  /** Time only helps: what was due stays due. */
  lemma CoupledLater(v: View, nowSec: int)
    requires Coupled(v) && v.nowSec <= nowSec
    ensures Coupled(v.(nowSec := nowSec))
  {
  }

  /** A new pre-send row is owned by the ingress goroutine that wrote it. */
  lemma RecordedIsOwned(w: World, via: Ingress, id: Id, msg: Message, now: int)
    requires Inv(w) && Enabled(w, Record(via, id, msg, now, true))
    ensures Coupled(ViewOf(RecordStep(w, via, id, msg, now, true), id))
  {
    var v := ViewOf(RecordStep(w, via, id, msg, now, true), id);
    assert Coupled(ViewOf(w, id)) && Untouched(ViewOf(w, id));
    if QueueEligible(via) { RebuildInvertsStore(via, id, msg, now); }
    assert OwnedInline(v);
  }

  lemma RecordKeeps(w: World, via: Ingress, id: Id, msg: Message, now: int, diskOk: bool)
    requires Inv(w) && Enabled(w, Record(via, id, msg, now, diskOk))
    ensures Inv(RecordStep(w, via, id, msg, now, diskOk))
  {
    var w' := RecordStep(w, via, id, msg, now, diskOk);
    UnixMonotone(w.clock, now);
    assert Coupled(ViewOf(w, id));
    if !diskOk {
      TimePasses(w, now);
    } else {
      forall x ensures Coupled(ViewOf(w', x)) {
        if x == id {
          RecordedIsOwned(w, via, id, msg, now);
        } else {
          RecordSpares(w, via, id, msg, now, x);
          CoupledLater(ViewOf(w, x), Unix(now));
        }
      }
      RowsInHandAreUsed(w);
      HistoryGrowthKeepsWorker(w, w');
    }
  }

  lemma TimePasses(w: World, now: int)
    requires Inv(w) && w.clock <= now
    ensures Inv(w.(clock := now))
  {
    UnixMonotone(w.clock, now);
    forall x ensures Coupled(ViewOf(w.(clock := now), x)) {
      CoupledLater(ViewOf(w, x), Unix(now));
    }
  }

  lemma RecordSpares(w: World, via: Ingress, id: Id, msg: Message, now: int, x: Id)
    requires Enabled(w, Record(via, id, msg, now, true)) && x != id
    ensures ViewOf(RecordStep(w, via, id, msg, now, true), x) == ViewOf(w, x).(nowSec := Unix(now))
  {
    hide PreSendRow, HeldIds;
  }

  /** The worker does not notice new messages, as long as its own rows keep theirs. */
  lemma HistoryGrowthKeepsWorker(w: World, w': World)
    requires WorkerOk(w) && w'.worker == w.worker
    requires w.past.providerTook <= w'.past.providerTook && w.past.providerRefused <= w'.past.providerRefused
    requires forall x :: x in w.past.used ==> Get(w'.past.original, x) == Get(w.past.original, x)
    requires w.worker != Idle ==> forall d :: d in w.worker.due ==> d.submission.id in w.past.used
    requires w.worker.Claiming? ==> forall c :: c in w.worker.todo ==> c.id in w.past.used
    ensures WorkerOk(w')
  {
    if w.worker != Idle {
      forall d | d in w.worker.due ensures Faithful(w', d.submission) {
        assert Faithful(w, d.submission);
        assert Get(w'.past.original, d.submission.id) == Get(w.past.original, d.submission.id);
      }
    }
    if w.worker.Claiming? && w.worker.read.Some? {
      assert w.worker.todo[0] in w.worker.todo;
      assert Get(w'.past.original, w.worker.read.value.id) == Get(w.past.original, w.worker.read.value.id);
    }
  }

  lemma RowsInHandAreUsed(w: World)
    requires Inv(w)
    ensures w.worker != Idle ==> forall d :: d in w.worker.due ==> d.submission.id in w.past.used
    ensures w.worker.Claiming? ==> forall c :: c in w.worker.todo ==> c.id in w.past.used
    ensures w.mode != Up ==> |HeldIds(w.worker)| == 0
  {
    var held := HeldIds(w.worker);
    forall i | 0 <= i < |held| ensures held[i] in w.past.used && w.mode == Up {
      assert Coupled(ViewOf(w, held[i]));
    }
    if |held| > 0 { assert held[0] in w.past.used; }
    if w.worker != Idle {
      forall d | d in w.worker.due ensures d.submission.id in w.past.used {
        var i :| 0 <= i < |w.worker.due| && w.worker.due[i] == d;
        assert held[i] == d.submission.id;
      }
    }
    if w.worker.Claiming? {
      forall c | c in w.worker.todo ensures c.id in w.past.used {
        var i :| 0 <= i < |w.worker.todo| && w.worker.todo[i] == c;
        assert held[|w.worker.due| + i] == c.id;
      }
    }
  }

  /** A step that concerns one submission: every other view only ages. */
  ghost predicate Spares(w: World, w': World, id: Id) {
    && w.clock <= w'.clock
    && forall x :: x != id ==> ViewOf(w', x) == ViewOf(w, x).(nowSec := Unix(w'.clock))
  }

  lemma OneMoves(w: World, w': World, id: Id)
    requires Inv(w) && Spares(w, w', id) && Coupled(ViewOf(w', id))
    requires KeyedById(w'.db) && WorkerOk(w')
    ensures Inv(w')
  {
    UnixMonotone(w.clock, w'.clock);
    forall x ensures Coupled(ViewOf(w', x)) {
      if x != id {
        CoupledLater(ViewOf(w, x), Unix(w'.clock));
      }
    }
  }

  /** The same for a step that leaves the worker alone. */
  lemma OneMovesBesideWorker(w: World, w': World, id: Id)
    requires Inv(w) && Spares(w, w', id) && Coupled(ViewOf(w', id))
    requires KeyedById(w'.db) && w'.worker == w.worker && w'.past.original == w.past.original
    requires w.past.providerTook <= w'.past.providerTook && w.past.providerRefused <= w'.past.providerRefused
    ensures Inv(w')
  {
    RowsInHandAreUsed(w);
    HistoryGrowthKeepsWorker(w, w');
    OneMoves(w, w', id);
  }

  lemma RecordSuppressedKeeps(w: World, row: Submission, diskOk: bool)
    requires Inv(w) && Enabled(w, RecordSuppressed(row, diskOk))
    ensures Inv(RecordSuppressedStep(w, row, diskOk))
  {
    var w' := RecordSuppressedStep(w, row, diskOk);
    forall x ensures Coupled(ViewOf(w', x)) {
      assert Coupled(ViewOf(w, x));
      if x != row.id { assert ViewOf(w', x) == ViewOf(w, x); }
    }
  }

  lemma InlineAnswerKeeps(w: World, id: Id, outcome: Outcome)
    requires Inv(w) && Enabled(w, InlineAnswer(id, outcome))
    ensures Inv(InlineAnswerStep(w, id, outcome))
  {
    InlineAnswerMoves(w, id, outcome);
    OneMovesBesideWorker(w, InlineAnswerStep(w, id, outcome), id);
  }

  lemma InlineAnswerMoves(w: World, id: Id, outcome: Outcome)
    requires Inv(w) && Enabled(w, InlineAnswer(id, outcome))
    ensures Coupled(ViewOf(InlineAnswerStep(w, id, outcome), id))
    ensures Spares(w, InlineAnswerStep(w, id, outcome), id)
  {
    assert Coupled(ViewOf(w, id)) && OwnedInline(ViewOf(w, id));
    InlineAnswerSpares(w, id, outcome);
    hide Inv, HeldIds, Rebuild, Count, Unix;
    assert OwnedInline(ViewOf(InlineAnswerStep(w, id, outcome), id));
  }

  lemma InlineAnswerSpares(w: World, id: Id, outcome: Outcome)
    requires Enabled(w, InlineAnswer(id, outcome))
    ensures Spares(w, InlineAnswerStep(w, id, outcome), id)
  {
    hide HeldIds, Count, Unix;
  }

  lemma InlineMarkSentMoves(w: World, id: Id, now: int, diskOk: bool)
    requires Inv(w) && Enabled(w, InlineMarkSent(id, now, diskOk))
    ensures Coupled(ViewOf(InlineMarkSentStep(w, id, now, diskOk), id))
    ensures Spares(w, InlineMarkSentStep(w, id, now, diskOk), id)
  {
    var v := ViewOf(InlineMarkSentStep(w, id, now, diskOk), id);
    assert Coupled(ViewOf(w, id)) && OwnedInline(ViewOf(w, id));
    InlineMarkSentSpares(w, id, now, diskOk);
    hide Inv, HeldIds, Count, Unix, Spares;
    assert if diskOk then RecordedSent(v) else AwaitsRecovery(v);
  }

  lemma InlineMarkSentSpares(w: World, id: Id, now: int, diskOk: bool)
    requires Enabled(w, InlineMarkSent(id, now, diskOk))
    ensures Spares(w, InlineMarkSentStep(w, id, now, diskOk), id)
  {
    hide HeldIds, Count, Unix;
  }

  lemma InlineMarkSentKeeps(w: World, id: Id, now: int, diskOk: bool)
    requires Inv(w) && Enabled(w, InlineMarkSent(id, now, diskOk))
    ensures Inv(InlineMarkSentStep(w, id, now, diskOk))
  {
    InlineMarkSentMoves(w, id, now, diskOk);
    OneMovesBesideWorker(w, InlineMarkSentStep(w, id, now, diskOk), id);
  }

  lemma InlineEnqueueMoves(w: World, id: Id, now: int, diskOk: bool)
    requires Inv(w) && Enabled(w, InlineEnqueue(id, now, diskOk))
    ensures Coupled(ViewOf(InlineEnqueueStep(w, id, now, diskOk), id))
    ensures CanEnqueue(w.db, id)
  {
    var v := ViewOf(InlineEnqueueStep(w, id, now, diskOk), id);
    assert Coupled(ViewOf(w, id)) && OwnedInline(ViewOf(w, id));
    assert if diskOk then InQueue(v) else OwnedInline(v);
  }

  lemma InlineEnqueueSpares(w: World, id: Id, now: int, diskOk: bool)
    requires Enabled(w, InlineEnqueue(id, now, diskOk))
    ensures Spares(w, InlineEnqueueStep(w, id, now, diskOk), id)
  {
  }

  lemma InlineEnqueueKeeps(w: World, id: Id, now: int, diskOk: bool)
    requires Inv(w) && Enabled(w, InlineEnqueue(id, now, diskOk))
    ensures Inv(InlineEnqueueStep(w, id, now, diskOk))
  {
    InlineEnqueueMoves(w, id, now, diskOk);
    InlineEnqueueSpares(w, id, now, diskOk);
    OneMovesBesideWorker(w, InlineEnqueueStep(w, id, now, diskOk), id);
  }

  lemma InlineMarkFailedKeeps(w: World, id: Id, diskOk: bool)
    requires Inv(w) && Enabled(w, InlineMarkFailed(id, diskOk))
    ensures Inv(InlineMarkFailedStep(w, id, diskOk))
  {
    InlineMarkFailedMoves(w, id, diskOk);
    InlineMarkFailedSpares(w, id, diskOk);
    OneMovesBesideWorker(w, InlineMarkFailedStep(w, id, diskOk), id);
  }

  lemma InlineMarkFailedMoves(w: World, id: Id, diskOk: bool)
    requires Inv(w) && Enabled(w, InlineMarkFailed(id, diskOk))
    ensures Coupled(ViewOf(InlineMarkFailedStep(w, id, diskOk), id))
  {
    var v := ViewOf(InlineMarkFailedStep(w, id, diskOk), id);
    assert Coupled(ViewOf(w, id)) && OwnedInline(ViewOf(w, id));
    hide Inv, HeldIds, Count, Unix;
    assert if diskOk then RefusedInline(v) else AwaitsRecovery(v);
  }

  lemma InlineMarkFailedSpares(w: World, id: Id, diskOk: bool)
    requires Enabled(w, InlineMarkFailed(id, diskOk))
    ensures Spares(w, InlineMarkFailedStep(w, id, diskOk), id)
  {
    hide HeldIds, Count, Unix;
  }

  lemma ReplyQueuedKeeps(w: World, id: Id)
    requires Inv(w) && Enabled(w, ReplyQueued(id))
    ensures Inv(ReplyQueuedStep(w, id))
  {
    var w' := ReplyQueuedStep(w, id);
    forall x ensures Coupled(ViewOf(w', x)) {
      assert Coupled(ViewOf(w, x));
      if x != id { assert ViewOf(w', x) == ViewOf(w, x); }
    }
  }

  /** The rows in the worker's hands after a poll are those selected. */
  lemma PolledIds(w: World, now: int, limit: nat, ids: seq<Id>)
    requires IsDueSelection(w.db.queue, Unix(now), limit, ids)
    ensures HeldIds(PollStep(w, now, limit, ids).worker) == ids
  {
    assert forall i :: 0 <= i < |ids| ==> ids[i] in DueIds(w.db.queue, Unix(now));
    hide IsDueSelection, Unix;
    var todo := PollStep(w, now, limit, ids).worker.todo;
    assert |ClaimIds(todo)| == |ids| && forall i :: 0 <= i < |ids| ==> ClaimIds(todo)[i] == ids[i];
  }

  lemma PollKeeps(w: World, now: int, limit: nat, ids: seq<Id>)
    requires Inv(w) && Enabled(w, Poll(now, limit, ids))
    ensures Inv(PollStep(w, now, limit, ids))
  {
    var w' := PollStep(w, now, limit, ids);
    UnixMonotone(w.clock, now);
    PolledIds(w, now, limit, ids);
    hide HeldIds, Unix;
    forall x ensures Coupled(ViewOf(w', x)) {
      assert Coupled(ViewOf(w, x));
      assert ViewOf(w', x) == ViewOf(w, x).(nowSec := Unix(now), held := x in ids);
      if x in ids { assert x in DueIds(w.db.queue, Unix(now)); }
    }
  }

  /** The worker may let go of ids without anyone else noticing. */
  lemma WorkerShrinkKeeps(w: World, worker: Worker)
    requires Inv(w) && WorkerOk(w.(worker := worker))
    requires forall x :: x in HeldIds(worker) ==> x in HeldIds(w.worker)
    ensures Inv(w.(worker := worker))
  {
    var w' := w.(worker := worker);
    forall x ensures Coupled(ViewOf(w', x)) {
      assert Coupled(ViewOf(w, x));
      assert ViewOf(w', x) == ViewOf(w, x).(held := x in HeldIds(worker));
    }
  }

  /** Dropping the rows not yet claimed keeps the ones already in hand. */
  lemma BeginKeeps(w: World)
    requires Inv(w) && w.worker.Claiming?
    ensures Inv(w.(worker := Begin(w.worker.due)))
  {
    var worker' := Begin(w.worker.due);
    assert HeldIds(worker') == HeldIds(w.worker)[..|w.worker.due|];
    WorkerShrinkKeeps(w, worker');
  }

  lemma ClaimReadKeeps(w: World, diskOk: bool, dropOk: bool)
    requires Inv(w) && Enabled(w, ClaimRead(diskOk, dropOk))
    ensures Inv(ClaimReadStep(w, diskOk, dropOk))
  {
    var id := w.worker.todo[0].id;
    assert HeldIds(w.worker)[|w.worker.due|] == id;
    assert Coupled(ViewOf(w, id));
    if !diskOk {
      BeginKeeps(w);
    } else {
      var w' := ClaimReadStep(w, diskOk, dropOk);
      assert HeldIds(w'.worker) == HeldIds(w.worker);
      WorkerShrinkKeeps(w, w'.worker);
    }
  }

  lemma ClaimMarkMoves(w: World)
    requires Inv(w) && Enabled(w, ClaimMark(true))
    ensures Coupled(ViewOf(ClaimMarkStep(w, true), w.worker.todo[0].id))
  {
    var id, w' := w.worker.todo[0].id, ClaimMarkStep(w, true);
    assert HeldIds(w.worker)[|w.worker.due|] == id;
    assert HeldIds(w'.worker) == HeldIds(w.worker);
    assert Coupled(ViewOf(w, id)) && InQueue(ViewOf(w, id));
    assert InQueue(ViewOf(w', id));
  }

  /** Moving a claim from the list to do into the list of due rows keeps the ids in hand. */
  lemma ClaimMarkSpares(w: World)
    requires Enabled(w, ClaimMark(true)) && w.worker.read.value.id == w.worker.todo[0].id
    ensures HeldIds(ClaimMarkStep(w, true).worker) == HeldIds(w.worker)
    ensures Spares(w, ClaimMarkStep(w, true), w.worker.todo[0].id)
  {
    assert HeldIds(ClaimMarkStep(w, true).worker) == HeldIds(w.worker);
  }

  lemma ClaimMarkWorkerOk(w: World)
    requires Enabled(w, ClaimMark(true)) && WorkerOk(w)
    requires HeldIds(ClaimMarkStep(w, true).worker) == HeldIds(w.worker)
    ensures WorkerOk(ClaimMarkStep(w, true))
  {
    hide SetStatus, HeldIds;
  }

  lemma ClaimMarkKeeps(w: World, diskOk: bool)
    requires Inv(w) && Enabled(w, ClaimMark(diskOk))
    ensures Inv(ClaimMarkStep(w, diskOk))
  {
    if diskOk {
      ClaimMarkMoves(w);
      ClaimMarkSpares(w);
      ClaimMarkWorkerOk(w);
      OneMoves(w, ClaimMarkStep(w, true), w.worker.todo[0].id);
    } else {
      BeginKeeps(w);
    }
  }

  /** What the provider said can only be added to. */
  lemma CoupledAfterAnswer(v: View, took: bool, refusedByProvider: bool)
    requires Coupled(v) && (v.took ==> took) && (v.refusedByProvider ==> refusedByProvider)
    ensures Coupled(v.(took := took, refusedByProvider := refusedByProvider))
  {
    hide Rebuild;
  }

  lemma SendMoves(w: World, outcome: Outcome)
    requires Inv(w) && Enabled(w, Send(outcome))
    ensures Coupled(ViewOf(SendStep(w, outcome), w.worker.due[0].submission.id))
    ensures Spares(w, SendStep(w, outcome), w.worker.due[0].submission.id)
  {
    var w', id := SendStep(w, outcome), w.worker.due[0].submission.id;
    assert Coupled(ViewOf(w, id));
    hide Inv, Coupled;
    assert HeldIds(w'.worker) == HeldIds(w.worker);
    hide HeldIds, Count, Unix;
    CoupledAfterAnswer(ViewOf(w, id), id in w'.past.providerTook, id in w'.past.providerRefused);
  }

  lemma SendWorkerOk(w: World, outcome: Outcome)
    requires WorkerOk(w) && Enabled(w, Send(outcome))
    ensures WorkerOk(SendStep(w, outcome))
  {
    assert HeldIds(SendStep(w, outcome).worker) == HeldIds(w.worker);
    hide HeldIds, Rebuild;
    forall d | d in w.worker.due ensures Faithful(SendStep(w, outcome), d.submission) {
      assert Faithful(w, d.submission);
    }
  }

  lemma SendKeeps(w: World, outcome: Outcome)
    requires Inv(w) && Enabled(w, Send(outcome))
    ensures Inv(SendStep(w, outcome))
  {
    SendMoves(w, outcome);
    SendWorkerOk(w, outcome);
    hide Coupled, ViewOf, WorkerOk;
    OneMoves(w, SendStep(w, outcome), w.worker.due[0].submission.id);
  }

  /** The tables and the history agree, outside one submission. */
  ghost predicate SparesRows(db: Db, db': Db, id: Id) {
    && (forall x :: x != id ==> Get(db'.submissions, x) == Get(db.submissions, x))
    && (forall x :: x != id ==> Get(db'.queue, x) == Get(db.queue, x))
  }

  ghost predicate SparesHistory(past: History, past': History, id: Id) {
    && past' == past.(delivered := past'.delivered, dead := past'.dead, failures := past'.failures)
    && (forall x :: x != id ==> (x in past'.delivered <==> x in past.delivered))
    && (forall x :: x != id ==> Get(past'.dead, x) == Get(past.dead, x))
    && (forall x :: x != id ==> Count(past'.failures, x) == Count(past.failures, x))
  }

  lemma MarkSentSpares(db: Db, id: Id, m: string, now: int)
    requires KeyedById(db)
    ensures SparesRows(db, MarkSentTx(db, id, m, now), id) && KeyedById(MarkSentTx(db, id, m, now))
  {
  }

  lemma DeadLetterSpares(db: Db, id: Id, err: string)
    requires KeyedById(db)
    ensures SparesRows(db, DeadLetterTx(db, id, err), id) && KeyedById(DeadLetterTx(db, id, err))
  {
  }

  lemma RetryFailureSpares(db: Db, id: Id, err: string, now: int)
    requires KeyedById(db) && id in db.queue
    ensures SparesRows(db, RetryFailureTx(db, id, err, now), id) && KeyedById(RetryFailureTx(db, id, err, now))
  {
    if db.queue[id].attempt + 1 >= MAX_ATTEMPTS {
      DeadLetterSpares(db, id, err);
    }
  }

  lemma RetryRecordedSpares(past: History, id: Id, attempt: nat)
    ensures SparesHistory(past, RetryRecorded(past, id, attempt), id)
  {
  }

  /** Whatever the worker commits for the submission at the head of its list, it is
      enough that this submission ends up coupled and no other is touched. */
  lemma RecordedKeeps(w: World, now: int, db: Db, past: History)
    requires Inv(w) && w.worker.Attempting? && w.worker.due != [] && w.clock <= now
    requires KeyedById(db)
    requires SparesRows(w.db, db, w.worker.due[0].submission.id)
    requires SparesHistory(w.past, past, w.worker.due[0].submission.id)
    requires Coupled(ViewOf(Recorded(w, now, db, past), w.worker.due[0].submission.id))
    ensures Inv(Recorded(w, now, db, past))
  {
    RecordedSpares(w, now, db, past);
    RecordedWorkerOk(w, now, db, past);
    OneMoves(w, Recorded(w, now, db, past), w.worker.due[0].submission.id);
  }

  lemma RecordedSpares(w: World, now: int, db: Db, past: History)
    requires w.worker.Attempting? && w.worker.due != [] && w.clock <= now
    requires SparesRows(w.db, db, w.worker.due[0].submission.id)
    requires SparesHistory(w.past, past, w.worker.due[0].submission.id)
    ensures Spares(w, Recorded(w, now, db, past), w.worker.due[0].submission.id)
  {
    assert HeldIds(w.worker) == [w.worker.due[0].submission.id] + HeldIds(Begin(w.worker.due[1..]));
  }

  lemma RecordedWorkerOk(w: World, now: int, db: Db, past: History)
    requires w.worker.Attempting? && w.worker.due != [] && WorkerOk(w)
    requires SparesHistory(w.past, past, w.worker.due[0].submission.id)
    ensures WorkerOk(Recorded(w, now, db, past))
  {
    var w' := Recorded(w, now, db, past);
    var held, rest := HeldIds(w.worker), HeldIds(w'.worker);
    assert held == [w.worker.due[0].submission.id] + rest;
    forall i, j | 0 <= i < j < |rest| ensures rest[i] != rest[j] {
      assert held[i + 1] != held[j + 1];
    }
    if w'.worker != Idle {
      forall d | d in w'.worker.due ensures Faithful(w', d.submission) {
        assert Faithful(w, d.submission);
      }
    }
  }

  /** The head of the list is in the queue, and nowhere else in the list. */
  lemma HeadIsQueued(w: World)
    requires Inv(w) && w.worker.Attempting? && w.worker.due != []
    ensures InQueue(ViewOf(w, w.worker.due[0].submission.id))
    ensures w.worker.due[0].submission.id !in HeldIds(Begin(w.worker.due[1..]))
    ensures Coupled(ViewOf(w, w.worker.due[0].submission.id))
  {
    var id, held, rest := w.worker.due[0].submission.id, HeldIds(w.worker), HeldIds(Begin(w.worker.due[1..]));
    assert held == [id] + rest;
    assert forall i :: 0 <= i < |rest| ==> rest[i] == held[i + 1] != held[0];
    assert Coupled(ViewOf(w, id));
  }

  lemma RecordOutcomeKeeps(w: World, now: int, diskOk: bool)
    requires Inv(w) && Enabled(w, RecordOutcome(now, diskOk))
    ensures Inv(RecordOutcomeStep(w, now, diskOk))
  {
    var id := w.worker.due[0].submission.id;
    UnixMonotone(w.clock, now);
    HeadIsQueued(w);
    if !diskOk {
      RecordedKeeps(w, now, w.db, w.past);
    } else {
      match w.worker.answer.value
      case Accepted(m) => SentKeeps(w, now, m);
      case Terminal(err) => DeadKeeps(w, now, err);
      case Retryable(err) => RetryKeeps(w, now, err);
    }
  }

  lemma SentKeeps(w: World, now: int, m: string)
    requires Inv(w) && Enabled(w, RecordOutcome(now, true)) && w.worker.answer == Some(Accepted(m))
    ensures Inv(RecordOutcomeStep(w, now, true))
  {
    var id := w.worker.due[0].submission.id;
    HeadIsQueued(w);
    assert RecordedSent(ViewOf(RecordOutcomeStep(w, now, true), id));
    MarkSentSpares(w.db, id, m, now);
    RecordedKeeps(w, now, MarkSentTx(w.db, id, m, now), w.past.(delivered := w.past.delivered + {id}));
  }

  lemma DeadKeeps(w: World, now: int, err: string)
    requires Inv(w) && Enabled(w, RecordOutcome(now, true)) && w.worker.answer == Some(Terminal(err))
    ensures Inv(RecordOutcomeStep(w, now, true))
  {
    var id := w.worker.due[0].submission.id;
    HeadIsQueued(w);
    DeadMoves(w, now, err);
    DeadLetterSpares(w.db, id, err);
    DeadHistorySpares(w.past, id);
    TerminalIsRecorded(w, now, err);
    hide RecordOutcomeStep, DeadLetterTx, ViewOf, Coupled, SparesRows, SparesHistory;
    RecordedKeeps(w, now, DeadLetterTx(w.db, id, err), w.past.(dead := w.past.dead[id := Rejected]));
  }

  lemma DeadHistorySpares(past: History, id: Id)
    ensures SparesHistory(past, past.(dead := past.dead[id := Rejected]), id)
  {
  }

  lemma TerminalIsRecorded(w: World, now: int, err: string)
    requires Enabled(w, RecordOutcome(now, true)) && w.worker.answer == Some(Terminal(err))
    ensures var id := w.worker.due[0].submission.id;
            RecordOutcomeStep(w, now, true) == Recorded(w, now, DeadLetterTx(w.db, id, err), w.past.(dead := w.past.dead[id := Rejected]))
  {
    hide DeadLetterTx, Recorded;
  }

  lemma DeadMoves(w: World, now: int, err: string)
    requires Inv(w) && Enabled(w, RecordOutcome(now, true)) && w.worker.answer == Some(Terminal(err))
    ensures Coupled(ViewOf(RecordOutcomeStep(w, now, true), w.worker.due[0].submission.id))
  {
    HeadIsQueued(w);
    assert DeadLettered(ViewOf(RecordOutcomeStep(w, now, true), w.worker.due[0].submission.id));
  }

  lemma RetryKeeps(w: World, now: int, err: string)
    requires Inv(w) && Enabled(w, RecordOutcome(now, true)) && w.worker.answer == Some(Retryable(err))
    ensures Inv(RecordOutcomeStep(w, now, true))
  {
    var id := w.worker.due[0].submission.id;
    HeadIsQueued(w);
    RetryMoves(w, now, err);
    RetryFailureSpares(w.db, id, err, now);
    RetryRecordedSpares(w.past, id, w.db.queue[id].attempt);
    RecordedKeeps(w, now, RetryFailureTx(w.db, id, err, now), RetryRecorded(w.past, id, w.db.queue[id].attempt));
  }

  lemma RetryMoves(w: World, now: int, err: string)
    requires Inv(w) && Enabled(w, RecordOutcome(now, true)) && w.worker.answer == Some(Retryable(err))
    ensures Coupled(ViewOf(RecordOutcomeStep(w, now, true), w.worker.due[0].submission.id))
  {
    var id := w.worker.due[0].submission.id;
    HeadIsQueued(w);
    var v := ViewOf(RecordOutcomeStep(w, now, true), id);
    assert if w.db.queue[id].attempt + 1 >= MAX_ATTEMPTS then DeadLettered(v) else InQueue(v);
  }

  lemma PruneKeeps(w: World, cutoff: int)
    requires Inv(w)
    ensures Inv(w.(db := PruneTx(w.db, cutoff)))
  {
    var w' := w.(db := PruneTx(w.db, cutoff));
    forall x ensures Coupled(ViewOf(w', x)) {
      assert Coupled(ViewOf(w, x));
      assert ViewOf(w', x) == ViewOf(w, x).(row := Get(w'.db.submissions, x));
    }
  }

  /** The cascade finds no queue row to delete. */
  lemma PruneSpares(w: World, cutoff: int)
    requires Inv(w)
    ensures PruneTx(w.db, cutoff).queue == w.db.queue
    ensures PruneTx(w.db, cutoff).suppressions == w.db.suppressions
  {
    forall x | x in w.db.queue ensures x in PruneTx(w.db, cutoff).queue {
      assert Coupled(ViewOf(w, x));
    }
  }

  lemma CrashKeeps(w: World)
    requires Inv(w)
    ensures Inv(CrashStep(w))
  {
    var w' := CrashStep(w);
    forall x ensures Coupled(ViewOf(w', x)) {
      assert Coupled(ViewOf(w, x));
    }
  }

  lemma OpenInsertKeeps(w: World, diskOk: bool)
    requires Inv(w) && Enabled(w, OpenInsert(diskOk))
    ensures Inv(OpenInsertStep(w, diskOk))
  {
    var w' := OpenInsertStep(w, diskOk);
    forall x ensures Coupled(ViewOf(w', x)) {
      assert Coupled(ViewOf(w, x));
    }
    RowsInHandAreUsed(w);
  }

  lemma OpenUpdateKeeps(w: World, diskOk: bool)
    requires Inv(w) && Enabled(w, OpenUpdate(diskOk))
    ensures Inv(OpenUpdateStep(w, diskOk))
  {
    var w' := OpenUpdateStep(w, diskOk);
    forall x ensures Coupled(ViewOf(w', x)) {
      var v, v' := ViewOf(w, x), ViewOf(w', x);
      assert Coupled(v);
      assert v' == v.(mode := w'.mode, row := v'.row);
      assert v'.row == v.row || (v.row.Some? && v.row.value.status == Sending && v'.row == Some(v.row.value.(status := Queued)));
    }
    RowsInHandAreUsed(w);
  }

  lemma StepKeeps(w: World, e: Event)
    requires Inv(w) && Enabled(w, e)
    ensures Inv(Apply(w, e))
  {
    match e
    case Record(via, id, msg, now, diskOk) => RecordKeeps(w, via, id, msg, now, diskOk);
    case RecordSuppressed(row, diskOk) => RecordSuppressedKeeps(w, row, diskOk);
    case InlineAnswer(id, outcome) => InlineAnswerKeeps(w, id, outcome);
    case InlineMarkSent(id, now, diskOk) => InlineMarkSentKeeps(w, id, now, diskOk);
    case InlineEnqueue(id, now, diskOk) => InlineEnqueueKeeps(w, id, now, diskOk);
    case InlineMarkFailed(id, diskOk) => InlineMarkFailedKeeps(w, id, diskOk);
    case ReplyQueued(id) => ReplyQueuedKeeps(w, id);
    case Poll(now, limit, ids) => PollKeeps(w, now, limit, ids);
    case ClaimRead(diskOk, dropOk) => ClaimReadKeeps(w, diskOk, dropOk);
    case ClaimMark(diskOk) => ClaimMarkKeeps(w, diskOk);
    case ClaimEnd => BeginKeeps(w);
    case Send(outcome) => SendKeeps(w, outcome);
    case RecordOutcome(now, diskOk) => RecordOutcomeKeeps(w, now, diskOk);
    case Cancel => WorkerShrinkKeeps(w, Idle);
    case Prune(cutoff, diskOk) => PruneKeeps(w, cutoff);
    case Crash => CrashKeeps(w);
    case OpenInsert(diskOk) => OpenInsertKeeps(w, diskOk);
    case OpenUpdate(diskOk) => OpenUpdateKeeps(w, diskOk);
  }

  lemma {:induction false} RunKeeps(w: World, es: seq<Event>)
    requires Inv(w) && IsRun(w, es)
    ensures Inv(Exec(w, es))
    decreases |es|
  {
    if es != [] {
      StepKeeps(w, es[0]);
      RunKeeps(Apply(w, es[0]), es[1..]);
    }
  }
}
