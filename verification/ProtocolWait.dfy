/**
 The bounded wait, stated for the retry protocol: a run in which the worker is not
 disturbed is, as far as the queue is concerned, a run of the queue machine.
 */
module ProtocolWait {
  import opened Basics
  import opened Collections
  import opened Clock
  import opened Mail
  import opened Tables
  import opened RetryWorker
  import opened RetryProtocol
  import opened RetryInvariant
  import W = BoundedWait

  /** The worker is not cut short: no crash, no cancellation, and its own statements
      succeed. Those of ingresses and of the pruner may fail. Every poll has this limit. */
  predicate Undisturbed(e: Event, limit: nat) {
    match e
    case Crash => false
    case Cancel => false
    case ClaimRead(diskOk, _) => diskOk
    case ClaimMark(diskOk) => diskOk
    case RecordOutcome(_, diskOk) => diskOk
    case Poll(_, l, _) => l == limit
    case _ => true
  }

  /** What a step is to the queue, if anything. */
  function ActOf(w: World, e: Event): Option<W.Act> {
    match e
    case Poll(now, _, ids) => Some(W.Select(now, ids))
    case RecordOutcome(now, _) =>
      if w.worker.Attempting? && w.worker.due != [] && w.worker.answer.Some?
      then Some(W.Finish(w.worker.due[0].submission.id, w.worker.answer.value, now)) else None
    case InlineEnqueue(id, now, diskOk) => if diskOk then Some(W.Arrive(id, now)) else None
    case _ => None
  }

  ghost predicate Follows(w: World, s: W.State) {
    s.rows == w.db.queue && s.open == Elems(HeldIds(w.worker)) && s.clock <= w.clock
  }

  ghost predicate StepFollows(w: World, e: Event, s: W.State, limit: nat)
    requires Enabled(w, e)
  {
    && Apply(w, e).mode == Up
    && match ActOf(w, e)
       case None => Follows(Apply(w, e), s)
       case Some(a) => W.Enabled(s, a, limit) && Follows(Apply(w, e), W.Apply(s, a))
  }

  lemma IngressFollows(w: World, e: Event, s: W.State, limit: nat)
    requires Inv(w) && w.mode == Up && Enabled(w, e) && Follows(w, s)
    requires e.Record? || e.RecordSuppressed? || e.InlineAnswer? || e.InlineMarkSent? || e.InlineMarkFailed? || e.ReplyQueued?
    ensures StepFollows(w, e, s, limit)
  {
    if e.InlineMarkSent? {
      assert Coupled(ViewOf(w, e.id)) && OwnedInline(ViewOf(w, e.id));
      assert w.db.queue - {e.id} == w.db.queue;
    }
    hide Inv, Coupled, HeldIds, PreSendRow, Unix;
  }

  lemma EnqueueFollows(w: World, id: Id, now: int, diskOk: bool, s: W.State, limit: nat)
    requires Inv(w) && w.mode == Up && Enabled(w, InlineEnqueue(id, now, diskOk)) && Follows(w, s)
    ensures StepFollows(w, InlineEnqueue(id, now, diskOk), s, limit)
  {
    InlineEnqueueMoves(w, id, now, diskOk);
    hide Inv, Coupled, ViewOf, HeldIds, Unix;
  }

  lemma PollFollows(w: World, now: int, limit: nat, ids: seq<Id>, s: W.State)
    requires w.mode == Up && Enabled(w, Poll(now, limit, ids)) && Follows(w, s)
    ensures StepFollows(w, Poll(now, limit, ids), s, limit)
  {
    PollHolds(w, now, limit, ids);
    hide IsDueSelection, HeldIds, PollStep, Elems;
    assert Apply(w, Poll(now, limit, ids)) == PollStep(w, now, limit, ids);
    hide Apply, Enabled;
  }

  lemma PollHolds(w: World, now: int, limit: nat, ids: seq<Id>)
    requires w.worker == Idle && IsDueSelection(w.db.queue, Unix(now), limit, ids)
    ensures var w' := PollStep(w, now, limit, ids);
            && Elems(HeldIds(w.worker)) == {} && HeldIds(w'.worker) == ids
            && w'.db == w.db && w'.clock == now && w'.mode == w.mode
  {
    hide IsDueSelection, Unix;
    PolledIds(w, now, limit, ids);
  }

  /** A claim neither changes the queue nor lets go of a row. */
  lemma ClaimFollows(w: World, e: Event, s: W.State, limit: nat)
    requires Inv(w) && w.mode == Up && Enabled(w, e) && Undisturbed(e, limit) && Follows(w, s)
    requires e.ClaimRead? || e.ClaimMark? || e.ClaimEnd?
    ensures StepFollows(w, e, s, limit)
  {
    if e.ClaimRead? {
      var id := w.worker.todo[0].id;
      assert HeldIds(w.worker)[|w.worker.due|] == id;
      assert Coupled(ViewOf(w, id));
      assert HeldIds(ClaimReadStep(w, true, e.dropOk).worker) == HeldIds(w.worker);
    } else if e.ClaimMark? {
      ClaimMarkSpares(w);
    } else {
      assert HeldIds(Begin(w.worker.due)) == HeldIds(w.worker);
    }
    hide Inv, Coupled, ViewOf, HeldIds;
  }

  lemma OutcomeFollows(w: World, now: int, s: W.State, limit: nat)
    requires Inv(w) && w.mode == Up && Enabled(w, RecordOutcome(now, true)) && Follows(w, s)
    ensures StepFollows(w, RecordOutcome(now, true), s, limit)
  {
    var id, outcome := w.worker.due[0].submission.id, w.worker.answer.value;
    HeadIsQueued(w);
    W.RowsFollowStore(w.db, id, outcome, now);
    OutcomeIs(w, now);
    HeadLeaves(w);
    hide Elems;
    hide Inv, Coupled, ViewOf, HeldIds, RecordOutcomeStep, FinishTx, InQueue;
  }

  lemma HeadLeaves(w: World)
    requires w.worker.Attempting? && w.worker.due != []
    requires w.worker.due[0].submission.id !in HeldIds(Begin(w.worker.due[1..]))
    ensures var id, held := w.worker.due[0].submission.id, Elems(HeldIds(w.worker));
            id in held && Elems(HeldIds(Begin(w.worker.due[1..]))) == held - {id}
  {
    assert HeldIds(w.worker) == [w.worker.due[0].submission.id] + HeldIds(Begin(w.worker.due[1..]));
  }

  lemma OutcomeIs(w: World, now: int)
    requires Enabled(w, RecordOutcome(now, true)) && w.worker.due[0].submission.id in w.db.queue
    ensures var w' := RecordOutcomeStep(w, now, true);
            && w'.db == FinishTx(w.db, w.worker.due[0].submission.id, w.worker.answer.value, now)
            && w'.worker == Begin(w.worker.due[1..]) && w'.clock == now && w'.mode == w.mode
  {
    hide MarkSentTx, DeadLetterTx, RetryFailureTx, RetryRecorded, Begin;
  }

  lemma StepIsFollowed(w: World, e: Event, s: W.State, limit: nat)
    requires Inv(w) && w.mode == Up && Enabled(w, e) && Undisturbed(e, limit) && Follows(w, s)
    ensures StepFollows(w, e, s, limit)
  {
    match e
    case InlineEnqueue(id, now, diskOk) => EnqueueFollows(w, id, now, diskOk, s, limit);
    case Poll(now, _, ids) => PollFollows(w, now, limit, ids, s);
    case RecordOutcome(now, _) => OutcomeFollows(w, now, s, limit);
    case Send(outcome) =>
      assert HeldIds(SendStep(w, outcome).worker) == HeldIds(w.worker);
    case Prune(cutoff, diskOk) => PruneSpares(w, cutoff);
    case Record(_, _, _, _, _) => IngressFollows(w, e, s, limit);
    case RecordSuppressed(_, _) => IngressFollows(w, e, s, limit);
    case InlineAnswer(_, _) => IngressFollows(w, e, s, limit);
    case InlineMarkSent(_, _, _) => IngressFollows(w, e, s, limit);
    case InlineMarkFailed(_, _) => IngressFollows(w, e, s, limit);
    case ReplyQueued(_) => IngressFollows(w, e, s, limit);
    case _ => ClaimFollows(w, e, s, limit);
  }

  function Polls(es: seq<Event>): nat {
    if es == [] then 0 else (if es[0].Poll? then 1 else 0) + Polls(es[1..])
  }

  ghost predicate AllUndisturbed(es: seq<Event>, limit: nat) {
    forall e :: e in es ==> Undisturbed(e, limit)
  }

  /** The queue machine runs along, with the same polls. */
  lemma {:induction false} RunIsFollowed(w: World, es: seq<Event>, s: W.State, limit: nat) returns (acts: seq<W.Act>)
    requires Inv(w) && w.mode == Up && IsRun(w, es) && AllUndisturbed(es, limit) && Follows(w, s)
    ensures W.IsRun(s, acts, limit) && W.Polls(acts) == Polls(es)
    ensures forall a :: a in acts && a.Select? ==> exists e :: e in es && e.Poll? && e.ids == a.ids
    decreases |es|
  {
    if es == [] {
      return [];
    }
    var e := es[0];
    assert e in es && forall x :: x in es[1..] ==> x in es;
    StepIsFollowed(w, e, s, limit);
    StepKeeps(w, e);
    hide Inv, Apply, Enabled, Follows, Undisturbed, W.Apply, W.Enabled;
    match ActOf(w, e)
    case None =>
      acts := RunIsFollowed(Apply(w, e), es[1..], s, limit);
    case Some(a) =>
      var rest := RunIsFollowed(Apply(w, e), es[1..], W.Apply(s, a), limit);
      acts := [a] + rest;
      assert acts[1..] == rest;
  }

  /** Bounded wait in the protocol: after any run, with crashes and failures, that leaves
      the worker idle, a due row with k other rows due no later is claimed within
      ceil((k + 1) / limit) polls, if the worker is not disturbed meanwhile; ingresses,
      the pruner and their failing statements may interleave anywhere. */
  lemma DueRowIsPolledInTime(w: World, before: seq<Event>, es: seq<Event>, limit: nat, id: Id)
    requires Init(w) && IsRun(w, before) && IsRun(Exec(w, before), es) && AllUndisturbed(es, limit) && limit > 0
    requires Exec(w, before).mode == Up && Exec(w, before).worker == Idle
    requires id in Exec(w, before).db.queue && Exec(w, before).db.queue[id].nextAttemptAt <= Unix(Exec(w, before).clock)
    requires Polls(es) >= (|W.Ahead(Exec(w, before).db.queue, id)| + limit) / limit
    ensures exists e :: e in es && e.Poll? && id in e.ids
  {
    InitHolds(w);
    RunKeeps(w, before);
    var v := Exec(w, before);
    hide Inv, IsRun, Exec;
    var s := W.State(v.db.queue, v.clock, {});
    assert HeldIds(v.worker) == [];
    var acts := RunIsFollowed(v, es, s, limit);
    W.DueRowIsClaimedInTime(s, acts, limit, id);
    var a :| a in acts && a.Select? && id in a.ids;
  }
}
