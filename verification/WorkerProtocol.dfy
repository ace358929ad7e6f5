/**
 A poll of the retry worker is a schedule of the retry protocol: what its loops compute on
 the store is what the protocol's steps do, failing statements and cancellation included.
 */
module WorkerProtocol {
  import opened Basics
  import opened Clock
  import opened Mail
  import opened Tables
  import opened Transport
  import opened Storage
  import opened RetryWorker
  import opened RetryProtocol
  import opened RetryTheorems

  // ---- the claim ------------------------------------------------------------

  /** The steps of one uninterrupted claim, statement by statement. */
  function ClaimEvents(w: World, disk: nat -> bool, at: nat): seq<Event>
    requires w.worker.Claiming? && w.worker.read == None
    decreases |w.worker.todo|
  {
    if w.worker.todo == [] then [ClaimEnd]
    else if !disk(at) then [ClaimRead(false, true)]
    else if w.worker.todo[0].id !in w.db.submissions then
      [ClaimRead(true, disk(at + 1))] + ClaimEvents(ClaimReadStep(w, true, disk(at + 1)), disk, at + 2)
    else if !disk(at + 1) then [ClaimRead(true, true)] + ([ClaimMark(false)] + [])
    else
      [ClaimRead(true, true)] + ([ClaimMark(true)] + ClaimEvents(ClaimMarkStep(ClaimReadStep(w, true, true), true), disk, at + 2))
  }

  /** The loop of ClaimDue computes what those steps do, failures included. */
  lemma {:induction false} ClaimDueRunsProtocol(w: World, disk: nat -> bool, at: nat)
    requires w.worker.Claiming? && w.worker.read == None
    ensures var es := ClaimEvents(w, disk, at);
            var r := ClaimEach(w.db, ClaimIds(w.worker.todo), ClaimAttempts(w.worker.todo), w.worker.due, disk, at);
            IsRun(w, es) && Exec(w, es) == w.(db := r.db, worker := Begin(r.due))
    decreases |w.worker.todo|
  {
    var todo := w.worker.todo;
    if todo == [] {
      RunCons(w, ClaimEnd, []);
    } else if !disk(at) {
      RunCons(w, ClaimRead(false, true), []);
    } else {
      assert ClaimIds(todo)[1..] == ClaimIds(todo[1..]) && ClaimAttempts(todo)[1..] == ClaimAttempts(todo[1..]);
      if todo[0].id !in w.db.submissions {
        var w1 := ClaimReadStep(w, true, disk(at + 1));
        ClaimDueRunsProtocol(w1, disk, at + 2);
        RunCons(w, ClaimRead(true, disk(at + 1)), ClaimEvents(w1, disk, at + 2));
      } else {
        var w1 := ClaimReadStep(w, true, true);
        if disk(at + 1) {
          var w2 := ClaimMarkStep(w1, true);
          ClaimDueRunsProtocol(w2, disk, at + 2);
          RunCons(w1, ClaimMark(true), ClaimEvents(w2, disk, at + 2));
          RunCons(w, ClaimRead(true, true), [ClaimMark(true)] + ClaimEvents(w2, disk, at + 2));
        } else {
          RunCons(w1, ClaimMark(false), []);
          RunCons(w, ClaimRead(true, true), [ClaimMark(false)] + []);
        }
      }
    }
  }

  function ClaimAttempts(todo: seq<Claim>): seq<nat> {
    seq(|todo|, i requires 0 <= i < |todo| => todo[i].attempt)
  }

  // ---- the attempts ---------------------------------------------------------

  /** Recording an outcome writes what an attempt writes, and moves on to the next row. */
  lemma RecordingMovesOn(w: World, now: int, diskOk: bool)
    requires Enabled(w, RecordOutcome(now, diskOk))
    ensures var w' := RecordOutcomeStep(w, now, diskOk);
            && w'.db == (if diskOk then FinishTx(w.db, w.worker.due[0].submission.id, w.worker.answer.value, now) else w.db)
            && w'.worker == Begin(w.worker.due[1..]) && w'.clock == now
  {
    hide MarkSentTx, DeadLetterTx, RetryFailureTx, RetryRecorded, Begin;
  }

  /** Attempts i and on; a cancellation is noticed before the next one starts. */
  function AttemptEvents(due: seq<DueRetry>, i: nat, until: nat, answer: nat -> SendResult, clock: nat -> int, disk: nat -> bool): seq<Event>
    decreases |due| - i
  {
    if i >= |due| then []
    else if i >= until then [Cancel]
    else
      [Send(Classify(answer(i)))] + ([RecordOutcome(clock(i), disk(i))] + AttemptEvents(due, i + 1, until, answer, clock, disk))
  }

  /** The messages that the background sends of a run carry. */
  ghost function Sends(w: World, es: seq<Event>): seq<Message>
    requires IsRun(w, es)
    decreases |es|
  {
    if es == [] then []
    else (if es[0].Send? then [Rebuild(w.worker.due[0].submission)] else []) + Sends(Apply(w, es[0]), es[1..])
  }

  lemma SendsCons(w: World, e: Event, es: seq<Event>)
    requires Enabled(w, e) && IsRun(Apply(w, e), es) && IsRun(w, [e] + es)
    ensures Sends(w, [e] + es) == (if e.Send? then [Rebuild(w.worker.due[0].submission)] else []) + Sends(Apply(w, e), es)
  {
    assert ([e] + es)[1..] == es;
    hide Apply;
  }

  /** The clock does not go back: not from now to reading i, nor from there on. */
  ghost predicate Ticking(now: int, clock: nat -> int, i: nat) {
    now <= clock(i) && forall j, k :: i <= j <= k ==> clock(j) <= clock(k)
  }

  function Least(a: nat, b: nat): nat {
    if a < b then a else b
  }

  function Rebuilt(due: seq<DueRetry>, i: nat, n: nat): seq<Message>
    requires i <= n <= |due|
  {
    seq(n - i, k requires 0 <= k < n - i => Rebuild(due[i + k].submission))
  }

  lemma RebuiltNext(due: seq<DueRetry>, i: nat, n: nat)
    requires i < n <= |due|
    ensures Rebuilt(due, i, n) == [Rebuild(due[i].submission)] + Rebuilt(due, i + 1, n)
  {
    hide Rebuild;
  }

  lemma AttemptMovesOn(w: World, outcome: Outcome, now: int, diskOk: bool)
    requires w.worker.Attempting? && w.worker.due != [] && w.worker.answer == None && w.clock <= now
    ensures var sent := SendStep(w, outcome);
            && sent.worker.Attempting? && sent.worker.due != [] && sent.worker.answer == Some(outcome)
            && var w' := RecordOutcomeStep(sent, now, diskOk);
               && w'.db == (if diskOk then FinishTx(w.db, w.worker.due[0].submission.id, outcome, now) else w.db)
               && w'.worker == Begin(w.worker.due[1..]) && w'.clock == now
  {
    hide FinishTx;
    RecordingMovesOn(SendStep(w, outcome), now, diskOk);
    hide RecordOutcomeStep;
  }

  /** One attempt as two steps. */
  lemma AttemptRuns(w: World, outcome: Outcome, now: int, diskOk: bool, rest: seq<Event>)
    requires w.worker.Attempting? && w.worker.due != [] && w.worker.answer == None && w.clock <= now
    requires IsRun(RecordOutcomeStep(SendStep(w, outcome), now, diskOk), rest)
    ensures var es := [Send(outcome)] + ([RecordOutcome(now, diskOk)] + rest);
            var w' := RecordOutcomeStep(SendStep(w, outcome), now, diskOk);
            && IsRun(w, es) && Exec(w, es) == Exec(w', rest)
            && Sends(w, es) == [Rebuild(w.worker.due[0].submission)] + Sends(w', rest)
  {
    var sent := SendStep(w, outcome);
    assert Enabled(w, Send(outcome)) && Enabled(sent, RecordOutcome(now, diskOk));
    assert sent.worker.due == w.worker.due && sent.db == w.db && sent.worker.answer == Some(outcome);
    assert Apply(w, Send(outcome)) == sent && Apply(sent, RecordOutcome(now, diskOk)) == RecordOutcomeStep(sent, now, diskOk);
    hide IsRun, Exec, Sends, Apply, Enabled, SendStep, RecordOutcomeStep, FinishTx, Rebuild;
    RunCons(sent, RecordOutcome(now, diskOk), rest);
    RunCons(w, Send(outcome), [RecordOutcome(now, diskOk)] + rest);
    SendsCons(sent, RecordOutcome(now, diskOk), rest);
    SendsCons(w, Send(outcome), [RecordOutcome(now, diskOk)] + rest);
    assert [] + Sends(RecordOutcomeStep(sent, now, diskOk), rest) == Sends(RecordOutcomeStep(sent, now, diskOk), rest);
  }

  lemma CancelRuns(w: World)
    requires w.worker.Attempting? && w.worker.answer == None
    ensures IsRun(w, [Cancel]) && Exec(w, [Cancel]) == w.(worker := Idle) && Sends(w, [Cancel]) == []
  {
    assert Apply(w, Cancel) == w.(worker := Idle);
    RunCons(w, Cancel, []);
    assert [Cancel] + [] == [Cancel];
    SendsCons(w, Cancel, []);
  }

  lemma {:induction false} AttemptsRun(w: World, claimed: Db, due: seq<DueRetry>, i: nat, until: nat,
                                       answer: nat -> SendResult, clock: nat -> int, disk: nat -> bool)
    requires i <= |due| && i <= until && w.worker == Begin(due[i..]) && Ticking(w.clock, clock, i)
    requires w.db == FinishEach(claimed, due, i, answer, clock, disk)
    ensures var es, n := AttemptEvents(due, i, until, answer, clock, disk), Least(until, |due|);
            && IsRun(w, es) && Exec(w, es).worker == Idle
            && Exec(w, es).db == FinishEach(claimed, due, n, answer, clock, disk)
            && Sends(w, es) == Rebuilt(due, i, n)
    decreases |due| - i
  {
    hide FinishTx, Rebuild, RecordOutcomeStep;
    if i == |due| {
      assert due[i..] == [];
    } else if i == until {
      CancelRuns(w);
    } else {
      hide IsRun, Exec, Sends, SendStep, Classify, Rebuilt;
      assert due[i..][1..] == due[i + 1..] && due[i..][0] == due[i];
      var outcome := Classify(answer(i));
      var w' := RecordOutcomeStep(SendStep(w, outcome), clock(i), disk(i));
      AttemptMovesOn(w, outcome, clock(i), disk(i));
      AttemptsRun(w', claimed, due, i + 1, until, answer, clock, disk);
      var rest, n := AttemptEvents(due, i + 1, until, answer, clock, disk), Least(until, |due|);
      AttemptRuns(w, outcome, clock(i), disk(i), rest);
      RebuiltNext(due, i, n);
    }
  }

  // ---- the whole poll -------------------------------------------------------

  lemma {:induction false} RunConcat(w: World, a: seq<Event>, b: seq<Event>)
    requires IsRun(w, a) && IsRun(Exec(w, a), b)
    ensures IsRun(w, a + b) && Exec(w, a + b) == Exec(Exec(w, a), b)
    decreases |a|
  {
    hide Apply, Enabled;
    if a == [] {
      assert a + b == b;
    } else {
      RunConcat(Apply(w, a[0]), a[1..], b);
      assert (a + b)[0] == a[0] && (a + b)[1..] == a[1..] + b;
    }
  }

  lemma {:induction false} SendsConcat(w: World, a: seq<Event>, b: seq<Event>)
    requires IsRun(w, a) && IsRun(Exec(w, a), b) && IsRun(w, a + b)
    ensures Sends(w, a + b) == Sends(w, a) + Sends(Exec(w, a), b)
    decreases |a|
  {
    hide Apply, Enabled, Rebuild;
    if a == [] {
      assert a + b == b;
    } else {
      assert (a + b)[0] == a[0] && (a + b)[1..] == a[1..] + b;
      SendsConcat(Apply(w, a[0]), a[1..], b);
    }
  }

  /** The events of a poll that selected `ids`. */
  ghost function PollEvents(w: World, now: int, limit: nat, ids: seq<Id>, claimDisk: nat -> bool, until: nat,
                            answer: nat -> SendResult, clock: nat -> int, disk: nat -> bool): seq<Event>
    requires IsDueSelection(w.db.queue, Unix(now), limit, ids)
  {
    var due := ClaimEach(w.db, ids, AttemptsOf(w.db.queue, ids), [], claimDisk, 1).due;
    [Poll(now, limit, ids)]
    + (ClaimEvents(PollStep(w, now, limit, ids), claimDisk, 1) + AttemptEvents(due, 0, until, answer, clock, disk))
  }

  /** A claim sends nothing. */
  lemma {:induction false} ClaimsSendNothing(w: World, disk: nat -> bool, at: nat)
    requires w.worker.Claiming? && w.worker.read == None && IsRun(w, ClaimEvents(w, disk, at))
    ensures forall e :: e in ClaimEvents(w, disk, at) ==> !e.Send?
    decreases |w.worker.todo|
  {
    if w.worker.todo != [] && disk(at) {
      if w.worker.todo[0].id !in w.db.submissions {
        ClaimDueRunsProtocol(ClaimReadStep(w, true, disk(at + 1)), disk, at + 2);
        ClaimsSendNothing(ClaimReadStep(w, true, disk(at + 1)), disk, at + 2);
      } else if disk(at + 1) {
        ClaimDueRunsProtocol(ClaimMarkStep(ClaimReadStep(w, true, true), true), disk, at + 2);
        ClaimsSendNothing(ClaimMarkStep(ClaimReadStep(w, true, true), true), disk, at + 2);
      }
    }
  }

  lemma {:induction false} NoSends(w: World, es: seq<Event>)
    requires IsRun(w, es) && forall e :: e in es ==> !e.Send?
    ensures Sends(w, es) == []
    decreases |es|
  {
    if es != [] {
      assert es[0] in es && forall e :: e in es[1..] ==> e in es;
      hide Apply, Enabled;
      NoSends(Apply(w, es[0]), es[1..]);
    }
  }

  /** A poll whose selection succeeds, from an idle worker under a clock that does not go
      back: its claim, its attempts and its cancellation are a run of the protocol that
      ends with an idle worker, in the tables the worker's loop computes, having sent the
      messages it sends. */
  lemma ProcessDueRunsProtocol(w: World, now: int, limit: nat, ids: seq<Id>, claimDisk: nat -> bool, until: nat,
                               answer: nat -> SendResult, clock: nat -> int, disk: nat -> bool)
    requires w.mode == Up && w.worker == Idle && w.clock <= now && Ticking(now, clock, 0)
    requires IsDueSelection(w.db.queue, Unix(now), limit, ids)
    ensures var r := ClaimEach(w.db, ids, AttemptsOf(w.db.queue, ids), [], claimDisk, 1);
            var es, n := PollEvents(w, now, limit, ids, claimDisk, until, answer, clock, disk), Least(until, |r.due|);
            && IsRun(w, es) && Exec(w, es).worker == Idle
            && Exec(w, es).db == FinishEach(r.db, r.due, n, answer, clock, disk)
            && Sends(w, es) == Rebuilt(r.due, 0, n)
  {
    var polled := PollStep(w, now, limit, ids);
    var r := ClaimEach(w.db, ids, AttemptsOf(w.db.queue, ids), [], claimDisk, 1);
    var claim, attempts := ClaimEvents(polled, claimDisk, 1), AttemptEvents(r.due, 0, until, answer, clock, disk);
    assert ClaimIds(polled.worker.todo) == ids && ClaimAttempts(polled.worker.todo) == AttemptsOf(w.db.queue, ids);
    assert Enabled(w, Poll(now, limit, ids)) && Apply(w, Poll(now, limit, ids)) == polled;
    ClaimDueRunsProtocol(polled, claimDisk, 1);
    ClaimsSendNothing(polled, claimDisk, 1);
    hide ClaimEach, ClaimEvents, AttemptEvents, IsDueSelection, IsRun, Exec, Sends, Apply, Enabled, PollStep;
    NoSends(polled, claim);
    var claimed := polled.(db := r.db, worker := Begin(r.due));
    assert r.due[0..] == r.due;
    AttemptsRun(claimed, r.db, r.due, 0, until, answer, clock, disk);
    RunConcat(polled, claim, attempts);
    SendsConcat(polled, claim, attempts);
    RunCons(w, Poll(now, limit, ids), claim + attempts);
    SendsCons(w, Poll(now, limit, ids), claim + attempts);
  }
}
