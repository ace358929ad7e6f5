/**
 The storage layer as an object. Each method runs its SQL statements in order on the
 tables it owns; `diskOk` says whether the engine commits them. A transaction that
 does not commit leaves the tables as they were.
 */
module Storage {
  import opened Basics
  import opened Collections
  import opened Clock
  import opened Mail
  import opened Tables
  import opened Suppressions

  datatype DueRetry = DueRetry(submission: Submission, attempt: nat)

  /** What a poll gets: the rows in hand, and whether the claim ran to its end. */
  datatype ClaimResult = ClaimResult(db: Db, due: seq<DueRetry>, ok: bool)

  datatype Suppression = Suppression(email: string, reason: string, sourceEndpoint: string, createdAt: int)

  /** The claim loop over the selected entries. Statement `at` onwards are its own;
      `disk(i)` says whether the i-th statement of the call succeeds. */
  function ClaimEach(db: Db, ids: seq<Id>, attempts: seq<nat>, due: seq<DueRetry>, disk: nat -> bool, at: nat): ClaimResult
    requires |ids| == |attempts|
    decreases |ids|
  {
    if ids == [] then ClaimResult(db, due, true)
    else if !disk(at) then ClaimResult(db, due, false)
    else if ids[0] !in db.submissions then
      ClaimEach(if disk(at + 1) then DropQueueRow(db, ids[0]) else db, ids[1..], attempts[1..], due, disk, at + 2)
    else if !disk(at + 1) then ClaimResult(db, due, false)
    else
      var row := db.submissions[ids[0]];
      ClaimEach(SetStatus(db, ids[0], Sending, row.lastError), ids[1..], attempts[1..],
                due + [DueRetry(row.(status := Sending), attempts[0])], disk, at + 2)
  }

  /** SQLite reads a negative LIMIT as no limit. */
  function EffectiveLimit(limit: int, rows: nat): nat {
    if limit < 0 then rows else limit
  }

  /** The earliest rows of `all` have been taken into `ids`, in order; `rest` is left. */
  ghost predicate IsPrefixOfSelection(queue: map<Id, QueueRow>, all: set<Id>, ids: seq<Id>, rest: set<Id>) {
    && all <= queue.Keys && rest <= all && |all| == |rest| + |ids|
    && (forall i :: 0 <= i < |ids| ==> ids[i] in all && ids[i] !in rest)
    && (forall id :: id in all && id !in rest ==> id in ids)
    && (forall i, j :: 0 <= i < j < |ids| ==> ids[i] != ids[j])
    && (forall i, j :: 0 <= i < j < |ids| ==> queue[ids[i]].nextAttemptAt <= queue[ids[j]].nextAttemptAt)
    && (forall i, id :: 0 <= i < |ids| && id in rest ==> queue[ids[i]].nextAttemptAt <= queue[id].nextAttemptAt)
  }

  lemma PickEarliest(queue: map<Id, QueueRow>, all: set<Id>, ids: seq<Id>, rest: set<Id>, next: Id)
    requires IsPrefixOfSelection(queue, all, ids, rest)
    requires next in rest && forall id :: id in rest ==> queue[next].nextAttemptAt <= queue[id].nextAttemptAt
    ensures IsPrefixOfSelection(queue, all, ids + [next], rest - {next})
  {
    forall id | id in all && id !in rest - {next} ensures id in ids + [next] {
      if id != next { assert id in ids; }
    }
  }

  /** SELECT ... WHERE next_attempt_at <= now ORDER BY next_attempt_at LIMIT limit, taking
      the earliest remaining row until the limit is met. Ties are broken arbitrarily. A
      negative limit is none. */
  method SelectDue(queue: map<Id, QueueRow>, nowSec: int, limit: int) returns (ids: seq<Id>)
    ensures IsDueSelection(queue, nowSec, EffectiveLimit(limit, |DueIds(queue, nowSec)|), ids)
  {
    ids := [];
    var rest := DueIds(queue, nowSec);
    var cap := EffectiveLimit(limit, |rest|);
    while |ids| < cap && rest != {}
      invariant |ids| <= cap && IsPrefixOfSelection(queue, DueIds(queue, nowSec), ids, rest)
      decreases |rest|
    {
      EarliestExists(queue, rest);
      var next :| next in rest && forall id :: id in rest ==> queue[next].nextAttemptAt <= queue[id].nextAttemptAt;
      PickEarliest(queue, DueIds(queue, nowSec), ids, rest, next);
      ids := ids + [next];
      rest := rest - {next};
    }
  }

  /** What such a selection holds: due rows, earliest first and none twice, no more than the
      limit; all of them below the limit, and otherwise none later than one left out. */
  lemma SelectionMeans(queue: map<Id, QueueRow>, nowSec: int, limit: int, ids: seq<Id>)
    requires IsDueSelection(queue, nowSec, EffectiveLimit(limit, |DueIds(queue, nowSec)|), ids)
    ensures forall i, j :: 0 <= i < j < |ids| ==> ids[i] != ids[j]
    ensures forall i :: 0 <= i < |ids| ==> ids[i] in queue && queue[ids[i]].nextAttemptAt <= nowSec
    ensures forall i, j :: 0 <= i < j < |ids| ==> queue[ids[i]].nextAttemptAt <= queue[ids[j]].nextAttemptAt
    ensures forall id, i :: id in queue && queue[id].nextAttemptAt <= nowSec && id !in ids && 0 <= i < |ids| ==>
              queue[ids[i]].nextAttemptAt <= queue[id].nextAttemptAt
    ensures limit >= 0 ==> |ids| <= limit
    ensures limit < 0 || |ids| < limit ==> forall id :: id in queue && queue[id].nextAttemptAt <= nowSec ==> id in ids
  {
    forall id | id in queue && queue[id].nextAttemptAt <= nowSec ensures id in DueIds(queue, nowSec) {}
    if limit < 0 || |ids| < limit {
      var taken := Elems(ids);
      DistinctSize(ids);
      assert taken <= DueIds(queue, nowSec);
      if taken != DueIds(queue, nowSec) { SubsetSize(taken + {MissingFrom(taken, DueIds(queue, nowSec))}, DueIds(queue, nowSec)); }
    }
  }

  ghost function MissingFrom(a: set<Id>, b: set<Id>): (x: Id)
    requires a < b
    ensures x in b && x !in a
  {
    var x :| x in b && x !in a;
    x
  }

  /** What a lookup by the provider's message id may return: the latest row that carries it. */
  ghost predicate IsFound(db: Db, messageID: string, found: Option<Submission>) {
    match found
    case None => messageID == "" || forall id :: id in db.submissions ==> db.submissions[id].messageID != messageID
    case Some(row) =>
      && messageID != "" && row.messageID == messageID
      && (exists id :: id in db.submissions && db.submissions[id] == row)
      && forall id :: id in db.submissions && db.submissions[id].messageID == messageID ==> db.submissions[id].createdAt <= row.createdAt
  }

  class Store {
    var submissions: map<Id, Submission>
    var queue: map<Id, QueueRow>
    var suppressions: map<(string, string), SuppressionRow>

    function Contents(): Db
      reads this
    {
      Db(submissions, queue, suppressions)
    }

    constructor ()
      ensures Contents() == Db(map[], map[], map[])
    {
      submissions, queue, suppressions := map[], map[], map[];
    }

    method RecordSubmission(row: Submission, diskOk: bool) returns (ok: bool)
      modifies this
      ensures ok == (diskOk && row.id !in old(submissions))
      ensures Contents() == if ok then InsertSubmission(old(Contents()), row) else old(Contents())
    {
      ok := diskOk && row.id !in submissions;
      if ok {
        submissions := submissions[row.id := row];
      }
    }

    method MarkStatus(id: Id, status: Status, lastError: string, diskOk: bool) returns (ok: bool)
      modifies this
      ensures ok == diskOk
      ensures Contents() == if ok then SetStatus(old(Contents()), id, status, lastError) else old(Contents())
    {
      ok := diskOk;
      if ok && id in submissions {
        submissions := submissions[id := submissions[id].(status := status, lastError := lastError)];
      }
    }

    method MarkSent(id: Id, messageID: string, at: int, diskOk: bool) returns (ok: bool)
      modifies this
      ensures ok == diskOk
      ensures Contents() == if ok then MarkSentTx(old(Contents()), id, messageID, at) else old(Contents())
    {
      ok := diskOk;
      if ok {
        if id in submissions {
          submissions := submissions[id := submissions[id].(status := Sent, messageID := messageID,
                                                            sentAt := Some(Unix(at)), lastError := "")];
        }
        queue := queue - {id};
      }
    }

    method Enqueue(id: Id, now: int, diskOk: bool) returns (ok: bool)
      modifies this
      ensures ok == (diskOk && old(CanEnqueue(Contents(), id)))
      ensures Contents() == if ok then EnqueueTx(old(Contents()), id, now) else old(Contents())
    {
      // The foreign key refuses a queue row whose submission does not exist.
      if !diskOk || (id !in queue && id !in submissions) {
        return false;
      }
      if id !in queue {
        queue := queue[id := QueueRow(0, Unix(now + RETRY_BACKOFF[0] * SECOND))];
      }
      if id in submissions {
        submissions := submissions[id := submissions[id].(status := Queued)];
      }
      return true;
    }

    method DeadLetter(id: Id, lastError: string, diskOk: bool) returns (ok: bool)
      modifies this
      ensures ok == diskOk
      ensures Contents() == if ok then DeadLetterTx(old(Contents()), id, lastError) else old(Contents())
    {
      ok := diskOk;
      if ok {
        queue := queue - {id};
        if id in submissions {
          submissions := submissions[id := submissions[id].(status := Failed, lastError := lastError)];
        }
      }
    }

    method RecordRetryFailure(id: Id, lastError: string, now: int, diskOk: bool)
      returns (deadLettered: bool, ok: bool)
      modifies this
      ensures ok == (diskOk && id in old(queue))
      ensures Contents() == if ok then RetryFailureTx(old(Contents()), id, lastError, now) else old(Contents())
      ensures ok ==> (deadLettered <==> old(queue)[id].attempt + 1 >= MAX_ATTEMPTS)
      ensures ok ==> (deadLettered <==> id !in queue)
    {
      if !diskOk || id !in queue {
        return false, false;
      }
      var attempt := queue[id].attempt + 1;
      if attempt >= MAX_ATTEMPTS {
        deadLettered := true;
        queue := queue - {id};
        if id in submissions {
          submissions := submissions[id := submissions[id].(status := Failed, lastError := lastError)];
        }
      } else {
        deadLettered := false;
        queue := queue[id := QueueRow(attempt, Unix(now + RETRY_BACKOFF[attempt] * SECOND))];
        if id in submissions {
          submissions := submissions[id := submissions[id].(status := Queued, lastError := lastError)];
        }
      }
      ok := true;
    }

    method Prune(cutoff: int, diskOk: bool) returns (ok: bool)
      modifies this
      ensures ok == diskOk
      ensures Contents() == if ok then PruneTx(old(Contents()), cutoff) else old(Contents())
    {
      ok := diskOk;
      if ok {
        var doomed := set id | id in submissions && Prunable(submissions[id], cutoff);
        submissions := submissions - doomed;
        queue := queue - doomed;
      }
    }

    /** SELECT ... WHERE transport_message_id = ? ORDER BY created_at DESC LIMIT 1: correlates a
        provider's event with its submission. */
    method FindByMessageID(messageID: string, diskOk: bool) returns (found: Option<Submission>, ok: bool)
      ensures ok == (messageID == "" || diskOk)
      ensures ok ==> IsFound(Contents(), messageID, found)
      ensures !ok ==> found.None?
    {
      if messageID == "" { return None, true; }
      if !diskOk { return None, false; }
      var rest := set id | id in submissions && submissions[id].messageID == messageID;
      if rest == {} {
        assert forall id :: id in submissions && submissions[id].messageID == messageID ==> id in rest;
        return None, true;
      }
      var best :| best in rest;
      var all := rest;
      while rest != {}
        invariant rest <= all && best in all
        invariant forall id :: id in all && id !in rest ==> submissions[id].createdAt <= submissions[best].createdAt
        decreases |rest|
      {
        var id :| id in rest;
        if submissions[id].createdAt >= submissions[best].createdAt { best := id; }
        rest := rest - {id};
      }
      return Some(submissions[best]), true;
    }

    /** An empty address is an error; a row that is there already is not touched. */
    method AddSuppression(email: string, reason: string, sourceEndpoint: string, at: int, diskOk: bool) returns (ok: bool)
      modifies this
      ensures ok == (diskOk && NormalizeEmail(email) != [])
      ensures Contents() == ApplyChange(old(Contents()), Add(email, reason, sourceEndpoint, at, diskOk))
    {
      var address := NormalizeEmail(email);
      if address == [] || !diskOk { return false; }
      if (address, reason) !in suppressions {
        suppressions := suppressions[(address, reason) := SuppressionRow(sourceEndpoint, Unix(at))];
      }
      return true;
    }

    /** The row that is reported for an address: the earliest, by reason if there is a tie. */
    method SuppressionFor(email: string, diskOk: bool) returns (found: Option<Suppression>, ok: bool)
      ensures ok == diskOk
      ensures ok ==> (found.Some? <==> IsSuppressed(Contents(), email))
      ensures !ok ==> found.None?
      ensures found.Some? ==>
                && SameAddress(found.value.email, email) && found.value.email == NormalizeEmail(email)
                && var key := (found.value.email, found.value.reason);
                   && key in suppressions
                   && suppressions[key] == SuppressionRow(found.value.sourceEndpoint, found.value.createdAt)
                   && forall k :: k in suppressions && k.0 == key.0 ==>
                                    && found.value.createdAt <= suppressions[k].createdAt
                                    && (found.value.createdAt == suppressions[k].createdAt ==> TextLe(found.value.reason, k.1))
    {
      if !diskOk { return None, false; }
      hide NormalizeEmail, SameAddress, IsSuppressed, NotAfter, TextLe, RowsFor;
      var keys := RowsFor(Contents(), email);
      RowsDecide(Contents(), email);
      if keys == {} { return None, true; }
      assert keys <= suppressions.Keys by { RowsAreThere(Contents(), email); }
      EarliestRowExists(Contents(), keys);
      var e :| e in keys && forall k :: k in keys ==> NotAfter(Contents(), e, k);
      ReportsEarliest(Contents(), email, e);
      return Some(Suppression(e.0, e.1, suppressions[e].sourceEndpoint, suppressions[e].createdAt)), true;
    }

    /** Deletes the rows of an address under every reason, and counts them. */
    method RemoveSuppression(email: string, diskOk: bool) returns (removed: nat, ok: bool)
      modifies this
      ensures ok == diskOk
      ensures Contents() == ApplyChange(old(Contents()), Remove(email, diskOk))
      ensures removed == if ok then |old(suppressions)| - |suppressions| else 0
    {
      if !diskOk { return 0, false; }
      var keys := RowsFor(Contents(), email);
      SizeWithout(suppressions, keys);
      suppressions := suppressions - keys;
      return |keys|, true;
    }

    /** Run by Open on every start. The two statements commit separately. */
    method RecoverInFlight(insertOk: bool, updateOk: bool) returns (ok: bool)
      modifies this
      ensures ok == (insertOk && updateOk)
      ensures Contents() == if !insertOk then old(Contents())
                            else if !updateOk then RecoverInsert(old(Contents()))
                            else Recover(old(Contents()))
      ensures ok ==> Recovered(old(Contents()), Contents())
    {
      if !insertOk { return false; }
      queue := queue + map id | id in submissions && submissions[id].status == Sending && id !in queue :: QueueRow(0, 0);
      if !updateOk { return false; }
      submissions := map id | id in submissions ::
        if submissions[id].status == Sending then submissions[id].(status := Queued) else submissions[id];
      RecoverMeetsSpec(old(Contents()));
      return true;
    }

    /** Claims up to `limit` due rows and marks them sending. Entries are read and
        marked one at a time; the first failing statement ends the claim early with
        the rows already in hand. */
    method ClaimDue(now: int, limit: int, disk: nat -> bool) returns (due: seq<DueRetry>, ok: bool, ghost ids: seq<Id>)
      modifies this`submissions, this`queue
      ensures !disk(0) ==> !ok && due == [] && Contents() == old(Contents())
      ensures disk(0) ==>
                && IsDueSelection(old(queue), Unix(now), EffectiveLimit(limit, |DueIds(old(queue), Unix(now))|), ids)
                && ClaimResult(Contents(), due, ok)
                   == ClaimEach(old(Contents()), ids, AttemptsOf(old(queue), ids), [], disk, 1)
    {
      hide ClaimEach, IsDueSelection, DueIds;
      due, ids := [], [];
      if !disk(0) {
        return due, false, ids;
      }
      var entries := SelectDue(queue, Unix(now), limit);
      ids := entries;
      DueAreQueued(queue, Unix(now), EffectiveLimit(limit, |DueIds(queue, Unix(now))|), ids);
      var attempts := AttemptsOf(queue, entries);
      var at, i := 1, 0;
      while i < |entries|
        invariant 0 <= i <= |entries| && |entries| == |attempts|
        invariant ClaimEach(old(Contents()), entries, attempts, [], disk, 1)
                  == ClaimEach(Contents(), entries[i..], attempts[i..], due, disk, at)
      {
        var id := entries[i];
        ClaimUnfolds(Contents(), entries, attempts, due, disk, at, i);
        if !disk(at) {
          return due, false, ids;
        }
        if id !in submissions {
          if disk(at + 1) { queue := queue - {id}; }
        } else {
          var row := submissions[id];
          if !disk(at + 1) {
            return due, false, ids;
          }
          submissions := submissions[id := row.(status := Sending, lastError := row.lastError)];
          due := due + [DueRetry(row.(status := Sending), attempts[i])];
        }
        at := at + 2;
        i := i + 1;
      }
      ClaimEnds(Contents(), entries, attempts, due, disk, at);
      ok := true;
    }
  }

  // ---- the storage gate -----------------------------------------------------

  /** A store with its degrade switch. A failed live write turns it off; only the
      periodic probe, not modelled here, turns it on again. */
  class Gate {
    const store: Store
    var healthy: bool

    constructor (store: Store)
      ensures this.store == store && healthy
    {
      this.store, healthy := store, true;
    }

    method ReportError()
      modifies this
      ensures !healthy
    {
      healthy := false;
    }
  }

  function AttemptsOf(queue: map<Id, QueueRow>, ids: seq<Id>): seq<nat>
    requires forall i :: 0 <= i < |ids| ==> ids[i] in queue
  {
    seq(|ids|, i requires 0 <= i < |ids| => queue[ids[i]].attempt)
  }

  lemma {:induction false} EarliestExists(queue: map<Id, QueueRow>, ids: set<Id>)
    requires ids != {} && ids <= queue.Keys
    ensures exists e :: e in ids && forall id :: id in ids ==> queue[e].nextAttemptAt <= queue[id].nextAttemptAt
    decreases ids
  {
    var some :| some in ids;
    var rest := ids - {some};
    if rest == {} {
      assert ids == {some};
    } else {
      EarliestExists(queue, rest);
      var e :| e in rest && forall id :: id in rest ==> queue[e].nextAttemptAt <= queue[id].nextAttemptAt;
      var best := if queue[some].nextAttemptAt <= queue[e].nextAttemptAt then some else e;
      assert forall id :: id in ids ==> id == some || id in rest;
      assert best in ids && forall id :: id in ids ==> queue[best].nextAttemptAt <= queue[id].nextAttemptAt;
    }
  }

  // ---- what a claim does ----------------------------------------------------

  /** The submission log with the first n selected rows marked sending. */
  function Marked(submissions: map<Id, Submission>, ids: seq<Id>, n: nat): map<Id, Submission>
    requires n <= |ids|
  {
    map id | id in submissions :: if id in ids[..n] then submissions[id].(status := Sending) else submissions[id]
  }

  /** With every selected row present, as the foreign key ensures, a claim takes a prefix
      of the selection whatever fails: those rows are marked sending and handed over
      unchanged otherwise, the retry queue is untouched, and the claim reports success
      exactly when the prefix is the whole selection. */
  lemma {:induction false} ClaimMarksPrefix(db: Db, ids: seq<Id>, attempts: seq<nat>, disk: nat -> bool, at: nat, done: nat, due: seq<DueRetry>)
    requires Distinct(ids) && |attempts| == |ids| && done == |due| <= |ids|
    requires forall i :: 0 <= i < |ids| ==> ids[i] in db.submissions
    requires forall i :: 0 <= i < done ==> due[i] == DueRetry(db.submissions[ids[i]].(status := Sending), attempts[i])
    ensures var r := ClaimEach(db.(submissions := Marked(db.submissions, ids, done)), ids[done..], attempts[done..], due, disk, at);
            && done <= |r.due| <= |ids|
            && (r.ok <==> |r.due| == |ids|)
            && (forall i :: 0 <= i < |r.due| ==> r.due[i] == DueRetry(db.submissions[ids[i]].(status := Sending), attempts[i]))
            && r.db == db.(submissions := Marked(db.submissions, ids, |r.due|))
    decreases |ids| - done
  {
    hide Marked, ClaimEach;
    if done == |ids| {
      ClaimEnds(db.(submissions := Marked(db.submissions, ids, done)), ids, attempts, due, disk, at);
    } else {
      ClaimNext(db, ids, attempts, disk, at, done, due);
      if disk(at) && disk(at + 1) {
        ClaimMarksPrefix(db, ids, attempts, disk, at + 2, done + 1, due + [DueRetry(db.submissions[ids[done]].(status := Sending), attempts[done])]);
      }
    }
  }

  lemma DueAreQueued(queue: map<Id, QueueRow>, nowSec: int, limit: nat, ids: seq<Id>)
    requires IsDueSelection(queue, nowSec, limit, ids)
    ensures forall i :: 0 <= i < |ids| ==> ids[i] in queue
  {
  }

  lemma ClaimUnfolds(db: Db, ids: seq<Id>, attempts: seq<nat>, due: seq<DueRetry>, disk: nat -> bool, at: nat, i: nat)
    requires |attempts| == |ids| && i < |ids|
    ensures var id := ids[i];
            ClaimEach(db, ids[i..], attempts[i..], due, disk, at)
            == if !disk(at) then ClaimResult(db, due, false)
               else if id !in db.submissions then
                 ClaimEach(if disk(at + 1) then DropQueueRow(db, id) else db, ids[i + 1..], attempts[i + 1..], due, disk, at + 2)
               else if !disk(at + 1) then ClaimResult(db, due, false)
               else ClaimEach(SetStatus(db, id, Sending, db.submissions[id].lastError), ids[i + 1..], attempts[i + 1..],
                              due + [DueRetry(db.submissions[id].(status := Sending), attempts[i])], disk, at + 2)
  {
    hide SetStatus, DropQueueRow;
    assert ids[i..][1..] == ids[i + 1..] && attempts[i..][1..] == attempts[i + 1..];
    assert ids[i..][0] == ids[i] && attempts[i..][0] == attempts[i];
  }

  lemma ClaimEnds(db: Db, ids: seq<Id>, attempts: seq<nat>, due: seq<DueRetry>, disk: nat -> bool, at: nat)
    requires |attempts| == |ids|
    ensures ClaimEach(db, ids[|ids|..], attempts[|ids|..], due, disk, at) == ClaimResult(db, due, true)
  {
  }

  /** One entry: marked and handed over if both statements succeed, the end of the claim otherwise. */
  lemma ClaimNext(db: Db, ids: seq<Id>, attempts: seq<nat>, disk: nat -> bool, at: nat, done: nat, due: seq<DueRetry>)
    requires Distinct(ids) && |attempts| == |ids| && done < |ids| && ids[done] in db.submissions
    ensures var marked := db.(submissions := Marked(db.submissions, ids, done));
            ClaimEach(marked, ids[done..], attempts[done..], due, disk, at)
            == if !disk(at) || !disk(at + 1) then ClaimResult(marked, due, false)
               else ClaimEach(db.(submissions := Marked(db.submissions, ids, done + 1)), ids[done + 1..], attempts[done + 1..],
                              due + [DueRetry(db.submissions[ids[done]].(status := Sending), attempts[done])], disk, at + 2)
  {
    hide Marked, SetStatus, DropQueueRow, ClaimEach;
    MarkNext(db, ids, done);
    ClaimUnfolds(db.(submissions := Marked(db.submissions, ids, done)), ids, attempts, due, disk, at, done);
  }

  lemma MarkNext(db: Db, ids: seq<Id>, done: nat)
    requires Distinct(ids) && done < |ids| && ids[done] in db.submissions
    ensures ids[done] in Marked(db.submissions, ids, done) && Marked(db.submissions, ids, done)[ids[done]] == db.submissions[ids[done]]
    ensures SetStatus(db.(submissions := Marked(db.submissions, ids, done)), ids[done], Sending, db.submissions[ids[done]].lastError)
            == db.(submissions := Marked(db.submissions, ids, done + 1))
  {
    var id, now := ids[done], Marked(db.submissions, ids, done);
    assert id !in ids[..done];
    assert ids[..done + 1] == ids[..done] + [id];
    assert now[id := now[id].(status := Sending, lastError := db.submissions[id].lastError)]
           == Marked(db.submissions, ids, done + 1);
  }
}
