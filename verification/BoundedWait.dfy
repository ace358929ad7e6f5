/**
 No due row waits behind the others forever. Polls, recorded outcomes and new arrivals
 interleave freely under a clock that does not go back; every poll's outcomes are
 recorded before the next poll. Only the retry queue matters here.
 */
module BoundedWait {
  import opened Collections
  import opened Clock
  import opened Mail
  import opened Tables
  import opened Transport
  import opened RetryWorker

  type Rows = map<Id, QueueRow>

  datatype Act =
    | Select(now: int, ids: seq<Id>)               // one poll of the worker
    | Finish(id: Id, outcome: Outcome, now: int)   // a claimed row's outcome is recorded
    | Arrive(id: Id, now: int)                     // an ingress enqueues

  /** `open` holds the rows claimed by the last poll whose outcome is still to come. */
  datatype State = State(rows: Rows, clock: int, open: set<Id>)

  function FinishRow(rows: Rows, id: Id, outcome: Outcome, now: int): Rows {
    if outcome.Retryable? && id in rows && rows[id].attempt + 1 < MAX_ATTEMPTS then
      var k := rows[id].attempt + 1;
      rows[id := QueueRow(k, Unix(now + RETRY_BACKOFF[k] * SECOND))]
    else rows - {id}
  }

  function ArriveRow(rows: Rows, id: Id, now: int): Rows {
    if id in rows then rows else rows[id := QueueRow(0, Unix(now + RETRY_BACKOFF[0] * SECOND))]
  }

  /** These are the queue's share of the transactions the store runs. */
  lemma RowsFollowStore(db: Db, id: Id, outcome: Outcome, now: int)
    ensures FinishTx(db, id, outcome, now).queue == FinishRow(db.queue, id, outcome, now)
    ensures CanEnqueue(db, id) ==> EnqueueTx(db, id, now).queue == ArriveRow(db.queue, id, now)
  {
    if id !in db.queue {
      assert db.queue - {id} == db.queue;
    }
  }

  ghost predicate Enabled(s: State, a: Act, limit: nat) {
    && s.clock <= a.now
    && match a
       case Select(now, ids) => s.open == {} && IsDueSelection(s.rows, Unix(now), limit, ids)
       case Finish(id, _, _) => id in s.open
       case Arrive(_, _) => true
  }

  function Apply(s: State, a: Act): State {
    match a
    case Select(now, ids) => State(s.rows, now, Elems(ids))
    case Finish(id, outcome, now) => State(FinishRow(s.rows, id, outcome, now), now, s.open - {id})
    case Arrive(id, now) => State(ArriveRow(s.rows, id, now), now, s.open)
  }

  ghost predicate IsRun(s: State, acts: seq<Act>, limit: nat)
    decreases |acts|
  {
    acts == [] || (Enabled(s, acts[0], limit) && IsRun(Apply(s, acts[0]), acts[1..], limit))
  }

  function Polls(acts: seq<Act>): nat {
    if acts == [] then 0 else (if acts[0].Select? then 1 else 0) + Polls(acts[1..])
  }

  ghost predicate Claimed(acts: seq<Act>, id: Id) {
    exists a :: a in acts && a.Select? && id in a.ids
  }

  /** The other rows due no later than this one. */
  function Ahead(rows: Rows, id: Id): set<Id>
    requires id in rows
  {
    set x | x in rows && x != id && rows[x].nextAttemptAt <= rows[id].nextAttemptAt
  }

  /** A poll that passes over a due row takes a full batch of rows ahead of it. */
  lemma PollTakesFromAhead(s: State, now: int, ids: seq<Id>, limit: nat, id: Id)
    requires id in s.rows && s.rows[id].nextAttemptAt <= Unix(now)
    requires IsDueSelection(s.rows, Unix(now), limit, ids) && id !in ids
    ensures Elems(ids) <= Ahead(s.rows, id)
    ensures |Elems(ids)| == limit
  {
    DistinctSize(ids);
    var due := DueIds(s.rows, Unix(now));
    assert id in due;
    forall x | x in ids ensures x in Ahead(s.rows, id) {
      var i :| 0 <= i < |ids| && ids[i] == x;
      assert s.rows[ids[i]].nextAttemptAt <= s.rows[id].nextAttemptAt;
    }
    assert |due - {id}| == |due| - 1;
    SubsetSize(Elems(ids), due - {id});
  }

  /** What lands in the queue after a moment is due strictly after that moment. */
  lemma LandsLater(now: int, k: nat)
    requires k < MAX_ATTEMPTS
    ensures Unix(now) < Unix(now + RETRY_BACKOFF[k] * SECOND)
  {
    UnixShift(now, RETRY_BACKOFF[k]);
  }

  /** A step other than a poll neither touches a waiting row nor puts anything ahead of it. */
  lemma NothingOvertakes(s: State, a: Act, limit: nat, id: Id)
    requires Enabled(s, a, limit) && !a.Select?
    requires id in s.rows && id !in s.open && s.rows[id].nextAttemptAt <= Unix(s.clock)
    ensures var t := Apply(s, a);
            && id in t.rows && t.rows[id] == s.rows[id] && id !in t.open
            && Ahead(t.rows, id) - t.open == Ahead(s.rows, id) - s.open
  {
    UnixMonotone(s.clock, a.now);
    LandsLater(a.now, 0);
    if a.Finish? && a.id in s.rows && s.rows[a.id].attempt + 1 < MAX_ATTEMPTS {
      LandsLater(a.now, s.rows[a.id].attempt + 1);
    }
  }

  /** As long as a due row is passed over, every poll uses up a full batch of the rows
      ahead of it, and nothing ever joins them. */
  lemma {:induction false} PassedOverBound(s: State, acts: seq<Act>, limit: nat, id: Id)
    requires IsRun(s, acts, limit) && !Claimed(acts, id)
    requires id in s.rows && id !in s.open && s.rows[id].nextAttemptAt <= Unix(s.clock)
    ensures Polls(acts) * limit <= |Ahead(s.rows, id) - s.open|
    decreases |acts|
  {
    if acts != [] {
      var a, t := acts[0], Apply(s, acts[0]);
      StillUnclaimed(acts, id);
      if a.Select? {
        PassedOverOnce(s, a, limit, id);
        PassedOverBound(t, acts[1..], limit, id);
        OneMore(Polls(acts[1..]), limit);
      } else {
        UnixMonotone(s.clock, a.now);
        NothingOvertakes(s, a, limit, id);
        PassedOverBound(t, acts[1..], limit, id);
      }
    }
  }

  lemma StillUnclaimed(acts: seq<Act>, id: Id)
    requires acts != [] && !Claimed(acts, id)
    ensures !Claimed(acts[1..], id)
    ensures acts[0].Select? ==> id !in acts[0].ids
  {
    assert acts[0] in acts;
    assert forall b :: b in acts[1..] ==> b in acts;
  }

  lemma PassedOverOnce(s: State, a: Act, limit: nat, id: Id)
    requires Enabled(s, a, limit) && a.Select? && id !in a.ids
    requires id in s.rows && s.rows[id].nextAttemptAt <= Unix(s.clock)
    ensures s.rows[id].nextAttemptAt <= Unix(a.now)
    ensures |Ahead(s.rows, id) - Apply(s, a).open| + limit == |Ahead(s.rows, id) - s.open|
  {
    UnixMonotone(s.clock, a.now);
    PollTakesFromAhead(s, a.now, a.ids, limit, id);
    assert Ahead(s.rows, id) - s.open == Ahead(s.rows, id);
    assert |Ahead(s.rows, id) - Elems(a.ids)| == |Ahead(s.rows, id)| - |Elems(a.ids)|;
  }

  lemma OneMore(n: nat, limit: nat)
    ensures (1 + n) * limit == n * limit + limit
  {
  }

  /** Bounded wait: a due row with k other rows due no later is claimed within
      ceil((k + 1) / limit) polls. */
  lemma DueRowIsClaimedInTime(s: State, acts: seq<Act>, limit: nat, id: Id)
    requires IsRun(s, acts, limit) && limit > 0 && s.open == {}
    requires id in s.rows && s.rows[id].nextAttemptAt <= Unix(s.clock)
    requires Polls(acts) >= (|Ahead(s.rows, id)| + limit) / limit
    ensures Claimed(acts, id)
  {
    if !Claimed(acts, id) {
      PassedOverBound(s, acts, limit, id);
      var k := |Ahead(s.rows, id)|;
      assert Ahead(s.rows, id) - s.open == Ahead(s.rows, id);
      CeilingCovers(k, limit, Polls(acts));
    }
  }

  lemma CeilingCovers(k: nat, limit: nat, polls: nat)
    requires limit > 0 && polls >= (k + limit) / limit
    ensures polls * limit > k
  {
    var q := (k + limit) / limit;
    assert q * limit + (k + limit) % limit == k + limit;
    assert polls * limit >= q * limit;
  }
}
