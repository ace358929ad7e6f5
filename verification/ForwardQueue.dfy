/**
 The queue of lifecycle callbacks. It climbs the same ladder as mail, but an event that
 exhausts it is dropped. Row ids grow and are never reused.
 */
module ForwardQueue {
  import opened Clock
  import opened Tables
  import opened Mail
  import opened Storage

  datatype Forward = Forward(endpoint: string, payload: seq<bv8>, attempt: nat, nextAttemptAt: int)

  datatype Queue = Queue(rows: map<nat, Forward>, nextId: nat)

  function EnqueueForwardTx(q: Queue, endpoint: string, payload: seq<bv8>, now: int): Queue {
    Queue(q.rows[q.nextId := Forward(endpoint, payload, 0, Unix(now + RETRY_BACKOFF[0] * SECOND))], q.nextId + 1)
  }

  /** Success and terminal failure delete the row; a retryable failure reschedules it or,
      at the end of the ladder, drops it. A missing row is no error. */
  function OutcomeTx(q: Queue, id: nat, retryable: bool, now: int): Queue {
    if !retryable then q.(rows := q.rows - {id})
    else if id !in q.rows then q
    else
      var attempt := q.rows[id].attempt + 1;
      if attempt >= MAX_ATTEMPTS then q.(rows := q.rows - {id})
      else q.(rows := q.rows[id := q.rows[id].(attempt := attempt, nextAttemptAt := Unix(now + RETRY_BACKOFF[attempt] * SECOND))])
  }

  /** When each row is due, as the selection of the mail queue sees it. */
  function Schedule(rows: map<nat, Forward>): map<Id, QueueRow> {
    map id | id in rows :: QueueRow(rows[id].attempt, rows[id].nextAttemptAt)
  }

  lemma ScheduleKeys(rows: map<nat, Forward>)
    ensures Schedule(rows).Keys == rows.Keys
  {
  }

  datatype PendingForward = PendingForward(id: nat, endpoint: string, payload: seq<bv8>, attempt: nat)

  /** The rows a selection names are those a claim hands over. */
  ghost predicate Hands(rows: map<nat, Forward>, ids: seq<nat>, out: seq<PendingForward>) {
    && |out| == |ids|
    && forall i :: 0 <= i < |ids| ==>
         ids[i] in rows && out[i] == PendingForward(ids[i], rows[ids[i]].endpoint, rows[ids[i]].payload, rows[ids[i]].attempt)
  }

  lemma ClaimMeans(rows: map<nat, Forward>, nowSec: int, limit: int, ids: seq<nat>, out: seq<PendingForward>)
    requires IsDueSelection(Schedule(rows), nowSec, EffectiveLimit(limit, |DueIds(Schedule(rows), nowSec)|), ids) && Hands(rows, ids, out)
    ensures forall i, j :: 0 <= i < j < |out| ==> out[i].id != out[j].id
    ensures forall i :: 0 <= i < |out| ==> out[i].id in rows && rows[out[i].id].nextAttemptAt <= nowSec
    ensures forall i, j :: 0 <= i < j < |out| ==> rows[out[i].id].nextAttemptAt <= rows[out[j].id].nextAttemptAt
    ensures forall id :: id in rows && rows[id].nextAttemptAt <= nowSec ==>
              || (exists i :: 0 <= i < |out| && out[i].id == id)
              || (0 <= limit <= |out| && forall i :: 0 <= i < |out| ==> rows[out[i].id].nextAttemptAt <= rows[id].nextAttemptAt)
    ensures limit >= 0 ==> |out| <= limit
  {
    SelectionMeans(Schedule(rows), nowSec, limit, ids);
    hide IsDueSelection;
    forall i, j | 0 <= i < j < |out| ensures rows[out[i].id].nextAttemptAt <= rows[out[j].id].nextAttemptAt {
      assert Schedule(rows)[ids[i]].nextAttemptAt <= Schedule(rows)[ids[j]].nextAttemptAt;
    }
    forall id | id in rows && rows[id].nextAttemptAt <= nowSec
      ensures || (exists i :: 0 <= i < |out| && out[i].id == id)
              || (0 <= limit <= |out| && forall i :: 0 <= i < |out| ==> rows[out[i].id].nextAttemptAt <= rows[id].nextAttemptAt)
    {
      assert id in Schedule(rows);
      if k :| 0 <= k < |ids| && ids[k] == id {
        assert out[k].id == id;
      } else {
        assert forall i :: 0 <= i < |ids| ==> Schedule(rows)[ids[i]].nextAttemptAt <= Schedule(rows)[id].nextAttemptAt;
      }
    }
  }

  class ForwardStore {
    var rows: map<nat, Forward>
    var nextId: nat

    function Contents(): Queue
      reads this
    {
      Queue(rows, nextId)
    }

    method EnqueueForward(endpoint: string, payload: seq<bv8>, now: int, diskOk: bool) returns (ok: bool)
      modifies this
      ensures ok == diskOk
      ensures Contents() == if ok then EnqueueForwardTx(old(Contents()), endpoint, payload, now) else old(Contents())
    {
      ok := diskOk;
      if ok {
        rows := rows[nextId := Forward(endpoint, payload, 0, Unix(now + RETRY_BACKOFF[0] * SECOND))];
        nextId := nextId + 1;
      }
    }

    /** The due rows, earliest first, as many as the limit allows; they stay in the table. */
    method ClaimDueForwards(now: int, limit: int, diskOk: bool) returns (out: seq<PendingForward>, ok: bool)
      ensures ok == diskOk && (!ok ==> out == [])
      ensures forall i, j :: 0 <= i < j < |out| ==> out[i].id != out[j].id
      ensures forall i :: 0 <= i < |out| ==>
                var p := out[i];
                && p.id in rows && rows[p.id].nextAttemptAt <= Unix(now)
                && p == PendingForward(p.id, rows[p.id].endpoint, rows[p.id].payload, rows[p.id].attempt)
      ensures forall i, j :: 0 <= i < j < |out| ==> rows[out[i].id].nextAttemptAt <= rows[out[j].id].nextAttemptAt
      ensures limit >= 0 ==> |out| <= limit
      ensures ok ==> forall id :: id in rows && rows[id].nextAttemptAt <= Unix(now) ==>
                || (exists i :: 0 <= i < |out| && out[i].id == id)
                || (0 <= limit <= |out| && forall i :: 0 <= i < |out| ==> rows[out[i].id].nextAttemptAt <= rows[id].nextAttemptAt)
    {
      hide IsDueSelection, Schedule, Unix, DueIds;
      if !diskOk { return [], false; }
      var ids := SelectDue(Schedule(rows), Unix(now), limit);
      SelectionMeans(Schedule(rows), Unix(now), limit, ids);
      ScheduleKeys(rows);
      out := [];
      for i := 0 to |ids|
        invariant Hands(rows, ids[..i], out)
      {
        var row := rows[ids[i]];
        out := out + [PendingForward(ids[i], row.endpoint, row.payload, row.attempt)];
      }
      assert ids[..|ids|] == ids;
      ClaimMeans(rows, Unix(now), limit, ids, out);
      ok := true;
    }

    method RecordForwardOutcome(id: nat, retryable: bool, now: int, diskOk: bool) returns (dropped: bool, ok: bool)
      modifies this
      ensures ok == diskOk
      ensures Contents() == if ok then OutcomeTx(old(Contents()), id, retryable, now) else old(Contents())
      ensures dropped <==> ok && retryable && id in old(rows) && id !in rows
    {
      dropped, ok := false, diskOk;
      if !ok { return; }
      if !retryable {
        rows := rows - {id};
        return;
      }
      if id !in rows { return; }
      var attempt := rows[id].attempt + 1;
      if attempt >= MAX_ATTEMPTS {
        rows := rows - {id};
        return true, true;
      }
      rows := rows[id := rows[id].(attempt := attempt, nextAttemptAt := Unix(now + RETRY_BACKOFF[attempt] * SECOND))];
    }
  }

  datatype Event = Enqueue(endpoint: string, payload: seq<bv8>, now: int) | Outcome(id: nat, retryable: bool, now: int)

  function Apply(q: Queue, e: Event): Queue {
    match e
    case Enqueue(endpoint, payload, now) => EnqueueForwardTx(q, endpoint, payload, now)
    case Outcome(id, retryable, now) => OutcomeTx(q, id, retryable, now)
  }

  function Exec(q: Queue, es: seq<Event>): Queue {
    if es == [] then q else Apply(Exec(q, es[..|es| - 1]), es[|es| - 1])
  }

  /** Retryable failures recorded against a row that was there. */
  function Failures(q: Queue, es: seq<Event>, id: nat): nat {
    if es == [] then 0
    else
      var n := |es| - 1;
      Failures(q, es[..n], id)
      + (if es[n].Outcome? && es[n].id == id && es[n].retryable && id in Exec(q, es[..n]).rows then 1 else 0)
  }

  /** The forward queue obeys the same bound: from an empty queue, no event collects more
      than MAX_ATTEMPTS failures, and while it is queued its attempt counter is the
      number of failures so far, one rung short of the end at most. */
  lemma {:induction false} ForwardLadderBound(q: Queue, es: seq<Event>, id: nat)
    requires q.rows == map[]
    ensures var r := Exec(q, es);
            && Failures(q, es, id) <= MAX_ATTEMPTS
            && (id in r.rows ==> id < r.nextId && r.rows[id].attempt == Failures(q, es, id) < MAX_ATTEMPTS)
            && (id >= r.nextId ==> Failures(q, es, id) == 0)
  {
    if es != [] {
      ForwardLadderBound(q, es[..|es| - 1], id);
    }
  }

  /** A success or a terminal failure of the row was recorded behind event i. */
  ghost predicate SettledSince(es: seq<Event>, i: nat, id: nat) {
    exists j :: i < j < |es| && es[j].Outcome? && es[j].id == id && !es[j].retryable
  }

  /** When the row was last written: by event i, or by an outcome of its own since. */
  function LastWrite(es: seq<Event>, i: nat, id: nat): int
    requires i < |es|
    decreases |es|
  {
    var n := |es| - 1;
    if n == i || (es[n].Outcome? && es[n].id == id) then es[n].now else LastWrite(es[..n], i, id)
  }

  lemma SettledNext(es: seq<Event>, i: nat, id: nat)
    requires i < |es| - 1
    ensures var n, e := |es| - 1, es[|es| - 1];
            SettledSince(es, i, id) <==> SettledSince(es[..n], i, id) || (e.Outcome? && e.id == id && !e.retryable)
  {
    var n := |es| - 1;
    if SettledSince(es, i, id) {
      var j :| i < j < |es| && es[j].Outcome? && es[j].id == id && !es[j].retryable;
      assert j < n ==> es[..n][j] == es[j];
    }
  }

  /** A callback stays queued until a success or a terminal failure is recorded or it has
      failed five times. While it is queued it is the callback as it was enqueued, its
      counter is the failures so far, and it is due 60 * 4^k seconds after the k-th. */
  lemma {:induction false} RowGoesByItsHistory(q: Queue, es: seq<Event>, i: nat, id: nat)
    requires q.rows == map[] && i < |es| && es[i].Enqueue? && Exec(q, es[..i]).nextId == id
    ensures var r, k := Exec(q, es), Failures(q, es, id);
            && id < r.nextId
            && (id in r.rows <==> !SettledSince(es, i, id) && k < 5)
            && (id in r.rows ==>
                  r.rows[id] == Forward(es[i].endpoint, es[i].payload, k, Unix(LastWrite(es, i, id)) + 60 * FourTo(k)))
  {
    hide Apply, FourTo, Unix, SettledSince;
    var n := |es| - 1;
    var before := Exec(q, es[..n]);
    ForwardLadderBound(q, es[..n], id);
    if n == i {
      NothingSince(es, i, id);
      EnqueueSchedules(before, es[n]);
    } else {
      assert es[..n][i] == es[i] && es[..n][..i] == es[..i];
      RowGoesByItsHistory(q, es[..n], i, id);
      SettledNext(es, i, id);
      OutcomeSchedules(before, es[n], id);
    }
  }

  lemma NothingSince(es: seq<Event>, i: nat, id: nat)
    requires i == |es| - 1
    ensures !SettledSince(es, i, id)
  {
  }

  lemma EnqueueSchedules(q: Queue, e: Event)
    requires e.Enqueue?
    ensures var r := Apply(q, e);
            && r.nextId == q.nextId + 1 && q.nextId in r.rows
            && r.rows[q.nextId] == Forward(e.endpoint, e.payload, 0, Unix(e.now) + 60 * FourTo(0))
  {
    UnixShift(e.now, 60);
  }

  /** What one event does to a row that was there before. */
  lemma OutcomeSchedules(q: Queue, e: Event, id: nat)
    requires id < q.nextId
    ensures var r := Apply(q, e);
            && id < r.nextId
            && (e.Enqueue? || e.id != id ==> (id in r.rows <==> id in q.rows) && (id in q.rows ==> r.rows[id] == q.rows[id]))
            && (e.Outcome? && e.id == id && !e.retryable ==> id !in r.rows)
            && (e.Outcome? && e.id == id && e.retryable ==>
                  && (id in r.rows <==> id in q.rows && q.rows[id].attempt < 4)
                  && (id in r.rows ==>
                        var k := q.rows[id].attempt + 1;
                        r.rows[id] == Forward(q.rows[id].endpoint, q.rows[id].payload, k, Unix(e.now) + 60 * FourTo(k))))
  {
    if e.Outcome? && e.id == id && id in q.rows && q.rows[id].attempt < 4 {
      var k := q.rows[id].attempt + 1;
      LadderWaits(k);
      UnixShift(e.now, RETRY_BACKOFF[k]);
    }
    hide FourTo;
  }
}
