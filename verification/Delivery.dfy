/**
 The common tail of both ingresses: drop suppressed recipients, persist the message,
 send it, and settle the outcome as sent, queued for retry, or failed. The HTTP handler
 and the SMTP session run the same steps and differ in what they store and reply.
 */
module Delivery {
  import opened Basics
  import opened Clock
  import opened Mail
  import opened Text
  import opened Tables
  import opened Transport
  import opened Storage
  import opened Suppressions

  // ---- suppression ----------------------------------------------------------

  /** A failed lookup lets the recipient through. */
  predicate Keep(db: Db, addr: string, lookupOk: bool) {
    !lookupOk || !IsSuppressed(db, addr)
  }

  /** The tables a suppression check consults: none without a gate or while degraded. */
  function ActiveDb(gate: Gate?): Option<Db>
    reads gate, if gate == null then {} else {gate.store}
  {
    if gate == null || !gate.healthy then None else Some(gate.store.Contents())
  }

  /** The tables behind a gate; none without storage. */
  function DbOf(gate: Gate?): Db
    reads if gate == null then {} else {gate.store}
  {
    if gate == null then Db(map[], map[], map[]) else gate.store.Contents()
  }

  predicate Healthy(gate: Gate?)
    reads gate
  {
    gate != null && gate.healthy
  }

  /** Whether the gate is healthy after the suppression check of these recipients. */
  predicate Works(gate: Gate?, to: seq<string>, lookupOk: nat -> bool)
    reads gate
  {
    Healthy(gate) && forall i :: 0 <= i < |to| ==> lookupOk(i)
  }

  /** Which positions of a recipient list are sent to. */
  function KeepFor(db: Option<Db>, to: seq<string>, lookupOk: nat -> bool): nat -> bool {
    (i: nat) => db.None? || i >= |to| || Keep(db.value, to[i], lookupOk(i))
  }

  function Remaining(to: seq<string>, keep: nat -> bool): seq<string> {
    if to == [] then []
    else
      var n := |to| - 1;
      Remaining(to[..n], keep) + (if keep(n) then [to[n]] else [])
  }

  function Removed(to: seq<string>, keep: nat -> bool): seq<string> {
    if to == [] then []
    else
      var n := |to| - 1;
      Removed(to[..n], keep) + (if keep(n) then [] else [to[n]])
  }

  /** `whole` is the two parts shuffled together, each in its own order. */
  ghost predicate IsMerge(whole: seq<string>, a: seq<string>, b: seq<string>) {
    if whole == [] then a == [] && b == []
    else
      var n := |whole| - 1;
      || (a != [] && a[|a| - 1] == whole[n] && IsMerge(whole[..n], a[..|a| - 1], b))
      || (b != [] && b[|b| - 1] == whole[n] && IsMerge(whole[..n], a, b[..|b| - 1]))
  }

  /** Conservation: whatever the check keeps, every recipient is either sent to or set
      aside, in the order given. */
  lemma {:induction false} FilterConserves(to: seq<string>, keep: nat -> bool)
    ensures IsMerge(to, Remaining(to, keep), Removed(to, keep))
    ensures |Remaining(to, keep)| + |Removed(to, keep)| == |to|
    ensures forall x :: x in Remaining(to, keep) || x in Removed(to, keep) ==> x in to
  {
    if to != [] {
      var n := |to| - 1;
      FilterConserves(to[..n], keep);
      var kept, removed := Remaining(to[..n], keep), Removed(to[..n], keep);
      assert (kept + [to[n]])[..|kept|] == kept && (removed + [to[n]])[..|removed|] == removed;
      assert kept + [] == kept && removed + [] == removed;
    }
  }

  lemma FilterNext(to: seq<string>, n: nat, keep: nat -> bool)
    requires 0 < n <= |to|
    ensures Remaining(to[..n], keep) == Remaining(to[..n - 1], keep) + (if keep(n - 1) then [to[n - 1]] else [])
    ensures Removed(to[..n], keep) == Removed(to[..n - 1], keep) + (if keep(n - 1) then [] else [to[n - 1]])
  {
    assert to[..n][..n - 1] == to[..n - 1] && to[..n][n - 1] == to[n - 1];
  }

  ghost predicate AllSuppressed(db: Db, addrs: seq<string>) {
    forall i :: 0 <= i < |addrs| ==> IsSuppressed(db, addrs[i])
  }

  ghost predicate NoneSuppressed(db: Db, addrs: seq<string>) {
    forall i :: 0 <= i < |addrs| ==> !IsSuppressed(db, addrs[i])
  }

  /** Only suppressed addresses are set aside; and when no lookup fails, no suppressed
      address is sent to. */
  lemma {:induction false} FilterIsExact(db: Db, to: seq<string>, lookupOk: nat -> bool, n: nat)
    requires n <= |to|
    ensures AllSuppressed(db, Removed(to[..n], KeepFor(Some(db), to, lookupOk)))
    ensures (forall i :: 0 <= i < n ==> lookupOk(i)) ==> NoneSuppressed(db, Remaining(to[..n], KeepFor(Some(db), to, lookupOk)))
  {
    hide IsSuppressed;
    if n > 0 {
      hide Remaining, Removed;
      FilterIsExact(db, to, lookupOk, n - 1);
      var keep := KeepFor(Some(db), to, lookupOk);
      FilterNext(to, n, keep);
      assert keep(n - 1) <==> Keep(db, to[n - 1], lookupOk(n - 1));
    }
  }

  /** Without a gate, or with a degraded one, everything passes. A failed lookup turns
      the gate off, but the rest of this list is still looked up. */
  method FilterSuppressed(gate: Gate?, to: seq<string>, lookupOk: nat -> bool) returns (remaining: seq<string>, suppressed: nat)
    modifies gate
    ensures remaining == Remaining(to, KeepFor(old(ActiveDb(gate)), to, lookupOk))
    ensures suppressed == |Removed(to, KeepFor(old(ActiveDb(gate)), to, lookupOk))|
    ensures Healthy(gate) == old(Works(gate, to, lookupOk))
  {
    hide IsSuppressed, NormalizeEmail, SameAddress, TextLe, Remaining, Removed;
    ghost var keep := KeepFor(ActiveDb(gate), to, lookupOk);
    NobodyIsFiltered(keep);
    if gate == null || !gate.healthy {
      KeepsAll(to, keep);
      return to, 0;
    }
    remaining, suppressed := [], 0;
    assert to[..0] == [];
    for i := 0 to |to|
      invariant remaining == Remaining(to[..i], keep)
      invariant suppressed == |Removed(to[..i], keep)|
      invariant gate.healthy <==> forall j :: 0 <= j < i ==> lookupOk(j)
    {
      FilterNext(to, i + 1, keep);
      var hit, ok := gate.store.SuppressionFor(to[i], lookupOk(i));
      if !ok {
        gate.ReportError();
        remaining := remaining + [to[i]];
      } else if hit.Some? {
        suppressed := suppressed + 1;
      } else {
        remaining := remaining + [to[i]];
      }
    }
    assert to[..|to|] == to;
  }

  lemma NobodyIsFiltered(keep: nat -> bool)
    ensures Remaining([], keep) == [] && Removed([], keep) == []
  {
  }

  lemma {:induction false} KeepsAll(to: seq<string>, keep: nat -> bool)
    requires forall i :: 0 <= i < |to| ==> keep(i)
    ensures Remaining(to, keep) == to && Removed(to, keep) == []
  {
    if to != [] {
      KeepsAll(to[..|to| - 1], keep);
    }
  }

  // ---- record, send, settle -------------------------------------------------

  /** Which of the writes commit: the pre-send row, the row's outcome, and the fallback
      that marks it failed. */
  datatype Disk = Disk(recordOk: bool, outcomeOk: bool, failOk: bool)

  datatype Verdict = SentNow(messageID: string) | QueuedForRetry | NotSent(error: string)

  predicate Persists(db: Db, id: Id, disk: Disk) {
    disk.recordOk && id !in db.submissions
  }

  function VerdictOf(db: Db, storing: bool, via: Ingress, id: Id, answer: SendResult, disk: Disk): (v: Verdict)
    ensures v.SentNow? <==> answer.Took?
  {
    match Classify(answer)
    case Accepted(m) => SentNow(m)
    case Retryable(err) =>
      if storing && Persists(db, id, disk) && QueueEligible(via) && disk.outcomeOk then QueuedForRetry else NotSent(err)
    case Terminal(err) => NotSent(err)
  }

  /** What the tables hold afterwards. */
  function Settled(db: Db, via: Ingress, id: Id, msg: Message, answer: SendResult, recordAt: int, outcomeAt: int, disk: Disk): Db {
    if !Persists(db, id, disk) then db
    else
      var recorded := InsertSubmission(db, PreSendRow(via, id, msg, recordAt));
      match Classify(answer)
      case Accepted(m) => if disk.outcomeOk then MarkSentTx(recorded, id, m, outcomeAt) else recorded
      case Retryable(err) =>
        if QueueEligible(via) && disk.outcomeOk then EnqueueTx(recorded, id, outcomeAt)
        else if disk.failOk then SetStatus(recorded, id, Failed, err) else recorded
      case Terminal(err) => if disk.failOk then SetStatus(recorded, id, Failed, err) else recorded
  }

  /** Whether every write the tail attempts goes through. */
  predicate StaysHealthy(db: Db, via: Ingress, id: Id, answer: SendResult, disk: Disk) {
    && Persists(db, id, disk)
    && match Classify(answer)
       case Accepted(_) => disk.outcomeOk
       case Retryable(_) => if QueueEligible(via) then disk.outcomeOk else disk.failOk
       case Terminal(_) => disk.failOk
  }

  /** Persist, send, settle. `answer` is what the provider said after any inline retry. */
  method Deliver(gate: Gate?, via: Ingress, id: Id, msg: Message, answer: SendResult, recordAt: int, outcomeAt: int, disk: Disk)
    returns (verdict: Verdict)
    modifies gate, if gate == null then {} else {gate.store}
    ensures verdict == VerdictOf(old(DbOf(gate)), old(Healthy(gate)), via, id, answer, disk)
    ensures DbOf(gate) == if old(Healthy(gate)) then Settled(old(DbOf(gate)), via, id, msg, answer, recordAt, outcomeAt, disk)
                          else old(DbOf(gate))
    ensures Healthy(gate) <==> old(Healthy(gate)) && StaysHealthy(old(DbOf(gate)), via, id, answer, disk)
    ensures verdict.QueuedForRetry? ==> gate != null && id in gate.store.queue
                                        && id in gate.store.submissions && gate.store.submissions[id].status == Queued
  {
    var persisted, queueable := false, false;
    if gate != null && gate.healthy {
      persisted := gate.store.RecordSubmission(PreSendRow(via, id, msg, recordAt), disk.recordOk);
      if persisted {
        queueable := QueueEligible(via);
      } else {
        gate.ReportError();
      }
    }
    if answer.Refused? {
      if queueable && IsRetryable(answer.error) {
        var enqueued := gate.store.Enqueue(id, outcomeAt, disk.outcomeOk);
        if enqueued {
          return QueuedForRetry;
        }
        gate.ReportError();
      }
      if persisted {
        var marked := gate.store.MarkStatus(id, Failed, answer.error.message, disk.failOk);
        if !marked { gate.ReportError(); }
      }
      return NotSent(answer.error.message);
    }
    if persisted {
      var marked := gate.store.MarkSent(id, answer.messageID, outcomeAt, disk.outcomeOk);
      if !marked { gate.ReportError(); }
    }
    return SentNow(answer.messageID);
  }

  /** For a new id, "queued" is the verdict exactly when the retry queue holds its row. */
  lemma QueuedIffRowCommitted(db: Db, storing: bool, via: Ingress, id: Id, msg: Message, answer: SendResult, recordAt: int, outcomeAt: int, disk: Disk)
    requires id !in db.submissions && id !in db.queue && msg.submissionID == id
    ensures var after := if storing then Settled(db, via, id, msg, answer, recordAt, outcomeAt, disk) else db;
            VerdictOf(db, storing, via, id, answer, disk).QueuedForRetry? <==> id in after.queue
  {
    hide PreSendRow, Unix;
  }

  /** The status an HTTP client sees. */
  function HttpStatus(verdict: Verdict, apiMode: bool): int {
    match verdict
    case SentNow(_) => 200
    case QueuedForRetry => if apiMode then 202 else 200
    case NotSent(_) => 502
  }
}
