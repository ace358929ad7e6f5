/**
 What the idempotency cache promises over every interleaving of requests: claims of
 one key exclude each other, and between two claims nothing but a release, an expiry
 or an eviction can have happened.
 */
module IdempotencySafety {
  import opened Basics
  import opened Clock
  import opened Recency
  import opened Idempotency

  function CacheAt(l: Limits, c: CacheState, ops: seq<Timed>, i: nat): CacheState
    requires i <= |ops|
    decreases i
  {
    if i == 0 then c else CacheAt(l, CacheStep(l, c, ops[0].op, ops[0].at).0, ops[1..], i - 1)
  }

  predicate IsClaim(op: Op, k: Key) {
    op == ClaimInFlight(k)
  }

  predicate Releases(op: Op, k: Key) {
    op == Abandon(k) || (op.Store? && op.key == k)
  }

  // ---- mutual exclusion, in memory ------------------------------------------

  /** While a key is in flight, it can be claimed again only after a release. */
  lemma {:induction false} CacheHeldUntilReleased(l: Limits, c: CacheState, ops: seq<Timed>, k: Key, j: nat)
    requires j < |ops| && k in c.inflight && IsClaim(ops[j].op, k) && CacheAnswers(l, c, ops)[j] == Claimed
    ensures exists m :: 0 <= m < j && Releases(ops[m].op, k)
    decreases j
  {
    var next := CacheStep(l, c, ops[0].op, ops[0].at).0;
    if j > 0 && !Releases(ops[0].op, k) {
      CacheHeldUntilReleased(l, next, ops[1..], k, j - 1);
      var m :| 0 <= m < j - 1 && Releases(ops[1..][m].op, k);
      assert Releases(ops[m + 1].op, k);
    }
  }

  /** Two successful claims of one key have a release of that key between them: at any
      moment at most one request holds it. */
  lemma {:induction false} CacheClaimsExclude(l: Limits, c: CacheState, ops: seq<Timed>, k: Key, i: nat, j: nat)
    requires i < j < |ops| && IsClaim(ops[i].op, k) && IsClaim(ops[j].op, k)
    requires CacheAnswers(l, c, ops)[i] == Claimed && CacheAnswers(l, c, ops)[j] == Claimed
    ensures exists m :: i < m < j && Releases(ops[m].op, k)
    decreases i
  {
    var next := CacheStep(l, c, ops[0].op, ops[0].at).0;
    if i == 0 {
      CacheHeldUntilReleased(l, next, ops[1..], k, j - 1);
      var m :| 0 <= m < j - 1 && Releases(ops[1..][m].op, k);
      assert Releases(ops[m + 1].op, k);
    } else {
      CacheClaimsExclude(l, next, ops[1..], k, i - 1, j - 1);
      var m :| i - 1 < m < j - 1 && Releases(ops[1..][m].op, k);
      assert Releases(ops[m + 1].op, k);
    }
  }

  // ---- what separates two claims --------------------------------------------

  /** Something happened at step m that lets step j claim the key again. */
  predicate Separates(l: Limits, c: CacheState, ops: seq<Timed>, k: Key, m: nat, j: nat)
    requires m < |ops| && j < |ops|
  {
    || ops[m].op == Abandon(k)
    || k in Evicts(l, CacheAt(l, c, ops, m), ops[m].op)
    || (ops[m].op.Store? && ops[m].op.key == k && ops[m].at + l.ttl <= ops[j].at)
  }

  /** The key is in flight, or its last stored entry has this deadline and is still in
      the map unless the deadline has passed. */
  predicate Spoken(c: CacheState, k: Key, deadline: Option<int>, now: int) {
    || k in c.inflight
    || (deadline.Some? && (if k in c.entries.vals then c.entries.vals[k].expires == deadline.value else deadline.value <= now))
  }

  lemma SpokenStep(l: Limits, c: CacheState, op: Op, at: int, k: Key, deadline: Option<int>, now: int)
    requires CacheValid(l, c) && now <= at && Spoken(c, k, deadline, now)
    requires op != Abandon(k) && k !in Evicts(l, c, op)
    requires IsClaim(op, k) ==> CacheStep(l, c, op, at).1 != Claimed
    ensures Spoken(CacheStep(l, c, op, at).0, k, if op.Store? && op.key == k then Some(at + l.ttl) else deadline, at)
  {
    CacheStepEntries(l, c, op, at);
  }

  lemma {:induction false} ClaimNeedsSeparation(l: Limits, c: CacheState, ops: seq<Timed>, k: Key, j: nat, deadline: Option<int>, now: int)
    requires CacheValid(l, c) && Chronological(ops) && j < |ops| && now <= ops[0].at && Spoken(c, k, deadline, now)
    requires IsClaim(ops[j].op, k) && CacheAnswers(l, c, ops)[j] == Claimed
    ensures (deadline.Some? && deadline.value <= ops[j].at) || exists m :: 0 <= m < j && Separates(l, c, ops, k, m, j)
    decreases j
  {
    var op, at := ops[0].op, ops[0].at;
    if j > 0 && op != Abandon(k) && k !in Evicts(l, c, op) {
      var next := CacheStep(l, c, op, at).0;
      CacheStepEntries(l, c, op, at);
      if IsClaim(op, k) && CacheStep(l, c, op, at).1 == Claimed {
        // Only a passed deadline lets this earlier claim through.
      } else {
        SpokenStep(l, c, op, at, k, deadline, now);
        var deadline' := if op.Store? && op.key == k then Some(at + l.ttl) else deadline;
        assert ops[1..][0] == ops[1];
        ClaimNeedsSeparation(l, next, ops[1..], k, j - 1, deadline', at);
        if !(deadline'.Some? && deadline'.value <= ops[j].at) {
          var m :| 0 <= m < j - 1 && Separates(l, next, ops[1..], k, m, j - 1);
          assert Separates(l, c, ops, k, m + 1, j);
        } else if op.Store? && op.key == k {
          assert Separates(l, c, ops, k, 0, j);
        }
      }
    } else if j > 0 {
      assert Separates(l, c, ops, k, 0, j);
    }
  }

  /** In the in-memory cache, two successful claims of one key are separated by an
      Abandon of it, an eviction of it, or a stored response whose lifetime ran out. */
  lemma {:induction false} ClaimsAreSeparated(l: Limits, c: CacheState, ops: seq<Timed>, k: Key, i: nat, j: nat)
    requires CacheValid(l, c) && Chronological(ops) && i < j < |ops|
    requires IsClaim(ops[i].op, k) && CacheAnswers(l, c, ops)[i] == Claimed
    requires IsClaim(ops[j].op, k) && CacheAnswers(l, c, ops)[j] == Claimed
    ensures exists m :: i < m < j && Separates(l, c, ops, k, m, j)
    decreases i
  {
    var next := CacheStep(l, c, ops[0].op, ops[0].at).0;
    CacheStepEntries(l, c, ops[0].op, ops[0].at);
    var m;
    if i == 0 {
      ClaimNeedsSeparation(l, next, ops[1..], k, j - 1, None, ops[0].at);
      m :| 0 <= m < j - 1 && Separates(l, next, ops[1..], k, m, j - 1);
    } else {
      ClaimsAreSeparated(l, next, ops[1..], k, i - 1, j - 1);
      m :| i - 1 < m < j - 1 && Separates(l, next, ops[1..], k, m, j - 1);
    }
    assert Separates(l, c, ops, k, m + 1, j);
  }

  // ---- what a lookup sees in between ----------------------------------------

  /** The key is neither abandoned, nor evicted, nor past its deadline. */
  ghost predicate Quiet(l: Limits, c: CacheState, ops: seq<Timed>, k: Key)
    decreases |ops|
  {
    ops == [] || (
      && ops[0].op != Abandon(k) && k !in Evicts(l, c, ops[0].op)
      && (k in c.entries.vals ==> ops[0].at < c.entries.vals[k].expires)
      && Quiet(l, CacheStep(l, c, ops[0].op, ops[0].at).0, ops[1..], k))
  }

  function LastStored(ops: seq<Timed>, k: Key, before: Option<Response>): Option<Response>
    decreases |ops|
  {
    if ops == [] then before
    else LastStored(ops[1..], k, if ops[0].op.Store? && ops[0].op.key == k then Some(ops[0].op.response) else before)
  }

  function StoredFor(c: CacheState, k: Key): Option<Response> {
    if k in c.entries.vals then Some(c.entries.vals[k].response) else None
  }

  /** From a claim on, as long as the key stays quiet, nobody claims it again, and every
      lookup finds it in flight or replays exactly the response stored last. */
  lemma {:induction false} QuietKeyIsStable(l: Limits, c: CacheState, ops: seq<Timed>, k: Key, p: nat)
    requires CacheValid(l, c) && Quiet(l, c, ops, k) && p < |ops|
    requires k in c.inflight || k in c.entries.vals
    ensures IsClaim(ops[p].op, k) ==> CacheAnswers(l, c, ops)[p] == Refused
    ensures ops[p].op == Lookup(k) ==>
              || CacheAnswers(l, c, ops)[p] == InFlight
              || (LastStored(ops[..p], k, StoredFor(c, k)).Some?
                  && CacheAnswers(l, c, ops)[p] == Replay(LastStored(ops[..p], k, StoredFor(c, k)).value))
    decreases p
  {
    QuietAnswer(l, c, ops[0].op, ops[0].at, k);
    hide CacheStep, CacheValid, Evicts, StoredFor;
    if p == 0 {
      assert LastStored(ops[..0], k, StoredFor(c, k)) == StoredFor(c, k);
    } else {
      QuietKeyIsStable(l, CacheStep(l, c, ops[0].op, ops[0].at).0, ops[1..], k, p - 1);
      assert ops[..p][1..] == ops[1..][..p - 1];
    }
  }

  /** One call on a quiet key: what it answers, and that the key stays spoken for. */
  lemma QuietAnswer(l: Limits, c: CacheState, op: Op, at: int, k: Key)
    requires CacheValid(l, c) && op != Abandon(k) && k !in Evicts(l, c, op)
    requires k in c.entries.vals ==> at < c.entries.vals[k].expires
    requires k in c.inflight || k in c.entries.vals
    ensures var (d, a) := CacheStep(l, c, op, at);
            && CacheValid(l, d) && (k in d.inflight || k in d.entries.vals)
            && StoredFor(d, k) == (if op.Store? && op.key == k then Some(op.response) else StoredFor(c, k))
            && (IsClaim(op, k) ==> a == Refused)
            && (op == Lookup(k) ==> a == InFlight || (StoredFor(c, k).Some? && a == Replay(StoredFor(c, k).value)))
  {
    CacheStepEntries(l, c, op, at);
    hide CacheValid, Without;
  }

  // ---- the storage-backed form, with a file that may fail at any call --------

  lemma {:induction false} DurableHeldUntilReleased(endpoint: string, ttl: int, d: DurableState, ops: seq<Timed>, k: Key, j: nat)
    requires j < |ops| && k in d.inflight && IsClaim(ops[j].op, k) && DurableAnswers(endpoint, ttl, d, ops)[j] == Claimed
    ensures exists m :: 0 <= m < j && Releases(ops[m].op, k)
    decreases j
  {
    var next := DurableStep(endpoint, ttl, d, ops[0].op, ops[0].at, ops[0].works).0;
    if j > 0 && !Releases(ops[0].op, k) {
      DurableHeldUntilReleased(endpoint, ttl, next, ops[1..], k, j - 1);
      var m :| 0 <= m < j - 1 && Releases(ops[1..][m].op, k);
      assert Releases(ops[m + 1].op, k);
    }
  }

  /** Claims stay in memory, so they exclude each other whatever the file does. */
  lemma {:induction false} DurableClaimsExclude(endpoint: string, ttl: int, d: DurableState, ops: seq<Timed>, k: Key, i: nat, j: nat)
    requires i < j < |ops| && IsClaim(ops[i].op, k) && IsClaim(ops[j].op, k)
    requires DurableAnswers(endpoint, ttl, d, ops)[i] == Claimed && DurableAnswers(endpoint, ttl, d, ops)[j] == Claimed
    ensures exists m :: i < m < j && Releases(ops[m].op, k)
    decreases i
  {
    var next := DurableStep(endpoint, ttl, d, ops[0].op, ops[0].at, ops[0].works).0;
    if i == 0 {
      DurableHeldUntilReleased(endpoint, ttl, next, ops[1..], k, j - 1);
      var m :| 0 <= m < j - 1 && Releases(ops[1..][m].op, k);
      assert Releases(ops[m + 1].op, k);
    } else {
      DurableClaimsExclude(endpoint, ttl, next, ops[1..], k, i - 1, j - 1);
      var m :| i - 1 < m < j - 1 && Releases(ops[1..][m].op, k);
      assert Releases(ops[m + 1].op, k);
    }
  }

  /** Step m lets step j claim the key again, on a file that works for step j. */
  predicate Frees(ttl: int, ops: seq<Timed>, k: Key, m: nat, j: nat)
    requires m < |ops| && j < |ops|
  {
    || ops[m].op == Abandon(k)
    || (ops[m].op.Store? && ops[m].op.key == k && (!ops[m].works || Unix(ops[m].at + ttl) <= Unix(ops[j].at)))
  }

  /** The key is in flight, or a response with this deadline was written and is still on
      file unless the deadline has passed. */
  predicate OnFile(endpoint: string, d: DurableState, k: Key, deadline: Option<int>, now: int) {
    || k in d.inflight
    || (deadline.Some? && (if (k, endpoint) in d.table then d.table[(k, endpoint)].expiresAt == deadline.value
                           else deadline.value <= Unix(now)))
  }

  lemma OnFileStep(endpoint: string, ttl: int, d: DurableState, op: Op, at: int, works: bool, k: Key, deadline: Option<int>, now: int)
    requires now <= at && OnFile(endpoint, d, k, deadline, now)
    requires op != Abandon(k) && (op.Store? && op.key == k ==> works)
    ensures OnFile(endpoint, DurableStep(endpoint, ttl, d, op, at, works).0, k,
                   if op.Store? && op.key == k then Some(Unix(at + ttl)) else deadline, at)
  {
    UnixMonotone(now, at);
  }

  lemma {:induction false} DurableClaimNeedsCause(endpoint: string, ttl: int, d: DurableState, ops: seq<Timed>, k: Key, j: nat,
                                                  deadline: Option<int>, now: int)
    requires Chronological(ops) && j < |ops| && now <= ops[0].at && OnFile(endpoint, d, k, deadline, now)
    requires IsClaim(ops[j].op, k) && ops[j].works && DurableAnswers(endpoint, ttl, d, ops)[j] == Claimed
    ensures (deadline.Some? && deadline.value <= Unix(ops[j].at)) || exists m :: 0 <= m < j && Frees(ttl, ops, k, m, j)
    decreases j
  {
    var op, at, works := ops[0].op, ops[0].at, ops[0].works;
    UnixMonotone(now, at);
    if j > 0 && (op == Abandon(k) || (op.Store? && op.key == k && !works)) {
      assert Frees(ttl, ops, k, 0, j);
    } else if j > 0 {
      OnFileStep(endpoint, ttl, d, op, at, works, k, deadline, now);
      var deadline' := if op.Store? && op.key == k then Some(Unix(at + ttl)) else deadline;
      assert ops[1..][0] == ops[1];
      DurableClaimNeedsCause(endpoint, ttl, DurableStep(endpoint, ttl, d, op, at, works).0, ops[1..], k, j - 1, deadline', at);
      if !(deadline'.Some? && deadline'.value <= Unix(ops[j].at)) {
        var m :| 0 <= m < j - 1 && Frees(ttl, ops[1..], k, m, j - 1);
        assert Frees(ttl, ops, k, m + 1, j);
      } else if op.Store? && op.key == k {
        assert Frees(ttl, ops, k, 0, j);
      }
    }
  }

  /** On the file, two successful claims of one key are separated by an Abandon of it, by
      a response that could not be written, or by one whose lifetime ran out; unless the
      file failed the second claim. */
  lemma {:induction false} DurableClaimsAreSeparated(endpoint: string, ttl: int, d: DurableState, ops: seq<Timed>, k: Key, i: nat, j: nat)
    requires Chronological(ops) && i < j < |ops|
    requires IsClaim(ops[i].op, k) && DurableAnswers(endpoint, ttl, d, ops)[i] == Claimed
    requires IsClaim(ops[j].op, k) && DurableAnswers(endpoint, ttl, d, ops)[j] == Claimed && ops[j].works
    ensures exists m :: i < m < j && Frees(ttl, ops, k, m, j)
    decreases i
  {
    var next := DurableStep(endpoint, ttl, d, ops[0].op, ops[0].at, ops[0].works).0;
    var m;
    if i == 0 {
      DurableClaimNeedsCause(endpoint, ttl, next, ops[1..], k, j - 1, None, ops[0].at);
      m :| 0 <= m < j - 1 && Frees(ttl, ops[1..], k, m, j - 1);
    } else {
      DurableClaimsAreSeparated(endpoint, ttl, next, ops[1..], k, i - 1, j - 1);
      m :| i - 1 < m < j - 1 && Frees(ttl, ops[1..], k, m, j - 1);
    }
    assert Frees(ttl, ops, k, m + 1, j);
  }

  /** The last response written for a key on a working file. */
  function LastWritten(ttl: int, ops: seq<Timed>, k: Key, before: Option<IdemRow>): Option<IdemRow>
    decreases |ops|
  {
    if ops == [] then before
    else
      var op := ops[0].op;
      LastWritten(ttl, ops[1..], k,
                  if op.Store? && op.key == k && ops[0].works then Some(IdemRow(op.response, Unix(ops[0].at + ttl))) else before)
  }

  /** Whatever fails in between, a replay is exactly the response written last, and never
      one that has expired. */
  lemma {:induction false} DurableReplaysLastWritten(endpoint: string, ttl: int, d: DurableState, ops: seq<Timed>, k: Key, p: nat, before: Option<IdemRow>)
    requires p < |ops| && ops[p].op == Lookup(k) && DurableAnswers(endpoint, ttl, d, ops)[p].Replay?
    requires RowFor(d.table, k, endpoint).None? || RowFor(d.table, k, endpoint) == before
    ensures var last := LastWritten(ttl, ops[..p], k, before);
            && last.Some? && Unix(ops[p].at) < last.value.expiresAt
            && DurableAnswers(endpoint, ttl, d, ops)[p] == Replay(last.value.response)
    decreases p
  {
    if p > 0 {
      var op := ops[0].op;
      var next := DurableStep(endpoint, ttl, d, op, ops[0].at, ops[0].works).0;
      var before' := if op.Store? && op.key == k && ops[0].works then Some(IdemRow(op.response, Unix(ops[0].at + ttl))) else before;
      DurableReplaysLastWritten(endpoint, ttl, next, ops[1..], k, p - 1, before');
      assert ops[..p][1..] == ops[1..][..p - 1];
    }
  }

  // ---- finishing a request --------------------------------------------------

  /** The statuses whose responses are kept. */
  predicate IsKept(status: int) {
    status == 200 || status == 422
  }

  /** What the gateway does with a captured response when the request ends. */
  function Finalize(k: Key, resp: Response): Op {
    if IsKept(resp.status) then Store(k, resp) else Abandon(k)
  }

  /** The documented policy is that every 2xx response is kept. On the storage file, from
      the claim on: the response is replayed to a repeated request exactly when its
      status is 200 or 422, it could be written, it can be read again, and the second of
      its deadline has not come. In every other case, 202 "queued" included, the
      repetition misses and is granted a claim of its own. */
  lemma OnlyOkAndInvalidAreReplayed(endpoint: string, ttl: int, d: DurableState, k: Key, resp: Response,
                                    claimed: int, now: int, later: int, claimWorks: bool, storeWorks: bool, works: bool)
    requires k !in d.inflight && GetLive(d.table, k, endpoint, claimed).None? && claimed <= later
    ensures var (held, answer) := DurableStep(endpoint, ttl, d, ClaimInFlight(k), claimed, claimWorks);
            var done := DurableStep(endpoint, ttl, held, Finalize(k, resp), now, storeWorks).0;
            var replayed := (resp.status == 200 || resp.status == 422) && storeWorks && works && Unix(later) < Unix(now + ttl);
            && answer == Claimed
            && DurableStep(endpoint, ttl, done, Lookup(k), later, works).1 == (if replayed then Replay(resp) else Miss)
            && DurableStep(endpoint, ttl, done, ClaimInFlight(k), later, works).1 == (if replayed then Refused else Claimed)
  {
    UnixMonotone(claimed, later);
  }

  /** In memory the same holds to the nanosecond, and nothing can fail. */
  lemma OnlyOkAndInvalidAreReplayedInMemory(l: Limits, c: CacheState, k: Key, resp: Response, claimed: int, now: int, later: int)
    requires CacheValid(l, c) && k !in c.inflight && Live(c, k, claimed).None? && claimed <= later
    ensures var (held, answer) := CacheStep(l, c, ClaimInFlight(k), claimed);
            var done := CacheStep(l, held, Finalize(k, resp), now).0;
            var replayed := (resp.status == 200 || resp.status == 422) && later < now + l.ttl;
            && answer == Claimed
            && CacheStep(l, done, Lookup(k), later).1 == (if replayed then Replay(resp) else Miss)
            && CacheStep(l, done, ClaimInFlight(k), later).1 == (if replayed then Refused else Claimed)
  {
    var held := CacheStep(l, c, ClaimInFlight(k), claimed).0;
    CacheStepEntries(l, c, ClaimInFlight(k), claimed);
    CacheStepEntries(l, held, Finalize(k, resp), now);
  }
}
