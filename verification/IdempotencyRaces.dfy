/**
 The storage-backed cache under a finer interleaving. It takes its lock only after it
 has looked at the file, and releases a claim only after it has written the file, so
 other requests can run in between. The store is healthy throughout.
 */
module IdempotencyRaces {
  import opened Basics
  import opened Clock
  import opened Idempotency

  type Req = nat

  /** How far a request has got: it found nothing stored, it holds the claim, or it has
      written its response and is about to release the claim. */
  datatype Phase = Checked(key: Key) | Holding(key: Key) | Written(key: Key)

  datatype State = State(table: IdemTable, inflight: set<Key>, reqs: map<Req, Phase>)

  datatype Event =
    | Check(req: Req, key: Key, at: int)
    | Lock(req: Req)
    | Write(req: Req, response: Response, at: int)
    | Release(req: Req)

  predicate Enabled(s: State, e: Event) {
    match e
    case Check(r, _, _) => r !in s.reqs
    case Lock(r) => r in s.reqs && s.reqs[r].Checked?
    case Write(r, _, _) => r in s.reqs && s.reqs[r].Holding?
    case Release(r) => r in s.reqs && !s.reqs[r].Checked?
  }

  function Apply(endpoint: string, ttl: int, s: State, e: Event): State
    requires Enabled(s, e)
  {
    match e
    case Check(r, k, at) =>
      if GetLive(s.table, k, endpoint, at).Some? then s else s.(reqs := s.reqs[r := Checked(k)])
    case Lock(r) =>
      var k := s.reqs[r].key;
      if k in s.inflight then s.(reqs := s.reqs - {r})
      else s.(inflight := s.inflight + {k}, reqs := s.reqs[r := Holding(k)])
    case Write(r, resp, at) =>
      var k := s.reqs[r].key;
      s.(table := s.table[(k, endpoint) := IdemRow(resp, Unix(at + ttl))], reqs := s.reqs[r := Written(k)])
    case Release(r) =>
      s.(inflight := s.inflight - {s.reqs[r].key}, reqs := s.reqs - {r})
  }

  predicate Holds(s: State, r: Req, k: Key) {
    r in s.reqs && !s.reqs[r].Checked? && s.reqs[r].key == k
  }

  /** The keys in flight are those held, and no key is held twice. */
  ghost predicate Exclusive(s: State) {
    && (forall r, k :: Holds(s, r, k) ==> k in s.inflight)
    && (forall k :: k in s.inflight ==> exists r :: Holds(s, r, k))
    && (forall r, q, k :: Holds(s, r, k) && Holds(s, q, k) ==> r == q)
  }

  /** A step gives a claim to nobody but its own request, and only on a free key. */
  lemma OnlyTheCallerGains(endpoint: string, ttl: int, s: State, e: Event, r: Req, k: Key)
    requires Enabled(s, e) && Holds(Apply(endpoint, ttl, s, e), r, k)
    ensures Holds(s, r, k) || (r == e.req && k !in s.inflight)
  {
  }

  lemma StepKeepsExclusive(endpoint: string, ttl: int, s: State, e: Event)
    requires Exclusive(s) && Enabled(s, e)
    ensures Exclusive(Apply(endpoint, ttl, s, e))
  {
    var t := Apply(endpoint, ttl, s, e);
    forall k | k in t.inflight ensures exists r :: Holds(t, r, k) {
      if k in s.inflight {
        var r :| Holds(s, r, k);
        assert Holds(t, r, k);
      } else {
        assert Holds(t, e.req, k);
      }
    }
    forall r, k | Holds(t, r, k) ensures k in t.inflight {
      if r != e.req {
        assert Holds(s, r, k);
        if e.Release? { assert Holds(s, e.req, s.reqs[e.req].key); }
      } else if e.Write? {
        assert Holds(s, r, k);
      }
    }
    forall r, q, k | Holds(t, r, k) && Holds(t, q, k) ensures r == q {
      OnlyTheCallerGains(endpoint, ttl, s, e, r, k);
      OnlyTheCallerGains(endpoint, ttl, s, e, q, k);
    }
  }

  predicate IsRun(endpoint: string, ttl: int, s: State, es: seq<Event>)
    decreases |es|
  {
    es == [] || (Enabled(s, es[0]) && IsRun(endpoint, ttl, Apply(endpoint, ttl, s, es[0]), es[1..]))
  }

  function Exec(endpoint: string, ttl: int, s: State, es: seq<Event>): State
    requires IsRun(endpoint, ttl, s, es)
    decreases |es|
  {
    if es == [] then s else Exec(endpoint, ttl, Apply(endpoint, ttl, s, es[0]), es[1..])
  }

  /** Mutual exclusion survives the finer interleaving. */
  lemma {:induction false} OneHolderPerKey(endpoint: string, ttl: int, s: State, es: seq<Event>)
    requires Exclusive(s) && IsRun(endpoint, ttl, s, es)
    ensures Exclusive(Exec(endpoint, ttl, s, es))
    decreases |es|
  {
    if es != [] {
      StepKeepsExclusive(endpoint, ttl, s, es[0]);
      OneHolderPerKey(endpoint, ttl, Apply(endpoint, ttl, s, es[0]), es[1..]);
    }
  }

  // ---- a claim can be granted although the answer is already stored ---------

  /** The state before the i-th event. */
  function At(endpoint: string, ttl: int, s: State, es: seq<Event>, i: nat): State
    requires IsRun(endpoint, ttl, s, es) && i <= |es|
    decreases i
  {
    if i == 0 then s else At(endpoint, ttl, Apply(endpoint, ttl, s, es[0]), es[1..], i - 1)
  }

  /** The i-th event writes a response for this key. */
  predicate WritesAt(endpoint: string, ttl: int, s: State, es: seq<Event>, i: nat, k: Key)
    requires IsRun(endpoint, ttl, s, es)
  {
    && i < |es| && es[i].Write?
    && var t := At(endpoint, ttl, s, es, i);
       es[i].req in t.reqs && t.reqs[es[i].req].key == k
  }

  /** The i-th event is the last that writes a response for this key. */
  predicate LastWriteAt(endpoint: string, ttl: int, s: State, es: seq<Event>, i: nat, k: Key)
    requires IsRun(endpoint, ttl, s, es)
  {
    && WritesAt(endpoint, ttl, s, es, i, k)
    && forall j: nat :: i < j < |es| ==> !WritesAt(endpoint, ttl, s, es, j, k)
  }

  lemma Shift(endpoint: string, ttl: int, s: State, es: seq<Event>, i: nat, k: Key)
    requires es != [] && IsRun(endpoint, ttl, s, es)
    ensures WritesAt(endpoint, ttl, s, es, i + 1, k) <==> WritesAt(endpoint, ttl, Apply(endpoint, ttl, s, es[0]), es[1..], i, k)
  {
    hide Apply;
  }

  /** The table holds the last response written, or what it held before. */
  lemma {:induction false} TableHoldsLastWrite(endpoint: string, ttl: int, s: State, es: seq<Event>, k: Key)
    returns (last: Option<nat>)
    requires IsRun(endpoint, ttl, s, es)
    ensures last.None? ==>
              && (forall i: nat :: !WritesAt(endpoint, ttl, s, es, i, k))
              && RowFor(Exec(endpoint, ttl, s, es).table, k, endpoint) == RowFor(s.table, k, endpoint)
    ensures last.Some? ==>
              && LastWriteAt(endpoint, ttl, s, es, last.value, k)
              && RowFor(Exec(endpoint, ttl, s, es).table, k, endpoint)
                 == Some(IdemRow(es[last.value].response, Unix(es[last.value].at + ttl)))
    decreases |es|
  {
    if es == [] {
      return None;
    }
    var next := Apply(endpoint, ttl, s, es[0]);
    var later := TableHoldsLastWrite(endpoint, ttl, next, es[1..], k);
    FirstWrite(endpoint, ttl, s, es, k);
    hide Apply, At, WritesAt;
    forall i: nat
      ensures WritesAt(endpoint, ttl, s, es, i + 1, k) <==> WritesAt(endpoint, ttl, next, es[1..], i, k)
    {
      Shift(endpoint, ttl, s, es, i, k);
    }
    if later.Some? {
      last := Some(later.value + 1);
      forall j: nat | later.value + 1 < j < |es| ensures !WritesAt(endpoint, ttl, s, es, j, k) {
        assert !WritesAt(endpoint, ttl, next, es[1..], j - 1, k);
        assert j - 1 + 1 == j;
      }
    } else {
      last := if WritesAt(endpoint, ttl, s, es, 0, k) then Some(0) else None;
      forall j: nat | j > 0 ensures !WritesAt(endpoint, ttl, s, es, j, k) {
        assert !WritesAt(endpoint, ttl, next, es[1..], j - 1, k);
        assert j - 1 + 1 == j;
      }
    }
  }

  lemma FirstWrite(endpoint: string, ttl: int, s: State, es: seq<Event>, k: Key)
    requires es != [] && IsRun(endpoint, ttl, s, es)
    ensures var row := RowFor(Apply(endpoint, ttl, s, es[0]).table, k, endpoint);
            if WritesAt(endpoint, ttl, s, es, 0, k) then row == Some(IdemRow(es[0].response, Unix(es[0].at + ttl)))
            else row == RowFor(s.table, k, endpoint)
  {
  }

  /** A holder keeps its claim until it releases it itself. */
  lemma {:induction false} HeldUntilReleased(endpoint: string, ttl: int, s: State, es: seq<Event>, q: Req, k: Key)
    requires IsRun(endpoint, ttl, s, es) && Holds(s, q, k) && Release(q) !in es
    ensures Holds(Exec(endpoint, ttl, s, es), q, k)
    decreases |es|
  {
    if es != [] {
      assert es[0] in es && forall e :: e in es[1..] ==> e in es;
      HeldUntilReleased(endpoint, ttl, Apply(endpoint, ttl, s, es[0]), es[1..], q, k);
    }
  }

  /** A writer that no longer holds its key at the end has released it since. */
  lemma {:induction false} WriterHasReleased(endpoint: string, ttl: int, s: State, es: seq<Event>, i: nat, k: Key)
    returns (j: nat)
    requires IsRun(endpoint, ttl, s, es) && WritesAt(endpoint, ttl, s, es, i, k)
    requires !Holds(Exec(endpoint, ttl, s, es), es[i].req, k)
    ensures i < j < |es| && es[j] == Release(es[i].req)
    decreases i
  {
    var next := Apply(endpoint, ttl, s, es[0]);
    if i == 0 {
      assert Holds(next, es[0].req, k);
      if Release(es[0].req) !in es[1..] {
        HeldUntilReleased(endpoint, ttl, next, es[1..], es[0].req, k);
      }
      var m :| 0 <= m < |es| - 1 && es[1..][m] == Release(es[0].req);
      j := m + 1;
    } else {
      Shift(endpoint, ttl, s, es, i - 1, k);
      var m := WriterHasReleased(endpoint, ttl, next, es[1..], i - 1, k);
      j := m + 1;
    }
  }

  /** What other requests do leaves a waiting request where it was. */
  lemma {:induction false} WaitingIsUntouched(endpoint: string, ttl: int, s: State, es: seq<Event>, r: Req)
    requires IsRun(endpoint, ttl, s, es) && r in s.reqs && forall e :: e in es ==> e.req != r
    ensures var t := Exec(endpoint, ttl, s, es); r in t.reqs && t.reqs[r] == s.reqs[r]
    decreases |es|
  {
    if es != [] {
      assert es[0] in es && forall e :: e in es[1..] ==> e in es;
      WaitingIsUntouched(endpoint, ttl, Apply(endpoint, ttl, s, es[0]), es[1..], r);
    }
  }

  /** Nobody but r itself acts for r from its check until its lock. */
  ghost predicate Waits(endpoint: string, ttl: int, s: State, r: Req, k: Key, t0: int, es: seq<Event>) {
    && Enabled(s, Check(r, k, t0)) && GetLive(s.table, k, endpoint, t0).None?
    && IsRun(endpoint, ttl, Apply(endpoint, ttl, s, Check(r, k, t0)), es)
    && forall e :: e in es ==> e.req != r
  }

  /** Another request wrote the key after the check and released it again, and its
      response has not expired at t. */
  ghost predicate AnsweredMeanwhile(endpoint: string, ttl: int, s: State, es: seq<Event>, k: Key, t: int)
    requires IsRun(endpoint, ttl, s, es)
  {
    exists i: nat, j: nat :: LastWriteAt(endpoint, ttl, s, es, i, k) && i < j < |es| && es[j] == Release(es[i].req)
                             && Unix(t) < Unix(es[i].at + ttl)
  }

  /** A request checks its key at t0 and finds nothing; the other requests go on; at t it
      takes its lock. It is granted the claim exactly when nobody holds the key then; and
      it is granted the claim over a live stored response exactly when, besides, another
      request has claimed, answered and released the key in between and that response
      has not expired. */
  lemma ClaimIsStaleIffAnsweredMeanwhile(endpoint: string, ttl: int, s: State, r: Req, k: Key, t0: int, es: seq<Event>, t: int)
    requires Exclusive(s) && Waits(endpoint, ttl, s, r, k, t0, es) && t0 <= t
    ensures var s1 := Apply(endpoint, ttl, s, Check(r, k, t0));
            var s2 := Exec(endpoint, ttl, s1, es);
            && Enabled(s2, Lock(r))
            && var s3 := Apply(endpoint, ttl, s2, Lock(r));
               var free := forall q :: !Holds(s2, q, k);
               && (Holds(s3, r, k) <==> free)
               && (Holds(s3, r, k) && GetLive(s3.table, k, endpoint, t).Some? <==>
                     free && AnsweredMeanwhile(endpoint, ttl, s1, es, k, t))
  {
    var s1 := Apply(endpoint, ttl, s, Check(r, k, t0));
    var s2 := Exec(endpoint, ttl, s1, es);
    StepKeepsExclusive(endpoint, ttl, s, Check(r, k, t0));
    OneHolderPerKey(endpoint, ttl, s1, es);
    WaitingIsUntouched(endpoint, ttl, s1, es, r);
    UnixMonotone(t0, t);
    var last := TableHoldsLastWrite(endpoint, ttl, s1, es, k);
    if last.Some? && !Holds(s2, es[last.value].req, k) {
      var j := WriterHasReleased(endpoint, ttl, s1, es, last.value, k);
    }
  }

  const OK := Response(200, [], "application/json")

  lemma RunNil(endpoint: string, ttl: int, s: State)
    ensures IsRun(endpoint, ttl, s, []) && Exec(endpoint, ttl, s, []) == s
  {
  }

  lemma RunCons(endpoint: string, ttl: int, s: State, e: Event, es: seq<Event>)
    requires Enabled(s, e) && IsRun(endpoint, ttl, Apply(endpoint, ttl, s, e), es)
    ensures IsRun(endpoint, ttl, s, [e] + es)
    ensures Exec(endpoint, ttl, s, [e] + es) == Exec(endpoint, ttl, Apply(endpoint, ttl, s, e), es)
  {
    assert ([e] + es)[1..] == es;
  }

  /** It can happen: request 2 checks, request 1 claims, answers and releases, and then
      request 2 is granted the claim with the answer already in the file. */
  lemma StaleClaimCanHappen(endpoint: string, k: Key)
    ensures var s0 := State(map[], {}, map[]);
            var es := [Check(2, k, 0)] + ([Check(1, k, 0)] + ([Lock(1)] + ([Write(1, OK, 0)] + ([Release(1)] + ([Lock(2)] + [])))));
            && IsRun(endpoint, 60 * SECOND, s0, es)
            && Holds(Exec(endpoint, 60 * SECOND, s0, es), 2, k)
            && GetLive(Exec(endpoint, 60 * SECOND, s0, es).table, k, endpoint, 0) == Some(IdemRow(OK, 60))
  {
    var ttl := 60 * SECOND;
    var s0, s1 := State(map[], {}, map[]), State(map[], {}, map[2 := Checked(k)]);
    var s2 := State(map[], {}, map[2 := Checked(k), 1 := Checked(k)]);
    var s3 := State(map[], {k}, map[2 := Checked(k), 1 := Holding(k)]);
    assert Apply(endpoint, ttl, s2, Lock(1)) == s3;
    AnswerAndRelease(endpoint, k);
    hide IsRun, Exec, Holds;
    var tail := [Write(1, OK, 0)] + ([Release(1)] + ([Lock(2)] + []));
    RunCons(endpoint, ttl, s2, Lock(1), tail);
    RunCons(endpoint, ttl, s1, Check(1, k, 0), [Lock(1)] + tail);
    RunCons(endpoint, ttl, s0, Check(2, k, 0), [Check(1, k, 0)] + ([Lock(1)] + tail));
  }

  lemma AnswerAndRelease(endpoint: string, k: Key)
    ensures var s3 := State(map[], {k}, map[2 := Checked(k), 1 := Holding(k)]);
            var es := [Write(1, OK, 0)] + ([Release(1)] + ([Lock(2)] + []));
            && IsRun(endpoint, 60 * SECOND, s3, es)
            && Holds(Exec(endpoint, 60 * SECOND, s3, es), 2, k)
            && GetLive(Exec(endpoint, 60 * SECOND, s3, es).table, k, endpoint, 0) == Some(IdemRow(OK, 60))
  {
    var ttl := 60 * SECOND;
    var table: IdemTable := map[(k, endpoint) := IdemRow(OK, 60)];
    var s3 := State(map[], {k}, map[2 := Checked(k), 1 := Holding(k)]);
    var s4 := State(table, {k}, map[2 := Checked(k), 1 := Written(k)]);
    var s5 := State(table, {}, map[2 := Checked(k)]);
    var s6 := State(table, {k}, map[2 := Holding(k)]);
    assert Apply(endpoint, ttl, s3, Write(1, OK, 0)) == s4;
    assert Apply(endpoint, ttl, s4, Release(1)) == s5 by {
      assert map[2 := Checked(k), 1 := Written(k)] - {1} == map[2 := Checked(k)];
    }
    assert Apply(endpoint, ttl, s5, Lock(2)) == s6;
    RunNil(endpoint, ttl, s6);
    hide IsRun, Exec;
    RunCons(endpoint, ttl, s5, Lock(2), []);
    RunCons(endpoint, ttl, s4, Release(1), [Lock(2)] + []);
    RunCons(endpoint, ttl, s3, Write(1, OK, 0), [Release(1)] + ([Lock(2)] + []));
  }
}
