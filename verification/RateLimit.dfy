/**
 The per-client token bucket over a bounded set of clients. Times are seconds and
 tokens are exact reals; the program's 64-bit floats round.
 */
module RateLimit {
  import opened Collections
  import opened Recency

  const DEFAULT_MAX_IPS := 10_000

  datatype Bucket = Bucket(tokens: real, last: real)

  type Buckets = Lru<string, Bucket>

  /** Capacity in tokens, tokens per second, and the most clients tracked. */
  datatype Limits = Limits(capacity: real, rate: real, maxKeys: nat)

  predicate Sane(l: Limits) {
    l.capacity >= 1.0 && l.rate > 0.0 && l.maxKeys > 0
  }

  function Min(a: real, b: real): real {
    if a <= b then a else b
  }

  /** Tokens gained in `elapsed` seconds. */
  function Gain(l: Limits, elapsed: real): real {
    elapsed * l.rate
  }

  lemma GainAdds(l: Limits, a: real, b: real)
    ensures Gain(l, a + b) == Gain(l, a) + Gain(l, b)
  {
  }

  lemma GainSign(l: Limits, a: real)
    requires l.rate > 0.0
    ensures a > 0.0 ==> Gain(l, a) > 0.0
    ensures a == 0.0 ==> Gain(l, a) == 0.0
  {
  }

  /** Refill for the elapsed time, up to the capacity. A clock that stands still or
      goes back changes nothing. */
  function Refill(l: Limits, b: Bucket, now: real): Bucket {
    if now - b.last > 0.0 then Bucket(Min(l.capacity, b.tokens + Gain(l, now - b.last)), now) else b
  }

  /** One request against one bucket: take a token if there is one. */
  function Take(b: Bucket): (Bucket, bool) {
    if b.tokens >= 1.0 then (b.(tokens := b.tokens - 1.0), true) else (b, false)
  }

  function BucketFor(l: Limits, s: Buckets, key: string, now: real): Bucket {
    if key in s.vals then s.vals[key] else Bucket(l.capacity, now)
  }

  /** The table with the client present and most recent. */
  function Admit(l: Limits, s: Buckets, key: string, now: real): Buckets
    requires l.maxKeys > 0
  {
    if key in s.vals then s.Touch(key) else s.Put(key, Bucket(l.capacity, now), l.maxKeys)
  }

  function Decide(l: Limits, s: Buckets, key: string, now: real): (Bucket, bool) {
    Take(Refill(l, BucketFor(l, s, key, now), now))
  }

  function Next(l: Limits, s: Buckets, key: string, now: real): Buckets
    requires l.maxKeys > 0
  {
    var t := Admit(l, s, key, now);
    t.(vals := t.vals[key := Decide(l, s, key, now).0])
  }

  /** Buckets hold between 0 and `capacity` tokens, and the table is within bounds. */
  ghost predicate Valid(l: Limits, s: Buckets) {
    && s.Valid(l.maxKeys)
    && forall k :: k in s.vals ==> 0.0 <= s.vals[k].tokens <= l.capacity
  }

  class Limiter {
    const limits: Limits
    var buckets: Buckets

    constructor (limits: Limits)
      ensures this.limits == limits && buckets == Lru([], map[])
    {
      this.limits := limits;
      buckets := Lru([], map[]);
    }

    /** `count` requests per `interval` seconds. Nonsense settings are refused, and
        an unset table size means the default. */
    static method New(count: int, interval: real, maxIPs: int) returns (limiter: Limiter?)
      ensures limiter == null <==> count <= 0 || interval <= 0.0
      ensures limiter != null ==>
                && fresh(limiter)
                && limiter.limits == Limits(count as real, count as real / interval, if maxIPs > 0 then maxIPs else 10_000)
                && Sane(limiter.limits) && Valid(limiter.limits, limiter.buckets) && limiter.buckets.vals == map[]
    {
      if count <= 0 || interval <= 0.0 {
        return null;
      }
      assert count as real / interval > 0.0;
      limiter := new Limiter(Limits(count as real, count as real / interval, if maxIPs <= 0 then DEFAULT_MAX_IPS else maxIPs));
    }

    method AllowAt(key: string, now: real) returns (ok: bool)
      requires Sane(limits) && Valid(limits, buckets)
      modifies this
      ensures Valid(limits, buckets)
      ensures buckets == Next(limits, old(buckets), key, now)
      ensures ok == Decide(limits, old(buckets), key, now).1
    {
      hide Gain;
      NextValid(limits, buckets, key, now);
      var b;
      if key in buckets.vals {
        b := buckets.vals[key];
        buckets := buckets.Touch(key);
      } else {
        b := Bucket(limits.capacity, now);
        buckets := buckets.Put(key, b, limits.maxKeys);
      }
      assert buckets == Admit(limits, old(buckets), key, now);
      var elapsed := now - b.last;
      if elapsed > 0.0 {
        b := Bucket(Min(limits.capacity, b.tokens + Gain(limits, elapsed)), now);
      }
      if b.tokens >= 1.0 {
        b := b.(tokens := b.tokens - 1.0);
        ok := true;
      } else {
        ok := false;
      }
      assert (b, ok) == Decide(limits, old(buckets), key, now);
      buckets := buckets.(vals := buckets.vals[key := b]);
    }
  }

  lemma RefillBounds(l: Limits, b: Bucket, now: real)
    requires l.rate > 0.0 && 0.0 <= b.tokens <= l.capacity
    ensures 0.0 <= Refill(l, b, now).tokens <= l.capacity
    ensures b.last <= now ==> Refill(l, b, now) == Bucket(Min(l.capacity, b.tokens + Gain(l, now - b.last)), now)
  {
    hide Gain;
    GainSign(l, now - b.last);
  }

  /** The table stays within bounds, the caller's bucket is the one decided on, at most
      the least recent client is dropped, and no other client's bucket changes. */
  lemma NextValid(l: Limits, s: Buckets, key: string, now: real)
    requires Sane(l) && Valid(l, s)
    ensures Valid(l, Next(l, s, key, now))
    ensures |Next(l, s, key, now).order| <= l.maxKeys
    ensures Next(l, s, key, now).vals == (s.vals - s.Victim(key, l.maxKeys))[key := Decide(l, s, key, now).0]
  {
    hide Gain, Refill, Admit;
    RefillBounds(l, BucketFor(l, s, key, now), now);
    AdmitKeepsValid(l, s, key, now);
  }

  lemma AdmitKeepsValid(l: Limits, s: Buckets, key: string, now: real)
    requires l.maxKeys > 0 && s.Valid(l.maxKeys)
    ensures Admit(l, s, key, now).Valid(l.maxKeys)
    ensures Admit(l, s, key, now).vals == (s.vals - s.Victim(key, l.maxKeys))[key := BucketFor(l, s, key, now)]
  {
    s.PutKeepsValid(key, Bucket(l.capacity, now), l.maxKeys);
    if key in s.vals {
      assert s.vals == (s.vals - {})[key := s.vals[key]];
    }
  }

  // ---- call histories -------------------------------------------------------

  datatype Call = Call(key: string, at: real)

  function Run(l: Limits, s: Buckets, calls: seq<Call>): Buckets
    requires l.maxKeys > 0
    decreases |calls|
  {
    if calls == [] then s else Run(l, Next(l, s, calls[0].key, calls[0].at), calls[1..])
  }

  /** How many of the client's requests get through. */
  function Allowed(l: Limits, s: Buckets, calls: seq<Call>, k: string): nat
    requires l.maxKeys > 0
    decreases |calls|
  {
    if calls == [] then 0
    else
      var c := calls[0];
      (if c.key == k && Decide(l, s, k, c.at).1 then 1 else 0) + Allowed(l, Next(l, s, c.key, c.at), calls[1..], k)
  }

  /** How often the client's bucket is pushed out of the table. */
  function Evictions(l: Limits, s: Buckets, calls: seq<Call>, k: string): nat
    requires l.maxKeys > 0
    decreases |calls|
  {
    if calls == [] then 0
    else
      var c := calls[0];
      var t := Next(l, s, c.key, c.at);
      (if k in s.vals && k !in t.vals then 1 else 0) + Evictions(l, t, calls[1..], k)
  }

  /** The clock of the history does not go back, and starts no earlier than the table. */
  ghost predicate Chronological(s: Buckets, calls: seq<Call>) {
    && (forall i, j :: 0 <= i < j < |calls| ==> calls[i].at <= calls[j].at)
    && (forall k, i :: k in s.vals && 0 <= i < |calls| ==> s.vals[k].last <= calls[i].at)
  }

  lemma ChronologicalTail(l: Limits, s: Buckets, calls: seq<Call>)
    requires Sane(l) && Valid(l, s) && calls != [] && Chronological(s, calls)
    ensures Chronological(Next(l, s, calls[0].key, calls[0].at), calls[1..])
  {
    var c := calls[0];
    NextValid(l, s, c.key, c.at);
  }

  // ---- the rate bound -------------------------------------------------------

  /** What the client could spend at a moment: its refilled tokens, or a full bucket if
      it is not tracked. This is the potential of the proof. */
  function Balance(l: Limits, s: Buckets, k: string, now: real): real {
    if k in s.vals then Refill(l, s.vals[k], now).tokens else l.capacity
  }

  lemma BalanceBounds(l: Limits, s: Buckets, k: string, now: real)
    requires Sane(l) && Valid(l, s)
    ensures 0.0 <= Balance(l, s, k, now) <= l.capacity
  {
    if k in s.vals { RefillBounds(l, s.vals[k], now); }
  }

  /** Later there is at most the refill more. */
  lemma RefillLater(l: Limits, b: Bucket, now: real, later: real)
    requires Sane(l) && 0.0 <= b.tokens <= l.capacity && b.last <= now <= later
    ensures Refill(l, b, later).tokens <= Refill(l, b, now).tokens + Gain(l, later - now)
  {
    hide Gain;
    GainSign(l, later - now);
    GainSign(l, now - b.last);
    GainAdds(l, now - b.last, later - now);
    assert now - b.last + (later - now) == later - b.last;
  }

  function One(b: bool): nat {
    if b then 1 else 0
  }

  /** One call: a token granted is a token spent, and only an eviction tops the balance up. */
  lemma BalancePays(l: Limits, s: Buckets, c: Call, k: string, later: real)
    requires Sane(l) && Valid(l, s) && c.at <= later
    requires forall x :: x in s.vals ==> s.vals[x].last <= c.at
    ensures var t := Next(l, s, c.key, c.at);
            var credit := if k in s.vals && k !in t.vals then l.capacity else 0.0;
            One(c.key == k && Decide(l, s, k, c.at).1) as real + Balance(l, t, k, later)
            <= Balance(l, s, k, c.at) + credit + Gain(l, later - c.at)
  {
    hide Gain, Refill, Next, Decide;
    NextValid(l, s, c.key, c.at);
    BalanceBounds(l, s, k, c.at);
    var t := Next(l, s, c.key, c.at);
    GainSign(l, later - c.at);
    if c.key == k {
      DecideSpends(l, s, k, c.at);
      RefillLater(l, t.vals[k], c.at, later);
    } else if k in t.vals {
      assert t.vals[k] == s.vals[k];
      RefillLater(l, t.vals[k], c.at, later);
    }
  }

  /** The bucket after a decision: what was there, less the token granted. */
  lemma DecideSpends(l: Limits, s: Buckets, k: string, now: real)
    requires Sane(l) && Valid(l, s) && (k in s.vals ==> s.vals[k].last <= now)
    ensures var (b, granted) := Decide(l, s, k, now);
            && b.last == now && 0.0 <= b.tokens <= l.capacity && Refill(l, b, now) == b
            && One(granted) as real + b.tokens == Balance(l, s, k, now)
            && (granted <==> Balance(l, s, k, now) >= 1.0)
  {
    hide Gain;
    RefillBounds(l, BucketFor(l, s, k, now), now);
  }

  /** That many full buckets, in tokens. */
  function Credit(l: Limits, evictions: nat): real {
    evictions as real * l.capacity
  }

  lemma CreditAdds(l: Limits, n: nat, first: bool)
    ensures Credit(l, One(first) + n) == (if first then l.capacity else 0.0) + Credit(l, n)
  {
  }

  lemma {:induction false} SpendingBound(l: Limits, s: Buckets, calls: seq<Call>, k: string)
    requires Sane(l) && Valid(l, s) && calls != [] && Chronological(s, calls)
    ensures Allowed(l, s, calls, k) as real
            <= Balance(l, s, k, calls[0].at) + Credit(l, Evictions(l, s, calls, k)) + Gain(l, calls[|calls| - 1].at - calls[0].at)
    decreases |calls|
  {
    hide Gain, Credit, Balance, Decide, Next;
    var c, t := calls[0], Next(l, s, calls[0].key, calls[0].at);
    NextValid(l, s, c.key, c.at);
    CreditAdds(l, Evictions(l, t, calls[1..], k), k in s.vals && k !in t.vals);
    if |calls| == 1 {
      assert calls[1..] == [];
      BalancePays(l, s, c, k, c.at);
      BalanceBounds(l, t, k, c.at);
      CreditAdds(l, 0, false);
      assert Credit(l, 0) == 0.0 by { CreditZero(l); }
    } else {
      var later, last := calls[1].at, calls[|calls| - 1].at;
      ChronologicalTail(l, s, calls);
      SpendingBound(l, t, calls[1..], k);
      BalancePays(l, s, c, k, later);
      GainAdds(l, last - later, later - c.at);
      assert last - later + (later - c.at) == last - c.at;
    }
  }

  lemma CreditZero(l: Limits)
    ensures Credit(l, 0) == 0.0
  {
  }

  /** Rate bound: over any stretch of calls, from any state the limiter can be in, the
      requests one client gets through number at most one full bucket, plus one per
      eviction of that client, plus the refill over the elapsed time. */
  lemma RateBound(l: Limits, s: Buckets, calls: seq<Call>, k: string)
    requires Sane(l) && Valid(l, s) && calls != [] && Chronological(s, calls)
    ensures Allowed(l, s, calls, k) as real
            <= Credit(l, Evictions(l, s, calls, k) + 1) + Gain(l, calls[|calls| - 1].at - calls[0].at)
  {
    hide Allowed, Evictions, Balance, Gain, Credit;
    SpendingBound(l, s, calls, k);
    BalanceBounds(l, s, k, calls[0].at);
    CreditAdds(l, Evictions(l, s, calls, k), true);
  }

  // ---- no honest client is turned away --------------------------------------

  /** The client can afford each of its calls, the first at once and the others once
      it has gained a token since the one before. */
  ghost predicate Affordable(l: Limits, s: Buckets, calls: seq<Call>, k: string) {
    && (forall a, b :: 0 <= a < b < |calls| && calls[a].key == k && calls[b].key == k ==> Gain(l, calls[b].at - calls[a].at) >= 1.0)
    && (k in s.vals ==> forall a :: 0 <= a < |calls| && calls[a].key == k ==>
                            s.vals[k].tokens + Gain(l, calls[a].at - s.vals[k].last) >= 1.0)
  }

  lemma AffordableTail(l: Limits, s: Buckets, calls: seq<Call>, k: string)
    requires Sane(l) && Valid(l, s) && calls != [] && Chronological(s, calls) && Affordable(l, s, calls, k)
    ensures Affordable(l, Next(l, s, calls[0].key, calls[0].at), calls[1..], k)
  {
    hide Gain, Refill, Next, Decide;
    var c, t, rest := calls[0], Next(l, s, calls[0].key, calls[0].at), calls[1..];
    NextValid(l, s, c.key, c.at);
    forall a, b | 0 <= a < b < |rest| && rest[a].key == k && rest[b].key == k
      ensures Gain(l, rest[b].at - rest[a].at) >= 1.0
    {
      assert rest[a] == calls[a + 1] && rest[b] == calls[b + 1];
    }
    forall a | k in t.vals && 0 <= a < |rest| && rest[a].key == k
      ensures t.vals[k].tokens + Gain(l, rest[a].at - t.vals[k].last) >= 1.0
    {
      assert rest[a] == calls[a + 1];
      if c.key == k {
        DecideSpends(l, s, k, c.at);
        assert Gain(l, calls[a + 1].at - calls[0].at) >= 1.0;
      }
    }
  }

  /** A client whose requests are at least one refill apart is never refused, however
      the others behave and whether or not it is evicted in between. */
  lemma {:induction false} SpacedCallsAreAllowed(l: Limits, s: Buckets, calls: seq<Call>, k: string, i: nat)
    requires Sane(l) && Valid(l, s) && Chronological(s, calls) && Affordable(l, s, calls, k)
    requires i < |calls| && calls[i].key == k
    ensures Decide(l, Run(l, s, calls[..i]), k, calls[i].at).1
    decreases |calls|
  {
    hide Gain;
    var c := calls[0];
    if i == 0 {
      assert calls[..0] == [];
      RefillBounds(l, BucketFor(l, s, k, c.at), c.at);
    } else {
      NextValid(l, s, c.key, c.at);
      ChronologicalTail(l, s, calls);
      AffordableTail(l, s, calls, k);
      SpacedCallsAreAllowed(l, Next(l, s, c.key, c.at), calls[1..], k, i - 1);
      assert calls[..i][1..] == calls[1..][..i - 1];
    }
  }

  // ---- clients are isolated -------------------------------------------------

  /** The shared limiter's answers to one client, in order. */
  function Answers(l: Limits, s: Buckets, calls: seq<Call>, k: string): seq<bool>
    requires l.maxKeys > 0
    decreases |calls|
  {
    if calls == [] then []
    else
      var c := calls[0];
      (if c.key == k then [Decide(l, s, k, c.at).1] else []) + Answers(l, Next(l, s, c.key, c.at), calls[1..], k)
  }

  /** The times of one client's calls. */
  function Times(calls: seq<Call>, k: string): seq<real> {
    if calls == [] then [] else (if calls[0].key == k then [calls[0].at] else []) + Times(calls[1..], k)
  }

  datatype Tracked = Untracked | Tracked(bucket: Bucket)

  function TrackedBucket(s: Buckets, k: string): Tracked {
    if k in s.vals then Tracked(s.vals[k]) else Untracked
  }

  /** The reference: one client with a bucket of its own and no table to be pushed out of. */
  function SoloAnswers(l: Limits, b: Tracked, times: seq<real>): seq<bool>
    decreases |times|
  {
    if times == [] then []
    else
      var r := Take(Refill(l, if b.Tracked? then b.bucket else Bucket(l.capacity, times[0]), times[0]));
      [r.1] + SoloAnswers(l, Tracked(r.0), times[1..])
  }

  /** Isolation: while a client is not evicted, the shared limiter answers it exactly as
      a bucket of its own would. No assumption on the clock. */
  lemma {:induction false} ClientsAreIsolated(l: Limits, s: Buckets, calls: seq<Call>, k: string)
    requires Sane(l) && Valid(l, s) && Evictions(l, s, calls, k) == 0
    ensures Answers(l, s, calls, k) == SoloAnswers(l, TrackedBucket(s, k), Times(calls, k))
    decreases |calls|
  {
    if calls != [] {
      hide Refill, Take;
      var c := calls[0];
      var t := Next(l, s, c.key, c.at);
      NextValid(l, s, c.key, c.at);
      ClientsAreIsolated(l, t, calls[1..], k);
      if c.key == k {
        assert Times(calls, k)[1..] == Times(calls[1..], k);
        assert TrackedBucket(t, k) == Tracked(Decide(l, s, k, c.at).0);
      } else {
        assert TrackedBucket(t, k) == TrackedBucket(s, k);
        assert Times(calls, k) == Times(calls[1..], k);
        assert Answers(l, s, calls, k) == Answers(l, t, calls[1..], k);
      }
    }
  }

  function Callers(calls: seq<Call>): set<string> {
    set c | c in calls :: c.key
  }

  /** And nobody is evicted while the clients seen fit the table. */
  lemma {:induction false} NoEvictionsWhileRoom(l: Limits, s: Buckets, calls: seq<Call>, k: string)
    requires Sane(l) && Valid(l, s) && |s.vals.Keys + Callers(calls)| <= l.maxKeys
    ensures Evictions(l, s, calls, k) == 0
    decreases |calls|
  {
    if calls != [] {
      var c := calls[0];
      NoEvictionOnce(l, s, calls);
      hide Decide, Next, Valid;
      NoEvictionsWhileRoom(l, Next(l, s, c.key, c.at), calls[1..], k);
    }
  }

  lemma NoEvictionOnce(l: Limits, s: Buckets, calls: seq<Call>)
    requires Sane(l) && Valid(l, s) && calls != [] && |s.vals.Keys + Callers(calls)| <= l.maxKeys
    ensures var t := Next(l, s, calls[0].key, calls[0].at);
            && Valid(l, t) && s.vals.Keys <= t.vals.Keys
            && |t.vals.Keys + Callers(calls[1..])| <= l.maxKeys
  {
    var c, t, seen := calls[0], Next(l, s, calls[0].key, calls[0].at), s.vals.Keys + Callers(calls);
    CallersTail(calls);
    RoomForOne(l, s, c.key, seen);
    KeysAfter(l, s, c.key, c.at);
    hide Next, Valid, Sane, Callers;
    SubsetSize(t.vals.Keys + Callers(calls[1..]), seen);
  }

  lemma CallersTail(calls: seq<Call>)
    requires calls != []
    ensures calls[0].key in Callers(calls) && Callers(calls[1..]) <= Callers(calls)
  {
    assert calls[0] in calls;
  }

  lemma KeysAfter(l: Limits, s: Buckets, key: string, now: real)
    requires Sane(l) && Valid(l, s) && s.Victim(key, l.maxKeys) == {}
    ensures Valid(l, Next(l, s, key, now)) && Next(l, s, key, now).vals.Keys == s.vals.Keys + {key}
  {
    hide Decide, Next;
    NextValid(l, s, key, now);
    assert s.vals - {} == s.vals;
  }

  lemma RoomForOne(l: Limits, s: Buckets, key: string, seen: set<string>)
    requires s.Valid(l.maxKeys) && s.vals.Keys <= seen && key in seen && |seen| <= l.maxKeys
    ensures s.Victim(key, l.maxKeys) == {}
  {
    if key !in s.vals {
      DistinctSize(s.order);
      assert Elems(s.order) == s.vals.Keys;
      SubsetSize(s.vals.Keys + {key}, seen);
    }
  }
}
