/** Which clients the rate limiter still remembers, said about the calls alone. */
module RateLimitRecency {
  import opened Collections
  import opened Recency
  import opened RecencyLaw
  import opened RateLimit

  const FRESH: Buckets := Lru([], map[])

  function Keys(calls: seq<Call>): seq<string> {
    seq(|calls|, i requires 0 <= i < |calls| => calls[i].key)
  }

  /** The distinct other clients that have called since this client's last call. */
  function OthersSince(calls: seq<Call>, k: string): set<string> {
    if calls == [] || calls[|calls| - 1].key == k then {}
    else OthersSince(calls[..|calls| - 1], k) + {calls[|calls| - 1].key}
  }

  lemma {:induction false} OthersAreSince(calls: seq<Call>, k: string)
    ensures OthersSince(calls, k) == Since(Keys(calls), k)
  {
    if calls != [] {
      OthersAreSince(calls[..|calls| - 1], k);
      assert Keys(calls)[..|calls| - 1] == Keys(calls[..|calls| - 1]);
    }
  }

  lemma {:induction false} RunSnoc(l: Limits, s: Buckets, calls: seq<Call>, c: Call)
    requires l.maxKeys > 0
    ensures Run(l, s, calls + [c]) == Next(l, Run(l, s, calls), c.key, c.at)
    decreases |calls|
  {
    hide Next;
    if calls == [] {
      assert calls + [c] == [c] && [c][1..] == [];
    } else {
      assert (calls + [c])[1..] == calls[1..] + [c];
      RunSnoc(l, Next(l, s, calls[0].key, calls[0].at), calls[1..], c);
    }
  }

  lemma NextOrder(l: Limits, s: Buckets, key: string, now: real)
    requires l.maxKeys > 0
    ensures Next(l, s, key, now).order == Used(s, key, l.maxKeys)
  {
    hide Decide;
    UsedOrder(s, key, Bucket(l.capacity, now), l.maxKeys);
  }

  lemma {:induction false} TableHoldsLatest(l: Limits, calls: seq<Call>)
    requires Sane(l)
    ensures Valid(l, Run(l, FRESH, calls)) && HoldsLatest(Run(l, FRESH, calls), Keys(calls), l.maxKeys)
  {
    if calls != [] {
      var front, c := calls[..|calls| - 1], calls[|calls| - 1];
      var s := Run(l, FRESH, front);
      TableHoldsLatest(l, front);
      assert calls == front + [c] && Keys(calls) == Keys(front) + [c.key];
      RunSnoc(l, FRESH, front, c);
      NextValid(l, s, c.key, c.at);
      NextOrder(l, s, c.key, c.at);
      hide Run, Next, HoldsLatest, Decide;
      UseKeepsLatest(s, Next(l, s, c.key, c.at), Keys(front), l.maxKeys, c.key);
    }
  }

  /** After any history from the empty table, a client is tracked exactly if it has called
      and fewer than maxKeys distinct other clients have called since its last call. */
  lemma TrackedIffCalledLately(l: Limits, calls: seq<Call>, k: string)
    requires Sane(l)
    ensures k in Run(l, FRESH, calls).vals <==>
            (exists i :: 0 <= i < |calls| && calls[i].key == k) && |OthersSince(calls, k)| < l.maxKeys
  {
    TableHoldsLatest(l, calls);
    OthersAreSince(calls, k);
    LatestAreHeld(Run(l, FRESH, calls), Keys(calls), l.maxKeys, k);
    hide Run, HoldsLatest, OthersSince, Since;
    if k in Keys(calls) {
      var i :| 0 <= i < |Keys(calls)| && Keys(calls)[i] == k;
      assert calls[i].key == k;
    }
    if i :| 0 <= i < |calls| && calls[i].key == k {
      assert Keys(calls)[i] == k;
    }
  }
}
