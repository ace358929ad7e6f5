/** Which entry the in-memory idempotency cache gives up when it is full. */
module IdempotencyRecency {
  import opened Collections
  import opened Recency
  import opened RecencyLaw
  import opened Idempotency
  import opened IdempotencySafety

  const EMPTY := CacheState(Lru([], map[]), {})

  /** The key whose stored entry a call stores or looks at, if any. */
  function UsedBy(c: CacheState, op: Op): seq<Key> {
    match op
    case Store(k, _) => [k]
    case Lookup(k) => if k !in c.inflight && k in c.entries.vals then [k] else []
    case ClaimInFlight(k) => if k !in c.inflight && k in c.entries.vals then [k] else []
    case _ => []
  }

  function Uses(l: Limits, c: CacheState, ops: seq<Timed>): seq<Key>
    decreases |ops|
  {
    if ops == [] then []
    else UsedBy(c, ops[0].op) + Uses(l, CacheStep(l, c, ops[0].op, ops[0].at).0, ops[1..])
  }

  /** Whatever stands behind an entry has been used since. */
  ghost predicate InOrderOfUse(c: CacheState, uses: seq<Key>) {
    forall k :: k in c.entries.order ==> After(c.entries.order, k) <= Since(uses, k)
  }

  lemma UseKeepsOrder(c: CacheState, d: CacheState, uses: seq<Key>, x: Key, capacity: nat)
    requires c.entries.Valid(capacity) && capacity > 0 && InOrderOfUse(c, uses)
    requires d.entries.order == Used(c.entries, x, capacity)
    ensures InOrderOfUse(d, uses + [x])
  {
    hide Since, After, Used;
    forall k | k in d.entries.order ensures After(d.entries.order, k) <= Since(uses + [x], k) {
      SinceNext(uses, x, k);
      if k == x { NewestIsLast(c.entries, x, capacity); } else { OthersMove(c.entries, x, capacity, k); }
    }
  }

  lemma DropKeepsOrder(c: CacheState, d: CacheState, uses: seq<Key>, x: Key)
    requires c.entries.Listed() && InOrderOfUse(c, uses)
    requires d.entries.order == Without(c.entries.order, x)
    ensures InOrderOfUse(d, uses)
  {
    hide Since, After;
    forall k | k in d.entries.order ensures After(d.entries.order, k) <= Since(uses, k) {
      AfterWithout(c.entries.order, x, k);
    }
  }

  lemma StepKeepsOrder(l: Limits, c: CacheState, op: Op, at: int, uses: seq<Key>)
    requires CacheValid(l, c) && InOrderOfUse(c, uses)
    ensures InOrderOfUse(CacheStep(l, c, op, at).0, uses + UsedBy(c, op))
  {
    var d := CacheStep(l, c, op, at).0;
    assert uses + [] == uses;
    hide InOrderOfUse, Used;
    match op
    case Store(k, resp) =>
      UsedOrder(c.entries, k, Entry(resp, at + l.ttl), l.capacity);
      UseKeepsOrder(c, d, uses, k, l.capacity);
    case Lookup(k) =>
      if UsedBy(c, op) != [] {
        UsedOrder(c.entries, k, c.entries.vals[k], l.capacity);
        var touched := c.(entries := c.entries.Touch(k));
        UseKeepsOrder(c, touched, uses, k, l.capacity);
        if d != touched { DropKeepsOrder(touched, d, uses + [k], k); }
      }
    case ClaimInFlight(k) =>
      if UsedBy(c, op) != [] {
        UsedOrder(c.entries, k, c.entries.vals[k], l.capacity);
        UseKeepsOrder(c, d, uses, k, l.capacity);
      }
    case _ =>
  }

  lemma {:induction false} RunKeepsOrder(l: Limits, c: CacheState, ops: seq<Timed>, uses: seq<Key>)
    requires CacheValid(l, c) && InOrderOfUse(c, uses)
    ensures CacheValid(l, CacheAt(l, c, ops, |ops|)) && InOrderOfUse(CacheAt(l, c, ops, |ops|), uses + Uses(l, c, ops))
    decreases |ops|
  {
    if ops == [] {
      assert uses + [] == uses;
    } else {
      hide CacheStep, CacheValid, InOrderOfUse, UsedBy;
      var op, at := ops[0].op, ops[0].at;
      var d := CacheStep(l, c, op, at).0;
      CacheStaysValid(l, c, op, at);
      StepKeepsOrder(l, c, op, at, uses);
      RunKeepsOrder(l, d, ops[1..], uses + UsedBy(c, op));
      assert uses + UsedBy(c, op) + Uses(l, d, ops[1..]) == uses + (UsedBy(c, op) + Uses(l, d, ops[1..]));
    }
  }

  /** Storing a response pushes an entry out exactly if its key is new and the cache is
      full, and then the one entry that every other has been used after: stored, looked
      up or claimed against. */
  lemma LeastRecentIsEvicted(l: Limits, ops: seq<Timed>, k: Key, resp: Response)
    requires l.capacity > 0 && l.ttl > 0
    ensures var c := CacheAt(l, EMPTY, ops, |ops|);
            var evicted := Evicts(l, c, Store(k, resp));
            && (evicted == {} <==> k in c.entries.vals || |c.entries.vals| < l.capacity)
            && (forall v :: v in evicted ==>
                  && evicted == {v} && v in c.entries.vals && v != k
                  && forall x :: x in c.entries.vals && x != v ==> x in Since(Uses(l, EMPTY, ops), v))
  {
    RunKeepsOrder(l, EMPTY, ops, []);
    assert [] + Uses(l, EMPTY, ops) == Uses(l, EMPTY, ops);
    hide CacheAt, Uses, Since;
    var c := CacheAt(l, EMPTY, ops, |ops|);
    var order := c.entries.order;
    DistinctSize(order);
    assert Elems(order) == c.entries.vals.Keys;
    if order != [] { ElemsTail(order); }
  }
}
