/**
 The idempotency cache in both forms the gateway can run on: in memory, and on the
 storage file. Every in-memory call holds one mutex throughout, so an interleaving of
 requests is a sequence of whole calls. Instants and the lifetime of an entry are
 nanoseconds; the storage file keeps whole seconds.
 */
module Idempotency {
  import opened Basics
  import opened Clock
  import opened Recency
  import Storage

  type Key = string

  datatype Response = Response(status: int, body: seq<bv8>, contentType: string)

  datatype Entry = Entry(response: Response, expires: int)

  /** One call of the contract both forms implement. Prune is background cleanup and
      concerns the storage file only. */
  datatype Op =
    | Lookup(key: Key)
    | ClaimInFlight(key: Key)
    | Store(key: Key, response: Response)
    | Abandon(key: Key)
    | Prune

  datatype Answer = Replay(response: Response) | InFlight | Miss | Claimed | Refused | Done

  /** A call, when it is made, and whether the storage file works for it. */
  datatype Timed = Timed(op: Op, at: int, works: bool)

  // ---- in memory ------------------------------------------------------------

  datatype Limits = Limits(capacity: nat, ttl: int)

  datatype CacheState = CacheState(entries: Lru<Key, Entry>, inflight: set<Key>)

  /** The stored entry for a key, if its lifetime has not run out. */
  function Live(c: CacheState, key: Key, now: int): Option<Entry> {
    if key in c.entries.vals && now < c.entries.vals[key].expires then Some(c.entries.vals[key]) else None
  }

  function CacheStep(l: Limits, c: CacheState, op: Op, now: int): (r: (CacheState, Answer)) {
    match op
    case Lookup(k) =>
      if k in c.inflight then (c, InFlight)
      else if k !in c.entries.vals then (c, Miss)
      else if now < c.entries.vals[k].expires then
        (c.(entries := c.entries.Touch(k)), Replay(c.entries.vals[k].response))
      else (c.(entries := c.entries.Touch(k).Drop(k)), Miss)
    case ClaimInFlight(k) =>
      if k in c.inflight then (c, Refused)
      else
        var touched := if k in c.entries.vals then c.(entries := c.entries.Touch(k)) else c;
        if Live(c, k, now).Some? then (touched, Refused)
        else (touched.(inflight := c.inflight + {k}), Claimed)
    case Store(k, resp) =>
      (CacheState(c.entries.Put(k, Entry(resp, now + l.ttl), l.capacity), c.inflight - {k}), Done)
    case Abandon(k) => (c.(inflight := c.inflight - {k}), Done)
    case Prune => (c, Done)
  }

  ghost predicate CacheValid(l: Limits, c: CacheState) {
    l.capacity > 0 && l.ttl > 0 && c.entries.Valid(l.capacity)
  }

  /** The keys a call pushes out of the bounded map. */
  function Evicts(l: Limits, c: CacheState, op: Op): set<Key> {
    if op.Store? then c.entries.Victim(op.key, l.capacity) else {}
  }

  lemma CacheStaysValid(l: Limits, c: CacheState, op: Op, now: int)
    requires CacheValid(l, c)
    ensures CacheValid(l, CacheStep(l, c, op, now).0)
  {
    hide Without;
    if op.Store? { c.entries.PutKeepsValid(op.key, Entry(op.response, now + l.ttl), l.capacity); }
  }

  /** What a call does to the map, without its recency order. */
  lemma CacheStepEntries(l: Limits, c: CacheState, op: Op, now: int)
    requires CacheValid(l, c)
    ensures CacheValid(l, CacheStep(l, c, op, now).0)
    ensures CacheStep(l, c, op, now).0.entries.vals == match op
              case Store(k, resp) => (c.entries.vals - Evicts(l, c, op))[k := Entry(resp, now + l.ttl)]
              case Lookup(k) =>
                if k !in c.inflight && k in c.entries.vals && c.entries.vals[k].expires <= now then c.entries.vals - {k}
                else c.entries.vals
              case _ => c.entries.vals
  {
    CacheStaysValid(l, c, op, now);
    hide CacheValid, Without;
    if op.Lookup? && op.key !in c.entries.vals { assert c.entries.vals - {op.key} == c.entries.vals; }
  }

  class Cache {
    const limits: Limits
    var entries: Lru<Key, Entry>
    var inflight: set<Key>

    function State(): CacheState
      reads this
    {
      CacheState(entries, inflight)
    }

    constructor (limits: Limits)
      ensures this.limits == limits && State() == CacheState(Lru([], map[]), {})
    {
      this.limits := limits;
      entries, inflight := Lru([], map[]), {};
    }

    /** A non-positive capacity or lifetime is a configuration error. */
    static method New(capacity: int, ttl: int) returns (cache: Cache?)
      ensures cache == null <==> capacity <= 0 || ttl <= 0
      ensures cache != null ==> fresh(cache) && cache.limits == Limits(capacity, ttl) && CacheValid(cache.limits, cache.State())
      ensures cache != null ==> cache.State() == CacheState(Lru([], map[]), {})
    {
      if capacity <= 0 || ttl <= 0 {
        return null;
      }
      cache := new Cache(Limits(capacity, ttl));
    }

    method Lookup(key: Key, now: int) returns (resp: Option<Response>, inFlight: bool)
      modifies this`entries
      ensures var (s, a) := CacheStep(limits, old(State()), Op.Lookup(key), now);
              State() == s && a == (if resp.Some? then Replay(resp.value) else if inFlight then InFlight else Miss)
      ensures !(resp.Some? && inFlight)
    {
      if key in inflight {
        return None, true;
      }
      if key in entries.vals {
        var e := entries.vals[key];
        entries := entries.Touch(key);
        if now < e.expires {
          return Some(e.response), false;
        }
        entries := entries.Drop(key);
      }
      return None, false;
    }

    method ClaimInFlight(key: Key, now: int) returns (claimed: bool)
      modifies this
      ensures var (s, a) := CacheStep(limits, old(State()), Op.ClaimInFlight(key), now);
              State() == s && a == (if claimed then Claimed else Refused)
    {
      if key in inflight {
        return false;
      }
      if key in entries.vals {
        var e := entries.vals[key];
        entries := entries.Touch(key);
        if now < e.expires {
          return false;
        }
      }
      inflight := inflight + {key};
      return true;
    }

    method Store(key: Key, resp: Response, now: int)
      modifies this
      ensures State() == CacheStep(limits, old(State()), Op.Store(key, resp), now).0
    {
      entries := entries.Put(key, Entry(resp, now + limits.ttl), limits.capacity);
      inflight := inflight - {key};
    }

    method Abandon(key: Key)
      modifies this`inflight
      ensures forall now :: State() == CacheStep(limits, old(State()), Op.Abandon(key), now).0
    {
      inflight := inflight - {key};
    }
  }

  // ---- on the storage file --------------------------------------------------

  /** One row: the response and the whole second from which it is expired. */
  datatype IdemRow = IdemRow(response: Response, expiresAt: int)

  /** The table is shared by all endpoints and keyed by key and endpoint. */
  type IdemTable = map<(Key, string), IdemRow>

  function GetLive(table: IdemTable, key: Key, endpoint: string, now: int): Option<IdemRow> {
    if (key, endpoint) in table && Unix(now) < table[(key, endpoint)].expiresAt then Some(table[(key, endpoint)]) else None
  }

  function RowFor(table: IdemTable, key: Key, endpoint: string): Option<IdemRow> {
    if (key, endpoint) in table then Some(table[(key, endpoint)]) else None
  }

  function PruneRows(table: IdemTable, now: int): IdemTable {
    map k | k in table && table[k].expiresAt > Unix(now) :: table[k]
  }

  datatype DurableState = DurableState(table: IdemTable, inflight: set<Key>)

  /** One call. `works` says that the gate is healthy and the call's statement succeeds;
      otherwise a lookup misses, a claim is decided without the file, and a response to
      be stored is dropped. */
  function DurableStep(endpoint: string, ttl: int, d: DurableState, op: Op, now: int, works: bool): (DurableState, Answer) {
    match op
    case Lookup(k) =>
      if k in d.inflight then (d, InFlight)
      else if works && GetLive(d.table, k, endpoint, now).Some? then
        (d, Replay(GetLive(d.table, k, endpoint, now).value.response))
      else (d, Miss)
    case ClaimInFlight(k) =>
      if (works && GetLive(d.table, k, endpoint, now).Some?) || k in d.inflight then (d, Refused)
      else (d.(inflight := d.inflight + {k}), Claimed)
    case Store(k, resp) =>
      (DurableState(if works then d.table[(k, endpoint) := IdemRow(resp, Unix(now + ttl))] else d.table, d.inflight - {k}), Done)
    case Abandon(k) => (d.(inflight := d.inflight - {k}), Done)
    case Prune => (if works then d.(table := PruneRows(d.table, now)) else d, Done)
  }

  /** The idempotency table of the storage file. `diskOk` says whether the engine carries
      a statement out; one that reports an error has had no effect. */
  class IdemStore {
    var rows: IdemTable

    method PutIdempotent(key: Key, endpoint: string, resp: Response, expiresAt: int, diskOk: bool) returns (ok: bool)
      modifies this
      ensures ok == diskOk
      ensures rows == if ok then old(rows)[(key, endpoint) := IdemRow(resp, Unix(expiresAt))] else old(rows)
    {
      ok := diskOk;
      if ok {
        rows := rows[(key, endpoint) := IdemRow(resp, Unix(expiresAt))];
      }
    }

    method GetIdempotent(key: Key, endpoint: string, now: int, diskOk: bool) returns (resp: Option<Response>, ok: bool)
      ensures ok == diskOk
      ensures resp.Some? <==> ok && GetLive(rows, key, endpoint, now).Some?
      ensures resp.Some? ==> resp.value == GetLive(rows, key, endpoint, now).value.response
    {
      if !diskOk {
        return None, false;
      }
      if (key, endpoint) !in rows {
        return None, true;
      }
      var row := rows[(key, endpoint)];
      if Unix(now) >= row.expiresAt {
        return None, true;
      }
      return Some(row.response), true;
    }

    method PruneIdempotency(now: int, diskOk: bool) returns (ok: bool)
      modifies this
      ensures ok == diskOk
      ensures rows == if ok then PruneRows(old(rows), now) else old(rows)
      ensures ok ==> forall k :: k in rows <==> k in old(rows) && Unix(now) < old(rows)[k].expiresAt
      ensures forall k :: k in rows ==> k in old(rows) && rows[k] == old(rows)[k]
    {
      ok := diskOk;
      if ok {
        rows := map k | k in rows && rows[k].expiresAt > Unix(now) :: rows[k];
      }
    }
  }

  class Durable {
    const gate: Storage.Gate
    const store: IdemStore
    const endpoint: string
    const ttl: int
    var inflight: set<Key>

    function State(): DurableState
      reads this, store
    {
      DurableState(store.rows, inflight)
    }

    constructor (gate: Storage.Gate, store: IdemStore, endpoint: string, ttl: int)
      ensures this.gate == gate && this.store == store && this.endpoint == endpoint && inflight == {}
      ensures this.ttl == if ttl <= 0 then 86_400 * SECOND else ttl
    {
      this.gate, this.store, this.endpoint, inflight := gate, store, endpoint, {};
      this.ttl := if ttl <= 0 then 86_400 * SECOND else ttl;
    }

    method Lookup(key: Key, now: int, diskOk: bool) returns (resp: Option<Response>, inFlight: bool)
      modifies gate
      ensures (State(), if resp.Some? then Replay(resp.value) else if inFlight then InFlight else Miss)
              == DurableStep(endpoint, ttl, old(State()), Op.Lookup(key), now, old(gate.healthy) && diskOk)
      ensures gate.healthy <==> old(gate.healthy) && (diskOk || key in inflight)
      ensures !(resp.Some? && inFlight)
    {
      if key in inflight {
        return None, true;
      }
      if !gate.healthy {
        return None, false;
      }
      var ok;
      resp, ok := store.GetIdempotent(key, endpoint, now, diskOk);
      if !ok {
        gate.ReportError();
      }
      inFlight := false;
    }

    method ClaimInFlight(key: Key, now: int, diskOk: bool) returns (claimed: bool)
      modifies this
      ensures var (s, a) := DurableStep(endpoint, ttl, old(State()), Op.ClaimInFlight(key), now, gate.healthy && diskOk);
              State() == s && a == (if claimed then Claimed else Refused)
    {
      if gate.healthy {
        var stored, ok := store.GetIdempotent(key, endpoint, now, diskOk);
        if stored.Some? {
          return false;
        }
      }
      if key in inflight {
        return false;
      }
      inflight := inflight + {key};
      return true;
    }

    method Store(key: Key, resp: Response, now: int, diskOk: bool)
      modifies this, store, gate
      ensures State() == DurableStep(endpoint, ttl, old(State()), Op.Store(key, resp), now, old(gate.healthy) && diskOk).0
      ensures gate.healthy <==> old(gate.healthy) && diskOk
    {
      if gate.healthy {
        var ok := store.PutIdempotent(key, endpoint, resp, now + ttl, diskOk);
        if !ok {
          gate.ReportError();
        }
      }
      inflight := inflight - {key};
    }

    method Abandon(key: Key)
      modifies this
      ensures forall now, works :: State() == DurableStep(endpoint, ttl, old(State()), Op.Abandon(key), now, works).0
    {
      inflight := inflight - {key};
    }
  }

  // ---- answers over a sequence of calls -------------------------------------

  function CacheAnswers(l: Limits, c: CacheState, ops: seq<Timed>): (r: seq<Answer>)
    ensures |r| == |ops|
    decreases |ops|
  {
    if ops == [] then []
    else
      var (d, a) := CacheStep(l, c, ops[0].op, ops[0].at);
      [a] + CacheAnswers(l, d, ops[1..])
  }

  function DurableAnswers(endpoint: string, ttl: int, d: DurableState, ops: seq<Timed>): (r: seq<Answer>)
    ensures |r| == |ops|
    decreases |ops|
  {
    if ops == [] then []
    else
      var (e, a) := DurableStep(endpoint, ttl, d, ops[0].op, ops[0].at, ops[0].works);
      [a] + DurableAnswers(endpoint, ttl, e, ops[1..])
  }

  ghost predicate Chronological(ops: seq<Timed>) {
    forall i, j :: 0 <= i < j < |ops| ==> ops[i].at <= ops[j].at
  }

  ghost predicate WholeSeconds(ops: seq<Timed>) {
    forall i :: 0 <= i < |ops| ==> ops[i].at % SECOND == 0
  }

  ghost predicate AlwaysWorks(ops: seq<Timed>) {
    forall i :: 0 <= i < |ops| ==> ops[i].works
  }

  /** No call of the sequence pushes a key out of the bounded map. */
  ghost predicate EvictionFree(l: Limits, c: CacheState, ops: seq<Timed>)
    decreases |ops|
  {
    ops == [] || (Evicts(l, c, ops[0].op) == {} && EvictionFree(l, CacheStep(l, c, ops[0].op, ops[0].at).0, ops[1..]))
  }

  // ---- the two forms agree --------------------------------------------------

  /** Both forms hold the same claims and the same live entries. Expired leftovers may
      differ: the cache drops them on lookup, the file when it is pruned. */
  ghost predicate Agree(endpoint: string, c: CacheState, d: DurableState, now: int) {
    && c.inflight == d.inflight
    && forall k :: EntryAgrees(Live(c, k, now), GetLive(d.table, k, endpoint, now))
  }

  predicate EntryAgrees(e: Option<Entry>, row: Option<IdemRow>) {
    match (e, row)
    case (None, None) => true
    case (Some(e), Some(row)) => e.response == row.response && e.expires == row.expiresAt * SECOND
    case _ => false
  }

  lemma WholeSecond(t: int)
    requires t % SECOND == 0
    ensures Unix(t) * SECOND == t
  {
  }

  /** Time alone cannot make them disagree. */
  lemma AgreeLater(endpoint: string, c: CacheState, d: DurableState, now: int, later: int)
    requires Agree(endpoint, c, d, now) && now <= later && now % SECOND == 0 && later % SECOND == 0
    ensures Agree(endpoint, c, d, later)
  {
    forall k ensures EntryAgrees(Live(c, k, later), GetLive(d.table, k, endpoint, later)) {
      EntryAgreesLater(endpoint, c, d, now, later, k);
    }
  }

  lemma EntryAgreesLater(endpoint: string, c: CacheState, d: DurableState, now: int, later: int, k: Key)
    requires EntryAgrees(Live(c, k, now), GetLive(d.table, k, endpoint, now))
    requires now <= later && now % SECOND == 0 && later % SECOND == 0
    ensures EntryAgrees(Live(c, k, later), GetLive(d.table, k, endpoint, later))
  {
    WholeSecond(now);
    WholeSecond(later);
    UnixMonotone(now, later);
  }

  /** A call changes the live entry of no key but the one it stores. */
  lemma LiveAfter(l: Limits, c: CacheState, op: Op, now: int, k: Key)
    requires CacheValid(l, c) && Evicts(l, c, op) == {}
    ensures Live(CacheStep(l, c, op, now).0, k, now)
            == if op.Store? && op.key == k then Some(Entry(op.response, now + l.ttl)) else Live(c, k, now)
  {
    CacheStepEntries(l, c, op, now);
    hide CacheStep;
  }

  lemma LiveRowAfter(endpoint: string, ttl: int, d: DurableState, op: Op, now: int, k: Key)
    requires Unix(now) < Unix(now + ttl)
    ensures GetLive(DurableStep(endpoint, ttl, d, op, now, true).0.table, k, endpoint, now)
            == if op.Store? && op.key == k then Some(IdemRow(op.response, Unix(now + ttl))) else GetLive(d.table, k, endpoint, now)
  {
    hide Unix;
  }

  /** One call leaves every key's entries in agreement. */
  lemma StepAgreesAt(l: Limits, endpoint: string, c: CacheState, d: DurableState, op: Op, now: int, k: Key)
    requires CacheValid(l, c) && l.ttl % SECOND == 0 && now % SECOND == 0 && Evicts(l, c, op) == {}
    requires EntryAgrees(Live(c, k, now), GetLive(d.table, k, endpoint, now))
    ensures EntryAgrees(Live(CacheStep(l, c, op, now).0, k, now),
                        GetLive(DurableStep(endpoint, l.ttl, d, op, now, true).0.table, k, endpoint, now))
  {
    WholeSecond(now);
    WholeSecond(now + l.ttl);
    assert l.ttl > 0;
    LiveAfter(l, c, op, now, k);
    LiveRowAfter(endpoint, l.ttl, d, op, now, k);
    hide CacheStep, DurableStep, CacheValid, Live, GetLive;
  }

  lemma SameAnswer(l: Limits, endpoint: string, c: CacheState, d: DurableState, op: Op, now: int)
    requires Agree(endpoint, c, d, now) && !op.Prune?
    ensures CacheStep(l, c, op, now).1 == DurableStep(endpoint, l.ttl, d, op, now, true).1
    ensures CacheStep(l, c, op, now).0.inflight == DurableStep(endpoint, l.ttl, d, op, now, true).0.inflight
  {
    assert EntryAgrees(Live(c, op.key, now), GetLive(d.table, op.key, endpoint, now));
  }

  /** One call: same answer, and agreement is kept. */
  lemma StepAgrees(l: Limits, endpoint: string, c: CacheState, d: DurableState, op: Op, now: int)
    requires CacheValid(l, c) && l.ttl % SECOND == 0 && now % SECOND == 0
    requires Agree(endpoint, c, d, now) && Evicts(l, c, op) == {}
    ensures var (c', a) := CacheStep(l, c, op, now);
            var (d', b) := DurableStep(endpoint, l.ttl, d, op, now, true);
            CacheValid(l, c') && Agree(endpoint, c', d', now) && (op.Prune? || a == b)
  {
    CacheStepEntries(l, c, op, now);
    if !op.Prune? {
      SameAnswer(l, endpoint, c, d, op, now);
      hide CacheStep, DurableStep;
    }
    forall k
      ensures EntryAgrees(Live(CacheStep(l, c, op, now).0, k, now),
                          GetLive(DurableStep(endpoint, l.ttl, d, op, now, true).0.table, k, endpoint, now))
    {
      StepAgreesAt(l, endpoint, c, d, op, now, k);
    }
  }

  lemma EmptyFormsAgree(endpoint: string, now: int)
    ensures Agree(endpoint, CacheState(Lru([], map[]), {}), DurableState(map[], {}), now)
  {
  }

  /** Refinement: with healthy storage, a clock in whole seconds that does not go back, a
      lifetime in whole seconds and no eviction, the two forms answer every sequence of
      calls alike, and pruning the file in between cannot be observed. */
  lemma {:induction false} DurableRefinesCache(l: Limits, endpoint: string, c: CacheState, d: DurableState, ops: seq<Timed>, now: int)
    requires CacheValid(l, c) && l.ttl % SECOND == 0 && now % SECOND == 0
    requires Agree(endpoint, c, d, now) && Chronological(ops) && WholeSeconds(ops) && AlwaysWorks(ops) && EvictionFree(l, c, ops)
    requires forall i :: 0 <= i < |ops| ==> now <= ops[i].at
    ensures CacheAnswers(l, c, ops) == DurableAnswers(endpoint, l.ttl, d, ops)
    decreases |ops|
  {
    if ops != [] {
      var op, at := ops[0].op, ops[0].at;
      AgreeLater(endpoint, c, d, now, at);
      StepAgrees(l, endpoint, c, d, op, at);
      DurableRefinesCache(l, endpoint, CacheStep(l, c, op, at).0, DurableStep(endpoint, l.ttl, d, op, at, true).0, ops[1..], at);
    }
  }

  /** Other endpoints' rows are never touched, except by pruning what has expired. */
  lemma EndpointsDoNotCollide(endpoint: string, ttl: int, d: DurableState, op: Op, now: int, works: bool, key: Key, other: string)
    requires other != endpoint
    ensures GetLive(DurableStep(endpoint, ttl, d, op, now, works).0.table, key, other, now) == GetLive(d.table, key, other, now)
  {
  }

  // ---- deadlines to the nanosecond ------------------------------------------

  /** Stored at s, asked at t: the file serves the entry exactly when the whole second of
      t is before that of the deadline. So it is never served at or past the deadline,
      and is always served up to a second before it. */
  lemma DurableDeadline(endpoint: string, ttl: int, d: DurableState, k: Key, resp: Response, s: int, t: int)
    requires k !in d.inflight
    ensures var e := DurableStep(endpoint, ttl, d, Store(k, resp), s, true).0;
            var a := DurableStep(endpoint, ttl, e, Lookup(k), t, true).1;
            && (a == Replay(resp) <==> Unix(t) < Unix(s + ttl))
            && (a == Replay(resp) ==> t < s + ttl)
            && (t + SECOND <= s + ttl ==> a == Replay(resp))
            && (a == Replay(resp) || a == Miss)
  {
    UnixShift(t, 1);
    if t + SECOND <= s + ttl { UnixMonotone(t + SECOND, s + ttl); }
    if s + ttl <= t { UnixMonotone(s + ttl, t); }
  }
}
