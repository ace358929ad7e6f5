/**
 Accounting of concurrent SMTP connections: one global counter and one per client
 address, changed under a mutex. A connection that gets a slot gives it back once.
 */
module ConnSlots {
  import opened SmtpConfig

  datatype Slots = Slots(active: int, perIP: map<string, int>)

  function Held(perIP: map<string, int>, ip: string): int {
    if ip in perIP then perIP[ip] else 0
  }

  predicate HasRoom(cfg: ListenerConfig, s: Slots, ip: string) {
    s.active < EffectiveMaxConnections(cfg) && Held(s.perIP, ip) < EffectiveMaxConnectionsPerIP(cfg)
  }

  function Acquired(s: Slots, ip: string): Slots {
    Slots(s.active + 1, s.perIP[ip := Held(s.perIP, ip) + 1])
  }

  function Released(s: Slots, ip: string): Slots {
    var n := Held(s.perIP, ip) - 1;
    Slots(s.active - 1, if n > 0 then s.perIP[ip := n] else s.perIP - {ip})
  }

  class SlotTable {
    const cfg: ListenerConfig
    var activeConns: int
    var perIPConns: map<string, int>

    function Current(): Slots
      reads this
    {
      Slots(activeConns, perIPConns)
    }

    constructor (cfg: ListenerConfig)
      ensures this.cfg == cfg && Current() == Slots(0, map[])
    {
      this.cfg, activeConns, perIPConns := cfg, 0, map[];
    }

    method AcquireConnSlot(ip: string) returns (ok: bool)
      modifies this
      ensures ok == HasRoom(cfg, old(Current()), ip)
      ensures Current() == if ok then Acquired(old(Current()), ip) else old(Current())
    {
      if activeConns >= EffectiveMaxConnections(cfg) { return false; }
      if Held(perIPConns, ip) >= EffectiveMaxConnectionsPerIP(cfg) { return false; }
      activeConns := activeConns + 1;
      perIPConns := perIPConns[ip := Held(perIPConns, ip) + 1];
      return true;
    }

    method ReleaseConnSlot(ip: string)
      modifies this
      ensures Current() == Released(old(Current()), ip)
    {
      activeConns := activeConns - 1;
      var n := Held(perIPConns, ip) - 1;
      if n > 0 {
        perIPConns := perIPConns[ip := n];
      } else {
        perIPConns := perIPConns - {ip};
      }
    }
  }

  // ---- every interleaving of connections ------------------------------------

  datatype Event = Arrive(ip: string) | Leave(ip: string)

  /** The table together with the connections that hold a slot. */
  datatype World = World(slots: Slots, holders: multiset<string>)

  const IDLE := World(Slots(0, map[]), multiset{})

  /** Anyone may connect; only a holder can leave. */
  predicate Enabled(w: World, e: Event) {
    e.Leave? ==> e.ip in w.holders
  }

  function Apply(cfg: ListenerConfig, w: World, e: Event): World {
    match e
    case Arrive(ip) =>
      if HasRoom(cfg, w.slots, ip) then World(Acquired(w.slots, ip), w.holders + multiset{ip}) else w
    case Leave(ip) => World(Released(w.slots, ip), w.holders - multiset{ip})
  }

  ghost predicate IsRun(cfg: ListenerConfig, w: World, es: seq<Event>)
    decreases |es|
  {
    es == [] || (Enabled(w, es[0]) && IsRun(cfg, Apply(cfg, w, es[0]), es[1..]))
  }

  function Exec(cfg: ListenerConfig, w: World, es: seq<Event>): World
    decreases |es|
  {
    if es == [] then w else Exec(cfg, Apply(cfg, w, es[0]), es[1..])
  }

  /** The sum of the per-address counters. */
  ghost function Total(m: map<string, int>): int
    decreases |m|
  {
    if m == map[] then 0
    else
      var k :| k in m;
      m[k] + Total(m - {k})
  }

  /** Any address may be taken first. */
  lemma {:induction false} TotalSplit(m: map<string, int>, ip: string)
    requires ip in m
    ensures Total(m) == m[ip] + Total(m - {ip})
    decreases |m|
  {
    var k :| k in m && Total(m) == m[k] + Total(m - {k});
    if k != ip {
      TotalSplit(m - {k}, ip);
      TotalSplit(m - {ip}, k);
      assert m - {k} - {ip} == m - {ip} - {k};
    }
  }

  lemma TotalUpdate(m: map<string, int>, ip: string, n: int)
    ensures Total(m[ip := n]) == Total(m) - Held(m, ip) + n
    ensures Total(m - {ip}) == Total(m) - Held(m, ip)
  {
    TotalSplit(m[ip := n], ip);
    assert m[ip := n] - {ip} == m - {ip};
    if ip in m {
      TotalSplit(m, ip);
    } else {
      assert m - {ip} == m;
    }
  }

  ghost predicate Accounted(cfg: ListenerConfig, w: World) {
    && w.slots.active == |w.holders| == Total(w.slots.perIP)
    && w.slots.active <= EffectiveMaxConnections(cfg)
    && (forall ip :: Held(w.slots.perIP, ip) == w.holders[ip])
    && (forall ip :: ip in w.slots.perIP ==> 0 < w.slots.perIP[ip] <= EffectiveMaxConnectionsPerIP(cfg))
  }

  lemma StepKeepsAccounts(cfg: ListenerConfig, w: World, e: Event)
    requires Accounted(cfg, w) && Enabled(w, e)
    ensures Accounted(cfg, Apply(cfg, w, e))
  {
    TotalUpdate(w.slots.perIP, e.ip, Held(w.slots.perIP, e.ip) + 1);
    TotalUpdate(w.slots.perIP, e.ip, Held(w.slots.perIP, e.ip) - 1);
    assert Held(w.slots.perIP, e.ip) == w.holders[e.ip];
    hide Total;
    var w' := Apply(cfg, w, e);
    forall ip ensures Held(w'.slots.perIP, ip) == w'.holders[ip] {
      assert Held(w.slots.perIP, ip) == w.holders[ip];
    }
  }

  /** Over every interleaving of connections, the global counter is the number of live
      connections and the sum of the per-address counters, each of which is that
      address's live connections; both caps hold; and no address without a live
      connection keeps an entry. */
  lemma {:induction false} SlotsAreAccountedFor(cfg: ListenerConfig, w: World, es: seq<Event>)
    requires Accounted(cfg, w) && IsRun(cfg, w, es)
    ensures Accounted(cfg, Exec(cfg, w, es))
    decreases |es|
  {
    if es != [] {
      StepKeepsAccounts(cfg, w, es[0]);
      SlotsAreAccountedFor(cfg, Apply(cfg, w, es[0]), es[1..]);
    }
  }

  lemma IdleIsAccountedFor(cfg: ListenerConfig)
    ensures Accounted(cfg, IDLE)
  {
    assert Total(map[]) == 0;
  }

  /** A client that connects gets a slot exactly when fewer connections than the cap are
      live, and fewer from its address than the cap per address; the caps are 100 and 16
      unless set. One that gets none changes nothing. */
  lemma SlotIsGrantedIff(cfg: ListenerConfig, es: seq<Event>, ip: string)
    requires IsRun(cfg, IDLE, es)
    ensures var w := Exec(cfg, IDLE, es);
            var after := Apply(cfg, w, Arrive(ip));
            var granted := && |w.holders| < (if cfg.maxConnections > 0 then cfg.maxConnections else 100)
                           && w.holders[ip] < (if cfg.maxConnectionsPerIP > 0 then cfg.maxConnectionsPerIP else 16);
            && (HasRoom(cfg, w.slots, ip) <==> granted)
            && (granted ==> after.holders == w.holders + multiset{ip})
            && (!granted ==> after == w)
  {
    IdleIsAccountedFor(cfg);
    SlotsAreAccountedFor(cfg, IDLE, es);
    hide Total, Exec, IsRun, Acquired;
    assert Held(Exec(cfg, IDLE, es).slots.perIP, ip) == Exec(cfg, IDLE, es).holders[ip];
  }

  /** A connection that ends makes room for another one from its address. */
  lemma LeavingMakesRoom(cfg: ListenerConfig, es: seq<Event>, ip: string)
    requires IsRun(cfg, IDLE, es) && Enabled(Exec(cfg, IDLE, es), Leave(ip))
    ensures var w := Exec(cfg, IDLE, es);
            && Apply(cfg, w, Leave(ip)).holders == w.holders - multiset{ip}
            && HasRoom(cfg, Apply(cfg, w, Leave(ip)).slots, ip)
  {
    IdleIsAccountedFor(cfg);
    SlotsAreAccountedFor(cfg, IDLE, es);
    var w := Exec(cfg, IDLE, es);
    assert Held(w.slots.perIP, ip) == w.holders[ip];
    hide Total, Exec, IsRun, Acquired;
  }
}
