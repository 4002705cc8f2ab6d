/** The fixed-window rate limiter with its bounded map, sweeps and eviction
    (internal/middleware/security.go). */
module RateLimiter {
  import opened Wrappers

  datatype Window = Window(count: int, start: int)

  type Clients = map<string, Window>

  const OPPORTUNISTIC_CLEANUP_EVERY := 128

  /** limit and window as configured; entries older than twice the window may be swept. */
  datatype Config = Config(limit: int, window: int, maxClients: int)

  /** time.NewTicker panics on an interval that is not positive, so every limiter has window > 0. */
  predicate ValidConfig(cfg: Config) {
    cfg.window > 0
  }

  function CleanTTL(cfg: Config): int {
    cfg.window * 2
  }

  /** Whether a request opens a new window: no entry, or the entry's window has run out. */
  predicate Opens(cfg: Config, w: Option<Window>, now: int) {
    w.None? || now - w.value.start > cfg.window
  }

  /** The entry after one request and the decision, for one key on its own. */
  function Decide(cfg: Config, w: Option<Window>, now: int): (Window, bool) {
    if Opens(cfg, w, now) then (Window(1, now), true)
    else (Window(w.value.count + 1, w.value.start), w.value.count + 1 <= cfg.limit)
  }

  function Lookup(m: Clients, key: string): Option<Window> {
    if key in m then Some(m[key]) else None
  }

  function Swept(cfg: Config, m: Clients, now: int): Clients {
    map k | k in m && now - m[k].start <= CleanTTL(cfg) :: m[k]
  }

  /** Evicting takes out one entry that no other entry is older than. */
  ghost predicate EvictsOldest(m: Clients, m': Clients) {
    if m == map[] then m' == m
    else exists k :: k in m && m' == m - {k} && forall k' :: k' in m ==> m[k].start <= m[k'].start
  }

  predicate MustEvict(cfg: Config, m: Clients) {
    cfg.maxClients > 0 && |m| >= cfg.maxClients
  }

  class Limiter {
    const cfg: Config
    var clients: Clients
    var insertCount: nat

    ghost predicate Valid()
      reads this
    {
      && ValidConfig(cfg)
      && "" !in clients
      && (cfg.maxClients > 0 ==> |clients| <= cfg.maxClients)
    }

    constructor (cfg: Config)
      requires ValidConfig(cfg)
      ensures Valid() && this.cfg == cfg && clients == map[]
    {
      this.cfg := cfg;
      clients, insertCount := map[], 0;
    }

    method Cleanup(now: int)
      requires Valid()
      modifies this`clients
      ensures Valid() && clients == Swept(cfg, old(clients), now)
      ensures forall k :: k in clients <==> k in old(clients) && now - old(clients)[k].start <= cfg.window + cfg.window
    {
      var todo := clients.Keys;
      while todo != {}
        invariant todo <= old(clients).Keys
        invariant clients == map k | k in old(clients)
                    && (k in todo || now - old(clients)[k].start <= CleanTTL(cfg)) :: old(clients)[k]
        decreases |todo|
      {
        var key :| key in todo;
        todo := todo - {key};
        if now - clients[key].start > CleanTTL(cfg) {
          clients := clients - {key};
        }
      }
      SubmapSize(clients, old(clients));
    }

    /** The scan keeps the oldest entry seen so far; map order is arbitrary. */
    method EvictOldest()
      requires ValidConfig(cfg) && "" !in clients
      modifies this`clients
      ensures EvictsOldest(old(clients), clients)
    {
      var oldestKey, oldestTime, first := "", 0, true;
      var todo := clients.Keys;
      while todo != {}
        invariant todo <= clients.Keys && clients == old(clients)
        invariant first <==> todo == clients.Keys
        invariant first ==> oldestKey == ""
        invariant !first ==> oldestKey in clients && clients[oldestKey].start == oldestTime
        invariant !first ==> forall k :: k in clients && k !in todo ==> oldestTime <= clients[k].start
        decreases |todo|
      {
        var key :| key in todo;
        todo := todo - {key};
        if first || clients[key].start < oldestTime {
          oldestKey, oldestTime, first := key, clients[key].start, false;
        }
      }
      if oldestKey != "" {
        clients := clients - {oldestKey};
      }
    }

    /** Before a new key goes in: every 128th time a sweep, and an eviction if the map is full. */
    method MakeRoom(now: int) returns (ghost evicted: set<string>)
      requires Valid()
      modifies this
      ensures Valid()
      ensures MadeRoom(cfg, old(clients), clients, now, evicted)
    {
      insertCount := insertCount + 1;
      if insertCount % OPPORTUNISTIC_CLEANUP_EVERY == 0 {
        Cleanup(now);
      }
      evicted := {};
      if MustEvict(cfg, clients) {
        ghost var before := clients;
        EvictOldest();
        evicted := before.Keys - clients.Keys;
        EvictionSize(before, clients);
      }
    }

    /** One request. Returns whether it is let through, and the entry evicted to make room, if any. */
    method Handle(key: string, now: int) returns (admitted: bool, ghost evicted: set<string>)
      requires Valid()
      modifies this
      ensures Valid()
      ensures HandleOk(cfg, old(clients), key, now, clients, admitted, evicted)
    {
      evicted := {};
      if key == "" {
        return true, {};
      }
      var known := key in clients;
      if !known || now - clients[key].start > cfg.window {
        if !known {
          evicted := MakeRoom(now);
        }
        ghost var room := clients;
        clients := clients[key := Window(1, now)];
        assert clients.Keys == room.Keys + {key};
        assert !known ==> clients - {key} == room;
        return true, evicted;
      }
      var count := clients[key].count + 1;
      ghost var before := clients;
      clients := clients[key := Window(count, clients[key].start)];
      assert clients.Keys == before.Keys;
      admitted := count <= cfg.limit;
    }
  }

  /** Only stale entries and at most one evicted entry leave; an entry is evicted only from a full map,
      and nothing older than it stays. */
  ghost predicate MadeRoom(cfg: Config, m: Clients, m': Clients, now: int, evicted: set<string>) {
    && (forall k :: k in m' ==> k in m && m'[k] == m[k])
    && (forall k :: k in m && k !in m' && k !in evicted ==> now - m[k].start > CleanTTL(cfg))
    && (cfg.maxClients > 0 ==> |m'| < cfg.maxClients)
    && |evicted| <= 1 && (evicted != {} ==> |m'| == cfg.maxClients - 1)
    && (forall k :: k in evicted ==> k in m && k !in m')
    && (forall k, k' :: k in evicted && k' in m' ==> m[k].start <= m[k'].start)
  }

  /** What one request does: its own entry and the decision follow Decide, and only a new key makes
      other entries leave. */
  ghost predicate HandleOk(cfg: Config, m: Clients, key: string, now: int, m': Clients, admitted: bool,
      evicted: set<string>)
  {
    if key == "" then admitted && m' == m && evicted == {}
    else
      && key in m'
      && (m'[key], admitted) == Decide(cfg, Lookup(m, key), now)
      && (key in m ==> m' == m[key := m'[key]] && evicted == {})
      && (key !in m ==> MadeRoom(cfg, m, m' - {key}, now, evicted))
  }

  lemma {:induction false} SubmapSize(small: Clients, big: Clients)
    requires small.Keys <= big.Keys
    ensures |small| <= |big|
  {
    SubsetSize(small.Keys, big.Keys);
  }

  lemma {:induction false} SubsetSize(a: set<string>, b: set<string>)
    requires a <= b
    ensures |a| <= |b|
    decreases |b|
  {
    if a != {} {
      var x :| x in a;
      SubsetSize(a - {x}, b - {x});
    }
  }

  /** Evicting from a non-empty map removes exactly one key. */
  lemma {:induction false} EvictionSize(m: Clients, m': Clients)
    requires EvictsOldest(m, m') && m != map[]
    ensures |m'| == |m| - 1 && |m.Keys - m'.Keys| == 1
    ensures forall k, k' :: k in m && k !in m' && k' in m' ==> m[k].start <= m[k'].start
  {
  }
}
