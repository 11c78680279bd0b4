/**
The data plane's config cache (apps/data-plane/src/config/caching-config-store.ts) over the inner
store (config-store.ts): the class on its own, and then a state machine in which lookups, database
writes, the clock and invalidations interleave.
*/
module ConfigCache {
  import opened Prelude

  // ---- The inner store ----

  datatype Kind = KeyByHash | KeyById | PaddockBySlug

  datatype Query = Query(kind: Kind, name: string)

  /** A stored row: an `api_key`, or a paddock with its flock and fence. `content` is the rest of it. */
  datatype Row = KeyRow(active: bool, expiresAt: Option<int>, content: nat) | PaddockRow(content: nat)

  datatype Resolved = ResolvedKey(expiresAt: Option<int>, content: nat) | ResolvedPaddock(content: nat)

  type Value = Option<Resolved>

  type Db = map<Query, Row>

  /** `usable`: active and not past its `expires_at`. */
  predicate Usable(row: Row, now: int) {
    row.KeyRow? ==> row.active && (row.expiresAt.None? || row.expiresAt.value > now)
  }

  /** What the inner store answers at an instant. */
  function Answer(db: Db, q: Query, now: int): Value {
    if q !in db || !Usable(db[q], now) then None
    else match db[q]
      case KeyRow(_, expiresAt, content) => Some(ResolvedKey(expiresAt, content))
      case PaddockRow(content) => Some(ResolvedPaddock(content))
  }

  /** `keyExpired`, the check the callers make on what the cache hands them. */
  predicate KeyExpired(r: Resolved, now: int) {
    r.ResolvedKey? && r.expiresAt.Some? && r.expiresAt.value <= now
  }

  function Checked(v: Value, now: int): Value {
    if v.Some? && KeyExpired(v.value, now) then None else v
  }

  // ---- The cache ----

  datatype Entry = Entry(name: string, value: Value, expiresAt: int)

  /** A Map in insertion order. */
  type Cache = seq<Entry>

  predicate Distinct(c: Cache) {
    forall i, j :: 0 <= i < j < |c| ==> c[i].name != c[j].name
  }

  /** `Map.get`, as a position, or the size when the key is absent. */
  function Find(c: Cache, name: string): (i: nat)
    ensures i <= |c|
    ensures i < |c| ==> c[i].name == name
    ensures forall j :: 0 <= j < i ==> c[j].name != name
  {
    if c == [] || c[0].name == name then 0 else 1 + Find(c[1..], name)
  }

  function Lookup(c: Cache, name: string): Option<Entry> {
    if Find(c, name) < |c| then Some(c[Find(c, name)]) else None
  }

  /** `Map.set`: a key already present keeps its place. */
  function Put(c: Cache, e: Entry): Cache {
    if Find(c, e.name) < |c| then c[Find(c, e.name) := e] else c + [e]
  }

  function SetBounded(c: Cache, maxEntries: int, e: Entry): Cache {
    var full := Find(c, e.name) == |c| && |c| >= maxEntries && c != [];
    Put(if full then c[1..] else c, e)
  }

  datatype Caches = Caches(keys: Cache, keysById: Cache, paddocks: Cache)
  {
    function Of(kind: Kind): Cache {
      match kind
      case KeyByHash => keys
      case KeyById => keysById
      case PaddockBySlug => paddocks
    }

    function With(kind: Kind, c: Cache): Caches {
      match kind
      case KeyByHash => Caches(c, keysById, paddocks)
      case KeyById => Caches(keys, c, paddocks)
      case PaddockBySlug => Caches(keys, keysById, c)
    }
  }

  /** A hit, when there is a fresh entry. */
  function Hit(caches: Caches, q: Query, now: int): Option<Value> {
    var e := Lookup(caches.Of(q.kind), q.name);
    if e.Some? && e.value.expiresAt > now then Some(e.value.value) else None
  }

  function Fill(caches: Caches, q: Query, value: Value, now: int, ttl: int, maxEntries: int): Caches {
    caches.With(q.kind, SetBounded(caches.Of(q.kind), maxEntries, Entry(q.name, value, now + ttl)))
  }

  class CachingConfigStore {
    var keyCache: Cache
    var keyByIdCache: Cache
    var paddockCache: Cache
    const ttlMs: int
    const maxEntries: int

    ghost function Contents(): Caches
      reads this
    {
      Caches(keyCache, keyByIdCache, paddockCache)
    }

    constructor (ttlMs: int, maxEntries: int)
      ensures this.ttlMs == ttlMs && this.maxEntries == maxEntries && Contents() == Caches([], [], [])
    {
      this.ttlMs, this.maxEntries := ttlMs, maxEntries;
      keyCache, keyByIdCache, paddockCache := [], [], [];
    }

    method Bounded(cache: Cache, entry: Entry) returns (after: Cache)
      ensures after == SetBounded(cache, maxEntries, entry)
    {
      after := cache;
      if Find(after, entry.name) == |after| && |after| >= maxEntries {
        if after != [] {
          after := after[1..];
        }
      }
      after := Put(after, entry);
    }

    /** The part of a lookup before it awaits the inner store. */
    method Cached(q: Query, now: int) returns (hit: Option<Value>)
      ensures hit == Hit(Contents(), q, now)
    {
      var cache := if q.kind.KeyByHash? then keyCache else if q.kind.KeyById? then keyByIdCache else paddockCache;
      var entry := Lookup(cache, q.name);
      hit := if entry.Some? && entry.value.expiresAt > now then Some(entry.value.value) else None;
    }

    /** The part after it. */
    method Store(q: Query, value: Value, now: int)
      modifies this
      ensures Contents() == Fill(old(Contents()), q, value, now, ttlMs, maxEntries)
    {
      var entry := Entry(q.name, value, now + ttlMs);
      match q.kind
      case KeyByHash => keyCache := Bounded(keyCache, entry);
      case KeyById => keyByIdCache := Bounded(keyByIdCache, entry);
      case PaddockBySlug => paddockCache := Bounded(paddockCache, entry);
    }

    method InvalidateAll()
      modifies this
      ensures Contents() == Caches([], [], [])
    {
      keyCache := [];
      keyByIdCache := [];
      paddockCache := [];
    }
  }

  function Bound(maxEntries: int): int {
    if maxEntries < 1 then 1 else maxEntries
  }

  lemma {:induction false} FindAfterDrop(c: Cache, name: string)
    requires Distinct(c)
    ensures c != [] ==> Lookup(c[1..], name) == if c[0].name == name then None else Lookup(c, name)
  {
  }

  lemma {:induction false} FindAfterPut(c: Cache, e: Entry, name: string)
    requires Distinct(c)
    ensures Distinct(Put(c, e)) && Lookup(Put(c, e), name) == if name == e.name then Some(e) else Lookup(c, name)
  {
    var d, i := Put(c, e), Find(c, name);
    assert forall k :: 0 <= k < |c| ==> d[k].name == c[k].name;
    assert i < |c| ==> d[i].name == name;
    var j := Find(d, name);
    assert j < |c| ==> c[j].name == name;
    assert Find(c, e.name) == |c| ==> d[|c|] == e;
  }

  /** Setting an entry stores it, loses at most the oldest other one, and only when the map is full. */
  lemma {:induction false} SetBoundedExactly(c: Cache, maxEntries: int, e: Entry, name: string)
    requires Distinct(c)
    ensures var c' := SetBounded(c, maxEntries, e);
      && Distinct(c')
      && |c'| <= (if |c| < Bound(maxEntries) then Bound(maxEntries) else |c|)
      && Lookup(c', name) ==
           if name == e.name then Some(e)
           else if Lookup(c, e.name).None? && |c| >= maxEntries && c != [] && c[0].name == name then None
           else Lookup(c, name)
  {
    var full := Find(c, e.name) == |c| && |c| >= maxEntries && c != [];
    var d := if full then c[1..] else c;
    FindAfterDrop(c, name);
    FindAfterDrop(c, e.name);
    FindAfterPut(d, e, name);
  }

  // ---- Lookups in flight ----

  /** A lookup that missed: its inner call has not read yet, or has. `read` is the instant it read at. */
  datatype Flight = Asking(q: Query, began: int) | Answered(q: Query, began: int, value: Value, read: nat)

  datatype Instant = Instant(now: int, db: Db)

  /** The end of a lookup that missed. */
  datatype Filling = Filling(q: Query, value: Value, began: int, read: nat, at: int)

  /** A value handed to a caller, and the filling it came from. */
  datatype Serving = Serving(q: Query, value: Value, at: int, filling: nat)

  /**
  `past` holds every instant, the present last; `fillings` and `servings` are the history of the
  lookups; `origin` says which filling wrote the entry of a query; `flushed` is the instant of the last
  invalidation, and `servedBefore` how many servings preceded it.
  */
  datatype State = State(
    past: seq<Instant>, caches: Caches, flights: map<nat, Flight>,
    fillings: seq<Filling>, servings: seq<Serving>, origin: map<Query, nat>, flushed: nat, servedBefore: nat)
  {
    function Present(): Instant
      requires past != []
    {
      past[|past| - 1]
    }
  }

  /** `quietFlush`: an invalidation never overtakes a lookup that has read and not yet filled. */
  datatype Config = Config(ttl: int, maxEntries: int, quietFlush: bool)

  datatype Action =
    | Tick(ms: nat)
    | Write(db: Db)
    | InvalidateAll
    | Start(f: nat, q: Query)
    | Read(f: nat)
    | Finish(f: nat)

  const INIT := State([Instant(0, map[])], Caches([], [], []), map[], [], [], map[], 0, 0)

  predicate Enabled(cfg: Config, s: State, a: Action) {
    s.past != [] &&
    match a
    case Tick(_) => true
    case Write(_) => true
    case InvalidateAll => cfg.quietFlush ==> forall f :: f in s.flights ==> s.flights[f].Asking?
    case Start(f, q) => f !in s.flights
    case Read(f) => f in s.flights && s.flights[f].Asking?
    case Finish(f) => f in s.flights && s.flights[f].Answered?
  }

  function OriginOf(s: State, q: Query): nat {
    if q in s.origin then s.origin[q] else 0
  }

  function Do(cfg: Config, s: State, a: Action): State
    requires Enabled(cfg, s, a)
  {
    var here := s.Present();
    match a
    case Tick(ms) => s.(past := s.past + [Instant(here.now + ms, here.db)])
    case Write(db) => s.(past := s.past + [Instant(here.now, db)])
    case InvalidateAll =>
      s.(caches := Caches([], [], []), origin := map[], flushed := |s.past| - 1, servedBefore := |s.servings|)
    case Start(f, q) =>
      var hit := Hit(s.caches, q, here.now);
      if hit.Some? then s.(servings := s.servings + [Serving(q, hit.value, here.now, OriginOf(s, q))])
      else s.(flights := s.flights[f := Asking(q, here.now)])
    case Read(f) =>
      var fl := s.flights[f];
      s.(flights := s.flights[f := Answered(fl.q, fl.began, Answer(here.db, fl.q, here.now), |s.past| - 1)])
    case Finish(f) =>
      var fl := s.flights[f];
      s.(flights := s.flights - {f},
         caches := Fill(s.caches, fl.q, fl.value, here.now, cfg.ttl, cfg.maxEntries),
         fillings := s.fillings + [Filling(fl.q, fl.value, fl.began, fl.read, here.now)],
         servings := s.servings + [Serving(fl.q, fl.value, here.now, |s.fillings|)],
         origin := s.origin[fl.q := |s.fillings|])
  }

  // ---- Runs ----

  ghost predicate Legal(cfg: Config, run: seq<Action>)
    decreases |run|, 0
  {
    run == [] || (Legal(cfg, run[..|run| - 1]) && Enabled(cfg, After(cfg, run[..|run| - 1]), run[|run| - 1]))
  }

  ghost function After(cfg: Config, run: seq<Action>): State
    requires Legal(cfg, run)
    decreases |run|, 1
  {
    if run == [] then INIT else Do(cfg, After(cfg, run[..|run| - 1]), run[|run| - 1])
  }

  ghost predicate Reachable(cfg: Config, s: State) {
    exists run :: Legal(cfg, run) && After(cfg, run) == s
  }

  lemma {:induction false} Advance(cfg: Config, s: State, a: Action) returns (s': State)
    requires Reachable(cfg, s) && Enabled(cfg, s, a)
    ensures s' == Do(cfg, s, a) && Reachable(cfg, s')
  {
    s' := Do(cfg, s, a);
    var run :| Legal(cfg, run) && After(cfg, run) == s;
    assert (run + [a])[..|run|] == run;
    assert Legal(cfg, run + [a]) && After(cfg, run + [a]) == s';
  }

  // ---- What is served ----

  /** The value is the inner store's at an instant within the lookup. */
  predicate True(s: State, q: Query, value: Value, began: int, read: nat, until: int) {
    && read < |s.past| && began <= s.past[read].now <= until
    && Answer(s.past[read].db, q, s.past[read].now) == value
  }

  predicate FillingOk(s: State, f: Filling) {
    True(s, f.q, f.value, f.began, f.read, f.at)
  }

  /** A serving is its filling's own, or a later one within the TTL. */
  predicate ServingOk(cfg: Config, s: State, v: Serving) {
    && v.filling < |s.fillings|
    && var f := s.fillings[v.filling];
       f.q == v.q && f.value == v.value && FillingOk(s, f) && (v.at == f.at || f.at <= v.at < f.at + cfg.ttl)
  }

  predicate FlightOk(s: State, f: Flight)
    requires s.past != []
  {
    match f
    case Asking(_, began) => began <= s.Present().now
    case Answered(q, began, value, read) => True(s, q, value, began, read, s.Present().now)
  }

  predicate EntryOk(cfg: Config, s: State, kind: Kind, e: Entry)
    requires s.past != []
  {
    var q := Query(kind, e.name);
    && q in s.origin && s.origin[q] < |s.fillings|
    && var f := s.fillings[s.origin[q]];
       f.q == q && f.value == e.value && e.expiresAt == f.at + cfg.ttl && f.at <= s.Present().now
  }

  predicate CacheOk(cfg: Config, s: State, kind: Kind)
    requires s.past != []
  {
    var c := s.caches.Of(kind);
    Distinct(c) && |c| <= Bound(cfg.maxEntries) && forall i :: 0 <= i < |c| ==> EntryOk(cfg, s, kind, c[i])
  }

  /** Nothing in the cache, and nothing served since the last invalidation, was read before it. */
  predicate FreshSinceFlush(s: State) {
    && (forall i :: s.servedBefore <= i < |s.servings| && s.servings[i].filling < |s.fillings| ==>
          s.fillings[s.servings[i].filling].read >= s.flushed)
    && (forall q :: q in s.origin && s.origin[q] < |s.fillings| ==> s.fillings[s.origin[q]].read >= s.flushed)
  }

  predicate FlightsSinceFlush(s: State) {
    forall f :: f in s.flights && s.flights[f].Answered? ==> s.flights[f].read >= s.flushed
  }

  predicate Served(cfg: Config, s: State) {
    forall i :: 0 <= i < |s.servings| ==> ServingOk(cfg, s, s.servings[i])
  }

  predicate Inv(cfg: Config, s: State) {
    && s.past != [] && s.flushed < |s.past| && s.servedBefore <= |s.servings|
    && Served(cfg, s)
    && (forall i :: 0 <= i < |s.fillings| ==> FillingOk(s, s.fillings[i]))
    && (forall f :: f in s.flights ==> FlightOk(s, s.flights[f]))
    && (forall q :: q in s.origin ==> s.origin[q] < |s.fillings|)
    && (forall kind :: CacheOk(cfg, s, kind))
  }

  lemma {:induction false} GrowKeeps(cfg: Config, s: State, a: Action)
    requires Inv(cfg, s) && Enabled(cfg, s, a) && (a.Tick? || a.Write?)
    ensures Inv(cfg, Do(cfg, s, a))
  {
    var s' := Do(cfg, s, a);
    forall i | 0 <= i < |s.fillings| ensures FillingOk(s', s.fillings[i]) {
      assert FillingOk(s, s.fillings[i]);
    }
    forall i | 0 <= i < |s.servings| ensures ServingOk(cfg, s', s.servings[i]) {
      assert ServingOk(cfg, s, s.servings[i]);
    }
    forall f | f in s.flights ensures FlightOk(s', s.flights[f]) {
      assert FlightOk(s, s.flights[f]);
    }
    forall kind ensures CacheOk(cfg, s', kind) {
      assert CacheOk(cfg, s, kind);
      var c := s.caches.Of(kind);
      forall i | 0 <= i < |c| ensures EntryOk(cfg, s', kind, c[i]) {
        assert EntryOk(cfg, s, kind, c[i]);
      }
    }
  }

  lemma {:induction false} HitIsOk(cfg: Config, s: State, q: Query)
    requires Inv(cfg, s) && Hit(s.caches, q, s.Present().now).Some?
    ensures ServingOk(cfg, s, Serving(q, Hit(s.caches, q, s.Present().now).value, s.Present().now, OriginOf(s, q)))
  {
    var c := s.caches.Of(q.kind);
    assert CacheOk(cfg, s, q.kind);
    assert EntryOk(cfg, s, q.kind, c[Find(c, q.name)]);
    assert Query(q.kind, c[Find(c, q.name)].name) == q;
    assert FillingOk(s, s.fillings[s.origin[q]]);
  }

  /** Nothing a filling says depends on the flights or the servings. */
  lemma {:induction false} SameGround(cfg: Config, s: State, s': State)
    requires Inv(cfg, s) && s'.past == s.past && s'.fillings == s.fillings
    ensures forall v :: ServingOk(cfg, s, v) ==> ServingOk(cfg, s', v)
    ensures s'.caches == s.caches && s'.origin == s.origin ==> forall kind :: CacheOk(cfg, s', kind)
  {
    if s'.caches == s.caches && s'.origin == s.origin {
      forall kind ensures CacheOk(cfg, s', kind) {
        assert CacheOk(cfg, s, kind);
        var c := s.caches.Of(kind);
        forall i | 0 <= i < |c| ensures EntryOk(cfg, s', kind, c[i]) {
          assert EntryOk(cfg, s, kind, c[i]);
        }
      }
    }
  }

  lemma {:induction false} StartKeeps(cfg: Config, s: State, a: Action)
    requires Inv(cfg, s) && Enabled(cfg, s, a) && a.Start?
    ensures Inv(cfg, Do(cfg, s, a))
  {
    var s' := Do(cfg, s, a);
    if Hit(s.caches, a.q, s.Present().now).Some? {
      HitIsOk(cfg, s, a.q);
    }
    SameGround(cfg, s, s');
    forall i | 0 <= i < |s'.servings| ensures ServingOk(cfg, s', s'.servings[i]) {
      assert ServingOk(cfg, s, s'.servings[i]);
    }
  }

  lemma {:induction false} FlushKeeps(cfg: Config, s: State)
    requires Inv(cfg, s) && Enabled(cfg, s, InvalidateAll)
    ensures Inv(cfg, Do(cfg, s, InvalidateAll))
  {
    var s' := Do(cfg, s, InvalidateAll);
    forall i | 0 <= i < |s.servings| ensures ServingOk(cfg, s', s.servings[i]) {
      assert ServingOk(cfg, s, s.servings[i]);
    }
    assert forall kind :: CacheOk(cfg, s', kind);
  }

  lemma {:induction false} ReadKeeps(cfg: Config, s: State, f: nat)
    requires Inv(cfg, s) && Enabled(cfg, s, Read(f))
    ensures Inv(cfg, Do(cfg, s, Read(f)))
  {
    var s' := Do(cfg, s, Read(f));
    assert FlightOk(s, s.flights[f]);
    SameGround(cfg, s, s');
    forall i | 0 <= i < |s.servings| ensures ServingOk(cfg, s', s.servings[i]) {
      assert ServingOk(cfg, s, s.servings[i]);
    }
  }

  lemma {:induction false} EntryAfter(c: Cache, maxEntries: int, e: Entry, i: nat) returns (j: nat)
    requires Distinct(c) && i < |SetBounded(c, maxEntries, e)| && SetBounded(c, maxEntries, e)[i].name != e.name
    ensures j < |c| && SetBounded(c, maxEntries, e)[i] == c[j]
  {
    var full := Find(c, e.name) == |c| && |c| >= maxEntries && c != [];
    j := if full then i + 1 else i;
  }

  lemma {:induction false} EntryAt(c: Cache, maxEntries: int, e: Entry, i: nat)
    requires Distinct(c) && i < |SetBounded(c, maxEntries, e)| && SetBounded(c, maxEntries, e)[i].name == e.name
    ensures SetBounded(c, maxEntries, e)[i] == e
  {
    SetBoundedExactly(c, maxEntries, e, e.name);
    var c' := SetBounded(c, maxEntries, e);
    assert Find(c', e.name) == i;
  }

  lemma {:induction false} FinishEntry(cfg: Config, s: State, f: nat, kind: Kind, e: Entry)
    requires Inv(cfg, s) && Enabled(cfg, s, Finish(f)) && EntryOk(cfg, s, kind, e)
    requires Query(kind, e.name) != s.flights[f].q
    ensures EntryOk(cfg, Do(cfg, s, Finish(f)), kind, e)
  {
  }

  lemma {:induction false} FinishOwn(cfg: Config, s: State, f: nat)
    requires Inv(cfg, s) && Enabled(cfg, s, Finish(f))
    ensures var q := s.flights[f].q;
      EntryOk(cfg, Do(cfg, s, Finish(f)), q.kind, Entry(q.name, s.flights[f].value, s.Present().now + cfg.ttl))
  {
    var q := s.flights[f].q;
    assert Query(q.kind, q.name) == q;
  }

  lemma {:induction false} BoundedCacheOk(cfg: Config, s: State, kind: Kind, c: Cache, e: Entry)
    requires s.past != [] && s.caches.Of(kind) == SetBounded(c, cfg.maxEntries, e)
    requires Distinct(c) && |c| <= Bound(cfg.maxEntries) && EntryOk(cfg, s, kind, e)
    requires forall i :: 0 <= i < |c| && c[i].name != e.name ==> EntryOk(cfg, s, kind, c[i])
    ensures CacheOk(cfg, s, kind)
  {
    var c' := SetBounded(c, cfg.maxEntries, e);
    SetBoundedExactly(c, cfg.maxEntries, e, e.name);
    forall i: nat | i < |c'| ensures EntryOk(cfg, s, kind, c'[i]) {
      if c'[i].name != e.name {
        var j := EntryAfter(c, cfg.maxEntries, e, i);
      } else {
        EntryAt(c, cfg.maxEntries, e, i);
      }
    }
  }

  lemma {:induction false} FillsOwnMap(caches: Caches, q: Query, value: Value, now: int, ttl: int, maxEntries: int)
    ensures Fill(caches, q, value, now, ttl, maxEntries).Of(q.kind) ==
      SetBounded(caches.Of(q.kind), maxEntries, Entry(q.name, value, now + ttl))
  {
  }

  /** The other entries of the map that is filled stay as good as they were. */
  lemma {:induction false} FinishOthers(cfg: Config, s: State, f: nat)
    requires Inv(cfg, s) && Enabled(cfg, s, Finish(f))
    ensures var kind, c := s.flights[f].q.kind, s.caches.Of(s.flights[f].q.kind);
      forall i :: 0 <= i < |c| && c[i].name != s.flights[f].q.name ==> EntryOk(cfg, Do(cfg, s, Finish(f)), kind, c[i])
  {
    var kind, c := s.flights[f].q.kind, s.caches.Of(s.flights[f].q.kind);
    assert CacheOk(cfg, s, kind);
    forall i | 0 <= i < |c| && c[i].name != s.flights[f].q.name ensures EntryOk(cfg, Do(cfg, s, Finish(f)), kind, c[i]) {
      FinishEntry(cfg, s, f, kind, c[i]);
    }
  }

  lemma {:induction false} FinishFilled(cfg: Config, s: State, f: nat)
    requires Inv(cfg, s) && Enabled(cfg, s, Finish(f))
    ensures CacheOk(cfg, Do(cfg, s, Finish(f)), s.flights[f].q.kind)
  {
    var s', fl := Do(cfg, s, Finish(f)), s.flights[f];
    var kind, c := fl.q.kind, s.caches.Of(fl.q.kind);
    var e := Entry(fl.q.name, fl.value, s.Present().now + cfg.ttl);
    assert s'.caches.Of(kind) == SetBounded(c, cfg.maxEntries, e) by {
      FillsOwnMap(s.caches, fl.q, fl.value, s.Present().now, cfg.ttl, cfg.maxEntries);
    }
    assert Distinct(c) && |c| <= Bound(cfg.maxEntries) by {
      assert CacheOk(cfg, s, kind);
    }
    FinishOwn(cfg, s, f);
    FinishOthers(cfg, s, f);
    BoundedCacheOk(cfg, s', kind, c, e);
  }

  lemma {:induction false} FinishCache(cfg: Config, s: State, f: nat, kind: Kind)
    requires Inv(cfg, s) && Enabled(cfg, s, Finish(f))
    ensures CacheOk(cfg, Do(cfg, s, Finish(f)), kind)
  {
    if kind == s.flights[f].q.kind {
      FinishFilled(cfg, s, f);
    } else {
      var s', c := Do(cfg, s, Finish(f)), s.caches.Of(kind);
      assert CacheOk(cfg, s, kind) && s'.caches.Of(kind) == c;
      forall i | 0 <= i < |c| ensures EntryOk(cfg, s', kind, c[i]) {
        FinishEntry(cfg, s, f, kind, c[i]);
      }
    }
  }

  lemma {:induction false} FinishServes(cfg: Config, s: State, f: nat)
    requires Inv(cfg, s) && Enabled(cfg, s, Finish(f))
    ensures var s' := Do(cfg, s, Finish(f));
      Served(cfg, s') && forall i :: 0 <= i < |s'.fillings| ==> FillingOk(s', s'.fillings[i])
  {
    var s' := Do(cfg, s, Finish(f));
    assert FlightOk(s, s.flights[f]);
    forall i | 0 <= i < |s'.fillings| ensures FillingOk(s', s'.fillings[i]) {
      assert i < |s.fillings| ==> FillingOk(s, s.fillings[i]);
    }
    forall i | 0 <= i < |s'.servings| ensures ServingOk(cfg, s', s'.servings[i]) {
      assert i < |s.servings| ==> ServingOk(cfg, s, s.servings[i]);
    }
  }

  lemma {:induction false} FinishFlights(cfg: Config, s: State, f: nat)
    requires Inv(cfg, s) && Enabled(cfg, s, Finish(f))
    ensures var s' := Do(cfg, s, Finish(f));
      && (forall g :: g in s'.flights ==> FlightOk(s', s'.flights[g]))
      && (forall q :: q in s'.origin ==> s'.origin[q] < |s'.fillings|)
  {
    var s' := Do(cfg, s, Finish(f));
    forall g | g in s'.flights ensures FlightOk(s', s'.flights[g]) {
      assert FlightOk(s, s.flights[g]);
    }
  }

  lemma {:induction false} FinishKeeps(cfg: Config, s: State, f: nat)
    requires Inv(cfg, s) && Enabled(cfg, s, Finish(f))
    ensures Inv(cfg, Do(cfg, s, Finish(f)))
  {
    var s' := Do(cfg, s, Finish(f));
    FinishServes(cfg, s, f);
    FinishFlights(cfg, s, f);
    forall kind ensures CacheOk(cfg, s', kind) {
      FinishCache(cfg, s, f, kind);
    }
  }

  lemma {:induction false} InvStep(cfg: Config, s: State, a: Action)
    requires Inv(cfg, s) && Enabled(cfg, s, a)
    ensures Inv(cfg, Do(cfg, s, a))
  {
    match a
    case Tick(_) => GrowKeeps(cfg, s, a);
    case Write(_) => GrowKeeps(cfg, s, a);
    case InvalidateAll => FlushKeeps(cfg, s);
    case Start(_, _) => StartKeeps(cfg, s, a);
    case Read(f) => ReadKeeps(cfg, s, f);
    case Finish(f) => FinishKeeps(cfg, s, f);
  }

  lemma {:induction false} FreshStart(cfg: Config, s: State, f: nat, q: Query)
    requires Inv(cfg, s) && Enabled(cfg, s, Start(f, q)) && FreshSinceFlush(s)
    ensures FreshSinceFlush(Do(cfg, s, Start(f, q)))
  {
    if Hit(s.caches, q, s.Present().now).Some? {
      var c := s.caches.Of(q.kind);
      assert CacheOk(cfg, s, q.kind);
      assert EntryOk(cfg, s, q.kind, c[Find(c, q.name)]);
      assert Query(q.kind, c[Find(c, q.name)].name) == q;
    }
  }

  lemma {:induction false} FreshFinish(cfg: Config, s: State, f: nat)
    requires Inv(cfg, s) && Enabled(cfg, s, Finish(f)) && FreshSinceFlush(s) && FlightsSinceFlush(s)
    ensures FreshSinceFlush(Do(cfg, s, Finish(f)))
  {
    var s' := Do(cfg, s, Finish(f));
    forall i | s'.servedBefore <= i < |s'.servings| && s'.servings[i].filling < |s'.fillings|
      ensures s'.fillings[s'.servings[i].filling].read >= s'.flushed
    {
      assert i < |s.servings| ==> ServingOk(cfg, s, s.servings[i]);
    }
  }

  lemma {:induction false} FreshStep(cfg: Config, s: State, a: Action)
    requires cfg.quietFlush && Inv(cfg, s) && Enabled(cfg, s, a) && FreshSinceFlush(s) && FlightsSinceFlush(s)
    ensures FreshSinceFlush(Do(cfg, s, a)) && FlightsSinceFlush(Do(cfg, s, a))
  {
    if a.Start? {
      FreshStart(cfg, s, a.f, a.q);
    } else if a.Finish? {
      FreshFinish(cfg, s, a.f);
    }
  }

  lemma {:induction false} InvRun(cfg: Config, run: seq<Action>)
    requires Legal(cfg, run)
    ensures Inv(cfg, After(cfg, run))
    ensures cfg.quietFlush ==> FreshSinceFlush(After(cfg, run)) && FlightsSinceFlush(After(cfg, run))
  {
    if run == [] {
      assert forall kind :: CacheOk(cfg, INIT, kind);
    } else {
      var s, a := After(cfg, run[..|run| - 1]), run[|run| - 1];
      InvRun(cfg, run[..|run| - 1]);
      InvStep(cfg, s, a);
      if cfg.quietFlush {
        FreshStep(cfg, s, a);
      }
    }
  }

  lemma {:induction false} InvReached(cfg: Config, s: State)
    requires Reachable(cfg, s)
    ensures Inv(cfg, s)
    ensures cfg.quietFlush ==> FreshSinceFlush(s)
  {
    var run :| Legal(cfg, run) && After(cfg, run) == s;
    InvRun(cfg, run);
  }

  lemma {:induction false} CheckedAnswer(db: Db, q: Query, earlier: int, now: int)
    requires earlier <= now
    ensures Checked(Answer(db, q, earlier), now) == Answer(db, q, now)
  {
  }

  /**
  Every value served, in every interleaving, is what the inner store held at an instant of the lookup
  that fetched it; that instant is past by no more than the TTL and that lookup's own time in flight.
  And once the caller has made its expiry check, a key is honoured exactly as long as the rows of that
  instant allow at the clock of the serving: the cache never stretches an `expires_at`.
  */
  lemma {:induction false} ServedValueIsRecent(cfg: Config, s: State, i: nat)
    requires Reachable(cfg, s) && i < |s.servings|
    ensures var v := s.servings[i];
      && v.filling < |s.fillings|
      && var f := s.fillings[v.filling];
         && f.read < |s.past|
         && var instant := s.past[f.read];
            && Answer(instant.db, v.q, instant.now) == v.value
            && f.began <= instant.now <= f.at <= v.at
            && (v.at - instant.now < cfg.ttl + (f.at - f.began) || v.at == f.at)
            && Checked(v.value, v.at) == Answer(instant.db, v.q, v.at)
  {
    InvReached(cfg, s);
    var v := s.servings[i];
    assert ServingOk(cfg, s, v);
    var f := s.fillings[v.filling];
    CheckedAnswer(s.past[f.read].db, v.q, s.past[f.read].now, v.at);
  }

  /** No map ever holds more than `maxEntries` entries, or one, if that is less than one. */
  lemma {:induction false} SizeIsBounded(cfg: Config, s: State, kind: Kind)
    requires Reachable(cfg, s)
    ensures |s.caches.Of(kind)| <= Bound(cfg.maxEntries)
  {
    InvReached(cfg, s);
    assert CacheOk(cfg, s, kind);
  }

  lemma {:induction false} ReadAndFlushed(cfg: Config) returns (s: State)
    requires !cfg.quietFlush
    ensures Reachable(cfg, s) && |s.past| == 2 && s.flushed == 1 && s.servings == [] && s.fillings == [] && s.servedBefore == 0
    ensures 0 in s.flights && s.flights[0] == Answered(Query(KeyById, "k"), 0, None, 0)
  {
    var q := Query(KeyById, "k");
    assert Legal(cfg, []) && After(cfg, []) == INIT;
    s := Advance(cfg, INIT, Start(0, q));
    s := Advance(cfg, s, Read(0));
    s := Advance(cfg, s, Write(map[q := KeyRow(true, None, 0)]));
    s := Advance(cfg, s, InvalidateAll);
  }

  /** A lookup reads, the row is rewritten and the caches invalidated, and then the lookup fills. */
  lemma {:induction false} StragglerBreaks(cfg: Config) returns (s: State)
    requires !cfg.quietFlush
    ensures Reachable(cfg, s) && !FreshSinceFlush(s)
  {
    s := ReadAndFlushed(cfg);
    s := Advance(cfg, s, Finish(0));
    assert s.fillings[s.servings[0].filling].read == 0 && s.flushed == 1;
  }

  /**
  After an invalidation only values read after it are cached or served, in every run, if and only if
  no invalidation overtakes a lookup that has read and not yet filled.
  */
  lemma {:induction false} InvalidationExactly(cfg: Config)
    ensures (forall s :: Reachable(cfg, s) ==> FreshSinceFlush(s)) <==> cfg.quietFlush
  {
    if cfg.quietFlush {
      forall s | Reachable(cfg, s) ensures FreshSinceFlush(s) {
        InvReached(cfg, s);
      }
    } else {
      var s := StragglerBreaks(cfg);
    }
  }
}
