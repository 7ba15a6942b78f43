/** The entry cache: a bounded map with LRU or LFU eviction, expiry, merging puts and
    invalidation of the ancestors of a new or removed path. */
module Cache {
  import opened Bytes
  import opened PagedFile
  import opened PageMerge
  import opened CachedFile

  datatype CacheItem =
    | FileItem(name: Name, attributes: Option<Attributes>, pages: Pages)
    | SymlinkItem(name: Name, attributes: Option<Attributes>, target: Option<string>)
    | DirectoryItem(name: Name, attributes: Option<Attributes>, children: Option<seq<Name>>)

  datatype CacheEntry = CacheEntry(item: CacheItem, createdAt: nat, lastAccessed: nat, accessCount: nat)

  type Entries = map<Path, CacheEntry>

  datatype Policy = Lru | Lfu

  datatype CacheConfig = CacheConfig(capacity: nat, ttl: nat, useTtl: bool, policy: Policy, limits: Limits)

  /** What one locked section does not decide itself: the clock, the victim among entries
      of equal rank, and the order in which a hash map hands out its keys. */
  datatype Choice = Choice(now: nat, victim: Path, order: seq<nat>)

  // ---- what the operations do to the entries ----

  function Newer<T>(was: Option<T>, given: Option<T>): Option<T> {
    if given.Some? then given else was
  }

  /** Items of the same kind are merged, an item of another kind replaces the old one. */
  function UpdateItem(lim: Limits, was: CacheItem, item: CacheItem, order: seq<nat>): CacheItem {
    match (was, item)
    case (FileItem(name, a, f), FileItem(_, b, g)) => FileItem(name, Newer(a, b), PageMerge.Merge(f, g, lim, order))
    case (DirectoryItem(name, a, c), DirectoryItem(_, b, d)) => DirectoryItem(name, Newer(a, b), Newer(c, d))
    case (SymlinkItem(name, a, t), SymlinkItem(_, b, u)) => SymlinkItem(name, Newer(a, b), Newer(t, u))
    case _ => item
  }

  predicate Expired(cfg: CacheConfig, e: CacheEntry, now: nat) {
    cfg.useTtl && e.createdAt + cfg.ttl < now
  }

  function Touched(e: CacheEntry, now: nat): CacheEntry {
    e.(lastAccessed := now, accessCount := e.accessCount + 1)
  }

  function Get(cfg: CacheConfig, m: Entries, key: Path, now: nat): (Entries, Option<CacheItem>) {
    if key !in m then (m, None)
    else if Expired(cfg, m[key], now) then (m - {key}, None)
    else (m[key := Touched(m[key], now)], Some(m[key].item))
  }

  function MakeRoom(cfg: CacheConfig, m: Entries, victim: Path): Entries {
    if |m| >= cfg.capacity then m - {victim} else m
  }

  function Insert(cfg: CacheConfig, m: Entries, key: Path, item: CacheItem, c: Choice): Entries {
    MakeRoom(cfg, m, c.victim)[key := CacheEntry(item, c.now, c.now, 0)]
  }

  function Put(cfg: CacheConfig, m: Entries, key: Path, item: CacheItem, invalidate: bool, c: Choice): Entries {
    if key in m && !Expired(cfg, m[key], c.now) then
      var merged := UpdateItem(cfg.limits, m[key].item, item, c.order);
      m[key := Touched(m[key], c.now).(item := if invalidate then merged.(attributes := None) else merged)]
    else
      Insert(cfg, m - {key}, key, item, c)
  }

  /** The strict ancestors of a path: its proper prefixes. */
  function Ancestors(path: Path): set<Path> {
    set i | 0 <= i < |path| :: path[..i]
  }

  function PutNew(cfg: CacheConfig, m: Entries, key: Path, item: CacheItem, c: Choice): Entries {
    Insert(cfg, m - Ancestors(key), key, item, c)
  }

  function Remove(m: Entries, key: Path): Entries {
    m - {key} - Ancestors(key)
  }

  // ---- which choices the code can make ----

  function Rank(cfg: CacheConfig, e: CacheEntry): nat {
    if cfg.policy.Lru? then e.lastAccessed else e.accessCount
  }

  ghost predicate IsVictim(cfg: CacheConfig, m: Entries, v: Path) {
    v in m && forall k :: k in m ==> Rank(cfg, m[v]) <= Rank(cfg, m[k])
  }

  ghost predicate VictimOk(cfg: CacheConfig, m: Entries, c: Choice) {
    |m| >= cfg.capacity && m != map[] ==> IsVictim(cfg, m, c.victim)
  }

  ghost predicate OrderOk(item: CacheItem, c: Choice) {
    item.FileItem? ==> IsOrder(c.order, item.pages.Keys)
  }

  ghost predicate PutOk(cfg: CacheConfig, m: Entries, key: Path, item: CacheItem, c: Choice) {
    && OrderOk(item, c)
    && (if key in m && !Expired(cfg, m[key], c.now) then true else VictimOk(cfg, m - {key}, c))
  }

  // ---- the cache itself ----

  function Parent(path: Path): Option<Path> {
    if path == [] then None else Some(path[..|path| - 1])
  }

  /** Walking from parent to parent lists exactly the strict ancestors, the nearest first. */
  method ParentPaths(path: Path) returns (parents: seq<Path>)
    ensures forall p :: p in parents <==> p < path
    ensures (set p | p in parents) == Ancestors(path)
    ensures |parents| == |path| && forall i :: 0 <= i < |parents| ==> parents[i] == path[..|path| - 1 - i]
  {
    parents := [];
    var current := Parent(path);
    while current.Some?
      invariant |parents| <= |path|
      invariant forall i :: 0 <= i < |parents| ==> parents[i] == path[..|path| - 1 - i]
      invariant current == if |parents| == |path| then None else Some(path[..|path| - 1 - |parents|])
      decreases |path| - |parents|
    {
      var p := current.value;
      assert p != [] ==> p[..|p| - 1] == path[..|p| - 1];
      parents := parents + [p];
      current := Parent(p);
    }
    forall p ensures p in parents <==> p < path {
      if p < path {
        assert parents[|path| - 1 - |p|] == p;
      }
    }
    AncestorsArePrefixes(path);
  }

  lemma AncestorsArePrefixes(path: Path)
    ensures forall p :: p in Ancestors(path) <==> p < path
  {
    forall p | p < path ensures p in Ancestors(path) {
      assert path[..|p|] == p;
    }
  }

  class Cache {
    const cfg: CacheConfig
    var entries: Entries

    constructor (cfg: CacheConfig)
      ensures this.cfg == cfg && entries == map[]
    {
      this.cfg := cfg;
      entries := map[];
    }

    method InvalidateParents(path: Path)
      modifies this
      ensures entries == old(entries) - Ancestors(path)
    {
      var parents := ParentPaths(path);
      var i := 0;
      while i < |parents|
        invariant 0 <= i <= |parents|
        invariant entries == old(entries) - (set j | 0 <= j < i :: parents[j])
      {
        entries := entries - {parents[i]};
        i := i + 1;
      }
      assert (set j | 0 <= j < |parents| :: parents[j]) == (set p | p in parents);
    }

    method Lookup(key: Path, now: nat) returns (item: Option<CacheItem>)
      modifies this
      ensures (entries, item) == Get(cfg, old(entries), key, now)
    {
      if key !in entries {
        return None;
      }
      if cfg.useTtl && entries[key].createdAt + cfg.ttl < now {
        entries := entries - {key};
        return None;
      }
      entries := entries[key := Touched(entries[key], now)];
      return Some(entries[key].item);
    }

    /** The first entry of least rank in the iteration order of the map. */
    method SelectVictim() returns (victim: Option<Path>)
      ensures victim == None <==> entries == map[]
      ensures victim.Some? ==> IsVictim(cfg, entries, victim.value)
    {
      victim := None;
      var keys := entries.Keys;
      while keys != {}
        invariant keys <= entries.Keys
        invariant victim == None <==> keys == entries.Keys
        invariant victim.Some? ==> victim.value in entries
        invariant victim.Some? ==>
                    forall k :: k in entries && k !in keys ==> Rank(cfg, entries[victim.value]) <= Rank(cfg, entries[k])
        decreases |keys|
      {
        var k :| k in keys;
        if victim == None || Rank(cfg, entries[k]) < Rank(cfg, entries[victim.value]) {
          victim := Some(k);
        }
        keys := keys - {k};
      }
    }

    /** A new entry, after the eviction of one victim when the map is at capacity. */
    method InsertNew(key: Path, item: CacheItem, now: nat) returns (ghost c: Choice)
      modifies this
      ensures c.now == now && VictimOk(cfg, old(entries), c)
      ensures entries == Insert(cfg, old(entries), key, item, c)
    {
      c := Choice(now, [], []);
      if |entries| >= cfg.capacity {
        var victim := SelectVictim();
        if victim.Some? {
          entries := entries - {victim.value};
          c := c.(victim := victim.value);
        }
      }
      entries := entries[key := CacheEntry(item, now, now, 0)];
    }

    method Store(key: Path, item: CacheItem, invalidate: bool, now: nat) returns (ghost c: Choice)
      modifies this
      ensures c.now == now && PutOk(cfg, old(entries), key, item, c) && (item.FileItem? || c.order == [])
      ensures entries == Put(cfg, old(entries), key, item, invalidate, c)
    {
      hide IsOrder, PageMerge.Merge;
      var order := [];
      if item.FileItem? {
        order := HashOrder(item.pages.Keys);
      }
      if key in entries {
        var isValid := !cfg.useTtl || entries[key].createdAt + cfg.ttl >= now;
        if isValid {
          c := Choice(now, [], order);
          var entry := Touched(entries[key], now);
          entry := entry.(item := UpdateItem(cfg.limits, entry.item, item, order));
          if invalidate {
            entry := entry.(item := entry.item.(attributes := None));
          }
          entries := entries[key := entry];
          return;
        }
        entries := entries - {key};
      }
      assert entries == old(entries) - {key};
      c := InsertNew(key, item, now);
      c := c.(order := order);
    }

    method StoreNew(key: Path, item: CacheItem, now: nat) returns (ghost c: Choice)
      modifies this
      ensures c.now == now && VictimOk(cfg, old(entries) - Ancestors(key), c)
      ensures entries == PutNew(cfg, old(entries), key, item, c)
    {
      InvalidateParents(key);
      c := InsertNew(key, item, now);
    }

    method Delete(key: Path) returns (removed: Option<CacheItem>)
      modifies this
      ensures entries == Remove(old(entries), key)
      ensures removed == if key in old(entries) then Some(old(entries)[key].item) else None
    {
      removed := if key in entries then Some(entries[key].item) else None;
      entries := entries - {key};
      InvalidateParents(key);
    }

    method Invalidate(key: Path)
      modifies this
      ensures entries == old(entries) - {key}
    {
      entries := entries - {key};
    }
  }

  // ---- runs of calls ----

  datatype Call =
    | Look(key: Path, now: nat)
    | Keep(key: Path, item: CacheItem, invalidate: bool, c: Choice)
    | KeepNew(key: Path, item: CacheItem, c: Choice)
    | Drop(keys: set<Path>, now: nat)

  /** When the call happens. */
  function CallTime(a: Call): nat {
    match a
    case Look(_, now) => now
    case Keep(_, _, _, c) => c.now
    case KeepNew(_, _, c) => c.now
    case Drop(_, now) => now
  }

  function CallStep(cfg: CacheConfig, m: Entries, a: Call): Entries {
    match a
    case Look(key, now) => Get(cfg, m, key, now).0
    case Keep(key, item, invalidate, c) => Put(cfg, m, key, item, invalidate, c)
    case KeepNew(key, item, c) => PutNew(cfg, m, key, item, c)
    case Drop(keys, _) => m - keys
  }

  function AfterCalls(cfg: CacheConfig, run: seq<Call>): Entries {
    if run == [] then map[] else CallStep(cfg, AfterCalls(cfg, run[..|run| - 1]), run[|run| - 1])
  }

  // ---- capacity and ancestors ----

  /** One locked section; `PutNew` and `Remove` take the lock twice. */
  datatype Section =
    | GetSection(key: Path, now: nat)
    | PutSection(key: Path, item: CacheItem, invalidate: bool, c: Choice)
    | InsertSection(key: Path, item: CacheItem, c: Choice)
    | DropSection(keys: set<Path>)

  function RunSection(cfg: CacheConfig, m: Entries, s: Section): Entries {
    match s
    case GetSection(key, now) => Get(cfg, m, key, now).0
    case PutSection(key, item, invalidate, c) => Put(cfg, m, key, item, invalidate, c)
    case InsertSection(key, item, c) => Insert(cfg, m, key, item, c)
    case DropSection(keys) => m - keys
  }

  ghost predicate SectionOk(cfg: CacheConfig, m: Entries, s: Section) {
    match s
    case PutSection(key, item, _, c) => PutOk(cfg, m, key, item, c)
    case InsertSection(_, _, c) => VictimOk(cfg, m, c)
    case _ => true
  }

  function RunSections(cfg: CacheConfig, m: Entries, run: seq<Section>): Entries
    decreases |run|
  {
    if run == [] then m else RunSections(cfg, RunSection(cfg, m, run[0]), run[1..])
  }

  ghost predicate SectionsOk(cfg: CacheConfig, m: Entries, run: seq<Section>)
    decreases |run|
  {
    run == [] || (SectionOk(cfg, m, run[0]) && SectionsOk(cfg, RunSection(cfg, m, run[0]), run[1..]))
  }

  lemma FewerKeys(m: Entries, n: Entries)
    requires n.Keys <= m.Keys
    ensures |n| <= |m|
  {
    SubsetSize(n.Keys, m.Keys);
    assert |n| == |n.Keys| && |m| == |m.Keys|;
  }

  lemma InsertBound(cfg: CacheConfig, m: Entries, key: Path, item: CacheItem, c: Choice)
    requires |m| <= Max(1, cfg.capacity) && VictimOk(cfg, m, c)
    ensures |Insert(cfg, m, key, item, c)| <= Max(1, cfg.capacity)
  {
    var room := MakeRoom(cfg, m, c.victim);
    if |m| >= cfg.capacity {
      assert room.Keys == m.Keys - {c.victim};
    }
    assert |room| == |room.Keys| && |m| == |m.Keys|;
    assert |m| > 0 ==> m != map[];
    var r := Insert(cfg, m, key, item, c);
    assert r.Keys == room.Keys + {key} && |r| == |r.Keys|;
  }

  lemma SectionBound(cfg: CacheConfig, m: Entries, s: Section)
    requires |m| <= Max(1, cfg.capacity) && SectionOk(cfg, m, s)
    ensures |RunSection(cfg, m, s)| <= Max(1, cfg.capacity)
  {
    hide PageMerge.Merge, Insert, UpdateItem, IsOrder;
    match s
    case GetSection(_, _) => FewerKeys(m, RunSection(cfg, m, s));
    case PutSection(key, item, _, c) =>
      if key in m && !Expired(cfg, m[key], c.now) {
        FewerKeys(m, RunSection(cfg, m, s));
      } else {
        FewerKeys(m, m - {key});
        InsertBound(cfg, m - {key}, key, item, c);
      }
    case InsertSection(key, item, c) => InsertBound(cfg, m, key, item, c);
    case DropSection(_) => FewerKeys(m, RunSection(cfg, m, s));
  }

  /** Under both policies and every interleaving of locked sections, the cache never holds
      more than its capacity, or one entry if the capacity is zero. */
  lemma {:induction false} CapacityBound(cfg: CacheConfig, m: Entries, run: seq<Section>)
    requires |m| <= Max(1, cfg.capacity) && SectionsOk(cfg, m, run)
    ensures |RunSections(cfg, m, run)| <= Max(1, cfg.capacity)
    decreases |run|
  {
    hide RunSection, SectionOk;
    if run != [] {
      SectionBound(cfg, m, run[0]);
      CapacityBound(cfg, RunSection(cfg, m, run[0]), run[1..]);
    }
  }

  /** After a new entry or a removal no strict ancestor of the path is cached. */
  lemma NoAncestorCached(cfg: CacheConfig, m: Entries, key: Path, item: CacheItem, c: Choice, p: Path)
    requires p < key
    ensures p !in PutNew(cfg, m, key, item, c) && p !in Remove(m, key)
  {
    AncestorsArePrefixes(key);
  }

  /** Whatever is cached after a put was there before, untouched, or sits at the key itself
      and is the new item or its merge into the old one. */
  lemma PutMeaning(cfg: CacheConfig, m: Entries, key: Path, item: CacheItem, invalidate: bool, c: Choice, q: Path)
    requires q in Put(cfg, m, key, item, invalidate, c)
    ensures var e := Put(cfg, m, key, item, invalidate, c)[q];
            if q != key then q in m && e == m[q]
            else
              || e.item == item
              || (key in m && !Expired(cfg, m[key], c.now) &&
                  var merged := UpdateItem(cfg.limits, m[key].item, item, c.order);
                  e.item == if invalidate then merged.(attributes := None) else merged)
  {
    hide UpdateItem;
  }

  /** The whole entry that a put leaves: at another key the old one, at its own key the old one
      with the merged item, or a new one. */
  lemma PutEntry(cfg: CacheConfig, m: Entries, key: Path, item: CacheItem, invalidate: bool, c: Choice, q: Path)
    requires q in Put(cfg, m, key, item, invalidate, c)
    ensures var e := Put(cfg, m, key, item, invalidate, c)[q];
            if q != key then q in m && e == m[q]
            else if key in m && !Expired(cfg, m[key], c.now) then
              var merged := UpdateItem(cfg.limits, m[key].item, item, c.order);
              e == Touched(m[key], c.now).(item := if invalidate then merged.(attributes := None) else merged)
            else e == CacheEntry(item, c.now, c.now, 0)
  {
    hide UpdateItem;
  }
}
