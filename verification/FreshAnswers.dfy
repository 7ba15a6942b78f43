/** How old answered attributes and listings can be while other clients change the server: no
    older than the time to live, attributes only if no listing lets them grow too old. */
module FreshAnswers {
  import opened Bytes
  import opened Cache
  import opened RwBuffer
  import opened FsModel
  import opened Runs
  import CallLoops
  import Listing
  import Storage

  // ---- what was on the server ----

  ghost predicate HadAttributes(h: History, p: Path, since: int, a: Attributes) {
    exists j :: 0 <= j < |h| && AttributesHeld(h[j], p, since, a)
  }

  predicate AttributesHeld(x: Snapshot, p: Path, since: int, a: Attributes) {
    x.time >= since && Storage.GetAttributes(x.tree, p) == Ok(a)
  }

  ghost predicate HadListing(h: History, p: Path, since: int, names: seq<Name>) {
    exists j :: 0 <= j < |h| && ListingHeld(h[j], p, since, names)
  }

  ghost predicate ListingHeld(x: Snapshot, p: Path, since: int, names: seq<Name>) {
    x.time >= since && p in x.tree && x.tree[p].Dir? && Storage.IsListing(x.tree, p, names)
  }

  /** The server had this tree at or after `time`. */
  ghost predicate HadTree(h: History, t: Tree, time: int) {
    exists j :: 0 <= j < |h| && h[j].time >= time && h[j].tree == t
  }

  lemma AttributesMore(h: History, more: History, p: Path, since: int, a: Attributes)
    requires HadAttributes(h, p, since, a)
    ensures HadAttributes(h + more, p, since, a)
  {
    hide AttributesHeld;
    var j :| 0 <= j < |h| && AttributesHeld(h[j], p, since, a);
    assert (h + more)[j] == h[j];
  }

  lemma ListingMore(h: History, more: History, p: Path, since: int, names: seq<Name>)
    requires HadListing(h, p, since, names)
    ensures HadListing(h + more, p, since, names)
  {
    hide ListingHeld;
    var j :| 0 <= j < |h| && ListingHeld(h[j], p, since, names);
    assert (h + more)[j] == h[j];
  }

  lemma AttributesSince(h: History, p: Path, since: int, earlier: int, a: Attributes)
    requires HadAttributes(h, p, since, a) && earlier <= since
    ensures HadAttributes(h, p, earlier, a)
  {
    var j :| 0 <= j < |h| && AttributesHeld(h[j], p, since, a);
    assert AttributesHeld(h[j], p, earlier, a);
  }

  lemma ListingSince(h: History, p: Path, since: int, earlier: int, names: seq<Name>)
    requires HadListing(h, p, since, names) && earlier <= since
    ensures HadListing(h, p, earlier, names)
  {
    hide Storage.IsListing;
    var j :| 0 <= j < |h| && ListingHeld(h[j], p, since, names);
    assert ListingHeld(h[j], p, earlier, names);
  }

  lemma AttributesNow(h: History, t: Tree, time: int, p: Path)
    requires HadTree(h, t, time) && p in t
    ensures HadAttributes(h, p, time, Storage.AttrOf(t[p]))
  {
    var j :| 0 <= j < |h| && h[j].time >= time && h[j].tree == t;
    assert AttributesHeld(h[j], p, time, Storage.AttrOf(t[p]));
  }

  lemma ListingNow(h: History, t: Tree, time: int, p: Path, names: seq<Name>)
    requires HadTree(h, t, time) && p in t && t[p].Dir? && Storage.IsListing(t, p, names)
    ensures HadListing(h, p, time, names)
  {
    hide Storage.IsListing;
    var j :| 0 <= j < |h| && h[j].time >= time && h[j].tree == t;
    assert ListingHeld(h[j], p, time, names);
  }

  lemma TreeEarlier(h: History, t: Tree, time: int, earlier: int)
    requires HadTree(h, t, time) && earlier <= time
    ensures HadTree(h, t, earlier)
  {
  }

  lemma TreeNow(h: History, t: Tree, time: nat)
    ensures HadTree(h + [Snapshot(time, t)], t, time)
  {
    assert (h + [Snapshot(time, t)])[|h|] == Snapshot(time, t);
  }

  // ---- what the cache knows of the server ----

  /** What an entry says was so on the server since the entry was made; of its attributes only
      if `attrs` is set. */
  ghost predicate EntryTrue(h: History, q: Path, e: CacheEntry, attrs: bool) {
    && e.item.name == LastName(q)
    && (attrs && e.item.attributes.Some? ==> HadAttributes(h, q, e.createdAt, e.item.attributes.value))
    && (e.item.DirectoryItem? && e.item.children.Some? ==> HadListing(h, q, e.createdAt, e.item.children.value))
  }

  ghost predicate Known(h: History, clock: int, m: Entries, attrs: bool) {
    forall q :: q in m ==> m[q].createdAt <= clock && EntryTrue(h, q, m[q], attrs)
  }

  lemma EntryMore(h: History, more: History, q: Path, e: CacheEntry, attrs: bool)
    requires EntryTrue(h, q, e, attrs)
    ensures EntryTrue(h + more, q, e, attrs)
  {
    hide HadAttributes, HadListing;
    if attrs && e.item.attributes.Some? {
      AttributesMore(h, more, q, e.createdAt, e.item.attributes.value);
    }
    if e.item.DirectoryItem? && e.item.children.Some? {
      ListingMore(h, more, q, e.createdAt, e.item.children.value);
    }
  }

  lemma KnownMore(h: History, more: History, clock: int, m: Entries, attrs: bool)
    requires Known(h, clock, m, attrs)
    ensures Known(h + more, clock, m, attrs)
  {
    hide EntryTrue;
    forall q | q in m ensures EntryTrue(h + more, q, m[q], attrs) {
      EntryMore(h, more, q, m[q], attrs);
    }
  }

  lemma KnownLater(h: History, clock: int, later: int, m: Entries, attrs: bool)
    requires Known(h, clock, m, attrs) && clock <= later
    ensures Known(h, later, m, attrs)
  {
    hide EntryTrue;
  }

  lemma GetKnown(cfg: FsConfig, h: History, clock: int, m: Entries, path: Path, now: nat, attrs: bool)
    requires Known(h, clock, m, attrs) && clock <= now
    ensures Known(h, now, CacheGet(cfg, m, path, now).0, attrs)
  {
    hide HadAttributes, HadListing;
  }

  /** What a hit says was so on the server at most a time to live ago. */
  lemma HitTrue(cfg: FsConfig, h: History, clock: int, m: Entries, path: Path, now: nat, attrs: bool)
    requires Known(h, clock, m, attrs) && cfg.cache.useTtl
    ensures var hit := CacheGet(cfg, m, path, now).1;
            hit.Some? ==>
              && hit.value.name == LastName(path)
              && (attrs && hit.value.attributes.Some? ==>
                  HadAttributes(h, path, now - cfg.cache.ttl, hit.value.attributes.value))
              && (hit.value.DirectoryItem? && hit.value.children.Some? ==>
                    HadListing(h, path, now - cfg.cache.ttl, hit.value.children.value))
  {
    hide HadAttributes, HadListing;
    var hit := CacheGet(cfg, m, path, now).1;
    if hit.Some? {
      assert EntryTrue(h, path, m[path], attrs);
      if attrs && hit.value.attributes.Some? {
        AttributesSince(h, path, m[path].createdAt, now - cfg.cache.ttl, hit.value.attributes.value);
      }
      if hit.value.DirectoryItem? && hit.value.children.Some? {
        ListingSince(h, path, m[path].createdAt, now - cfg.cache.ttl, hit.value.children.value);
      }
    }
  }

  /** The attributes were so when they are put, or already since the entry was made that they
      are put into. */
  ghost predicate Lasting(cfg: FsConfig, h: History, m: Entries, path: Path, a: Attributes, now: nat) {
    || HadAttributes(h, path, now, a)
    || (path in m && !Expired(cfg.cache, m[path], now) && HadAttributes(h, path, m[path].createdAt, a))
  }

  /** An item that may be put under the path. */
  ghost predicate ItemTrue(cfg: FsConfig, h: History, m: Entries, path: Path, item: CacheItem, now: nat, attrs: bool) {
    && item.name == LastName(path)
    && (attrs && item.attributes.Some? ==> Lasting(cfg, h, m, path, item.attributes.value, now))
    && (item.DirectoryItem? && item.children.Some? ==> HadListing(h, path, now, item.children.value))
  }

  /** The entry that a merge leaves. */
  lemma MergedTrue(cfg: FsConfig, h: History, m: Entries, path: Path, item: CacheItem, invalidate: bool, c: Choice,
                   attrs: bool)
    requires path in m && !Expired(cfg.cache, m[path], c.now) && EntryTrue(h, path, m[path], attrs)
             && m[path].createdAt <= c.now
    requires ItemTrue(cfg, h, m, path, item, c.now, attrs)
    ensures var merged := UpdateItem(cfg.cache.limits, m[path].item, item, c.order);
            var item' := if invalidate then merged.(attributes := None) else merged;
            EntryTrue(h, path, Touched(m[path], c.now).(item := item'), attrs)
  {
    hide HadAttributes, HadListing, PageMerge.Merge;
    if attrs && item.attributes.Some? && HadAttributes(h, path, c.now, item.attributes.value) {
      AttributesSince(h, path, c.now, m[path].createdAt, item.attributes.value);
    }
    if item.DirectoryItem? && item.children.Some? {
      ListingSince(h, path, c.now, m[path].createdAt, item.children.value);
    }
  }

  lemma PutKnown(cfg: FsConfig, h: History, clock: int, m: Entries, path: Path, item: CacheItem, invalidate: bool,
                 c: Choice, attrs: bool)
    requires Known(h, clock, m, attrs) && clock <= c.now && ItemTrue(cfg, h, m, path, item, c.now, attrs)
    ensures Known(h, c.now, CachePut(cfg, m, path, item, invalidate, c), attrs)
  {
    hide EntryTrue, ItemTrue, UpdateItem, Put;
    if cfg.cached {
      if path in m && !Expired(cfg.cache, m[path], c.now) {
        MergedTrue(cfg, h, m, path, item, invalidate, c, attrs);
      } else {
        NewTrue(cfg, h, m, path, item, c.now, attrs);
      }
      forall q | q in Put(cfg.cache, m, path, item, invalidate, c)
        ensures var e := Put(cfg.cache, m, path, item, invalidate, c)[q];
                e.createdAt <= c.now && EntryTrue(h, q, e, attrs)
      {
        PutEntry(cfg.cache, m, path, item, invalidate, c, q);
      }
    }
  }

  lemma NewTrue(cfg: FsConfig, h: History, m: Entries, path: Path, item: CacheItem, now: nat, attrs: bool)
    requires ItemTrue(cfg, h, m, path, item, now, attrs) && !(path in m && !Expired(cfg.cache, m[path], now))
    ensures EntryTrue(h, path, CacheEntry(item, now, now, 0), attrs)
  {
    hide HadAttributes, HadListing;
  }

  lemma PutNewKnown(cfg: FsConfig, h: History, clock: int, m: Entries, path: Path, item: CacheItem, c: Choice,
                    attrs: bool)
    requires Known(h, clock, m, attrs) && clock <= c.now
    requires item.name == LastName(path)
    requires item.attributes.Some? ==> HadAttributes(h, path, c.now, item.attributes.value)
    requires item.DirectoryItem? && item.children.Some? ==> HadListing(h, path, c.now, item.children.value)
    ensures Known(h, c.now, CachePutNew(cfg, m, path, item, c), attrs)
  {
    hide HadAttributes, HadListing, Ancestors;
  }

  lemma DropKnown(h: History, clock: int, m: Entries, keys: set<Path>, attrs: bool)
    requires Known(h, clock, m, attrs)
    ensures Known(h, clock, m - keys, attrs)
  {
    hide EntryTrue;
  }

  // ---- the calls ----

  lemma AttrPutKnown(cfg: FsConfig, h: History, clock: int, m: Entries, path: Path, a: Attributes, c: Choice,
                     attrs: bool)
    requires Known(h, clock, m, attrs) && clock <= c.now && HadAttributes(h, path, c.now, a)
    ensures Known(h, c.now, CacheAttr(cfg, m, path, a, c), attrs)
  {
    hide Known, CachePut, HadAttributes;
    if path == [] {
      KnownLater(h, clock, c.now, m, attrs);
    } else {
      PutKnown(cfg, h, clock, m, path, AttrItem(LastName(path), a), false, c, attrs);
    }
  }

  /** Attributes that a call answers while the server has its tree. */
  lemma GetAttributesTrue(cfg: FsConfig, h: History, clock: int, s: FsState, path: Path, c: AttrChoice, attrs: bool)
    requires Known(h, clock, s.cache, attrs) && AttrOk(clock, c) && HadTree(h, s.tree, c.put.now)
    ensures var (s', r) := GetAttributes(cfg, s, path, c);
            && Known(h, c.put.now, s'.cache, attrs)
            && (attrs && cfg.cache.useTtl && r.Ok? ==> HadAttributes(h, path, c.get - cfg.cache.ttl, r.value))
  {
    hide Known, CacheAttr, CacheGet, HadAttributes, HadListing, HadTree;
    GetKnown(cfg, h, clock, s.cache, path, c.get, attrs);
    var (m, hit) := CacheGet(cfg, s.cache, path, c.get);
    KnownLater(h, c.get, c.put.now, m, attrs);
    if cfg.cache.useTtl {
      HitTrue(cfg, h, clock, s.cache, path, c.get, attrs);
    }
    if path in s.tree {
      var a := Storage.AttrOf(s.tree[path]);
      AttributesNow(h, s.tree, c.put.now, path);
      AttrPutKnown(cfg, h, c.get, m, path, a, c.put, attrs);
      AttributesSince(h, path, c.put.now, c.get - cfg.cache.ttl, a);
    }
  }

  lemma ChunkPutKnown(cfg: FsConfig, h: History, clock: int, m: Entries, path: Path, offset: nat, data: seq<byte>,
                      invalidate: bool, c: Choice, attrs: bool)
    requires Known(h, clock, m, attrs) && clock <= c.now
    ensures Known(h, c.now, CacheWrite(cfg, m, path, offset, data, invalidate, c), attrs)
  {
    hide Known, CachePut;
    if path == [] {
      KnownLater(h, clock, c.now, m, attrs);
    } else {
      PutKnown(cfg, h, clock, m, path, ChunkItem(cfg, path, offset, data), invalidate, c, attrs);
    }
  }

  /** The file was at most `offset` long. */
  ghost predicate HadEnded(h: History, p: Path, since: int, offset: nat) {
    exists a: Attributes :: a.size <= offset && HadAttributes(h, p, since, a)
  }

  /** A read; if it gives nothing, the file ended there at most a time to live ago. */
  lemma ReadFileTrue(cfg: FsConfig, delay: nat, h: History, clock: int, s: FsState, path: Path, offset: nat, size: nat,
                     c: ReadChoice, attrs: bool)
    requires Known(h, clock, s.cache, attrs) && ReadTimes(delay, clock, c) && HadTree(h, s.tree, c.miss.put.now)
    ensures var (s', r) := ReadFile(cfg, s, path, offset, size, c);
            && Known(h, c.miss.put.now, s'.cache, attrs)
            && (attrs && cfg.cache.useTtl && cfg.capacity > 0 && size > 0 && r == Ok([]) ==>
                  HadEnded(h, path, c.attr.get - cfg.cache.ttl, offset))
  {
    hide Known, CacheGet, CachedBytes, GetAttributes, ReadMiss, HadAttributes, HadTree;
    var end := c.miss.put.now;
    TreeEarlier(h, s.tree, end, c.attr.put.now);
    AttributesKeep(cfg, s, path, c.attr);
    GetAttributesTrue(cfg, h, clock, s, path, c.attr, attrs);
    var (s1, attr) := GetAttributes(cfg, s, path, c.attr);
    if attr.Ok? && offset >= attr.value.size {
      KnownLater(h, c.attr.put.now, end, s1.cache, attrs);
    } else {
      GetKnown(cfg, h, c.attr.put.now, s1.cache, path, c.get, attrs);
      var (m, hit) := CacheGet(cfg, s1.cache, path, c.get);
      ReadMissTrue(cfg, h, c.get, s1.(cache := m), path, offset, size, CachedBytes(cfg, hit, offset, size), c.miss,
                   attrs);
      if attrs && cfg.cache.useTtl && cfg.capacity > 0 && size > 0
        && ReadFile(cfg, s, path, offset, size, c).1 == Ok([]) {
        var a := Storage.AttrOf(s.tree[path]);
        AttributesNow(h, s.tree, end, path);
        AttributesSince(h, path, end, c.attr.get - cfg.cache.ttl, a);
      }
    }
  }

  lemma ReadMissTrue(cfg: FsConfig, h: History, clock: int, s: FsState, path: Path, offset: nat, size: nat,
                     cachedBytes: seq<byte>, c: MissChoice, attrs: bool)
    requires Known(h, clock, s.cache, attrs) && clock <= c.put.now
    ensures var (s', r) := ReadMiss(cfg, s, path, offset, size, cachedBytes, c);
            && Known(h, c.put.now, s'.cache, attrs)
            && (r == Ok([]) && cfg.capacity > 0 && size > 0 ==>
                path in s.tree && Storage.AttrOf(s.tree[path]).size <= offset)
  {
    hide Known, CacheWrite, WindowRead;
    KnownLater(h, clock, c.put.now, s.cache, attrs);
    var ahead := WindowRead(s.window, cfg.windowTtl, path, offset, size, c.window);
    ChunkPutKnown(cfg, h, clock, s.cache, path, offset, ahead, false, c.put, attrs);
    var read := Storage.ReadFile(s.tree, path, offset, cfg.capacity);
    if read.Ok? {
      ChunkPutKnown(cfg, h, clock, s.cache, path, offset, read.value, false, c.put, attrs);
    }
  }

  lemma UploadOneTrue(cfg: FsConfig, h: History, clock: int, s: FsState, u: Upload, c: Choice, attrs: bool)
    requires Known(h, clock, s.cache, attrs) && clock <= c.now
    ensures Known(h, c.now, UploadOne(cfg, s, u, c).0.cache, attrs)
  {
    hide Known, CacheWrite;
    KnownLater(h, clock, c.now, s.cache, attrs);
    ChunkPutKnown(cfg, h, clock, s.cache, u.path, u.offset, u.data, true, c, attrs);
  }

  lemma {:induction false} UploadAllTrue(cfg: FsConfig, h: History, clock: int, s: FsState, uploads: seq<Upload>,
                                         cs: seq<Choice>, attrs: bool)
    requires |cs| == |uploads| && Known(h, clock, s.cache, attrs) && UploadTimes(clock, cs)
    ensures Known(h, UploadEnd(clock, cs), UploadAll(cfg, s, uploads, cs).0.cache, attrs)
    decreases |uploads|
  {
    hide Known, UploadOne, UploadTimes, UploadEnd;
    if uploads == [] {
      NoTimes(clock);
    } else {
      TimesOfRest(clock, cs);
      UploadOneTrue(cfg, h, clock, s, uploads[0], cs[0], attrs);
      var (s1, r) := UploadOne(cfg, s, uploads[0], cs[0]);
      if r.Err? {
        KnownLater(h, cs[0].now, UploadEnd(clock, cs), s1.cache, attrs);
      } else {
        UploadAllTrue(cfg, h, cs[0].now, s1, uploads[1..], cs[1..], attrs);
      }
    }
  }

  // ---- listings ----

  /** The attributes of listed items. */
  ghost predicate ItemsTrue(h: History, dir: Path, since: int, items: seq<ListItem>) {
    forall i :: 0 <= i < |items| ==> HadAttributes(h, dir + [items[i].name], since, items[i].attributes)
  }

  /** Lookups keep the entries they do not remove as old as they are. */
  ghost predicate SameAges(m: Entries, m': Entries) {
    forall q :: q in m' ==> q in m && m'[q].createdAt == m[q].createdAt && m'[q].item == m[q].item
  }

  lemma GetSameAges(cfg: FsConfig, m: Entries, path: Path, now: nat)
    ensures SameAges(m, CacheGet(cfg, m, path, now).0)
  {
  }

  lemma {:induction false} LookupTrue(cfg: FsConfig, h: History, clock: int, m: Entries, dir: Path, names: seq<Name>,
                                      nows: seq<nat>, attrs: bool)
    requires |nows| == |names| && Known(h, clock, m, attrs) && Rising(clock, nows)
    ensures var (m', items) := LookupChildren(cfg, m, dir, names, nows);
            && Known(h, LastTime(clock, nows), m', attrs) && SameAges(m, m')
            && (items.Some? && cfg.cache.useTtl ==>
                  && ItemNames(items.value) == names
                  && (attrs ==> ItemsTrue(h, dir, clock - cfg.cache.ttl, items.value)))
    decreases |names|
  {
    hide Known, CacheGet, Rising, LastTime, HadAttributes, HadListing, SameAges;
    if names == [] {
      NoRising(clock);
      SameAgesSelf(m);
    } else {
      RisingRest(clock, nows);
      var child := dir + [names[0]];
      GetKnown(cfg, h, clock, m, child, nows[0], attrs);
      GetSameAges(cfg, m, child, nows[0]);
      var (m1, hit) := CacheGet(cfg, m, child, nows[0]);
      if ItemAttributes(hit).None? {
        KnownLater(h, nows[0], LastTime(clock, nows), m1, attrs);
      } else {
        LookupTrue(cfg, h, nows[0], m1, dir, names[1..], nows[1..], attrs);
        var (m2, rest) := LookupChildren(cfg, m1, dir, names[1..], nows[1..]);
        SameAgesJoin(m, m1, m2);
        if rest.Some? && cfg.cache.useTtl {
          HitTrue(cfg, h, clock, m, child, nows[0], attrs);
          var item := ListItem(hit.value.name, KindOf(hit.value), hit.value.attributes.value);
          assert item.name == names[0];
          ItemsCons(h, dir, clock - cfg.cache.ttl, nows[0] - cfg.cache.ttl, item, rest.value, attrs);
        }
      }
    }
  }

  lemma SameAgesSelf(m: Entries)
    ensures SameAges(m, m)
  {
  }

  lemma SameAgesJoin(m: Entries, m1: Entries, m2: Entries)
    requires SameAges(m, m1) && SameAges(m1, m2)
    ensures SameAges(m, m2)
  {
  }

  lemma ItemsCons(h: History, dir: Path, since: int, later: int, item: ListItem, rest: seq<ListItem>, attrs: bool)
    requires since <= later
    requires attrs ==> HadAttributes(h, dir + [item.name], later, item.attributes) && ItemsTrue(h, dir, later, rest)
    ensures ItemNames([item] + rest) == [item.name] + ItemNames(rest)
    ensures attrs ==> ItemsTrue(h, dir, since, [item] + rest)
  {
    hide HadAttributes;
    var all := [item] + rest;
    if attrs {
      forall i | 0 <= i < |all| ensures HadAttributes(h, dir + [all[i].name], since, all[i].attributes) {
        if i > 0 {
          assert all[i] == rest[i - 1];
        }
        AttributesSince(h, dir + [all[i].name], later, since, all[i].attributes);
      }
    }
  }

  lemma {:induction false} PutChildrenTrue(cfg: FsConfig, h: History, clock: int, m: Entries, dir: Path,
                                           items: seq<ListItem>, cs: seq<Choice>, attrs: bool)
    requires |cs| == |items| && Known(h, clock, m, attrs) && PutTimes(clock, cs)
    requires forall i :: 0 <= i < |items| ==>
             HadAttributes(h, dir + [items[i].name], UploadEnd(clock, cs), items[i].attributes)
    ensures Known(h, UploadEnd(clock, cs), PutChildren(cfg, m, dir, items, cs), attrs)
    decreases |items|
  {
    hide Known, CachePut, HadAttributes, UploadTimes, UploadEnd;
    if items == [] {
      NoTimes(clock);
    } else {
      TimesOfRest(clock, cs);
      var item, child := items[0], dir + [items[0].name];
      assert cs[0] in cs && forall c :: c in cs[1..] ==> c in cs;
      AttributesSince(h, child, UploadEnd(clock, cs), cs[0].now, item.attributes);
      PutKnown(cfg, h, clock, m, child, AttrItem(item.name, item.attributes), false, cs[0], attrs);
      forall i | 0 <= i < |items[1..]|
        ensures HadAttributes(h, dir + [items[1..][i].name], UploadEnd(cs[0].now, cs[1..]), items[1..][i].attributes)
      {
        assert items[1..][i] == items[i + 1];
      }
      PutChildrenTrue(cfg, h, cs[0].now, CachePut(cfg, m, child, AttrItem(item.name, item.attributes), false, cs[0]),
                      dir, items[1..], cs[1..], attrs);
    }
  }

  /** What a listing answers: behind the two dot entries names that the directory had, with
      attributes that they had. */
  ghost predicate ListingTrue(h: History, path: Path, since: int, items: seq<ListItem>, attrs: bool) {
    && |items| >= 2
    && HadListing(h, path, since, ItemNames(items[2..]))
    && (attrs ==>
          && HadAttributes(h, path, since, items[0].attributes)
          && HadAttributes(h, if path == [] then [] else path[..|path| - 1], since, items[1].attributes)
          && ItemsTrue(h, path, since, items[2..]))
  }

  lemma WithDotsTrue(cfg: FsConfig, h: History, clock: int, since: int, s: FsState, path: Path, items: seq<ListItem>,
                     self: AttrChoice, up: AttrChoice, attrs: bool)
    requires Known(h, clock, s.cache, attrs) && DotsOk(clock, self, up) && HadTree(h, s.tree, up.put.now)
    requires since + cfg.cache.ttl <= clock
    requires cfg.cache.useTtl ==>
               HadListing(h, path, since, ItemNames(items)) && (attrs ==> ItemsTrue(h, path, since, items))
    ensures var (s', r) := WithDots(cfg, s, path, items, self, up);
            && Known(h, up.put.now, s'.cache, attrs)
            && (cfg.cache.useTtl && r.Ok? ==> ListingTrue(h, path, since, r.value, attrs))
  {
    hide Known, GetAttributes, HadAttributes, HadListing, HadTree, ItemsTrue;
    TreeEarlier(h, s.tree, up.put.now, self.put.now);
    GetAttributesTrue(cfg, h, clock, s, path, self, attrs);
    AttributesKeep(cfg, s, path, self);
    var (s1, dot) := GetAttributes(cfg, s, path, self);
    KnownLater(h, self.put.now, up.put.now, s1.cache, attrs);
    GetAttributesTrue(cfg, h, self.put.now, s1, ParentOrRoot(path), up, attrs);
    var (s2, dotdot) := GetAttributes(cfg, s1, ParentOrRoot(path), up);
    if dot.Ok? && dotdot.Ok? && cfg.cache.useTtl {
      if attrs {
        AttributesSince(h, path, self.get - cfg.cache.ttl, since, dot.value);
        AttributesSince(h, ParentOrRoot(path), up.get - cfg.cache.ttl, since, dotdot.value);
      }
      var all := [ListItem(".", KindDirectory, dot.value), ListItem("..", KindDirectory, dotdot.value)] + items;
      assert all[2..] == items;
    }
  }

  /** The directory's entry, with attributes, expires between the lookup of these attributes and
      the put that stores them again. */
  predicate Straddles(cfg: FsConfig, m: Entries, path: Path, c: ReaddirChoice) {
    && cfg.cached && path in m && m[path].item.attributes.Some?
    && !Expired(cfg.cache, m[path], c.self.get) && Expired(cfg.cache, m[path], c.put.now)
  }

  /** The listing is not answered from the cache, and the server has the directory. */
  predicate Misses(cfg: FsConfig, s: FsState, path: Path, c: ReaddirChoice) {
    var (m, hit) := CacheGet(cfg, s.cache, path, c.get);
    CachedListing(cfg, m, path, hit, c.children).1.None? && path in s.tree && s.tree[path].Dir?
  }

  /** If its entry does expire in between, the directory had these attributes again. */
  ghost predicate Settled(cfg: FsConfig, h: History, m: Entries, path: Path, c: ReaddirChoice) {
    Straddles(cfg, m, path, c) ==> HadAttributes(h, path, c.put.now, m[path].item.attributes.value)
  }

  /** The attributes that a listing stores for its directory. */
  lemma SelfLasts(cfg: FsConfig, h: History, clock: int, s: FsState, path: Path, c: ReaddirChoice)
    requires Known(h, clock, s.cache, true) && ListTimes(clock, c) && HadTree(h, s.tree, c.dotdot.put.now)
    requires Settled(cfg, h, s.cache, path, c)
    ensures var (s1, attr) := GetAttributes(cfg, s, path, c.self);
            attr.Ok? ==> Lasting(cfg, h, s1.cache, path, attr.value, c.put.now)
  {
    hide HadAttributes, HadListing, HadTree, CacheAttr, PutTimes;
    var hit := CacheGet(cfg, s.cache, path, c.self.get).1;
    if ItemAttributes(hit).Some? {
      assert EntryTrue(h, path, s.cache[path], true);
    } else if path in s.tree {
      EndsLater(clock, c);
      TreeEarlier(h, s.tree, c.dotdot.put.now, c.put.now);
      AttributesNow(h, s.tree, c.put.now, path);
    }
  }

  lemma EndsLater(clock: int, c: ReaddirChoice)
    requires ListTimes(clock, c)
    ensures clock <= c.self.put.now <= c.put.now <= UploadEnd(c.put.now, c.puts) <= c.dotdot.put.now
  {
  }

  lemma ListedNow(h: History, t: Tree, time: int, dir: Path, names: seq<Name>)
    requires HadTree(h, t, time) && Storage.IsListing(t, dir, names)
    ensures ItemNames(ServerItems(t, dir, names)) == names
    ensures ItemsTrue(h, dir, time, ServerItems(t, dir, names))
  {
    hide HadTree, HadAttributes, Storage.IsListing;
    var items := ServerItems(t, dir, names);
    forall i | 0 <= i < |items| ensures HadAttributes(h, dir + [items[i].name], time, items[i].attributes) {
      assert names[i] in names;
      Storage.ListedArePresent(t, dir, names, names[i]);
      AttributesNow(h, t, time, dir + [names[i]]);
    }
  }

  lemma ReaddirMissTrue(cfg: FsConfig, h: History, clock: int, since: int, s: FsState, path: Path, c: ReaddirChoice,
                        attrs: bool)
    requires |c.puts| == |c.listing| && Known(h, clock, s.cache, attrs) && ListTimes(clock, c)
    requires HadTree(h, s.tree, c.dotdot.put.now) && ListingChosen(s.tree, path, c) && since + cfg.cache.ttl <= clock
    requires attrs && path in s.tree && s.tree[path].Dir? ==> Settled(cfg, h, s.cache, path, c)
    ensures var (s', r) := ReaddirMiss(cfg, s, path, c);
            && Known(h, c.dotdot.put.now, s'.cache, attrs)
            && (cfg.cache.useTtl && r.Ok? ==> ListingTrue(h, path, since, r.value, attrs))
  {
    hide Known, GetAttributes, CachePut, PutChildren, WithDots, HadAttributes, HadListing, HadTree, ItemsTrue, Settled,
      ListTimes, Storage.IsListing, Lasting, UploadEnd, PutTimes, ListingTrue;
    EndsLater(clock, c);
    TimesOfList(clock, c);
    KnownLater(h, clock, c.dotdot.put.now, s.cache, attrs);
    if path in s.tree && s.tree[path].Dir? {
      var end := UploadEnd(c.put.now, c.puts);
      TreeEarlier(h, s.tree, c.dotdot.put.now, end);
      TreeEarlier(h, s.tree, c.dotdot.put.now, c.put.now);
      TreeEarlier(h, s.tree, c.dotdot.put.now, c.self.put.now);
      GetAttributesTrue(cfg, h, clock, s, path, c.self, attrs);
      AttributesKeep(cfg, s, path, c.self);
      if attrs {
        SelfLasts(cfg, h, clock, s, path, c);
      }
      var (s1, attr) := GetAttributes(cfg, s, path, c.self);
      KnownLater(h, c.self.put.now, c.dotdot.put.now, s1.cache, attrs);
      if attr.Ok? {
        var dir := DirectoryItem(LastName(path), Some(attr.value), Some(c.listing));
        ListingNow(h, s.tree, c.put.now, path, c.listing);
        PutKnown(cfg, h, c.self.put.now, s1.cache, path, dir, false, c.put, attrs);
        var m1 := CachePut(cfg, s1.cache, path, dir, false, c.put);
        var items := ServerItems(s.tree, path, c.listing);
        ListedNow(h, s.tree, end, path, c.listing);
        ItemsAt(h, path, end, items);
        PutChildrenTrue(cfg, h, c.put.now, m1, path, items, c.puts, attrs);
        ListingNow(h, s.tree, end, path, c.listing);
        ListingSince(h, path, end, since, c.listing);
        ItemsSince(h, path, end, since, items);
        WithDotsTrue(cfg, h, end, since, s1.(cache := PutChildren(cfg, m1, path, items, c.puts)), path, items, c.dot,
                     c.dotdot, attrs);
      }
    }
  }

  lemma TimesOfList(clock: int, c: ReaddirChoice)
    requires ListTimes(clock, c)
    ensures AttrOk(clock, c.self) && PutTimes(c.put.now, c.puts)
            && DotsOk(UploadEnd(c.put.now, c.puts), c.dot, c.dotdot)
  {
  }

  lemma ItemsAt(h: History, dir: Path, since: int, items: seq<ListItem>)
    requires ItemsTrue(h, dir, since, items)
    ensures forall i :: 0 <= i < |items| ==> HadAttributes(h, dir + [items[i].name], since, items[i].attributes)
  {
  }

  lemma ItemsSince(h: History, dir: Path, since: int, earlier: int, items: seq<ListItem>)
    requires ItemsTrue(h, dir, since, items) && earlier <= since
    ensures ItemsTrue(h, dir, earlier, items)
  {
    hide HadAttributes;
    forall i | 0 <= i < |items| ensures HadAttributes(h, dir + [items[i].name], earlier, items[i].attributes) {
      AttributesSince(h, dir + [items[i].name], since, earlier, items[i].attributes);
    }
  }

  /** A listing, hit or miss. */
  lemma ReaddirTrue(cfg: FsConfig, h: History, clock: int, s: FsState, path: Path, c: ReaddirChoice, attrs: bool)
    requires |c.puts| == |c.listing| && Known(h, clock, s.cache, attrs) && ReaddirTimes(clock, c)
    requires HadTree(h, s.tree, c.dotdot.put.now) && ListingChosen(s.tree, path, c)
    requires attrs && Misses(cfg, s, path, c) ==> Settled(cfg, h, s.cache, path, c)
    ensures var (s', r) := Readdir(cfg, s, path, c);
            && Known(h, c.dotdot.put.now, s'.cache, attrs)
            && (cfg.cache.useTtl && r.Ok? ==> ListingTrue(h, path, c.get - cfg.cache.ttl, r.value, attrs))
  {
    hide Known, CacheGet, LookupChildren, WithDots, ReaddirMiss, HadAttributes, HadListing, HadTree, ItemsTrue,
      SameAges, ListTimes, ListingTrue, Rising, LastTime, ListingChosen, Settled;
    var since := c.get - cfg.cache.ttl;
    ListAfterLookups(clock, c);
    var looked := LastTime(c.get, c.children);
    GetKnown(cfg, h, clock, s.cache, path, c.get, attrs);
    GetSameAges(cfg, s.cache, path, c.get);
    if cfg.cache.useTtl {
      HitTrue(cfg, h, clock, s.cache, path, c.get, attrs);
    }
    var (m, hit) := CacheGet(cfg, s.cache, path, c.get);
    KnownLater(h, c.get, looked, m, attrs);
    if hit.Some? && hit.value.DirectoryItem? && hit.value.children.Some? && |c.children| == |hit.value.children.value| {
      LookupTrue(cfg, h, c.get, m, path, hit.value.children.value, c.children, attrs);
      SameAgesJoin(s.cache, m, LookupChildren(cfg, m, path, hit.value.children.value, c.children).0);
    }
    var (m1, items) := CachedListing(cfg, m, path, hit, c.children);
    if items.Some? {
      KnownLater(h, looked, UploadEnd(c.put.now, c.puts), m1, attrs);
      WithDotsTrue(cfg, h, UploadEnd(c.put.now, c.puts), since, s.(cache := m1), path, items.value, c.dot, c.dotdot,
                   attrs);
    } else {
      if attrs && path in s.tree && s.tree[path].Dir? {
        StillSettled(cfg, h, s.cache, m1, path, c);
      }
      ReaddirMissTrue(cfg, h, looked, since, s.(cache := m1), path, c, attrs);
    }
  }

  lemma ListAfterLookups(clock: int, c: ReaddirChoice)
    requires ReaddirTimes(clock, c)
    ensures clock <= c.get <= LastTime(c.get, c.children) <= UploadEnd(c.put.now, c.puts)
    ensures Rising(c.get, c.children) && ListTimes(LastTime(c.get, c.children), c)
    ensures DotsOk(UploadEnd(c.put.now, c.puts), c.dot, c.dotdot)
  {
  }

  lemma StillSettled(cfg: FsConfig, h: History, m: Entries, m1: Entries, path: Path, c: ReaddirChoice)
    requires SameAges(m, m1) && Settled(cfg, h, m, path, c)
    ensures Settled(cfg, h, m1, path, c)
  {
    hide HadAttributes;
  }

  // ---- when a listing lets attributes grow too old ----

  /** The listing stores attributes again that the directory does not have now, after their entry
      expired, and they are still cached when it is over. */
  predicate Outlives(cfg: FsConfig, s: FsState, path: Path, c: ReaddirChoice) {
    && |c.puts| == |c.listing| && Misses(cfg, s, path, c) && Straddles(cfg, s.cache, path, c)
    && !StillSo(s, path) && StillCached(cfg, s, path, c)
  }

  /** The path has the attributes still, or again, that the cache has of it. */
  predicate StillSo(s: FsState, path: Path) {
    path in s.cache && path in s.tree && s.cache[path].item.attributes == Some(Storage.AttrOf(s.tree[path]))
  }

  /** The cache has the same attributes before and after the listing. */
  predicate StillCached(cfg: FsConfig, s: FsState, path: Path, c: ReaddirChoice)
    requires |c.puts| == |c.listing|
  {
    var m := Readdir(cfg, s, path, c).0.cache;
    path in s.cache && path in m && m[path].item.attributes == s.cache[path].item.attributes
  }

  /** A node as the attributes describe it. */
  lemma SomeNode(h: History, p: Path, since: int, a: Attributes) returns (n: Storage.Node)
    requires HadAttributes(h, p, since, a)
    ensures Storage.AttrOf(n) == a
  {
    var j :| 0 <= j < |h| && AttributesHeld(h[j], p, since, a);
    n := h[j].tree[p];
  }

  lemma TreeMore(h: History, more: History, t: Tree, time: int)
    requires HadTree(h, t, time)
    ensures HadTree(h + more, t, time)
  {
    var j :| 0 <= j < |h| && h[j].time >= time && h[j].tree == t;
    assert (h + more)[j] == h[j];
  }

  /** What an entry says does not rest on a moment at which there was nothing but another path,
      or its own path with other attributes. */
  lemma WithoutMoment(h: History, time: nat, p: Path, n: Storage.Node, q: Path, e: CacheEntry)
    requires EntryTrue(h + [Snapshot(time, map[p := n])], q, e, true) && EntryTrue(h, q, e, false)
    requires q == p ==> e.item.attributes != Some(Storage.AttrOf(n))
    ensures EntryTrue(h, q, e, true)
  {
    hide HadListing;
    if e.item.attributes.Some? {
      var a, h' := e.item.attributes.value, h + [Snapshot(time, map[p := n])];
      var j :| 0 <= j < |h'| && AttributesHeld(h'[j], q, e.createdAt, a);
      assert j < |h| && h'[j] == h[j];
    }
  }

  lemma EntryWas(h: History, clock: int, m: Entries, path: Path)
    requires Known(h, clock, m, true) && path in m && m[path].item.attributes.Some?
    ensures HadAttributes(h, path, m[path].createdAt, m[path].item.attributes.value)
  {
    hide HadAttributes, HadListing;
    assert EntryTrue(h, path, m[path], true);
  }

  lemma KnownLess(h: History, clock: int, m: Entries)
    requires Known(h, clock, m, true)
    ensures Known(h, clock, m, false)
  {
    hide HadAttributes, HadListing;
  }

  lemma PutInTime(clock: int, c: ReaddirChoice)
    requires ReaddirTimes(clock, c)
    ensures clock <= c.get <= LastTime(c.get, c.children) <= c.self.get <= c.put.now <= c.dotdot.put.now
  {
  }

  /** A moment at which the path had the attributes settles the listing. */
  lemma SettledByMoment(cfg: FsConfig, h: History, s: FsState, path: Path, c: ReaddirChoice, n: Storage.Node)
    requires HadTree(h, map[path := n], c.put.now)
    requires path in s.cache && s.cache[path].item.attributes == Some(Storage.AttrOf(n))
    ensures Settled(cfg, h, s.cache, path, c)
  {
    hide HadAttributes, HadTree;
    AttributesNow(h, map[path := n], c.put.now, path);
  }

  /** If the attributes that the listing stored too late are gone in the end, everything that
      the cache knows then is true. */
  lemma StaleGone(cfg: FsConfig, h: History, clock: int, s: FsState, path: Path, c: ReaddirChoice)
    requires |c.puts| == |c.listing| && Known(h, clock, s.cache, true) && ReaddirTimes(clock, c)
    requires HadTree(h, s.tree, c.dotdot.put.now) && ListingChosen(s.tree, path, c)
    requires path in s.cache && s.cache[path].item.attributes.Some? && !StillCached(cfg, s, path, c)
    ensures Known(h, c.dotdot.put.now, Readdir(cfg, s, path, c).0.cache, true)
  {
    hide Readdir, HadTree, ReaddirTimes, ListingChosen, EntryTrue, HadAttributes, ListingTrue, Misses, Settled;
    var end := c.dotdot.put.now;
    EntryWas(h, clock, s.cache, path);
    var n := SomeNode(h, path, s.cache[path].createdAt, s.cache[path].item.attributes.value);
    var h' := h + [Snapshot(end, map[path := n])];
    KnownMore(h, [Snapshot(end, map[path := n])], clock, s.cache, true);
    TreeMore(h, [Snapshot(end, map[path := n])], s.tree, end);
    TreeNow(h, map[path := n], end);
    PutInTime(clock, c);
    TreeEarlier(h', map[path := n], end, c.put.now);
    SettledByMoment(cfg, h', s, path, c, n);
    ReaddirTrue(cfg, h', clock, s, path, c, true);
    KnownLess(h, clock, s.cache);
    ReaddirTrue(cfg, h, clock, s, path, c, false);
    var m := Readdir(cfg, s, path, c).0.cache;
    forall q | q in m ensures EntryTrue(h, q, m[q], true) {
      WithoutMoment(h, end, path, n, q, m[q]);
    }
  }

  lemma SettledNow(cfg: FsConfig, h: History, s: FsState, path: Path, c: ReaddirChoice)
    requires StillSo(s, path) && HadTree(h, s.tree, c.put.now)
    ensures Settled(cfg, h, s.cache, path, c)
  {
    hide HadAttributes, HadTree;
    AttributesNow(h, s.tree, c.put.now, path);
  }

  /** A listing that lets no attributes grow too old keeps what the cache knows true. */
  lemma ListingKeepsTruth(cfg: FsConfig, h: History, clock: int, s: FsState, path: Path, c: ReaddirChoice)
    requires |c.puts| == |c.listing| && Known(h, clock, s.cache, true) && ReaddirTimes(clock, c)
    requires HadTree(h, s.tree, c.dotdot.put.now) && ListingChosen(s.tree, path, c)
    requires !Outlives(cfg, s, path, c)
    ensures Known(h, c.dotdot.put.now, Readdir(cfg, s, path, c).0.cache, true)
  {
    hide Known, Readdir, HadTree, ReaddirTimes, ListingChosen, HadAttributes, ListingTrue, Misses, StillSo, StillCached;
    PutInTime(clock, c);
    TreeEarlier(h, s.tree, c.dotdot.put.now, c.put.now);
    if !Misses(cfg, s, path, c) || !Straddles(cfg, s.cache, path, c) {
      ReaddirTrue(cfg, h, clock, s, path, c, true);
    } else if StillSo(s, path) {
      SettledNow(cfg, h, s, path, c);
      ReaddirTrue(cfg, h, clock, s, path, c, true);
    } else {
      StaleGone(cfg, h, clock, s, path, c);
    }
  }

  /** The entry at the path, if there is one, was made at or after `time`. */
  predicate MadeSince(m: Entries, path: Path, time: int) {
    path in m ==> m[path].createdAt >= time
  }

  lemma PutMadeSince(cfg: FsConfig, m: Entries, path: Path, key: Path, item: CacheItem, c: Choice, time: int)
    requires MadeSince(m, path, time) && time <= c.now
    ensures MadeSince(CachePut(cfg, m, key, item, false, c), path, time)
  {
    hide UpdateItem;
  }

  lemma AttributesMadeSince(cfg: FsConfig, s: FsState, path: Path, q: Path, c: AttrChoice, time: int)
    requires MadeSince(s.cache, path, time) && time <= c.put.now
    ensures MadeSince(GetAttributes(cfg, s, q, c).0.cache, path, time)
  {
    hide CachePut;
    var m := CacheGet(cfg, s.cache, q, c.get).0;
    assert MadeSince(m, path, time);
    if q in s.tree {
      PutMadeSince(cfg, m, path, q, AttrItem(LastName(q), Storage.AttrOf(s.tree[q])), c.put, time);
    }
  }

  lemma {:induction false} ChildrenMadeSince(cfg: FsConfig, m: Entries, path: Path, dir: Path, items: seq<ListItem>,
                                             cs: seq<Choice>, time: int)
    requires |cs| == |items| && MadeSince(m, path, time) && forall j :: 0 <= j < |cs| ==> time <= cs[j].now
    ensures MadeSince(PutChildren(cfg, m, dir, items, cs), path, time)
    decreases |items|
  {
    hide CachePut, MadeSince;
    if items != [] {
      var item := AttrItem(items[0].name, items[0].attributes);
      PutMadeSince(cfg, m, path, dir + [items[0].name], item, cs[0], time);
      var m1 := CachePut(cfg, m, dir + [items[0].name], item, false, cs[0]);
      ChildrenMadeSince(cfg, m1, path, dir, items[1..], cs[1..], time);
    }
  }

  lemma DotsMadeSince(cfg: FsConfig, s: FsState, path: Path, items: seq<ListItem>, self: AttrChoice, up: AttrChoice,
                      time: int)
    requires MadeSince(s.cache, path, time) && time <= self.put.now && time <= up.put.now
    ensures MadeSince(WithDots(cfg, s, path, items, self, up).0.cache, path, time)
  {
    hide GetAttributes, MadeSince;
    AttributesMadeSince(cfg, s, path, path, self, time);
    AttributesMadeSince(cfg, GetAttributes(cfg, s, path, self).0, path, ParentOrRoot(path), up, time);
  }

  /** What the put of the directory leaves, when what was there has expired. */
  lemma DirMadeNow(cfg: FsConfig, m: Entries, path: Path, item: CacheItem, c: Choice)
    requires cfg.cached && (path in m ==> Expired(cfg.cache, m[path], c.now))
    ensures MadeSince(CachePut(cfg, m, path, item, false, c), path, c.now)
  {
  }

  /** The attributes of the directory are answered from its entry, which gets no older. */
  lemma SelfAnswered(cfg: FsConfig, s: FsState, path: Path, c: ReaddirChoice)
    requires Straddles(cfg, s.cache, path, c)
    ensures var (s1, attr) := GetAttributes(cfg, s, path, c.self);
            attr.Ok? && path in s1.cache && Expired(cfg.cache, s1.cache[path], c.put.now)
  {
  }

  lemma PutsInTime(clock: int, c: ReaddirChoice)
    requires ListTimes(clock, c)
    ensures forall j :: 0 <= j < |c.puts| ==> c.put.now <= c.puts[j].now
    ensures c.put.now <= c.dot.put.now && c.put.now <= c.dotdot.put.now
  {
  }

  lemma MissMadeSince(cfg: FsConfig, s: FsState, path: Path, c: ReaddirChoice, clock: int)
    requires |c.puts| == |c.listing| && ListTimes(clock, c) && path in s.tree && s.tree[path].Dir?
    requires Straddles(cfg, s.cache, path, c)
    ensures MadeSince(ReaddirMiss(cfg, s, path, c).0.cache, path, c.put.now)
  {
    hide GetAttributes, CachePut, PutChildren, WithDots, MadeSince, ListTimes;
    PutsInTime(clock, c);
    SelfAnswered(cfg, s, path, c);
    AttributesKeep(cfg, s, path, c.self);
    var (s1, attr) := GetAttributes(cfg, s, path, c.self);
    var dir := DirectoryItem(LastName(path), Some(attr.value), Some(c.listing));
    DirMadeNow(cfg, s1.cache, path, dir, c.put);
    var m1 := CachePut(cfg, s1.cache, path, dir, false, c.put);
    var items := ServerItems(s.tree, path, c.listing);
    ChildrenMadeSince(cfg, m1, path, path, items, c.puts, c.put.now);
    var s2 := s1.(cache := PutChildren(cfg, m1, path, items, c.puts));
    DotsMadeSince(cfg, s2, path, items, c.dot, c.dotdot, c.put.now);
  }

  lemma GetStays(cfg: FsConfig, m: Entries, path: Path, key: Path, now: nat, until: nat)
    requires path in m && !Expired(cfg.cache, m[path], until) && now <= until
    ensures var m' := CacheGet(cfg, m, key, now).0;
            path in m' && m'[path].createdAt == m[path].createdAt && m'[path].item == m[path].item
  {
  }

  lemma {:induction false} LookupStays(cfg: FsConfig, m: Entries, path: Path, dir: Path, names: seq<Name>,
                                       nows: seq<nat>, until: nat)
    requires |nows| == |names| && path in m && !Expired(cfg.cache, m[path], until)
    requires forall j :: 0 <= j < |nows| ==> nows[j] <= until
    ensures var m' := LookupChildren(cfg, m, dir, names, nows).0;
            path in m' && m'[path].createdAt == m[path].createdAt && m'[path].item == m[path].item
    decreases |names|
  {
    hide CacheGet;
    if names != [] {
      GetStays(cfg, m, path, dir + [names[0]], nows[0], until);
      var m1 := CacheGet(cfg, m, dir + [names[0]], nows[0]).0;
      LookupStays(cfg, m1, path, dir, names[1..], nows[1..], until);
    }
  }

  lemma LookupsInTime(clock: int, times: seq<nat>, until: nat)
    requires Rising(clock, times) && LastTime(clock, times) <= until
    ensures forall j :: 0 <= j < |times| ==> times[j] <= until
  {
  }

  lemma OutlivesMade(cfg: FsConfig, s: FsState, path: Path, c: ReaddirChoice, clock: int)
    requires |c.puts| == |c.listing| && Misses(cfg, s, path, c) && Straddles(cfg, s.cache, path, c)
    requires ReaddirTimes(clock, c)
    ensures MadeSince(Readdir(cfg, s, path, c).0.cache, path, c.put.now)
  {
    hide CacheGet, LookupChildren, ReaddirMiss, MadeSince, ListTimes, Rising, LastTime;
    ListAfterLookups(clock, c);
    PutInTime(clock, c);
    LookupsInTime(c.get, c.children, c.self.get);
    GetStays(cfg, s.cache, path, path, c.get, c.self.get);
    var (m, hit) := CacheGet(cfg, s.cache, path, c.get);
    if hit.Some? && hit.value.DirectoryItem? && hit.value.children.Some? && |c.children| == |hit.value.children.value| {
      LookupStays(cfg, m, path, path, hit.value.children.value, c.children, c.self.get);
    }
    var m1 := CachedListing(cfg, m, path, hit, c.children).0;
    MissMadeSince(cfg, s.(cache := m1), path, c, LastTime(c.get, c.children));
  }

  /** The history as it would be if the client's knowledge were as old as it can be. */
  function Cut(h: History, time: nat): History {
    seq(|h|, i requires 0 <= i < |h| => Snapshot(Min(h[i].time, time), h[i].tree))
  }

  lemma CutEntry(h: History, time: nat, q: Path, e: CacheEntry)
    requires EntryTrue(h, q, e, true) && e.createdAt <= time
    ensures EntryTrue(Cut(h, time), q, e, true)
  {
    hide Storage.IsListing, Storage.GetAttributes;
    if e.item.attributes.Some? {
      var a := e.item.attributes.value;
      var j :| 0 <= j < |h| && AttributesHeld(h[j], q, e.createdAt, a);
      assert AttributesHeld(Cut(h, time)[j], q, e.createdAt, a);
    }
    if e.item.DirectoryItem? && e.item.children.Some? {
      var names := e.item.children.value;
      var j :| 0 <= j < |h| && ListingHeld(h[j], q, e.createdAt, names);
      assert ListingHeld(Cut(h, time)[j], q, e.createdAt, names);
    }
  }

  lemma CutKnown(h: History, time: nat, clock: int, m: Entries)
    requires Known(h, clock, m, true) && clock <= time
    ensures Known(Cut(h, time), clock, m, true)
  {
    hide EntryTrue;
    forall q | q in m ensures EntryTrue(Cut(h, time), q, m[q], true) {
      CutEntry(h, time, q, m[q]);
    }
  }

  lemma NotSince(h: History, time: nat, end: nat, t: Tree, path: Path, since: int, a: Attributes)
    requires time < since && (path in t ==> a != Storage.AttrOf(t[path]))
    ensures !HadAttributes(Cut(h, time) + [Snapshot(end, t)], path, since, a)
  {
    var g := Cut(h, time) + [Snapshot(end, t)];
    forall j | 0 <= j < |g| ensures !AttributesHeld(g[j], path, since, a) {
      assert j < |h| ==> g[j] == Cut(h, time)[j];
    }
  }

  /** A listing that lets attributes grow too old makes the cache say what was never so since,
      in some history that fits all the cache knew before. */
  lemma ListingBreaksTruth(cfg: FsConfig, h: History, clock: int, s: FsState, path: Path, c: ReaddirChoice)
    returns (g: History)
    requires |c.puts| == |c.listing| && Known(h, clock, s.cache, true) && ReaddirTimes(clock, c)
    requires Outlives(cfg, s, path, c)
    ensures Known(g, clock, s.cache, true) && HadTree(g, s.tree, c.dotdot.put.now)
    ensures !Known(g, c.dotdot.put.now, Readdir(cfg, s, path, c).0.cache, true)
  {
    hide Readdir, HadTree, ReaddirTimes, HadAttributes, HadListing, Misses, Known;
    PutInTime(clock, c);
    var m, end := Readdir(cfg, s, path, c).0.cache, c.dotdot.put.now;
    var a := s.cache[path].item.attributes.value;
    assert c.self.get < c.put.now;
    var time := c.put.now - 1;
    g := Cut(h, time) + [Snapshot(end, s.tree)];
    CutKnown(h, time, clock, s.cache);
    KnownMore(Cut(h, time), [Snapshot(end, s.tree)], clock, s.cache, true);
    TreeNow(Cut(h, time), s.tree, end);
    OutlivesMade(cfg, s, path, c, clock);
    NotSince(h, time, end, s.tree, path, m[path].createdAt, a);
    if Known(g, end, m, true) {
      EntryWas(g, end, m, path);
    }
  }

  /** One listing keeps the cache true of every history that fits what the cache knew before,
      exactly if it lets no attributes grow too old. */
  lemma ListingKeepsTruthIff(cfg: FsConfig, h: History, clock: int, s: FsState, path: Path, c: ReaddirChoice)
    requires |c.puts| == |c.listing| && Known(h, clock, s.cache, true) && ReaddirTimes(clock, c)
    requires ListingChosen(s.tree, path, c)
    ensures (forall g :: Known(g, clock, s.cache, true) && HadTree(g, s.tree, c.dotdot.put.now) ==>
                           Known(g, c.dotdot.put.now, Readdir(cfg, s, path, c).0.cache, true)) <==>
            !Outlives(cfg, s, path, c)
  {
    hide Known, HadTree, Readdir, ReaddirTimes, ListingChosen, Outlives;
    if Outlives(cfg, s, path, c) {
      var g := ListingBreaksTruth(cfg, h, clock, s, path, c);
    } else {
      forall g | Known(g, clock, s.cache, true) && HadTree(g, s.tree, c.dotdot.put.now)
        ensures Known(g, c.dotdot.put.now, Readdir(cfg, s, path, c).0.cache, true)
      {
        ListingKeepsTruth(cfg, g, clock, s, path, c);
      }
    }
  }

  // ---- the server keeps a file tree ----

  lemma WriteKeepsTree(t: Tree, path: Path, offset: nat, data: seq<byte>)
    requires Storage.WellFormed(t) && Storage.WriteFile(t, path, offset, data).Ok?
    ensures Storage.WellFormed(Storage.WriteFile(t, path, offset, data).value)
  {
    var t' := Storage.WriteFile(t, path, offset, data).value;
    assert path in t ==> path != [] && Storage.InDir(t, path);
    Listing.AddKeepsWellFormed(t, path, t'[path]);
  }

  lemma UploadOneKeepsTree(cfg: FsConfig, s: FsState, u: Upload, c: Choice)
    requires Storage.WellFormed(s.tree)
    ensures Storage.WellFormed(UploadOne(cfg, s, u, c).0.tree)
  {
    hide Storage.WellFormed, CacheWrite;
    if Storage.WriteFile(s.tree, u.path, u.offset, u.data).Ok? {
      WriteKeepsTree(s.tree, u.path, u.offset, u.data);
    }
  }

  lemma {:induction false} UploadAllKeepsTree(cfg: FsConfig, s: FsState, uploads: seq<Upload>, cs: seq<Choice>)
    requires |cs| == |uploads| && Storage.WellFormed(s.tree)
    ensures Storage.WellFormed(UploadAll(cfg, s, uploads, cs).0.tree)
    decreases |uploads|
  {
    hide Storage.WellFormed, UploadOne;
    if uploads != [] {
      UploadOneKeepsTree(cfg, s, uploads[0], cs[0]);
      UploadAllKeepsTree(cfg, UploadOne(cfg, s, uploads[0], cs[0]).0, uploads[1..], cs[1..]);
    }
  }

  lemma NewNodesKeepTree(t: Tree, path: Path, target: string, size: nat)
    requires Storage.WellFormed(t)
    ensures Storage.MakeDir(t, path).Ok? ==> Storage.WellFormed(Storage.MakeDir(t, path).value)
    ensures Storage.MakeLink(t, path, target).Ok? ==> Storage.WellFormed(Storage.MakeLink(t, path, target).value)
    ensures Storage.SetSize(t, path, size).Ok? ==> Storage.WellFormed(Storage.SetSize(t, path, size).value)
  {
    hide Storage.WellFormed;
    if Storage.MakeDir(t, path).Ok? {
      Listing.AddKeepsWellFormed(t, path, Storage.Dir);
    }
    if Storage.MakeLink(t, path, target).Ok? {
      Listing.AddKeepsWellFormed(t, path, Storage.Link(target));
    }
    if Storage.SetSize(t, path, size).Ok? {
      FileInDir(t, path);
      var t' := Storage.SetSize(t, path, size).value;
      Listing.AddKeepsWellFormed(t, path, t'[path]);
      assert t[path := t'[path]] == t';
    }
  }

  lemma FileInDir(t: Tree, path: Path)
    requires Storage.WellFormed(t) && path in t && t[path].File?
    ensures Storage.InDir(t, path)
  {
  }

  lemma StepKeepsTree(cfg: FsConfig, delay: nat, clock: int, s: FsState, op: Op)
    requires Storage.WellFormed(s.tree) && OpOk(cfg, delay, clock, s, op)
    ensures Storage.WellFormed(Step(cfg, s, op).tree)
  {
    hide ReadFile, GetAttributes, Readdir, WriteSection, UploadAll, UploadOne, CachePutNew, CacheAttr, CacheRemove,
      ReadOk, UploadOrdersOk, ReaddirTimes, ListingChosen, OrderOk, ChunkItem, Storage.WellFormed;
    match op
    case WriteOp(path, offset, data, c) =>
      if |s.pending.data| <= cfg.capacity {
        CallLoops.AtMostTwo(cfg.capacity, s.pending, path, offset, data);
        var (b, uploads, _) := WriteSection(cfg.capacity, s.pending, path, offset, data);
        UploadAllKeepsTree(cfg, s.(pending := b), uploads, ChoicesFor(|uploads|, c));
      }
    case FlushOp(c) =>
      if s.pending.data != [] {
        UploadOneKeepsTree(cfg, s.(pending := CLEAN), UploadOf(s.pending), c);
      }
    case CreateOp(path, offset, data, _) =>
      if Storage.WriteFile(s.tree, path, offset, data).Ok? {
        WriteKeepsTree(s.tree, path, offset, data);
      }
    case MkdirOp(path, _) => NewNodesKeepTree(s.tree, path, "", 0);
    case SymlinkOp(path, target, _) => NewNodesKeepTree(s.tree, path, target, 0);
    case SetSizeOp(path, size, _) => NewNodesKeepTree(s.tree, path, "", size);
    case RemoveOp(path) =>
      if Storage.Delete(s.tree, path).Ok? {
        Listing.DeleteKeepsWellFormed(s.tree, path);
      }
    case ServerOp(_) =>
    case _ => QuietKeeps(cfg, s, op);
  }

  // ---- whole runs ----

  /** This call is no listing that lets attributes grow too old. */
  predicate Steady(cfg: FsConfig, s: FsState, op: Op) {
    op.ReaddirOp? ==> !Outlives(cfg, s, op.path, op.dc)
  }

  ghost predicate AllSteady(cfg: FsConfig, s: FsState, ops: seq<Op>)
    decreases |ops|
  {
    ops == [] || (Steady(cfg, s, ops[0]) && AllSteady(cfg, Step(cfg, s, ops[0]), ops[1..]))
  }

  lemma CreationTrue(cfg: FsConfig, h: History, clock: int, s: FsState, op: Op, attrs: bool)
    requires op.CreateOp? || op.MkdirOp? || op.SymlinkOp? || op.SetSizeOp?
    requires Known(h, clock, s.cache, attrs) && Storage.WellFormed(s.tree) && clock <= op.c.now
    requires HadTree(h, Step(cfg, s, op).tree, op.c.now)
    ensures Known(h, op.c.now, Step(cfg, s, op).cache, attrs)
  {
    hide Known, CachePutNew, CacheAttr, HadTree, HadAttributes, HadListing, Storage.WellFormed;
    var t, now := Step(cfg, s, op).tree, op.c.now;
    KnownLater(h, clock, now, s.cache, attrs);
    if op.path in t {
      AttributesNow(h, t, now, op.path);
    }
    match op
    case CreateOp(path, offset, data, c) =>
      if Storage.WriteFile(s.tree, path, offset, data).Ok? {
        PutNewKnown(cfg, h, clock, s.cache, path, FileItem(LastName(path), Some(Storage.AttrOf(t[path])), map[]), c,
                    attrs);
      }
    case MkdirOp(path, c) =>
      if Storage.MakeDir(s.tree, path).Ok? {
        Listing.NoNamesBelowNothing(s.tree, path, Storage.Dir);
        Storage.ListNothing();
        ListingNow(h, t, now, path, []);
        PutNewKnown(cfg, h, clock, s.cache, path,
                    DirectoryItem(LastName(path), Some(Storage.AttrOf(Storage.Dir)), Some([])), c, attrs);
      }
    case SymlinkOp(path, target, c) =>
      if Storage.MakeLink(s.tree, path, target).Ok? {
        PutNewKnown(cfg, h, clock, s.cache, path,
                    SymlinkItem(LastName(path), Some(Storage.AttrOf(Storage.Link(target))), Some(target)), c, attrs);
      }
    case SetSizeOp(path, size, c) =>
      if Storage.SetSize(s.tree, path, size).Ok? {
        AttrPutKnown(cfg, h, clock, s.cache, path, Storage.AttrOf(t[path]), c, attrs);
      }
  }

  lemma UploadStepTrue(cfg: FsConfig, delay: nat, h: History, clock: int, s: FsState, op: Op, attrs: bool)
    requires op.WriteOp? || op.FlushOp?
    requires Known(h, clock, s.cache, attrs) && OpOk(cfg, delay, clock, s, op)
    ensures Known(h, End(cfg, clock, s, op), Step(cfg, s, op).cache, attrs)
  {
    hide Known, WriteSection, UploadAll, UploadOne, UploadOrdersOk, OrderOk, ChunkItem, UploadTimes, UploadEnd;
    match op
    case WriteOp(path, offset, data, c) =>
      if |s.pending.data| <= cfg.capacity {
        CallLoops.AtMostTwo(cfg.capacity, s.pending, path, offset, data);
        var (b, uploads, _) := WriteSection(cfg.capacity, s.pending, path, offset, data);
        UploadAllTrue(cfg, h, clock, s.(pending := b), uploads, ChoicesFor(|uploads|, c), attrs);
      }
    case FlushOp(c) =>
      KnownLater(h, clock, c.now, s.cache, attrs);
      if s.pending.data != [] {
        UploadOneTrue(cfg, h, clock, s.(pending := CLEAN), UploadOf(s.pending), c, attrs);
      }
  }

  lemma StepTrue(cfg: FsConfig, delay: nat, h: History, clock: int, s: FsState, op: Op, attrs: bool)
    requires Known(h, clock, s.cache, attrs) && Storage.WellFormed(s.tree) && OpOk(cfg, delay, clock, s, op)
    requires attrs ==> Steady(cfg, s, op)
    ensures Known(h + Seen(cfg, s, op), End(cfg, clock, s, op), Step(cfg, s, op).cache, attrs)
  {
    hide Known, ReadFile, GetAttributes, Readdir, WriteFile, Flush, CreateFile, Mkdir, CreateSymlink, SetSize, HadTree,
      ListingTrue, OrderOk, ChunkItem, Brought, ReadTimes, ReaddirTimes, UploadOrdersOk, ListingChosen,
      Storage.WellFormed, Outlives, WriteSection, UploadAll, UploadSnapshots, Ancestors;
    var h' := h + Seen(cfg, s, op);
    KnownMore(h, Seen(cfg, s, op), clock, s.cache, attrs);
    match op
    case ReadOp(path, offset, size, c) =>
      TreeNow(h, s.tree, c.miss.put.now);
      ReadFileTrue(cfg, delay, h', clock, s, path, offset, size, c, attrs);
    case AttrOp(path, c) =>
      TreeNow(h, s.tree, c.put.now);
      GetAttributesTrue(cfg, h', clock, s, path, c, attrs);
    case WriteOp(_, _, _, _) => UploadStepTrue(cfg, delay, h', clock, s, op, attrs);
    case FlushOp(_) => UploadStepTrue(cfg, delay, h', clock, s, op, attrs);
    case ReaddirOp(path, c) =>
      TreeNow(h, s.tree, c.dotdot.put.now);
      if attrs {
        ListingKeepsTruth(cfg, h', clock, s, path, c);
      } else {
        ReaddirTrue(cfg, h', clock, s, path, c, false);
      }
    case RemoveOp(path) =>
      DropKnown(h', clock, s.cache, {path}, attrs);
      DropKnown(h', clock, s.cache - {path}, Ancestors(path), attrs);
    case DropOp(keys) => DropKnown(h', clock, s.cache, keys, attrs);
    case ServerOp(_) =>
    case _ =>
      TreeNow(h, Step(cfg, s, op).tree, op.c.now);
      CreationTrue(cfg, h', clock, s, op, attrs);
  }

  lemma {:induction false} RunTrue(cfg: FsConfig, delay: nat, h: History, clock: int, s: FsState, ops: seq<Op>,
                                   attrs: bool)
    requires Known(h, clock, s.cache, attrs) && Storage.WellFormed(s.tree) && RunOk(cfg, delay, clock, s, ops)
    requires attrs ==> AllSteady(cfg, s, ops)
    ensures Known(h + RunSeen(cfg, s, ops), RunEnd(cfg, clock, s, ops), Run(cfg, s, ops).cache, attrs)
    decreases |ops|
  {
    hide Known, OpOk, Step, End, Seen, Steady, Storage.WellFormed;
    if ops == [] {
      assert h + [] == h;
    } else {
      StepTrue(cfg, delay, h, clock, s, ops[0], attrs);
      StepKeepsTree(cfg, delay, clock, s, ops[0]);
      var s1 := Step(cfg, s, ops[0]);
      RunTrue(cfg, delay, h + Seen(cfg, s, ops[0]), End(cfg, clock, s, ops[0]), s1, ops[1..], attrs);
      assert h + RunSeen(cfg, s, ops) == h + Seen(cfg, s, ops[0]) + RunSeen(cfg, s1, ops[1..]);
    }
  }

  lemma StartTrue(t: Tree, attrs: bool)
    ensures Known([], -1, Start(t).cache, attrs)
  {
  }

  lemma FromStart(cfg: FsConfig, delay: nat, t: Tree, ops: seq<Op>, end: nat, attrs: bool)
    requires Storage.WellFormed(t) && RunOk(cfg, delay, -1, Start(t), ops) && (attrs ==> AllSteady(cfg, Start(t), ops))
    ensures var s := Run(cfg, Start(t), ops);
            var h := RunSeen(cfg, Start(t), ops) + [Snapshot(end, s.tree)];
            Known(h, RunEnd(cfg, -1, Start(t), ops), s.cache, attrs) && HadTree(h, s.tree, end)
  {
    hide Known, RunOk, AllSteady, Run, RunSeen, RunEnd, Storage.WellFormed, HadTree;
    StartTrue(t, attrs);
    RunTrue(cfg, delay, [], -1, Start(t), ops, attrs);
    var h, s := RunSeen(cfg, Start(t), ops), Run(cfg, Start(t), ops);
    assert [] + h == h;
    KnownMore(h, [Snapshot(end, s.tree)], RunEnd(cfg, -1, Start(t), ops), s.cache, attrs);
    TreeNow(h, s.tree, end);
  }

  /** In every run of a client's calls and of changes by others in which no listing lets attributes
      grow too old: attributes that are then answered were the server's at most a time to live
      before the lookup. */
  lemma AttributesAreRecent(cfg: FsConfig, delay: nat, t: Tree, ops: seq<Op>, path: Path, c: AttrChoice)
    requires cfg.cache.useTtl && Storage.WellFormed(t) && RunOk(cfg, delay, -1, Start(t), ops)
             && AllSteady(cfg, Start(t), ops)
    requires AttrOk(RunEnd(cfg, -1, Start(t), ops), c)
    ensures var s := Run(cfg, Start(t), ops);
            var h := RunSeen(cfg, Start(t), ops) + [Snapshot(c.put.now, s.tree)];
            var r := GetAttributes(cfg, s, path, c).1;
            r.Ok? ==> HadAttributes(h, path, c.get - cfg.cache.ttl, r.value)
  {
    hide Known, RunOk, AllSteady, Run, RunSeen, RunEnd, GetAttributes, HadAttributes, HadTree, Storage.WellFormed;
    FromStart(cfg, delay, t, ops, c.put.now, true);
    var s := Run(cfg, Start(t), ops);
    var h := RunSeen(cfg, Start(t), ops) + [Snapshot(c.put.now, s.tree)];
    GetAttributesTrue(cfg, h, RunEnd(cfg, -1, Start(t), ops), s, path, c, true);
  }

  /** In every run, without that condition: the names of a listing, from the cache or not, are
      exactly those that the directory had at most a time to live before. Under the condition, and
      if its own directory entry does not expire on the way, so are the attributes it gives. */
  lemma ListingsAreRecent(cfg: FsConfig, delay: nat, t: Tree, ops: seq<Op>, path: Path, c: ReaddirChoice, attrs: bool)
    requires cfg.cache.useTtl && Storage.WellFormed(t) && RunOk(cfg, delay, -1, Start(t), ops)
    requires var s := Run(cfg, Start(t), ops);
             && |c.puts| == |c.listing| && ReaddirTimes(RunEnd(cfg, -1, Start(t), ops), c)
             && ListingChosen(s.tree, path, c)
             && (attrs ==>
                   && AllSteady(cfg, Start(t), ops)
                   && (Misses(cfg, s, path, c) ==> !Straddles(cfg, s.cache, path, c)))
    ensures var s := Run(cfg, Start(t), ops);
            var h := RunSeen(cfg, Start(t), ops) + [Snapshot(c.dotdot.put.now, s.tree)];
            var r := Readdir(cfg, s, path, c).1;
            r.Ok? ==> ListingTrue(h, path, c.get - cfg.cache.ttl, r.value, attrs)
  {
    hide Known, RunOk, AllSteady, Run, RunSeen, RunEnd, Readdir, ListingTrue, HadTree, Storage.WellFormed, ReaddirTimes,
      ListingChosen, Straddles, Misses, HadAttributes;
    FromStart(cfg, delay, t, ops, c.dotdot.put.now, attrs);
    var s := Run(cfg, Start(t), ops);
    var h := RunSeen(cfg, Start(t), ops) + [Snapshot(c.dotdot.put.now, s.tree)];
    ReaddirTrue(cfg, h, RunEnd(cfg, -1, Start(t), ops), s, path, c, attrs);
  }

  /** If no listing lets attributes grow too old, a read that gives nothing is right too: the file ended at or before
      the offset at most a time to live before. */
  lemma EmptyReadsAreRecent(cfg: FsConfig, delay: nat, t: Tree, ops: seq<Op>, path: Path, offset: nat, size: nat,
                            c: ReadChoice)
    requires cfg.cache.useTtl && cfg.capacity > 0 && size > 0
    requires Storage.WellFormed(t) && RunOk(cfg, delay, -1, Start(t), ops) && AllSteady(cfg, Start(t), ops)
    requires ReadTimes(delay, RunEnd(cfg, -1, Start(t), ops), c)
    ensures var s := Run(cfg, Start(t), ops);
            var h := RunSeen(cfg, Start(t), ops) + [Snapshot(c.miss.put.now, s.tree)];
            ReadFile(cfg, s, path, offset, size, c).1 == Ok([]) ==>
              HadEnded(h, path, c.attr.get - cfg.cache.ttl, offset)
  {
    hide Known, RunOk, AllSteady, Run, RunSeen, RunEnd, ReadFile, HadEnded, HadTree, Storage.WellFormed, ReadTimes;
    FromStart(cfg, delay, t, ops, c.miss.put.now, true);
    var s := Run(cfg, Start(t), ops);
    var h := RunSeen(cfg, Start(t), ops) + [Snapshot(c.miss.put.now, s.tree)];
    ReadFileTrue(cfg, delay, h, RunEnd(cfg, -1, Start(t), ops), s, path, offset, size, c, true);
  }
}
