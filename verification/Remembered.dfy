/** What the client does not ask the server for again: after a call, and in time, lookups, reads
    and listings are answered from what it stored, whatever the server has become. */
module Remembered {
  import opened Bytes
  import opened PagedFile
  import opened PageMerge
  import opened Cache
  import opened RwBuffer
  import opened FsModel
  import opened Runs
  import Answers
  import AppendOnly
  import Eviction
  import Listing
  import SequentialReads
  import Storage

  // ---- the cache ----

  predicate SameKind(a: CacheItem, b: CacheItem) {
    || (a.FileItem? && b.FileItem?)
    || (a.DirectoryItem? && b.DirectoryItem?)
    || (a.SymlinkItem? && b.SymlinkItem?)
  }

  /** What is known after `item` came to `was`: what it says, else what was known; attributes are
      forgotten if that was asked for. */
  predicate Updated(was: CacheItem, item: CacheItem, invalidate: bool, r: CacheItem) {
    && SameKind(r, item)
    && r.attributes == (if invalidate then None
                        else if item.attributes.Some? || !SameKind(was, item) then item.attributes
                        else was.attributes)
    && (SameKind(was, item) ==>
          && r.name == was.name
          && (r.DirectoryItem? ==> r.children == if item.children.Some? then item.children else was.children)
          && (r.SymlinkItem? ==> r.target == if item.target.Some? then item.target else was.target))
    && (!SameKind(was, item) ==> r == item.(attributes := r.attributes))
  }

  lemma MergeUpdates(lim: Limits, was: CacheItem, item: CacheItem, order: seq<nat>, invalidate: bool)
    ensures var merged := UpdateItem(lim, was, item, order);
            Updated(was, item, invalidate, if invalidate then merged.(attributes := None) else merged)
  {
    hide PageMerge.Merge;
  }

  /** A stored item is found exactly until the time to live of its entry is over: the new item, or
      what it made of the one that was there, whose entry gets no younger; a lookup that finds
      nothing leaves nothing there. */
  lemma StoredIsFound(cfg: CacheConfig, m: Entries, key: Path, item: CacheItem, invalidate: bool, c: Choice, now: nat)
    ensures var (m', hit) := Get(cfg, Put(cfg, m, key, item, invalidate, c), key, now);
            var merges := Eviction.Live(cfg, m, key, c.now);
            && (hit.Some? <==> Eviction.InTime(cfg, if merges then m[key].createdAt else c.now, now))
            && (hit.Some? ==> if merges then Updated(m[key].item, item, invalidate, hit.value) else hit.value == item)
            && (hit.Some? <==> key in m') && (hit.Some? ==> m'[key].item == hit.value)
  {
    hide UpdateItem, MakeRoom, Updated;
    if Eviction.Live(cfg, m, key, c.now) {
      MergeUpdates(cfg.limits, m[key].item, item, c.order, invalidate);
    }
  }

  /** An entry that is not found any more was dropped, has expired, gave way to a new path below
      it, or was the victim of a full cache; all others are as they were. */
  lemma OnlySuchEntriesGo(cfg: CacheConfig, m: Entries, a: Call, k: Path)
    requires k in m && (a.Look? || a.Keep? || a.KeepNew? ==> k != a.key)
    ensures var m' := CallStep(cfg, m, a);
            if k in m' then m'[k] == m[k]
            else match a
              case Look(_, _) => false
              case Keep(_, _, _, c) =>
                |m - {a.key}| >= cfg.capacity && k == c.victim && !Eviction.Live(cfg, m, a.key, c.now)
              case KeepNew(key, _, c) => k < key || (|m - Ancestors(key)| >= cfg.capacity && k == c.victim)
              case Drop(keys, _) => k in keys
  {
    hide UpdateItem, Ancestors;
    match a
    case KeepNew(key, _, _) => AncestorsArePrefixes(key);
    case _ =>
  }

  // ---- lookups ----

  /** Cached attributes answer, whatever the server has, and stay. */
  lemma CachedLookup(cfg: FsConfig, s: FsState, path: Path, c: AttrChoice)
    requires cfg.cached && Eviction.Live(cfg.cache, s.cache, path, c.get) && s.cache[path].item.attributes.Some?
    ensures var (s', r) := GetAttributes(cfg, s, path, c);
            && r == Ok(s.cache[path].item.attributes.value)
            && s' == s.(cache := s'.cache) && s'.cache.Keys == s.cache.Keys
            && (forall k :: k in s.cache ==>
                  s'.cache[k].item == s.cache[k].item && s'.cache[k].createdAt == s.cache[k].createdAt)
  {
  }

  /** Attributes that were asked for are answered again in time, whatever the server has become. */
  lemma LookupRemembered(cfg: FsConfig, s: FsState, path: Path, c: AttrChoice, t: Tree, d: AttrChoice)
    requires cfg.cached && path != [] && path !in s.cache && path in s.tree
             && Eviction.InTime(cfg.cache, c.put.now, d.get)
    ensures var (s', r) := GetAttributes(cfg, s, path, c);
            r.Ok? && Answers.Describes(r.value, s.tree[path]) && GetAttributes(cfg, s'.(tree := t), path, d).1 == r
  {
    hide MakeRoom;
  }

  // ---- what creating calls store ----

  /** A created node is known with its attributes, its target, or as an empty directory. */
  lemma CreatedIsKnown(cfg: FsConfig, s: FsState, op: Op, now: nat)
    requires (op.CreateOp? || op.MkdirOp? || op.SymlinkOp?) && cfg.cached && op.path != []
    requires op.path in Step(cfg, s, op).tree && Step(cfg, s, op) != s && Eviction.InTime(cfg.cache, op.c.now, now)
    ensures var s' := Step(cfg, s, op);
            var hit := CacheGet(cfg, s'.cache, op.path, now).1;
            && hit.Some? && hit.value.name == op.path[|op.path| - 1]
            && hit.value.attributes.Some? && Answers.Describes(hit.value.attributes.value, s'.tree[op.path])
            && (op.CreateOp? ==> hit.value.FileItem? && hit.value.pages == map[])
            && (op.MkdirOp? ==> hit.value.DirectoryItem? && hit.value.children == Some([]))
            && (op.SymlinkOp? ==> hit.value.SymlinkItem? && hit.value.target == Some(op.target))
  {
    hide MakeRoom, Ancestors, WriteAt;
  }

  /** A size that was set is answered, in time, whatever was cached and whatever the server has. */
  lemma SetSizeRemembered(cfg: FsConfig, s: FsState, path: Path, size: nat, c: Choice, t: Tree, d: AttrChoice)
    requires cfg.cached && path != [] && path in s.tree && s.tree[path].File?
    requires var since := if Eviction.Live(cfg.cache, s.cache, path, c.now) then s.cache[path].createdAt else c.now;
             Eviction.InTime(cfg.cache, since, d.get)
    ensures var s' := SetSize(cfg, s, path, size, c).0;
            GetAttributes(cfg, s'.(tree := t), path, d).1 == Ok(Attributes(size, KindFile))
  {
    hide Put, Get, Updated;
    var item := AttrItem(LastName(path), Attributes(size, KindFile));
    var m := Put(cfg.cache, s.cache, path, item, false, c);
    StoredIsFound(cfg.cache, s.cache, path, item, false, c, d.get);
    var hit := Get(cfg.cache, m, path, d.get).1;
    assert hit.value.attributes == item.attributes by {
      if Eviction.Live(cfg.cache, s.cache, path, c.now) {
        UpdatedAttributes(s.cache[path].item, item, hit.value);
      }
    }
  }

  lemma UpdatedAttributes(was: CacheItem, item: CacheItem, r: CacheItem)
    requires Updated(was, item, false, r) && item.attributes.Some?
    ensures r.attributes == item.attributes
  {
  }

  // ---- reads ----

  lemma AllMerged(g: Pages, lim: Limits, order: seq<nat>)
    requires PagesOk(g, lim.pageSize) && |g| <= lim.maxPages && IsOrder(order, g.Keys)
    ensures PageMerge.Merge(map[], g, lim, order) == g
  {
    hide PageMerge.Merge, MergeCount, PagesOk, Overlay, MergeHasRoom;
    AppendOnly.EmptyOk(lim.pageSize);
    NothingInTheWay(g, lim);
    RoomMeansComplete(map[], g, lim, order);
    MergeIsOverlay(map[], g, lim, order);
    assert order[..|order|] == order;
    OverNone(g, Elements(order));
  }

  lemma NothingInTheWay(g: Pages, lim: Limits)
    requires |g| <= lim.maxPages
    ensures MergeHasRoom({}, g.Keys, lim)
  {
    assert {} + g.Keys == g.Keys && |g| == |g.Keys|;
  }

  lemma OverNone(g: Pages, keys: set<nat>)
    requires keys == g.Keys
    ensures Overlay(map[], g, keys) == g
  {
  }

  /** What a read stores of a file of which nothing was cached: true bytes, the first one among
      them, and the attributes. */
  ghost predicate Stored(cfg: FsConfig, s: FsState, p: Path, truth: seq<byte>, x: nat, since: nat) {
    && p in s.cache && s.cache[p].createdAt == since && s.cache[p].item.FileItem?
    && s.cache[p].item.attributes == Some(Attributes(|truth|, KindFile))
    && AppendOnly.Truthful(s.cache[p].item.pages, cfg.cache.limits.pageSize, truth)
    && ValidAt(s.cache[p].item.pages, cfg.cache.limits.pageSize, x)
  }

  lemma ChunkTrue(lim: Limits, truth: seq<byte>, x: nat, data: seq<byte>, order: seq<nat>)
    requires lim.maxPages > 0 && data != [] && x + |data| <= |truth| && data == truth[x..x + |data|]
    requires IsOrder(order, WriteContent(map[], lim, x, data).Keys)
    ensures var r := PageMerge.Merge(map[], WriteContent(map[], lim, x, data), lim, order);
            AppendOnly.Truthful(r, lim.pageSize, truth) && ValidAt(r, lim.pageSize, x)
  {
    hide PageMerge.Merge, WriteContent, Accepted, IsOrder, AppendOnly.Truthful, ValidAt, PagesOk, ByteAt;
    var g := WriteContent(map[], lim, x, data);
    SequentialReads.ChunkFollows(lim, truth, x, data, |data|);
    AppendOnly.EmptyOk(lim.pageSize);
    WriteContentKeepsOk(map[], lim, x, data);
    AllMerged(g, lim, order);
    AppendOnly.ChunkSpan(lim, x, data);
    FirstAccepted(lim, x, data);
    AppendOnly.SpanAt(g, lim.pageSize, x, x + Accepted(map[], lim, x, data), x);
  }

  lemma FirstAccepted(lim: Limits, x: nat, data: seq<byte>)
    requires lim.maxPages > 0 && data != []
    ensures Accepted(map[], lim, x, data) > 0
  {
    hide WriteContent;
    WriteContentUnfold(map[], lim, x, data);
  }

  /** The bytes from `x` on, one of them at least. */
  predicate SomeBytes(truth: seq<byte>, x: nat, size: nat, r: Result<seq<byte>>) {
    r.Ok? && 0 < |r.value| <= size && x + |r.value| <= |truth| && r.value == truth[x..x + |r.value|]
  }

  lemma RunOfTruth(f: Pages, ps: pos, truth: seq<byte>, x: nat, size: nat)
    requires AppendOnly.Truthful(f, ps, truth) && ValidAt(f, ps, x) && size > 0
    ensures SomeBytes(truth, x, size, Ok(ReadRun(View(f, ps), x, size)))
  {
    hide ValidAt, ByteAt, AppendOnly.Truthful;
    var r := ReadRun(View(f, ps), x, size);
    assert r != [];
    forall i | x <= i < x + |r| ensures i < |truth| && r[i - x] == truth[i] {
      assert i in View(f, ps) && r[i - x] == View(f, ps)[i];
      AppendOnly.TrueAt(f, ps, truth, i);
    }
    var last := x + |r| - 1;
    assert last in View(f, ps) && r[last - x] == View(f, ps)[last];
    AppendOnly.TrueAt(f, ps, truth, last);
  }

  lemma StoredAnswersRead(cfg: FsConfig, s: FsState, p: Path, truth: seq<byte>, x: nat, since: nat, size: nat,
                          d: ReadChoice)
    requires cfg.cached && Stored(cfg, s, p, truth, x, since) && x < |truth| && size > 0
    requires Eviction.InTime(cfg.cache, since, d.attr.get) && Eviction.InTime(cfg.cache, since, d.get)
    ensures SomeBytes(truth, x, size, ReadFile(cfg, s, p, x, size, d).1)
  {
    hide GetAttributes, AppendOnly.Truthful, ValidAt, ReadRun, View;
    CachedLookup(cfg, s, p, d.attr);
    var s1 := GetAttributes(cfg, s, p, d.attr).0;
    var hit := CacheGet(cfg, s1.cache, p, d.get).1;
    assert hit == Some(s.cache[p].item);
    RunOfTruth(s.cache[p].item.pages, cfg.cache.limits.pageSize, truth, x, size);
  }

  lemma FirstLookupStores(cfg: FsConfig, s: FsState, p: Path, c: AttrChoice, now: nat)
    requires cfg.cached && p != [] && p !in s.cache && p in s.tree && s.tree[p].File?
    requires Eviction.InTime(cfg.cache, c.put.now, now)
    ensures var (s1, r) := GetAttributes(cfg, s, p, c);
            var (m, hit) := CacheGet(cfg, s1.cache, p, now);
            var a := Attributes(|s.tree[p].content|, KindFile);
            && r == Ok(a) && s1 == s.(cache := s1.cache)
            && hit == Some(AttrItem(LastName(p), a)) && p in m && m[p].createdAt == c.put.now && m[p].item == hit.value
  {
    hide MakeRoom;
  }

  lemma ChunkStored(cfg: FsConfig, s: FsState, p: Path, truth: seq<byte>, x: nat, data: seq<byte>, since: nat,
                    c: Choice)
    requires cfg.cached && p != [] && p in s.cache && s.cache[p].createdAt == since
    requires s.cache[p].item == AttrItem(LastName(p), Attributes(|truth|, KindFile))
    requires Eviction.InTime(cfg.cache, since, c.now) && OrderOk(ChunkItem(cfg, p, x, data), c)
    requires cfg.cache.limits.maxPages > 0 && data != [] && x + |data| <= |truth| && data == truth[x..x + |data|]
    ensures Stored(cfg, s.(cache := CacheWrite(cfg, s.cache, p, x, data, false, c)), p, truth, x, since)
  {
    hide PageMerge.Merge, WriteContent, IsOrder, AppendOnly.Truthful, ValidAt;
    ChunkTrue(cfg.cache.limits, truth, x, data, c.order);
  }

  lemma BroughtTrue(cfg: FsConfig, s: FsState, p: Path, x: nat, size: nat, now: nat)
    requires p in s.tree && s.tree[p].File? && x < |s.tree[p].content| && cfg.capacity > 0
    requires SequentialReads.WindowTrue(s.window, p, s.tree[p].content)
    ensures var data, truth := Brought(cfg, s, p, x, size, now), s.tree[p].content;
            data != [] && x + |data| <= |truth| && data == truth[x..x + |data|]
  {
    hide WindowRead;
    SequentialReads.WindowNext(s.window, cfg.windowTtl, p, s.tree[p].content, x, size, now);
  }

  lemma MissStoresBrought(cfg: FsConfig, s: FsState, p: Path, x: nat, size: nat, c: MissChoice)
    requires p in s.tree && s.tree[p].File?
    ensures ReadMiss(cfg, s, p, x, size, [], c).0.cache ==
            CacheWrite(cfg, s.cache, p, x, Brought(cfg, s, p, x, size, c.window), false, c.put)
  {
    hide CacheWrite, WindowRead;
  }

  /** Bytes that were read of a file of which nothing was cached, from the window or from the
      server, are answered again in time, at least the first of them, whatever the server has become. */
  lemma ReadRemembered(cfg: FsConfig, s: FsState, p: Path, x: nat, size: nat, c: ReadChoice, t: Tree, again: nat,
                       d: ReadChoice)
    requires cfg.cached && p !in s.cache && p != [] && p in s.tree && s.tree[p].File?
    requires SequentialReads.WindowTrue(s.window, p, s.tree[p].content)
    requires x < |s.tree[p].content| && cfg.capacity > 0 && cfg.cache.limits.maxPages > 0 && again > 0
    requires OrderOk(ChunkItem(cfg, p, x, Brought(cfg, s, p, x, size, c.miss.window)), c.miss.put)
    requires var since := c.attr.put.now;
             && Eviction.InTime(cfg.cache, since, c.get) && Eviction.InTime(cfg.cache, since, c.miss.put.now)
             && Eviction.InTime(cfg.cache, since, d.attr.get) && Eviction.InTime(cfg.cache, since, d.get)
    ensures var s' := ReadFile(cfg, s, p, x, size, c).0;
            SomeBytes(s.tree[p].content, x, again, ReadFile(cfg, s'.(tree := t), p, x, again, d).1)
  {
    hide GetAttributes, CachedBytes, CacheGet, OrderOk, ChunkItem, CacheWrite, Stored, ReadMiss, Brought,
      SequentialReads.WindowTrue;
    var truth := s.tree[p].content;
    FirstLookupStores(cfg, s, p, c.attr, c.get);
    var (s1, attr) := GetAttributes(cfg, s, p, c.attr);
    var (m, hit) := CacheGet(cfg, s1.cache, p, c.get);
    Answers.NoPagesNoBytes(cfg, hit, x, size);
    var s2 := s1.(cache := m);
    BroughtTrue(cfg, s, p, x, size, c.miss.window);
    AppendOnly.BroughtSame(cfg, s, s2, p, x, size, c.miss.window);
    ChunkStored(cfg, s2, p, truth, x, Brought(cfg, s, p, x, size, c.miss.window), c.attr.put.now, c.miss.put);
    MissStoresBrought(cfg, s2, p, x, size, c.miss);
    var s' := ReadFile(cfg, s, p, x, size, c).0;
    StoredElsewhere(cfg, s2.(cache := s'.cache), s'.(tree := t), p, truth, x, c.attr.put.now);
    StoredAnswersRead(cfg, s'.(tree := t), p, truth, x, c.attr.put.now, again, d);
  }

  lemma StoredElsewhere(cfg: FsConfig, s: FsState, s': FsState, p: Path, truth: seq<byte>, x: nat, since: nat)
    requires Stored(cfg, s, p, truth, x, since) && s'.cache == s.cache
    ensures Stored(cfg, s', p, truth, x, since)
  {
    hide AppendOnly.Truthful, ValidAt;
  }

  /** What a read of a file fetched beyond the bytes that were asked for answers the next reads in
      time, without a cache too and whatever the server's bytes have become. */
  lemma FetchedAhead(cfg: FsConfig, s: FsState, p: Path, x: nat, size: nat, c: ReadChoice, t: Tree, k: nat, again: nat,
                     d: ReadChoice)
    requires !cfg.cached && s.window.path != Some(p) && p in s.tree && s.tree[p].File? && again > 0
    requires k < Min(cfg.capacity, |s.tree[p].content| - x)
    requires p in t && t[p].File? && x + k < |t[p].content| && d.miss.window <= c.miss.fill + cfg.windowTtl
    ensures var s' := ReadFile(cfg, s, p, x, size, c).0;
            var truth := s.tree[p].content;
            ReadFile(cfg, s'.(tree := t), p, x + k, again, d).1 ==
            Ok(truth[x + k..Min(x + k + again, Min(x + cfg.capacity, |truth|))])
  {
    hide ReadRun;
    var truth := s.tree[p].content;
    var data := truth[x..Min(x + cfg.capacity, |truth|)];
    assert data[..Min(|data|, cfg.capacity)] == data;
    var s' := ReadFile(cfg, s, p, x, size, c).0;
    assert s' == s.(window := ReadWindow(Some(p), x, data, c.miss.fill));
    var ahead := WindowRead(s'.window, cfg.windowTtl, p, x + k, again, d.miss.window);
    assert ahead == truth[x + k..Min(x + k + again, Min(x + cfg.capacity, |truth|))];
    assert ahead != [];
  }

  // ---- listings ----

  /** The cache has this item, made at or after `since`. */
  predicate Held(m: Entries, key: Path, item: CacheItem, since: nat) {
    key in m && m[key].item == item && m[key].createdAt >= since
  }

  lemma PutWithRoom(cfg: FsConfig, m: Entries, key: Path, item: CacheItem, c: Choice, k: Path)
    requires |m| < cfg.cache.capacity
    ensures var m' := CachePut(cfg, m, key, item, false, c);
            |m'| <= |m| + 1 && (k in m && k != key ==> k in m' && m'[k] == m[k])
  {
    hide UpdateItem;
    var m' := CachePut(cfg, m, key, item, false, c);
    assert |m - {key}| <= |m| by {
      FewerKeys(m, m - {key});
    }
    assert m'.Keys <= m.Keys + {key};
    SubsetSize(m'.Keys, m.Keys + {key});
    assert |m'| == |m'.Keys| && |m| == |m.Keys|;
  }

  lemma PutHolds(cfg: FsConfig, m: Entries, key: Path, item: CacheItem, c: Choice, since: nat)
    requires cfg.cached && key !in m && since <= c.now
    ensures Held(CachePut(cfg, m, key, item, false, c), key, item, since)
  {
  }

  lemma LookupHolds(cfg: FsConfig, s: FsState, q: Path, c: AttrChoice, k: Path, item: CacheItem, since: nat)
    requires Held(s.cache, k, item, since) && Eviction.InTime(cfg.cache, since, c.get)
    requires |s.cache| < cfg.cache.capacity && item.attributes.Some?
    ensures var s' := GetAttributes(cfg, s, q, c).0;
            Held(s'.cache, k, item, since) && |s'.cache| <= |s.cache| + 1
  {
    hide Put;
    var m := CacheGet(cfg, s.cache, q, c.get).0;
    FewerKeys(s.cache, m);
    assert Held(m, k, item, since);
    if q == k {
      assert cfg.cached ==> ItemAttributes(CacheGet(cfg, s.cache, q, c.get).1).Some?;
      assert !cfg.cached ==> GetAttributes(cfg, s, q, c).0.cache == s.cache;
    } else if q in s.tree && q != [] {
      PutWithRoom(cfg, m, q, AttrItem(LastName(q), Storage.AttrOf(s.tree[q])), c.put, k);
    }
  }

  /** Every child has an entry with the server's attributes. */
  ghost predicate ChildrenHeld(m: Entries, t: Tree, dir: Path, names: seq<Name>, since: nat) {
    forall n :: n in names ==>
                  dir + [n] in t && Held(m, dir + [n], AttrItem(n, Storage.AttrOf(t[dir + [n]])), since)
  }

  lemma {:induction false} PutChildrenHold(cfg: FsConfig, m: Entries, t: Tree, dir: Path, names: seq<Name>,
                                           cs: seq<Choice>, since: nat, k: Path)
    requires cfg.cached && |cs| == |names| && |m| + |names| < cfg.cache.capacity
    requires forall i, j :: 0 <= i < j < |names| ==> names[i] != names[j]
    requires forall n :: n in names ==> dir + [n] in t && dir + [n] !in m && k != dir + [n]
    requires forall j :: 0 <= j < |cs| ==> since <= cs[j].now
    ensures var m' := PutChildren(cfg, m, dir, ServerItems(t, dir, names), cs);
            ChildrenHeld(m', t, dir, names, since) && (k in m ==> k in m' && m'[k] == m[k]) && |m'| <= |m| + |names|
    decreases |names|
  {
    hide CachePut, Held;
    if names != [] {
      var key, item := dir + [names[0]], AttrItem(names[0], Storage.AttrOf(t[dir + [names[0]]]));
      var items, rest := ServerItems(t, dir, names), names[1..];
      assert items[1..] == ServerItems(t, dir, rest);
      PutHolds(cfg, m, key, item, cs[0], since);
      PutWithRoom(cfg, m, key, item, cs[0], k);
      var m1 := CachePut(cfg, m, key, item, false, cs[0]);
      forall n | n in rest ensures dir + [n] in t && dir + [n] !in m1 && k != dir + [n] && key != dir + [n] {
        Elsewhere(cfg, m, key, item, cs[0], dir + [n], dir, names, n);
      }
      PutChildrenHold(cfg, m1, t, dir, rest, cs[1..], since, k);
      PutChildrenHold(cfg, m1, t, dir, rest, cs[1..], since, key);
      var m' := PutChildren(cfg, m, dir, items, cs);
      assert m' == PutChildren(cfg, m1, dir, items[1..], cs[1..]);
      forall n | n in names ensures Held(m', dir + [n], AttrItem(n, Storage.AttrOf(t[dir + [n]])), since) {
        if n == names[0] {
          SameEntry(m1, m', key, item, since);
        } else {
          assert n in rest;
        }
      }
    }
  }

  lemma SameEntry(m: Entries, m': Entries, key: Path, item: CacheItem, since: nat)
    requires Held(m, key, item, since) && key in m' && m'[key] == m[key]
    ensures Held(m', key, item, since)
  {
  }

  lemma Elsewhere(cfg: FsConfig, m: Entries, key: Path, item: CacheItem, c: Choice, q: Path, dir: Path,
                  names: seq<Name>, n: Name)
    requires names != [] && key == dir + [names[0]] && q == dir + [n] && n in names[1..] && q !in m
    requires forall i, j :: 0 <= i < j < |names| ==> names[i] != names[j]
    ensures q != key && q !in CachePut(cfg, m, key, item, false, c)
  {
    hide UpdateItem;
    assert q[|dir|] == n && key[|dir|] == names[0];
  }

  /** Children that are all cached give the listing again. */
  lemma {:induction false} HeldAreListed(cfg: FsConfig, m: Entries, t: Tree, dir: Path, names: seq<Name>,
                                         nows: seq<nat>, since: nat)
    requires cfg.cached && |nows| == |names| && ChildrenHeld(m, t, dir, names, since)
    requires forall j :: 0 <= j < |nows| ==> Eviction.InTime(cfg.cache, since, nows[j])
    ensures LookupChildren(cfg, m, dir, names, nows).1 == Some(ServerItems(t, dir, names))
    decreases |names|
  {
    if names == [] {
      assert ServerItems(t, dir, names) == [];
    } else {
      var key := dir + [names[0]];
      var item := AttrItem(names[0], Storage.AttrOf(t[key]));
      assert names[0] in names && Held(m, key, item, since);
      assert Eviction.InTime(cfg.cache, since, nows[0]);
      var m1 := CacheGet(cfg, m, key, nows[0]).0;
      assert ChildrenHeld(m1, t, dir, names[1..], since);
      HeldAreListed(cfg, m1, t, dir, names[1..], nows[1..], since);
      assert ServerItems(t, dir, names) == [ServerItem(t, dir, names[0])] + ServerItems(t, dir, names[1..]);
    }
  }

  /** The time by which everything was stored, and that by which it is asked for again. */
  ghost predicate ListedInTime(cfg: FsConfig, c: ReaddirChoice, d: ReaddirChoice, since: nat, until: nat) {
    && Eviction.InTime(cfg.cache, since, until)
    && since <= c.self.put.now && since <= c.put.now && (forall j :: 0 <= j < |c.puts| ==> since <= c.puts[j].now)
    && c.dot.get <= until && c.dotdot.get <= until
    && d.get <= until && (forall j :: 0 <= j < |d.children| ==> d.children[j] <= until)
  }

  lemma DirectoryHeld(cfg: FsConfig, s: FsState, path: Path, c: ReaddirChoice, since: nat)
    requires cfg.cached && path !in s.cache && path in s.tree && s.tree[path].Dir?
    requires |s.cache| + 1 < cfg.cache.capacity && since <= c.self.put.now && since <= c.put.now
    ensures var (s1, attr) := GetAttributes(cfg, s, path, c.self);
            var item := DirectoryItem(LastName(path), Some(Storage.AttrOf(s.tree[path])), Some(c.listing));
            && attr == Ok(Storage.AttrOf(s.tree[path]))
            && Held(CachePut(cfg, s1.cache, path, item, false, c.put), path, item, since)
            && |CachePut(cfg, s1.cache, path, item, false, c.put)| <= |s.cache| + 1
            && forall q :: q != path && q !in s.cache ==> q !in CachePut(cfg, s1.cache, path, item, false, c.put)
  {
    var (s1, attr) := GetAttributes(cfg, s, path, c.self);
    var item := DirectoryItem(LastName(path), Some(Storage.AttrOf(s.tree[path])), Some(c.listing));
    var m := CachePut(cfg, s1.cache, path, item, false, c.put);
    assert s1.cache.Keys <= s.cache.Keys + {path};
    assert m.Keys <= s.cache.Keys + {path};
    SubsetSize(m.Keys, s.cache.Keys + {path});
    assert |m| == |m.Keys| && |s.cache| == |s.cache.Keys|;
  }

  lemma DotsHold(cfg: FsConfig, s: FsState, path: Path, items: seq<ListItem>, self: AttrChoice, up: AttrChoice, k: Path,
                 item: CacheItem, since: nat)
    requires Held(s.cache, k, item, since) && item.attributes.Some? && |s.cache| + 1 < cfg.cache.capacity
    requires Eviction.InTime(cfg.cache, since, self.get) && Eviction.InTime(cfg.cache, since, up.get)
    ensures Held(WithDots(cfg, s, path, items, self, up).0.cache, k, item, since)
  {
    hide GetAttributes, Held;
    LookupHolds(cfg, s, path, self, k, item, since);
    LookupHolds(cfg, GetAttributes(cfg, s, path, self).0, ParentOrRoot(path), up, k, item, since);
  }

  /** What a listing that asked the server leaves in a cache with room. */
  ghost predicate ListingStored(cfg: FsConfig, m: Entries, t: Tree, path: Path, names: seq<Name>, since: nat)
    requires path in t
  {
    && Held(m, path, DirectoryItem(LastName(path), Some(Storage.AttrOf(t[path])), Some(names)), since)
    && ChildrenHeld(m, t, path, names, since)
  }

  /** Nothing is cached of the directory and its children. */
  ghost predicate NothingCached(m: Entries, dir: Path) {
    dir !in m && forall n: Name :: dir + [n] !in m
  }

  lemma MissStores(cfg: FsConfig, s: FsState, path: Path, c: ReaddirChoice, d: ReaddirChoice, since: nat, until: nat)
    requires cfg.cached && |c.puts| == |c.listing| && path in s.tree && s.tree[path].Dir?
    requires NothingCached(s.cache, path)
    requires Storage.IsListing(s.tree, path, c.listing) && |s.cache| + |c.listing| + 3 <= cfg.cache.capacity
    requires ListedInTime(cfg, c, d, since, until)
    ensures ListingStored(cfg, ReaddirMiss(cfg, s, path, c).0.cache, s.tree, path, c.listing, since)
  {
    hide GetAttributes, CachePut, PutChildren, WithDots, Held;
    var t, names := s.tree, c.listing;
    var (s1, attr) := GetAttributes(cfg, s, path, c.self);
    AttributesKeep(cfg, s, path, c.self);
    DirectoryHeld(cfg, s, path, c, since);
    var dir := DirectoryItem(LastName(path), Some(Storage.AttrOf(t[path])), Some(names));
    var m1 := CachePut(cfg, s1.cache, path, dir, false, c.put);
    forall n | n in names ensures path + [n] in t && path + [n] !in m1 && path != path + [n] {
      Storage.ListedArePresent(t, path, names, n);
    }
    PutChildrenHold(cfg, m1, t, path, names, c.puts, since, path);
    var items := ServerItems(t, path, names);
    var s2 := s1.(cache := PutChildren(cfg, m1, path, items, c.puts));
    KeptHeld(m1, s2.cache, path, dir, since);
    DotsHold(cfg, s2, path, items, c.dot, c.dotdot, path, dir, since);
    forall n | n in names
      ensures Held(WithDots(cfg, s2, path, items, c.dot, c.dotdot).0.cache, path + [n],
                   AttrItem(n, Storage.AttrOf(t[path + [n]])), since)
    {
      DotsHold(cfg, s2, path, items, c.dot, c.dotdot, path + [n], AttrItem(n, Storage.AttrOf(t[path + [n]])), since);
    }
  }

  lemma KeptHeld(m: Entries, m': Entries, key: Path, item: CacheItem, since: nat)
    requires Held(m, key, item, since) && key in m' && m'[key] == m[key]
    ensures Held(m', key, item, since)
  {
  }

  lemma StoredListing(cfg: FsConfig, m: Entries, t: Tree, path: Path, names: seq<Name>, d: ReaddirChoice, since: nat)
    requires cfg.cached && path in t && ListingStored(cfg, m, t, path, names, since) && |d.children| == |names|
    requires Eviction.InTime(cfg.cache, since, d.get)
    requires forall j :: 0 <= j < |d.children| ==> Eviction.InTime(cfg.cache, since, d.children[j])
    ensures var (m1, hit) := CacheGet(cfg, m, path, d.get);
            CachedListing(cfg, m1, path, hit, d.children).1 == Some(ServerItems(t, path, names))
  {
    hide LookupChildren;
    var (m1, hit) := CacheGet(cfg, m, path, d.get);
    assert ChildrenHeld(m1, t, path, names, since);
    HeldAreListed(cfg, m1, t, path, names, d.children, since);
  }

  /** A directory of which nothing was cached and that was listed into a cache with room is listed
      again in time, with the same names, kinds and attributes, whatever the server has become. */
  lemma ListingRemembered(cfg: FsConfig, s: FsState, path: Path, c: ReaddirChoice, t: Tree, d: ReaddirChoice,
                          since: nat, until: nat)
    requires cfg.cached && |c.puts| == |c.listing| && |d.puts| == |d.listing| && |d.children| == |c.listing|
    requires NothingCached(s.cache, path)
    requires ListingChosen(s.tree, path, c) && |s.cache| + |c.listing| + 3 <= cfg.cache.capacity
    requires ListedInTime(cfg, c, d, since, until)
    ensures var (s', r) := Readdir(cfg, s, path, c);
            var again := Readdir(cfg, s'.(tree := t), path, d).1;
            r.Ok? && again.Ok? ==> |r.value| >= 2 && |again.value| >= 2 && again.value[2..] == r.value[2..]
    ensures var (s', r) := Readdir(cfg, s, path, c);
            r.Ok? && path in t && ParentOrRoot(path) in t ==> Readdir(cfg, s'.(tree := t), path, d).1.Ok?
  {
    hide Readdir, ListedInTime, ListingStored, ListingChosen, ServerItems, CacheGet, CachedListing, NothingCached,
      ParentOrRoot;
    var (s', r) := Readdir(cfg, s, path, c);
    if r.Ok? {
      FirstListing(cfg, s, path, c, d, since, until);
      StoredInTime(cfg, s'.cache, s.tree, path, c, d, since, until);
      AskedCache(cfg, s'.(tree := t), path, d, ServerItems(s.tree, path, c.listing));
    }
  }

  lemma FirstListing(cfg: FsConfig, s: FsState, path: Path, c: ReaddirChoice, d: ReaddirChoice, since: nat, until: nat)
    requires cfg.cached && |c.puts| == |c.listing| && Readdir(cfg, s, path, c).1.Ok?
    requires NothingCached(s.cache, path)
    requires ListingChosen(s.tree, path, c) && |s.cache| + |c.listing| + 3 <= cfg.cache.capacity
    requires ListedInTime(cfg, c, d, since, until)
    ensures path in s.tree && ListingStored(cfg, Readdir(cfg, s, path, c).0.cache, s.tree, path, c.listing, since)
    ensures var items := Readdir(cfg, s, path, c).1.value;
            |items| >= 2 && items[2..] == ServerItems(s.tree, path, c.listing)
  {
    hide ReaddirMiss, Readdir, ListedInTime, ListingStored, Storage.IsListing, ServerItems;
    AskedServer(cfg, s, path, c);
    Answers.MissedListing(cfg, s, path, c);
    MissStores(cfg, s, path, c, d, since, until);
  }

  lemma StoredInTime(cfg: FsConfig, m: Entries, t: Tree, path: Path, c: ReaddirChoice, d: ReaddirChoice, since: nat,
                     until: nat)
    requires cfg.cached && path in t && ListingStored(cfg, m, t, path, c.listing, since) && |d.children| == |c.listing|
    requires ListedInTime(cfg, c, d, since, until)
    ensures var (m1, hit) := CacheGet(cfg, m, path, d.get);
            CachedListing(cfg, m1, path, hit, d.children).1 == Some(ServerItems(t, path, c.listing))
  {
    hide ListingStored, CachedListing, CacheGet;
    StoredListing(cfg, m, t, path, c.listing, d, since);
  }

  lemma AskedServer(cfg: FsConfig, s: FsState, path: Path, c: ReaddirChoice)
    requires path !in s.cache && |c.puts| == |c.listing|
    ensures Readdir(cfg, s, path, c) == ReaddirMiss(cfg, s, path, c)
  {
    hide ReaddirMiss, WithDots;
    var (m1, hit) := CacheGet(cfg, s.cache, path, c.get);
    assert m1 == s.cache && CachedListing(cfg, m1, path, hit, c.children) == (s.cache, None);
  }

  lemma AskedCache(cfg: FsConfig, s: FsState, path: Path, d: ReaddirChoice, items: seq<ListItem>)
    requires |d.puts| == |d.listing|
    requires var (m1, hit) := CacheGet(cfg, s.cache, path, d.get);
             CachedListing(cfg, m1, path, hit, d.children).1 == Some(items)
    ensures var r := Readdir(cfg, s, path, d).1;
            && (r.Ok? ==> |r.value| >= 2 && r.value[2..] == items)
            && (path in s.tree && ParentOrRoot(path) in s.tree ==> r.Ok?)
  {
    hide ReaddirMiss, WithDots, CachedListing, CacheGet;
    var (m1, hit) := CacheGet(cfg, s.cache, path, d.get);
    Answers.DotsAnswer(cfg, s.(cache := CachedListing(cfg, m1, path, hit, d.children).0), path, items, d.dot, d.dotdot);
  }
}
