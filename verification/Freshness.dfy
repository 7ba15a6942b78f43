/** How old the answers of the whole stack can be. Other clients change the server at any time;
    still every byte that a read returns was on the server, at its position of its file, no
    longer ago than the times to live of the cache and of the read window together, plus the
    time one call takes - or it is a zero in a page gap between two such bytes. */
module Freshness {
  import opened Bytes
  import opened PagedFile
  import opened Cache
  import opened RwBuffer
  import opened FsModel
  import opened Runs
  import AppendOnly
  import Staleness
  import Storage

  // ---- what was on the server ----

  predicate Holds(x: Snapshot, p: Path, since: int, i: nat, b: byte) {
    x.time >= since && i < |Storage.Content(x.tree, p)| && Storage.Content(x.tree, p)[i] == b
  }

  ghost predicate HadByte(h: History, p: Path, since: int, i: nat, b: byte) {
    exists j :: 0 <= j < |h| && Holds(h[j], p, since, i, b)
  }

  ghost predicate HadPosition(h: History, p: Path, since: int, i: nat) {
    exists b :: HadByte(h, p, since, i, b)
  }

  /** Position `i` lies in its page between two positions that the file had. */
  ghost predicate HadAround(h: History, p: Path, since: int, ps: pos, i: nat) {
    exists a: nat, b: nat ::
      && a < i < b && a / ps == i / ps == b / ps
      && HadPosition(h, p, since, a) && HadPosition(h, p, since, b)
  }

  ghost predicate Recent(h: History, p: Path, since: int, ps: pos, i: nat, b: byte) {
    HadByte(h, p, since, i, b) || (b == 0 && HadAround(h, p, since, ps, i))
  }

  lemma HadByteMore(h: History, more: History, p: Path, since: int, i: nat, b: byte)
    requires HadByte(h, p, since, i, b)
    ensures HadByte(h + more, p, since, i, b)
  {
    hide Holds;
    var j :| 0 <= j < |h| && Holds(h[j], p, since, i, b);
    assert (h + more)[j] == h[j];
  }

  lemma HadByteSince(h: History, p: Path, since: int, earlier: int, i: nat, b: byte)
    requires HadByte(h, p, since, i, b) && earlier <= since
    ensures HadByte(h, p, earlier, i, b)
  {
    var j :| 0 <= j < |h| && Holds(h[j], p, since, i, b);
    assert Holds(h[j], p, earlier, i, b);
  }

  lemma HasByteNow(h: History, x: Snapshot, p: Path, since: int, i: nat, b: byte)
    requires Holds(x, p, since, i, b)
    ensures HadByte(h + [x], p, since, i, b)
  {
    hide Holds;
    assert (h + [x])[|h|] == x;
  }

  // ---- what is known of the server ----

  /** The bytes of a stored item were on the server when it was stored, or shortly before. */
  ghost predicate EventTrue(cfg: FsConfig, delay: nat, h: History, e: Staleness.Event) {
    e.item.FileItem? ==>
      forall i: nat :: ValidAt(e.item.pages, cfg.cache.limits.pageSize, i) ==>
                         HadByte(h, e.key, e.time - cfg.windowTtl - delay, i,
                                 ByteAt(e.item.pages, cfg.cache.limits.pageSize, i))
  }

  ghost predicate EventsTrue(cfg: FsConfig, delay: nat, h: History, log: seq<Staleness.Event>) {
    forall j :: 0 <= j < |log| ==> EventTrue(cfg, delay, h, log[j])
  }

  /** Everything in the cache comes from stored items, and these are true. */
  ghost predicate CacheKnown(cfg: FsConfig, delay: nat, h: History, log: seq<Staleness.Event>, clock: int, m: Entries) {
    Staleness.AllSourced(log, cfg.cache.limits.pageSize, clock, m) && EventsTrue(cfg, delay, h, log)
  }

  ghost predicate WindowKnown(h: History, w: ReadWindow) {
    w.data != [] ==>
      w.path.Some? &&
      forall i :: 0 <= i < |w.data| ==> HadByte(h, w.path.value, w.filledAt, w.offset + i, w.data[i])
  }

  ghost predicate Known(cfg: FsConfig, delay: nat, h: History, log: seq<Staleness.Event>, clock: int, s: FsState) {
    CacheKnown(cfg, delay, h, log, clock, s.cache) && WindowKnown(h, s.window)
  }

  lemma EventTrueMore(cfg: FsConfig, delay: nat, h: History, more: History, e: Staleness.Event)
    requires EventTrue(cfg, delay, h, e)
    ensures EventTrue(cfg, delay, h + more, e)
  {
    hide HadByte, ValidAt, ByteAt;
    if e.item.FileItem? {
      forall i: nat | ValidAt(e.item.pages, cfg.cache.limits.pageSize, i)
        ensures HadByte(h + more, e.key, e.time - cfg.windowTtl - delay, i,
                        ByteAt(e.item.pages, cfg.cache.limits.pageSize, i))
      {
        HadByteMore(h, more, e.key, e.time - cfg.windowTtl - delay, i,
                    ByteAt(e.item.pages, cfg.cache.limits.pageSize, i));
      }
    }
  }

  lemma CacheKnownMore(cfg: FsConfig, delay: nat, h: History, more: History, log: seq<Staleness.Event>, clock: int,
                       m: Entries)
    requires CacheKnown(cfg, delay, h, log, clock, m)
    ensures CacheKnown(cfg, delay, h + more, log, clock, m)
  {
    hide EventTrue, Staleness.AllSourced;
    forall j | 0 <= j < |log| ensures EventTrue(cfg, delay, h + more, log[j]) {
      EventTrueMore(cfg, delay, h, more, log[j]);
    }
  }

  lemma KnownMore(cfg: FsConfig, delay: nat, h: History, more: History, log: seq<Staleness.Event>, clock: int,
                  s: FsState)
    requires Known(cfg, delay, h, log, clock, s)
    ensures Known(cfg, delay, h + more, log, clock, s)
  {
    hide CacheKnown, HadByte;
    CacheKnownMore(cfg, delay, h, more, log, clock, s.cache);
    var w := s.window;
    if w.data != [] {
      forall i | 0 <= i < |w.data| ensures HadByte(h + more, w.path.value, w.filledAt, w.offset + i, w.data[i]) {
        HadByteMore(h, more, w.path.value, w.filledAt, w.offset + i, w.data[i]);
      }
    }
  }

  lemma CacheKnownLater(cfg: FsConfig, delay: nat, h: History, log: seq<Staleness.Event>, clock: int, later: int,
                        m: Entries)
    requires CacheKnown(cfg, delay, h, log, clock, m) && clock <= later
    ensures CacheKnown(cfg, delay, h, log, later, m)
  {
    hide Staleness.Sourced, EventsTrue;
  }

  /** Bytes that come from true stored items are recent. */
  lemma SourcedIsRecent(cfg: FsConfig, delay: nat, h: History, log: seq<Staleness.Event>, key: Path, since: int, i: nat,
                        b: byte)
    requires EventsTrue(cfg, delay, h, log)
    requires Staleness.ByteSourced(log, key, since, cfg.cache.limits.pageSize, i, b)
    ensures Recent(h, key, since - cfg.windowTtl - delay, cfg.cache.limits.pageSize, i, b)
  {
    hide ValidAt, ByteAt, HadByte, EventsTrue;
    var ps := cfg.cache.limits.pageSize;
    if Staleness.ByteStored(log, key, since, ps, i, b) {
      StoredIsHad(cfg, delay, h, log, key, since, i, b);
    } else {
      var x: nat, y: nat :| x < i < y && x / ps == i / ps == y / ps
                          && Staleness.Covered(log, key, since, ps, x) && Staleness.Covered(log, key, since, ps, y);
      CoveredIsHad(cfg, delay, h, log, key, since, x);
      CoveredIsHad(cfg, delay, h, log, key, since, y);
    }
  }

  lemma StoredIsHad(cfg: FsConfig, delay: nat, h: History, log: seq<Staleness.Event>, key: Path, since: int, i: nat,
                    b: byte)
    requires EventsTrue(cfg, delay, h, log)
    requires Staleness.ByteStored(log, key, since, cfg.cache.limits.pageSize, i, b)
    ensures HadByte(h, key, since - cfg.windowTtl - delay, i, b)
  {
    hide ValidAt, ByteAt, HadByte;
    var ps := cfg.cache.limits.pageSize;
    var j :| 0 <= j < |log| && Staleness.Holds(log[j], key, since, ps, i) && ByteAt(log[j].item.pages, ps, i) == b;
    assert EventTrue(cfg, delay, h, log[j]);
    HadByteSince(h, key, log[j].time - cfg.windowTtl - delay, since - cfg.windowTtl - delay, i, b);
  }

  lemma CoveredIsHad(cfg: FsConfig, delay: nat, h: History, log: seq<Staleness.Event>, key: Path, since: int, i: nat)
    requires EventsTrue(cfg, delay, h, log)
    requires Staleness.Covered(log, key, since, cfg.cache.limits.pageSize, i)
    ensures HadPosition(h, key, since - cfg.windowTtl - delay, i)
  {
    hide ValidAt, ByteAt, HadByte, EventsTrue;
    var ps := cfg.cache.limits.pageSize;
    var j :| 0 <= j < |log| && Staleness.Holds(log[j], key, since, ps, i);
    StoredIsHad(cfg, delay, h, log, key, since, i, ByteAt(log[j].item.pages, ps, i));
  }

  // ---- the cache operations ----

  lemma GetKnown(cfg: FsConfig, delay: nat, h: History, log: seq<Staleness.Event>, clock: int, m: Entries, path: Path,
                 now: nat)
    requires CacheKnown(cfg, delay, h, log, clock, m) && clock <= now
    ensures CacheKnown(cfg, delay, h, log, now, CacheGet(cfg, m, path, now).0)
  {
    hide EventsTrue, Staleness.AllSourced;
    if cfg.cached {
      Staleness.QuietStep(cfg.cache, log, clock, m, Look(path, now));
    } else {
      Later(log, cfg.cache.limits.pageSize, clock, now, m);
    }
  }

  lemma Later(log: seq<Staleness.Event>, ps: pos, clock: int, later: int, m: Entries)
    requires Staleness.AllSourced(log, ps, clock, m) && clock <= later
    ensures Staleness.AllSourced(log, ps, later, m)
  {
    hide Staleness.Sourced;
  }

  /** The bytes of a cached file are recent when it is taken from the cache. */
  lemma HitIsRecent(cfg: FsConfig, delay: nat, h: History, log: seq<Staleness.Event>, clock: int, m: Entries,
                    path: Path, now: nat, i: nat)
    requires CacheKnown(cfg, delay, h, log, clock, m) && clock <= now && cfg.cache.useTtl
    ensures var hit := CacheGet(cfg, m, path, now).1;
            var ps := cfg.cache.limits.pageSize;
            hit.Some? && hit.value.FileItem? && ValidAt(hit.value.pages, ps, i) ==>
              Recent(h, path, now - cfg.cache.ttl - cfg.windowTtl - delay, ps, i, ByteAt(hit.value.pages, ps, i))
  {
    hide EventsTrue, Recent, ValidAt, ByteAt, PagesOk, Staleness.ByteSourced, Staleness.AttributesStored;
    var ps := cfg.cache.limits.pageSize;
    var hit := CacheGet(cfg, m, path, now).1;
    if hit.Some? && hit.value.FileItem? && ValidAt(hit.value.pages, ps, i) {
      assert Staleness.EntrySourced(log, path, ps, clock, m[path]);
      Staleness.SourcedSince(log, path, m[path].createdAt, now - cfg.cache.ttl, ps, hit.value);
      SourcedIsRecent(cfg, delay, h, log, path, now - cfg.cache.ttl, i, ByteAt(hit.value.pages, ps, i));
    }
  }

  lemma PutKnown(cfg: FsConfig, delay: nat, h: History, log: seq<Staleness.Event>, clock: int, m: Entries,
                 path: Path, item: CacheItem, invalidate: bool, c: Choice)
    returns (log': seq<Staleness.Event>)
    requires CacheKnown(cfg, delay, h, log, clock, m) && clock <= c.now
    requires OrderOk(item, c) && (item.FileItem? ==> PagesOk(item.pages, cfg.cache.limits.pageSize))
    requires EventTrue(cfg, delay, h, Staleness.Event(c.now, path, item))
    ensures CacheKnown(cfg, delay, h, log', c.now, CachePut(cfg, m, path, item, invalidate, c))
  {
    hide EventTrue, Staleness.AllSourced, PagesOk, Put, OrderOk;
    if cfg.cached {
      log' := log + [Staleness.Event(c.now, path, item)];
      Staleness.KeepStep(cfg.cache, log, clock, m, Keep(path, item, invalidate, c));
    } else {
      log' := log;
      Later(log, cfg.cache.limits.pageSize, clock, c.now, m);
    }
  }

  lemma PutNewKnown(cfg: FsConfig, delay: nat, h: History, log: seq<Staleness.Event>, clock: int, m: Entries,
                    path: Path, item: CacheItem, c: Choice)
    returns (log': seq<Staleness.Event>)
    requires CacheKnown(cfg, delay, h, log, clock, m) && clock <= c.now && (item.FileItem? ==> item.pages == map[])
    ensures CacheKnown(cfg, delay, h, log', c.now, CachePutNew(cfg, m, path, item, c))
  {
    hide Staleness.AllSourced, PutNew;
    if cfg.cached && path != [] {
      log' := log + [Staleness.Event(c.now, path, item)];
      assert EventTrue(cfg, delay, h, Staleness.Event(c.now, path, item));
      Staleness.KeepNewStep(cfg.cache, log, clock, m, KeepNew(path, item, c));
    } else {
      log' := log;
      Later(log, cfg.cache.limits.pageSize, clock, c.now, m);
    }
  }

  /** Putting an item without pages, in the only order there is. */
  lemma PutBlankKnown(cfg: FsConfig, delay: nat, h: History, log: seq<Staleness.Event>, clock: int, m: Entries,
                      path: Path, item: CacheItem, c: Choice)
    returns (log': seq<Staleness.Event>)
    requires CacheKnown(cfg, delay, h, log, clock, m) && clock <= c.now && c.order == []
    requires item.FileItem? ==> item.pages == map[]
    ensures CacheKnown(cfg, delay, h, log', c.now, CachePut(cfg, m, path, item, false, c))
  {
    hide CacheKnown, CachePut;
    log' := PutKnown(cfg, delay, h, log, clock, m, path, item, false, c);
  }

  lemma DropKnown(cfg: FsConfig, delay: nat, h: History, log: seq<Staleness.Event>, clock: int, m: Entries,
                  keys: set<Path>)
    requires CacheKnown(cfg, delay, h, log, clock, m)
    ensures CacheKnown(cfg, delay, h, log, clock, m - keys)
  {
    hide EventsTrue, Staleness.EntrySourced;
  }

  /** A chunk of bytes that were on the server. */
  lemma ChunkTrue(cfg: FsConfig, delay: nat, h: History, path: Path, offset: nat, data: seq<byte>, time: nat)
    requires forall i :: 0 <= i < |data| ==> HadByte(h, path, time - cfg.windowTtl - delay, offset + i, data[i])
    ensures PagesOk(ChunkItem(cfg, path, offset, data).pages, cfg.cache.limits.pageSize)
    ensures EventTrue(cfg, delay, h, Staleness.Event(time, path, ChunkItem(cfg, path, offset, data)))
  {
    hide HadByte, ValidAt, ByteAt, PagesOk, WriteContent, Accepted;
    AppendOnly.ChunkSpan(cfg.cache.limits, offset, data);
    var g := ChunkItem(cfg, path, offset, data).pages;
    forall i: nat | ValidAt(g, cfg.cache.limits.pageSize, i)
      ensures HadByte(h, path, time - cfg.windowTtl - delay, i, ByteAt(g, cfg.cache.limits.pageSize, i))
    {
      assert HadByte(h, path, time - cfg.windowTtl - delay, offset + (i - offset), data[i - offset]);
    }
  }

  lemma CacheWriteKnown(cfg: FsConfig, delay: nat, h: History, log: seq<Staleness.Event>, clock: int, m: Entries,
                        path: Path, offset: nat, data: seq<byte>, invalidate: bool, c: Choice)
    returns (log': seq<Staleness.Event>)
    requires CacheKnown(cfg, delay, h, log, clock, m) && clock <= c.now
             && OrderOk(ChunkItem(cfg, path, offset, data), c)
    requires forall i :: 0 <= i < |data| ==> HadByte(h, path, c.now - cfg.windowTtl - delay, offset + i, data[i])
    ensures CacheKnown(cfg, delay, h, log', c.now, CacheWrite(cfg, m, path, offset, data, invalidate, c))
  {
    hide CacheKnown, HadByte, OrderOk, CachePut, PagesOk;
    if path == [] {
      log' := log;
      CacheKnownLater(cfg, delay, h, log, clock, c.now, m);
    } else {
      ChunkTrue(cfg, delay, h, path, offset, data, c.now);
      log' := PutKnown(cfg, delay, h, log, clock, m, path, ChunkItem(cfg, path, offset, data), invalidate, c);
    }
  }

  // ---- the calls ----

  lemma GetAttributesKnown(cfg: FsConfig, delay: nat, h: History, log: seq<Staleness.Event>, clock: int, s: FsState,
                           path: Path, c: AttrChoice)
    returns (log': seq<Staleness.Event>)
    requires Known(cfg, delay, h, log, clock, s) && AttrOk(clock, c)
    ensures Known(cfg, delay, h, log', c.put.now, GetAttributes(cfg, s, path, c).0)
  {
    hide CacheKnown, WindowKnown, CachePut, CacheGet;
    log' := log;
    GetKnown(cfg, delay, h, log, clock, s.cache, path, c.get);
    var (m, hit) := CacheGet(cfg, s.cache, path, c.get);
    CacheKnownLater(cfg, delay, h, log, c.get, c.put.now, m);
    if ItemAttributes(hit).None? && path in s.tree && path != [] {
      log' := PutBlankKnown(cfg, delay, h, log, c.get, m, path, AttrItem(LastName(path), Storage.AttrOf(s.tree[path])),
                            c.put);
    }
  }

  /** A read from the window or the server; the history gains the server's tree. */
  lemma ReadMissKnown(cfg: FsConfig, delay: nat, h: History, log: seq<Staleness.Event>, clock: int, s: FsState,
                      path: Path, offset: nat, size: nat, c: MissChoice)
    returns (log': seq<Staleness.Event>)
    requires Known(cfg, delay, h, log, clock, s) && MissTimes(delay, clock, c)
    requires OrderOk(ChunkItem(cfg, path, offset, Brought(cfg, s, path, offset, size, c.window)), c.put)
    ensures var (s', r) := ReadMiss(cfg, s, path, offset, size, [], c);
            var h' := h + [Snapshot(c.put.now, s.tree)];
            && Known(cfg, delay, h', log', c.put.now, s')
            && (r.Ok? ==> forall i :: 0 <= i < |r.value| ==>
                HadByte(h', path, c.window - cfg.windowTtl, offset + i, r.value[i]))
  {
    hide CacheKnown, HadByte, OrderOk, ChunkItem, CacheWrite, WindowRead;
    var h' := h + [Snapshot(c.put.now, s.tree)];
    KnownMore(cfg, delay, h, [Snapshot(c.put.now, s.tree)], log, clock, s);
    log' := log;
    CacheKnownLater(cfg, delay, h', log, clock, c.put.now, s.cache);
    var ahead := WindowRead(s.window, cfg.windowTtl, path, offset, size, c.window);
    if ahead != [] {
      WindowIsRecent(cfg, h', s.window, path, offset, size, c.window);
      log' := BytesKnown(cfg, delay, h', log, clock, s.cache, path, offset, ahead, c.window - cfg.windowTtl, c.put);
    } else if path in s.tree && s.tree[path].File? {
      var data := ReadAt(s.tree[path].content, offset, cfg.capacity);
      ServerBytes(h, s.tree, path, offset, cfg.capacity, c.put.now);
      forall i | 0 <= i < |data| ensures HadByte(h', path, c.window - cfg.windowTtl, offset + i, data[i]) {
        HadByteSince(h', path, c.put.now, c.window - cfg.windowTtl, offset + i, data[i]);
      }
      forall i | 0 <= i < |data| ensures HadByte(h', path, c.fill, offset + i, data[i]) {
        HadByteSince(h', path, c.put.now, c.fill, offset + i, data[i]);
      }
      log' := BytesKnown(cfg, delay, h', log, clock, s.cache, path, offset, data, c.window - cfg.windowTtl, c.put);
    }
  }

  lemma WindowIsRecent(cfg: FsConfig, h: History, w: ReadWindow, path: Path, offset: nat, size: nat, now: nat)
    requires WindowKnown(h, w)
    ensures var r := WindowRead(w, cfg.windowTtl, path, offset, size, now);
            forall i :: 0 <= i < |r| ==> HadByte(h, path, now - cfg.windowTtl, offset + i, r[i])
  {
    hide HadByte;
    var r := WindowRead(w, cfg.windowTtl, path, offset, size, now);
    Staleness.WindowStaleness(w, cfg.windowTtl, path, offset, size, now);
    forall i | 0 <= i < |r| ensures HadByte(h, path, now - cfg.windowTtl, offset + i, r[i]) {
      var k := offset - w.offset + i;
      assert HadByte(h, path, w.filledAt, w.offset + k, w.data[k]);
      HadByteSince(h, path, w.filledAt, now - cfg.windowTtl, offset + i, r[i]);
    }
  }

  lemma ServerBytes(h: History, t: Tree, path: Path, offset: nat, size: nat, now: nat)
    ensures var data := ReadAt(Storage.Content(t, path), offset, size);
            forall i :: 0 <= i < |data| ==> HadByte(h + [Snapshot(now, t)], path, now, offset + i, data[i])
  {
    hide HadByte;
    var data := ReadAt(Storage.Content(t, path), offset, size);
    forall i | 0 <= i < |data| ensures HadByte(h + [Snapshot(now, t)], path, now, offset + i, data[i]) {
      HasByteNow(h, Snapshot(now, t), path, now, offset + i, data[i]);
    }
  }

  /** Recent bytes go into the cache a little later. */
  lemma BytesKnown(cfg: FsConfig, delay: nat, h: History, log: seq<Staleness.Event>, clock: int, m: Entries,
                   path: Path, offset: nat, data: seq<byte>, since: int, c: Choice)
    returns (log': seq<Staleness.Event>)
    requires CacheKnown(cfg, delay, h, log, clock, m) && clock <= c.now
             && OrderOk(ChunkItem(cfg, path, offset, data), c)
    requires c.now - cfg.windowTtl - delay <= since
    requires forall i :: 0 <= i < |data| ==> HadByte(h, path, since, offset + i, data[i])
    ensures CacheKnown(cfg, delay, h, log', c.now, CacheWrite(cfg, m, path, offset, data, false, c))
  {
    hide CacheKnown, HadByte, OrderOk, ChunkItem, CacheWrite;
    forall i | 0 <= i < |data| ensures HadByte(h, path, c.now - cfg.windowTtl - delay, offset + i, data[i]) {
      HadByteSince(h, path, since, c.now - cfg.windowTtl - delay, offset + i, data[i]);
    }
    log' := CacheWriteKnown(cfg, delay, h, log, clock, m, path, offset, data, false, c);
  }

  /** One read: every byte it returns is recent. */
  lemma ReadFileKnown(cfg: FsConfig, delay: nat, h: History, log: seq<Staleness.Event>, clock: int, s: FsState,
                      path: Path, offset: nat, size: nat, c: ReadChoice)
    returns (log': seq<Staleness.Event>)
    requires Known(cfg, delay, h, log, clock, s) && ReadOk(cfg, delay, clock, s, path, offset, size, c)
    ensures var (s', r) := ReadFile(cfg, s, path, offset, size, c);
            var h' := h + [Snapshot(c.miss.put.now, s.tree)];
            && Known(cfg, delay, h', log', c.miss.put.now, s')
            && (cfg.cache.useTtl && r.Ok? ==>
                  forall i :: 0 <= i < |r.value| ==>
                                Recent(h', path, c.get - cfg.cache.ttl - cfg.windowTtl - delay,
                                       cfg.cache.limits.pageSize, offset + i, r.value[i]))
  {
    hide CacheKnown, WindowKnown, HadByte, HadAround, OrderOk, ChunkItem, GetAttributes, CacheGet, ReadMiss, View,
      ReadRun, Brought;
    AttributesKeep(cfg, s, path, c.attr);
    log' := GetAttributesKnown(cfg, delay, h, log, clock, s, path, c.attr);
    var (s1, attr) := GetAttributes(cfg, s, path, c.attr);
    var end := c.miss.put.now;
    if attr.Ok? && offset >= attr.value.size {
      CacheKnownLater(cfg, delay, h, log', c.attr.put.now, end, s1.cache);
      KnownMore(cfg, delay, h, [Snapshot(end, s.tree)], log', end, s1);
    } else {
      GetKnown(cfg, delay, h, log', c.attr.put.now, s1.cache, path, c.get);
      var (m, hit) := CacheGet(cfg, s1.cache, path, c.get);
      var s2 := s1.(cache := m);
      var cachedBytes := CachedBytes(cfg, hit, offset, size);
      if cachedBytes != [] {
        ReadMissHit(cfg, s2, path, offset, size, cachedBytes, c.miss);
        if cfg.cache.useTtl {
          CachedAreRecent(cfg, delay, h, log', c.attr.put.now, s1.cache, path, c.get, offset, size);
          RecentMore(cfg, h, [Snapshot(end, s.tree)], path, c.get - cfg.cache.ttl - cfg.windowTtl - delay, offset,
                     cachedBytes);
        }
        CacheKnownLater(cfg, delay, h, log', c.get, end, m);
        KnownMore(cfg, delay, h, [Snapshot(end, s.tree)], log', end, s2);
      } else {
        BroughtSame(cfg, s, s2, path, offset, size);
        log' := ReadMissKnown(cfg, delay, h, log', c.get, s2, path, offset, size, c.miss);
        var r := ReadMiss(cfg, s2, path, offset, size, [], c.miss).1;
        if r.Ok? {
          HadAreRecent(cfg, h + [Snapshot(end, s.tree)], path, c.miss.window - cfg.windowTtl,
                       c.get - cfg.cache.ttl - cfg.windowTtl - delay, offset, r.value);
        }
      }
    }
  }

  lemma AttributesKeepAll(cfg: FsConfig, s: FsState, path: Path)
    ensures forall c :: var s' := GetAttributes(cfg, s, path, c).0; s'.tree == s.tree && s'.window == s.window
  {
    hide GetAttributes;
    forall c ensures var s' := GetAttributes(cfg, s, path, c).0; s'.tree == s.tree && s'.window == s.window {
      AttributesKeep(cfg, s, path, c);
    }
  }

  lemma BroughtSame(cfg: FsConfig, s: FsState, s': FsState, path: Path, offset: nat, size: nat)
    requires s.tree == s'.tree && s.window == s'.window
    ensures forall now :: Brought(cfg, s, path, offset, size, now) == Brought(cfg, s', path, offset, size, now)
  {
  }

  lemma ReadMissHit(cfg: FsConfig, s: FsState, path: Path, offset: nat, size: nat, data: seq<byte>, c: MissChoice)
    requires data != []
    ensures ReadMiss(cfg, s, path, offset, size, data, c) == (s, Ok(data))
  {
  }

  lemma CachedAreRecent(cfg: FsConfig, delay: nat, h: History, log: seq<Staleness.Event>, clock: int, m: Entries,
                        path: Path, now: nat, offset: nat, size: nat)
    requires CacheKnown(cfg, delay, h, log, clock, m) && clock <= now && cfg.cache.useTtl
    ensures var r := CachedBytes(cfg, CacheGet(cfg, m, path, now).1, offset, size);
            forall i :: 0 <= i < |r| ==>
                          Recent(h, path, now - cfg.cache.ttl - cfg.windowTtl - delay, cfg.cache.limits.pageSize,
                                 offset + i, r[i])
  {
    hide CacheKnown, Recent, CacheGet, ValidAt, ByteAt, ReadRun;
    var hit := CacheGet(cfg, m, path, now).1;
    if hit.Some? && hit.value.FileItem? {
      var ps := cfg.cache.limits.pageSize;
      var v := View(hit.value.pages, ps);
      var r := ReadRun(v, offset, size);
      forall i | 0 <= i < |r|
        ensures Recent(h, path, now - cfg.cache.ttl - cfg.windowTtl - delay, ps, offset + i, r[i])
      {
        assert offset + i in v && r[offset + i - offset] == v[offset + i];
        HitIsRecent(cfg, delay, h, log, clock, m, path, now, offset + i);
      }
    }
  }

  lemma RecentMore(cfg: FsConfig, h: History, more: History, p: Path, since: int, offset: nat, data: seq<byte>)
    requires forall i :: 0 <= i < |data| ==> Recent(h, p, since, cfg.cache.limits.pageSize, offset + i, data[i])
    ensures forall i :: 0 <= i < |data| ==> Recent(h + more, p, since, cfg.cache.limits.pageSize, offset + i, data[i])
  {
    hide Recent;
    forall i | 0 <= i < |data| ensures Recent(h + more, p, since, cfg.cache.limits.pageSize, offset + i, data[i]) {
      RecentMoreAt(h, more, p, since, cfg.cache.limits.pageSize, offset + i, data[i]);
    }
  }

  lemma RecentMoreAt(h: History, more: History, p: Path, since: int, ps: pos, i: nat, b: byte)
    requires Recent(h, p, since, ps, i, b)
    ensures Recent(h + more, p, since, ps, i, b)
  {
    hide HadByte;
    if HadByte(h, p, since, i, b) {
      HadByteMore(h, more, p, since, i, b);
    } else {
      var x: nat, y: nat :| x < i < y && x / ps == i / ps == y / ps && HadPosition(h, p, since, x)
        && HadPosition(h, p, since, y);
      var cx :| HadByte(h, p, since, x, cx);
      var cy :| HadByte(h, p, since, y, cy);
      HadByteMore(h, more, p, since, x, cx);
      HadByteMore(h, more, p, since, y, cy);
      assert HadPosition(h + more, p, since, x) && HadPosition(h + more, p, since, y);
    }
  }

  lemma HadAreRecent(cfg: FsConfig, h: History, p: Path, since: int, earlier: int, offset: nat, data: seq<byte>)
    requires earlier <= since && forall i :: 0 <= i < |data| ==> HadByte(h, p, since, offset + i, data[i])
    ensures forall i :: 0 <= i < |data| ==> Recent(h, p, earlier, cfg.cache.limits.pageSize, offset + i, data[i])
  {
    hide HadByte, HadAround;
    forall i | 0 <= i < |data| ensures Recent(h, p, earlier, cfg.cache.limits.pageSize, offset + i, data[i]) {
      HadByteSince(h, p, since, earlier, offset + i, data[i]);
    }
  }
}
