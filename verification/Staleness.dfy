/** With expiry on, everything an item taken from the cache says was stored under its path no
    longer ago than the time to live. */
module Staleness {
  import opened Bytes
  import opened PagedFile
  import opened PageMerge
  import opened Cache
  import opened RwBuffer

  /** What was stored when. */
  datatype Event = Event(time: nat, key: Path, item: CacheItem)

  // ---- where the parts of an item come from ----

  ghost predicate AttributesStored(log: seq<Event>, key: Path, since: int, a: Option<Attributes>) {
    a.Some? ==> exists j :: 0 <= j < |log| && log[j].key == key && log[j].time >= since && log[j].item.attributes == a
  }

  ghost predicate ChildrenStored(log: seq<Event>, key: Path, since: int, names: Option<seq<Name>>) {
    names.Some? ==>
      exists j :: 0 <= j < |log| && log[j].key == key && log[j].time >= since &&
                  log[j].item.DirectoryItem? && log[j].item.children == names
  }

  ghost predicate TargetStored(log: seq<Event>, key: Path, since: int, target: Option<string>) {
    target.Some? ==>
      exists j :: 0 <= j < |log| && log[j].key == key && log[j].time >= since &&
                  log[j].item.SymlinkItem? && log[j].item.target == target
  }

  ghost predicate Holds(e: Event, key: Path, since: int, ps: pos, i: nat) {
    e.key == key && e.time >= since && e.item.FileItem? && ValidAt(e.item.pages, ps, i)
  }

  /** Some stored file had a byte at position `i`. */
  ghost predicate Covered(log: seq<Event>, key: Path, since: int, ps: pos, i: nat) {
    exists j :: 0 <= j < |log| && Holds(log[j], key, since, ps, i)
  }

  /** Some stored file had this byte at position `i`. */
  ghost predicate ByteStored(log: seq<Event>, key: Path, since: int, ps: pos, i: nat, b: byte) {
    exists j :: 0 <= j < |log| && Holds(log[j], key, since, ps, i) && ByteAt(log[j].item.pages, ps, i) == b
  }

  /** Position `i` lies in its page between two positions that some stored file had. */
  ghost predicate Between(log: seq<Event>, key: Path, since: int, ps: pos, i: nat) {
    exists a: nat, b: nat ::
      && a < i < b && a / ps == i / ps == b / ps
      && Covered(log, key, since, ps, a) && Covered(log, key, since, ps, b)
  }

  /** A valid byte was stored, or is a zero that fills a gap between stored bytes. */
  ghost predicate ByteSourced(log: seq<Event>, key: Path, since: int, ps: pos, i: nat, b: byte) {
    ByteStored(log, key, since, ps, i, b) || (b == 0 && Between(log, key, since, ps, i))
  }

  ghost predicate PagesSourced(log: seq<Event>, key: Path, since: int, ps: pos, f: Pages) {
    && PagesOk(f, ps)
    && forall i: nat :: ValidAt(f, ps, i) ==> ByteSourced(log, key, since, ps, i, ByteAt(f, ps, i))
  }

  /** Every part of the item was stored under the key at or after `since`. */
  ghost predicate Sourced(log: seq<Event>, key: Path, since: int, ps: pos, item: CacheItem) {
    && AttributesStored(log, key, since, item.attributes)
    && match item
       case FileItem(_, _, f) => PagesSourced(log, key, since, ps, f)
       case DirectoryItem(_, _, children) => ChildrenStored(log, key, since, children)
       case SymlinkItem(_, _, target) => TargetStored(log, key, since, target)
  }

  // ---- growing logs, later limits ----

  lemma CoveredMore(log: seq<Event>, e: Event, key: Path, since: int, ps: pos, i: nat)
    ensures Covered(log, key, since, ps, i) ==> Covered(log + [e], key, since, ps, i)
  {
    if Covered(log, key, since, ps, i) {
      var j :| 0 <= j < |log| && Holds(log[j], key, since, ps, i);
      assert (log + [e])[j] == log[j];
    }
  }

  lemma ByteSourcedMore(log: seq<Event>, e: Event, key: Path, since: int, ps: pos, i: nat, b: byte)
    requires ByteSourced(log, key, since, ps, i, b)
    ensures ByteSourced(log + [e], key, since, ps, i, b)
  {
    hide ValidAt, ByteAt;
    if ByteStored(log, key, since, ps, i, b) {
      var j :| 0 <= j < |log| && Holds(log[j], key, since, ps, i) && ByteAt(log[j].item.pages, ps, i) == b;
      assert (log + [e])[j] == log[j];
    } else {
      var x: nat, y: nat :| x < i < y && x / ps == i / ps == y / ps
                          && Covered(log, key, since, ps, x) && Covered(log, key, since, ps, y);
      CoveredMore(log, e, key, since, ps, x);
      CoveredMore(log, e, key, since, ps, y);
    }
  }

  lemma SourcedMore(log: seq<Event>, e: Event, key: Path, since: int, ps: pos, item: CacheItem)
    requires Sourced(log, key, since, ps, item)
    ensures Sourced(log + [e], key, since, ps, item)
  {
    hide ByteSourced, ValidAt, ByteAt, PagesOk;
    assert forall j :: 0 <= j < |log| ==> (log + [e])[j] == log[j];
    if item.FileItem? {
      forall i: nat | ValidAt(item.pages, ps, i)
        ensures ByteSourced(log + [e], key, since, ps, i, ByteAt(item.pages, ps, i))
      {
        ByteSourcedMore(log, e, key, since, ps, i, ByteAt(item.pages, ps, i));
      }
    }
  }

  /** A freshly stored item is its own source. */
  lemma SourcedNow(log: seq<Event>, e: Event, since: int, ps: pos)
    requires e.time >= since && (e.item.FileItem? ==> PagesOk(e.item.pages, ps))
    ensures Sourced(log + [e], e.key, since, ps, e.item)
  {
    hide ValidAt, ByteAt, PagesOk;
    assert (log + [e])[|log|] == e;
    if e.item.FileItem? {
      forall i: nat | ValidAt(e.item.pages, ps, i)
        ensures ByteStored(log + [e], e.key, since, ps, i, ByteAt(e.item.pages, ps, i))
      {
        assert Holds((log + [e])[|log|], e.key, since, ps, i);
      }
    }
  }

  // ---- merging ----

  /** A valid byte of merged pages is one of either file, or a zero between them. */
  lemma MergedByte(f: Pages, g: Pages, lim: Limits, order: seq<nat>, i: nat)
    requires PagesOk(f, lim.pageSize) && PagesOk(g, lim.pageSize) && IsOrder(order, g.Keys)
    requires ValidAt(PageMerge.Merge(f, g, lim, order), lim.pageSize, i)
    ensures var ps, k, r := lim.pageSize, i / lim.pageSize, i % lim.pageSize;
            var b := ByteAt(PageMerge.Merge(f, g, lim, order), ps, i);
            || (ValidAt(f, ps, i) && b == ByteAt(f, ps, i))
            || (ValidAt(g, ps, i) && b == ByteAt(g, ps, i))
            || (b == 0 && k in f && k in g
                && (f[k].validUpTo <= r < g[k].validFrom || g[k].validUpTo <= r < f[k].validFrom))
  {
    hide PageMerge.Merge, MergeCount, PageOver, Full;
    var ps, k := lim.pageSize, i / lim.pageSize;
    MergeIsOverlay(f, g, lim, order);
    DivMod(i, ps);
    if k in f && k in g {
      ValidBytesFit(g[k], ps);
      PageOverAt(f[k], g[k], ps, i % ps);
    }
  }

  lemma PageOverAt(p: Page, q: Page, ps: pos, r: nat)
    requires PageOk(p, ps) && PageOk(q, ps) && r < ps
    ensures var o := PageOver(p, q);
            && |o.content| == ps
            && (o.validFrom <= r < o.validUpTo ==>
                  || (q.validFrom <= r < q.validUpTo && o.content[r] == q.content[r])
                  || (p.validFrom <= r < p.validUpTo && o.content[r] == p.content[r])
                  || (o.content[r] == 0 && (p.validUpTo <= r < q.validFrom || q.validUpTo <= r < p.validFrom)))
  {
    ValidBytesFit(q, ps);
    PageWriteMeaning(p, ps, ValidBytes(q), q.validFrom, r);
  }

  /** A page's first and last valid positions are covered, or lie between covered ones. */
  lemma EdgesCovered(log: seq<Event>, key: Path, since: int, ps: pos, f: Pages, k: nat)
    requires PagesSourced(log, key, since, ps, f) && k in f
    ensures exists a: nat :: a / ps == k && a % ps <= f[k].validFrom && Covered(log, key, since, ps, a)
    ensures exists b: nat :: b / ps == k && b % ps >= f[k].validUpTo - 1 && Covered(log, key, since, ps, b)
  {
    hide ByteSourced, Covered;
    var lo, hi := k * ps + f[k].validFrom, k * ps + (f[k].validUpTo - 1);
    DivModUnique(k, f[k].validFrom, ps);
    DivModUnique(k, f[k].validUpTo - 1, ps);
    assert ValidAt(f, ps, lo) && ValidAt(f, ps, hi);
    SourcedNear(log, key, since, ps, lo, ByteAt(f, ps, lo));
    SourcedNear(log, key, since, ps, hi, ByteAt(f, ps, hi));
  }

  lemma SourcedNear(log: seq<Event>, key: Path, since: int, ps: pos, i: nat, b: byte)
    requires ByteSourced(log, key, since, ps, i, b)
    ensures exists x: nat :: x / ps == i / ps && x % ps <= i % ps && Covered(log, key, since, ps, x)
    ensures exists y: nat :: y / ps == i / ps && y % ps >= i % ps && Covered(log, key, since, ps, y)
  {
    hide Holds;
    if ByteStored(log, key, since, ps, i, b) {
      assert Covered(log, key, since, ps, i);
    } else {
      var x: nat, y: nat :| x < i < y && x / ps == i / ps == y / ps
                          && Covered(log, key, since, ps, x) && Covered(log, key, since, ps, y);
      SamePage(x, i, ps);
      SamePage(y, i, ps);
    }
  }

  lemma GapSourced(log: seq<Event>, key: Path, since: int, ps: pos, f: Pages, g: Pages, i: nat)
    requires PagesSourced(log, key, since, ps, f) && PagesSourced(log, key, since, ps, g)
    requires i / ps in f && i / ps in g && f[i / ps].validUpTo <= i % ps < g[i / ps].validFrom
    ensures Between(log, key, since, ps, i)
  {
    hide PagesSourced, Covered;
    var k := i / ps;
    EdgesOk(log, key, since, ps, f, k);
    EdgesOk(log, key, since, ps, g, k);
    EdgesCovered(log, key, since, ps, f, k);
    EdgesCovered(log, key, since, ps, g, k);
    var a := NearLow(log, key, since, ps, f, k);
    var b := NearHigh(log, key, since, ps, g, k);
    SamePage(a, i, ps);
    SamePage(b, i, ps);
  }

  lemma EdgesOk(log: seq<Event>, key: Path, since: int, ps: pos, f: Pages, k: nat)
    requires PagesSourced(log, key, since, ps, f) && k in f
    ensures f[k].validFrom < f[k].validUpTo <= ps
  {
  }

  /** A covered position at or below the first valid one. */
  ghost function NearLow(log: seq<Event>, key: Path, since: int, ps: pos, f: Pages, k: nat): (a: nat)
    requires k in f
    requires exists a: nat :: a / ps == k && a % ps <= f[k].validFrom && Covered(log, key, since, ps, a)
    ensures a / ps == k && a % ps <= f[k].validFrom && Covered(log, key, since, ps, a)
  {
    var a: nat :| a / ps == k && a % ps <= f[k].validFrom && Covered(log, key, since, ps, a);
    a
  }

  /** A covered position at or above the last valid one. */
  ghost function NearHigh(log: seq<Event>, key: Path, since: int, ps: pos, f: Pages, k: nat): (b: nat)
    requires k in f
    requires exists b: nat :: b / ps == k && b % ps >= f[k].validUpTo - 1 && Covered(log, key, since, ps, b)
    ensures b / ps == k && b % ps >= f[k].validUpTo - 1 && Covered(log, key, since, ps, b)
  {
    var b: nat :| b / ps == k && b % ps >= f[k].validUpTo - 1 && Covered(log, key, since, ps, b);
    b
  }

  lemma MergedSourced(log: seq<Event>, key: Path, since: int, lim: Limits, f: Pages, g: Pages, order: seq<nat>)
    requires PagesSourced(log, key, since, lim.pageSize, f) && PagesSourced(log, key, since, lim.pageSize, g)
    requires IsOrder(order, g.Keys)
    ensures PagesSourced(log, key, since, lim.pageSize, PageMerge.Merge(f, g, lim, order))
  {
    hide PageMerge.Merge, MergeCount, Overlay, Full, ValidAt, ByteAt, Covered, ByteStored, Between;
    var ps := lim.pageSize;
    MergeIsOverlay(f, g, lim, order);
    var r := PageMerge.Merge(f, g, lim, order);
    forall i: nat | ValidAt(r, ps, i) ensures ByteSourced(log, key, since, ps, i, ByteAt(r, ps, i)) {
      MergedByte(f, g, lim, order, i);
      var k := i / ps;
      if k in f && k in g {
        if f[k].validUpTo <= i % ps < g[k].validFrom {
          GapSourced(log, key, since, ps, f, g, i);
        } else if g[k].validUpTo <= i % ps < f[k].validFrom {
          GapSourced(log, key, since, ps, g, f, i);
        }
      }
    }
  }

  lemma UpdateSourced(log: seq<Event>, key: Path, since: int, lim: Limits, was: CacheItem, item: CacheItem, c: Choice)
    requires Sourced(log, key, since, lim.pageSize, was) && Sourced(log, key, since, lim.pageSize, item)
             && OrderOk(item, c)
    ensures Sourced(log, key, since, lim.pageSize, UpdateItem(lim, was, item, c.order))
  {
    hide PageMerge.Merge, PagesSourced, AttributesStored, ChildrenStored, TargetStored, IsOrder;
    if was.FileItem? && item.FileItem? {
      MergedSourced(log, key, since, lim, was.pages, item.pages, c.order);
    }
  }

  // ---- runs ----

  function Log(run: seq<Call>): seq<Event> {
    if run == [] then []
    else
      var before, last := Log(run[..|run| - 1]), run[|run| - 1];
      match last
      case Keep(key, item, _, c) => before + [Event(c.now, key, item)]
      case KeepNew(key, item, c) => before + [Event(c.now, key, item)]
      case _ => before
  }

  /** Time never runs backwards, stored pages are well formed, and merges visit every page. */
  ghost predicate CallOk(ps: pos, clock: int, a: Call) {
    && clock <= CallTime(a)
    && (a.Keep? ==> OrderOk(a.item, a.c))
    && (a.Keep? || a.KeepNew? ==> (a.item.FileItem? ==> PagesOk(a.item.pages, ps)))
  }

  function Clock(run: seq<Call>): int {
    if run == [] then -1 else CallTime(run[|run| - 1])
  }

  ghost predicate RunOk(ps: pos, run: seq<Call>) {
    run == [] || (RunOk(ps, run[..|run| - 1]) && CallOk(ps, Clock(run[..|run| - 1]), run[|run| - 1]))
  }

  ghost predicate EntrySourced(log: seq<Event>, key: Path, ps: pos, clock: int, e: CacheEntry) {
    e.createdAt <= clock && Sourced(log, key, e.createdAt, ps, e.item)
  }

  ghost predicate AllSourced(log: seq<Event>, ps: pos, clock: int, m: Entries) {
    forall k :: k in m ==> EntrySourced(log, k, ps, clock, m[k])
  }

  lemma EntryStays(log: seq<Event>, e: Event, key: Path, ps: pos, clock: int, later: int, entry: CacheEntry)
    requires EntrySourced(log, key, ps, clock, entry) && clock <= later
    ensures EntrySourced(log, key, ps, later, entry) && EntrySourced(log + [e], key, ps, later, entry)
  {
    hide Sourced;
    SourcedMore(log, e, key, entry.createdAt, ps, entry.item);
  }

  lemma NewEntrySourced(log: seq<Event>, key: Path, item: CacheItem, ps: pos, now: nat)
    requires item.FileItem? ==> PagesOk(item.pages, ps)
    ensures EntrySourced(log + [Event(now, key, item)], key, ps, now, CacheEntry(item, now, now, 0))
  {
    hide Sourced, PagesOk;
    SourcedNow(log, Event(now, key, item), now, ps);
  }

  lemma WithoutAttributes(log: seq<Event>, key: Path, since: int, ps: pos, item: CacheItem)
    requires Sourced(log, key, since, ps, item)
    ensures Sourced(log, key, since, ps, item.(attributes := None))
  {
  }

  lemma KeepStep(cfg: CacheConfig, log: seq<Event>, clock: int, m: Entries, a: Call)
    requires a.Keep? && AllSourced(log, cfg.limits.pageSize, clock, m) && CallOk(cfg.limits.pageSize, clock, a)
    ensures AllSourced(log + [Event(a.c.now, a.key, a.item)], cfg.limits.pageSize, a.c.now, CallStep(cfg, m, a))
  {
    hide UpdateItem, Sourced, EntrySourced, PagesOk, OrderOk;
    var e, ps := Event(a.c.now, a.key, a.item), cfg.limits.pageSize;
    var m' := CallStep(cfg, m, a);
    forall k | k in m' ensures EntrySourced(log + [e], k, ps, a.c.now, m'[k]) {
      if k != a.key {
        EntryStays(log, e, k, ps, clock, a.c.now, m[k]);
      } else if k in m && !Expired(cfg, m[k], a.c.now) {
        MergedEntry(cfg, log, clock, m[k], a);
      } else {
        NewEntrySourced(log, k, a.item, ps, a.c.now);
      }
    }
  }

  lemma MergedEntry(cfg: CacheConfig, log: seq<Event>, clock: int, entry: CacheEntry, a: Call)
    requires a.Keep? && EntrySourced(log, a.key, cfg.limits.pageSize, clock, entry)
             && CallOk(cfg.limits.pageSize, clock, a)
    ensures var merged := UpdateItem(cfg.limits, entry.item, a.item, a.c.order);
            EntrySourced(log + [Event(a.c.now, a.key, a.item)], a.key, cfg.limits.pageSize, a.c.now,
                         Touched(entry, a.c.now).(item := if a.invalidate then merged.(attributes := None) else merged))
  {
    hide UpdateItem, Sourced, PagesOk, OrderOk;
    var e, ps := Event(a.c.now, a.key, a.item), cfg.limits.pageSize;
    SourcedMore(log, e, a.key, entry.createdAt, ps, entry.item);
    SourcedNow(log, e, entry.createdAt, ps);
    UpdateSourced(log + [e], a.key, entry.createdAt, cfg.limits, entry.item, a.item, a.c);
    WithoutAttributes(log + [e], a.key, entry.createdAt, ps, UpdateItem(cfg.limits, entry.item, a.item, a.c.order));
  }

  lemma KeepNewStep(cfg: CacheConfig, log: seq<Event>, clock: int, m: Entries, a: Call)
    requires a.KeepNew? && AllSourced(log, cfg.limits.pageSize, clock, m) && CallOk(cfg.limits.pageSize, clock, a)
    ensures AllSourced(log + [Event(a.c.now, a.key, a.item)], cfg.limits.pageSize, a.c.now, CallStep(cfg, m, a))
  {
    hide Sourced, EntrySourced, PagesOk, Ancestors;
    var e, ps := Event(a.c.now, a.key, a.item), cfg.limits.pageSize;
    var m' := CallStep(cfg, m, a);
    forall k | k in m' ensures EntrySourced(log + [e], k, ps, a.c.now, m'[k]) {
      if k != a.key {
        EntryStays(log, e, k, ps, clock, a.c.now, m[k]);
      } else {
        NewEntrySourced(log, k, a.item, ps, a.c.now);
      }
    }
  }

  lemma QuietStep(cfg: CacheConfig, log: seq<Event>, clock: int, m: Entries, a: Call)
    requires (a.Look? || a.Drop?) && AllSourced(log, cfg.limits.pageSize, clock, m) && clock <= CallTime(a)
    ensures AllSourced(log, cfg.limits.pageSize, CallTime(a), CallStep(cfg, m, a))
  {
    hide Sourced;
  }

  lemma {:induction false} RunSourced(cfg: CacheConfig, run: seq<Call>)
    requires RunOk(cfg.limits.pageSize, run)
    ensures AllSourced(Log(run), cfg.limits.pageSize, Clock(run), AfterCalls(cfg, run))
  {
    hide CallStep, AllSourced;
    if run == [] {
      NothingSourced(cfg.limits.pageSize);
    } else {
      var before, a := run[..|run| - 1], run[|run| - 1];
      RunSourced(cfg, before);
      match a
      case Keep(_, _, _, _) => KeepStep(cfg, Log(before), Clock(before), AfterCalls(cfg, before), a);
      case KeepNew(_, _, _) => KeepNewStep(cfg, Log(before), Clock(before), AfterCalls(cfg, before), a);
      case _ => QuietStep(cfg, Log(before), Clock(before), AfterCalls(cfg, before), a);
    }
  }

  lemma NothingSourced(ps: pos)
    ensures AllSourced([], ps, -1, map[])
  {
  }

  lemma SourcedSince(log: seq<Event>, key: Path, since: int, earlier: int, ps: pos, item: CacheItem)
    requires Sourced(log, key, since, ps, item) && earlier <= since
    ensures Sourced(log, key, earlier, ps, item)
  {
    hide ValidAt, ByteAt, PagesOk;
    if item.FileItem? {
      forall i: nat | ValidAt(item.pages, ps, i)
        ensures ByteSourced(log, key, earlier, ps, i, ByteAt(item.pages, ps, i))
      {
        ByteSourcedSince(log, key, since, earlier, ps, i, ByteAt(item.pages, ps, i));
      }
    }
  }

  lemma ByteSourcedSince(log: seq<Event>, key: Path, since: int, earlier: int, ps: pos, i: nat, b: byte)
    requires ByteSourced(log, key, since, ps, i, b) && earlier <= since
    ensures ByteSourced(log, key, earlier, ps, i, b)
  {
    hide ValidAt, ByteAt;
    if ByteStored(log, key, since, ps, i, b) {
      var j :| 0 <= j < |log| && Holds(log[j], key, since, ps, i) && ByteAt(log[j].item.pages, ps, i) == b;
      assert Holds(log[j], key, earlier, ps, i);
    } else {
      var x: nat, y: nat :| x < i < y && x / ps == i / ps == y / ps
                          && Covered(log, key, since, ps, x) && Covered(log, key, since, ps, y);
      CoveredSince(log, key, since, earlier, ps, x);
      CoveredSince(log, key, since, earlier, ps, y);
    }
  }

  lemma CoveredSince(log: seq<Event>, key: Path, since: int, earlier: int, ps: pos, i: nat)
    requires Covered(log, key, since, ps, i) && earlier <= since
    ensures Covered(log, key, earlier, ps, i)
  {
    hide ValidAt;
    var j :| 0 <= j < |log| && Holds(log[j], key, since, ps, i);
    assert Holds(log[j], key, earlier, ps, i);
  }

  /** In every run without rename, an item returned by a get holds only attributes, children,
      targets and bytes that were stored under its path at most `ttl` ago. */
  lemma BoundedStaleness(cfg: CacheConfig, run: seq<Call>, key: Path, now: nat)
    requires cfg.useTtl && RunOk(cfg.limits.pageSize, run) && Clock(run) <= now
    ensures var hit := Get(cfg, AfterCalls(cfg, run), key, now).1;
            hit.Some? ==> Sourced(Log(run), key, now - cfg.ttl, cfg.limits.pageSize, hit.value)
  {
    hide AfterCalls, Log, RunOk, Sourced;
    RunSourced(cfg, run);
    var m := AfterCalls(cfg, run);
    if key in m && !Expired(cfg, m[key], now) {
      assert EntrySourced(Log(run), key, cfg.limits.pageSize, Clock(run), m[key]);
      SourcedSince(Log(run), key, m[key].createdAt, now - cfg.ttl, cfg.limits.pageSize, m[key].item);
    }
  }

  /** Bytes that come out of the read window were put there at most its own time to live ago,
      so that copying them into the cache adds no more than that to their age. */
  lemma WindowStaleness(w: ReadWindow, ttl: nat, path: Path, offset: nat, len: nat, now: nat)
    ensures var r := WindowRead(w, ttl, path, offset, len, now);
            r != [] ==>
              && w.path == Some(path) && now <= w.filledAt + ttl
              && w.offset <= offset && offset - w.offset + |r| <= |w.data| && |r| <= len
              && forall i :: 0 <= i < |r| ==> r[i] == w.data[offset - w.offset + i]
  {
  }
}
