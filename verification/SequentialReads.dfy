/** Reads one behind the other from any offset on, aligned or not: what is cached of the file grows
    by the bytes that come next, so that it leaves no gap and every answer is the server's. */
module SequentialReads {
  import opened Bytes
  import opened PagedFile
  import opened PageMerge
  import opened Cache
  import opened RwBuffer
  import opened FsModel
  import opened Runs
  import opened AppendOnly
  import Answers
  import Storage

  // ---- pages that end where the next read starts ----

  /** The pages hold true bytes; unless they are full, they are one stretch that reaches at least
      up to position `x`, from at most there. */
  ghost predicate Follows(f: Pages, lim: Limits, truth: seq<byte>, x: nat) {
    && Truthful(f, lim.pageSize, truth)
    && (Full(f, lim) || f == map[] || exists a: nat, e: nat :: a <= x <= e && Span(f, lim.pageSize, a, e))
  }

  lemma SpanEndsRight(f: Pages, ps: pos, a: nat, e: nat)
    requires PagesOk(f, ps) && Span(f, ps, a, e)
    ensures EndsRight(f, ps, e)
  {
    hide Span, PagesOk;
    forall k | k in f ensures f[k].validUpTo == ps || k * ps + f[k].validUpTo == e {
      SpanEnds(f, ps, a, e, k);
    }
    EndsBy(f, ps, e);
  }

  lemma TrueUpTo(f: Pages, ps: pos, truth: seq<byte>, a: nat, e: nat)
    requires Truthful(f, ps, truth) && Span(f, ps, a, e) && e <= |truth|
    ensures Truthful(f, ps, truth[..e])
  {
    hide ByteAt;
  }

  lemma TrueBeyond(f: Pages, ps: pos, truth: seq<byte>, e: nat)
    requires e <= |truth| && Truthful(f, ps, truth[..e])
    ensures Truthful(f, ps, truth)
  {
    hide ByteAt;
  }

  lemma NoPagesSpan(ps: pos, x: nat)
    ensures PagesOk(map[], ps) && Span(map[], ps, x, x)
  {
  }

  /** Merging the bytes that come next makes the stretch longer, or fills the map. */
  lemma SpanGrows(f: Pages, lim: Limits, a: nat, x: nat, data: seq<byte>, order: seq<nat>)
    requires PagesOk(f, lim.pageSize) && Span(f, lim.pageSize, a, x) && a <= x && !Full(f, lim)
    requires IsOrder(order, WriteContent(map[], lim, x, data).Keys)
    ensures var r := PageMerge.Merge(f, WriteContent(map[], lim, x, data), lim, order);
            Full(r, lim) || Span(r, lim.pageSize, a, x + |data|)
  {
    hide WriteContent, Accepted, PageMerge.Merge, MergeCount, Overlay, PagesOk, ValidAt, ByteAt, Full, Elements,
      EndsRight, Meets;
    var ps := lim.pageSize;
    var g, n := WriteContent(map[], lim, x, data), Accepted(map[], lim, x, data);
    ChunkSpan(lim, x, data);
    SpanEndsRight(f, ps, a, x);
    AllMeet(f, g, ps, x, n);
    MergeIsOverlay(f, g, lim, order);
    var m := MergeCount(f, g, lim, order);
    var keys, r := Elements(order[..m]), PageMerge.Merge(f, g, lim, order);
    if !Full(r, lim) {
      assert order[..m] == order;
      assert keys == g.Keys;
      WholeChunk(g, r, lim);
      forall i: nat ensures ValidAt(r, ps, i) <==> a <= i < x + |data| {
        OverlayAt(f, g, ps, keys, i);
        ValidHasPage(g, ps, i);
      }
    }
  }

  lemma ValidHasPage(g: Pages, ps: pos, i: nat)
    ensures ValidAt(g, ps, i) ==> i / ps in g
  {
  }

  /** The pages after the bytes from `x` on were brought, whatever stretch in front was there. */
  lemma FollowsOn(f: Pages, lim: Limits, truth: seq<byte>, a: nat, x: nat, data: seq<byte>, order: seq<nat>)
    requires Truthful(f, lim.pageSize, truth) && Span(f, lim.pageSize, a, x) && a <= x && !Full(f, lim)
    requires x + |data| <= |truth| && data == truth[x..x + |data|]
    requires IsOrder(order, WriteContent(map[], lim, x, data).Keys)
    ensures var r := PageMerge.Merge(f, WriteContent(map[], lim, x, data), lim, order);
            Truthful(r, lim.pageSize, truth) && (Full(r, lim) || Span(r, lim.pageSize, a, x + |data|))
  {
    hide WriteContent, PageMerge.Merge, PagesOk, ValidAt, ByteAt, Full, EndsRight, IsOrder, Span;
    TrueUpTo(f, lim.pageSize, truth, a, x);
    SpanEndsRight(f, lim.pageSize, a, x);
    SpanGrows(f, lim, a, x, data, order);
    assert |truth[..x]| == x;
    NextChunk(f, lim, truth[..x], data, order);
    assert truth[..x] + data == truth[..x + |data|];
    TrueBeyond(PageMerge.Merge(f, WriteContent(map[], lim, x, data), lim, order), lim.pageSize, truth, x + |data|);
  }

  lemma FollowsBy(f: Pages, lim: Limits, truth: seq<byte>, a: nat, x: nat, e: nat)
    requires Truthful(f, lim.pageSize, truth) && (Full(f, lim) || (a <= x <= e && Span(f, lim.pageSize, a, e)))
    ensures Follows(f, lim, truth, x)
  {
    hide Span, Full, Truthful;
  }

  /** What a put of the brought bytes leaves: merged into the old pages, or alone. */
  lemma BroughtFollows(f: Pages, lim: Limits, truth: seq<byte>, x: nat, data: seq<byte>, order: seq<nat>, n: nat)
    requires Follows(f, lim, truth, x) && !ValidAt(f, lim.pageSize, x) && n <= |data|
    requires x + |data| <= |truth| && data == truth[x..x + |data|]
    requires IsOrder(order, WriteContent(map[], lim, x, data).Keys)
    ensures Follows(PageMerge.Merge(f, WriteContent(map[], lim, x, data), lim, order), lim, truth, x + n)
  {
    hide WriteContent, PageMerge.Merge, ValidAt, Full, IsOrder, Span, Truthful;
    var r := PageMerge.Merge(f, WriteContent(map[], lim, x, data), lim, order);
    if Full(f, lim) {
      MergeStops(f, WriteContent(map[], lim, x, data), lim, order);
    } else {
      var a := x;
      if f == map[] {
        NoPagesSpan(lim.pageSize, x);
      } else {
        var b: nat, e: nat :| b <= x <= e && Span(f, lim.pageSize, b, e);
        SpanAt(f, lim.pageSize, b, e, x);
        a := b;
      }
      FollowsOn(f, lim, truth, a, x, data, order);
      FollowsBy(r, lim, truth, a, x + n, x + |data|);
    }
  }

  lemma ChunkFollows(lim: Limits, truth: seq<byte>, x: nat, data: seq<byte>, n: nat)
    requires x + |data| <= |truth| && data == truth[x..x + |data|] && n <= |data|
    ensures Follows(WriteContent(map[], lim, x, data), lim, truth, x + n)
  {
    hide WriteContent, Accepted, PagesOk, ValidAt, ByteAt, Full, EndsRight;
    var g := WriteContent(map[], lim, x, data);
    ChunkSpan(lim, x, data);
    assert |truth[..x]| == x;
    ChunkIsTail(lim, truth[..x], data);
    assert truth[..x] + data == truth[..x + |data|];
    TrueBeyond(g, lim.pageSize, truth, x + |data|);
    FollowsBy(g, lim, truth, x, x + n, x + |data|);
  }

  lemma NoPagesFollow(lim: Limits, truth: seq<byte>, x: nat)
    ensures Follows(map[], lim, truth, x)
  {
  }

  // ---- what the client knows of one file ----

  ghost predicate EntryFollows(cfg: FsConfig, m: Entries, p: Path, truth: seq<byte>, x: nat) {
    cfg.cached && p in m ==>
      && m[p].item.FileItem?
      && (m[p].item.attributes.Some? ==> m[p].item.attributes == Some(Attributes(|truth|, KindFile)))
      && Follows(m[p].item.pages, cfg.cache.limits, truth, x)
  }

  predicate WindowTrue(w: ReadWindow, p: Path, truth: seq<byte>) {
    w.path == Some(p) && w.data != [] ==>
      w.offset + |w.data| <= |truth| && w.data == truth[w.offset..w.offset + |w.data|]
  }

  /** What the client knows of the file lets a read at position `x` be answered rightly. */
  ghost predicate ReadsOn(cfg: FsConfig, s: FsState, p: Path, x: nat) {
    && p != [] && p in s.tree && s.tree[p].File? && cfg.capacity > 0
    && EntryFollows(cfg, s.cache, p, s.tree[p].content, x)
    && WindowTrue(s.window, p, s.tree[p].content)
  }

  /** A client that knows nothing of the file can start anywhere. */
  lemma UnknownReadsOn(cfg: FsConfig, s: FsState, p: Path, x: nat)
    requires Answers.Unknown(cfg, s, p) && p != [] && p in s.tree && s.tree[p].File? && cfg.capacity > 0
    ensures ReadsOn(cfg, s, p, x)
  {
  }

  lemma GetFollows(cfg: FsConfig, m: Entries, p: Path, now: nat, truth: seq<byte>, x: nat)
    requires EntryFollows(cfg, m, p, truth, x)
    ensures var (m', hit) := CacheGet(cfg, m, p, now);
            EntryFollows(cfg, m', p, truth, x) && (hit.Some? ==> cfg.cached && p in m && hit.value == m[p].item)
  {
    hide Follows;
  }

  lemma PutAttributesFollows(cfg: FsConfig, m: Entries, p: Path, truth: seq<byte>, c: Choice, x: nat)
    requires EntryFollows(cfg, m, p, truth, x)
    ensures EntryFollows(cfg, CacheAttr(cfg, m, p, Attributes(|truth|, KindFile), c), p, truth, x)
  {
    hide Put, Follows, PageMerge.Merge;
    var item := AttrItem(LastName(p), Attributes(|truth|, KindFile));
    if cfg.cached && p != [] && p in Put(cfg.cache, m, p, item, false, c) {
      PutMeaning(cfg.cache, m, p, item, false, c, p);
      NoPagesFollow(cfg.cache.limits, truth, x);
      if p in m {
        MergeEmpty(m[p].item.pages, cfg.cache.limits, c.order);
      }
    }
  }

  lemma AttributesReadOn(cfg: FsConfig, s: FsState, p: Path, x: nat, c: AttrChoice)
    requires ReadsOn(cfg, s, p, x)
    ensures var (s', r) := GetAttributes(cfg, s, p, c);
            ReadsOn(cfg, s', p, x) && r == Ok(Attributes(|s.tree[p].content|, KindFile)) && s'.tree == s.tree
  {
    hide CacheGet, CacheAttr, Follows;
    var truth := s.tree[p].content;
    var (m, hit) := CacheGet(cfg, s.cache, p, c.get);
    GetFollows(cfg, s.cache, p, c.get, truth, x);
    PutAttributesFollows(cfg, m, p, truth, c.put, x);
  }

  lemma PutBroughtFollows(cfg: FsConfig, m: Entries, p: Path, truth: seq<byte>, x: nat, data: seq<byte>, c: Choice,
                          n: nat)
    requires EntryFollows(cfg, m, p, truth, x) && n <= |data| && p != []
    requires cfg.cached && p in m ==> !ValidAt(m[p].item.pages, cfg.cache.limits.pageSize, x)
    requires x + |data| <= |truth| && data == truth[x..x + |data|] && OrderOk(ChunkItem(cfg, p, x, data), c)
    ensures EntryFollows(cfg, CacheWrite(cfg, m, p, x, data, false, c), p, truth, x + n)
  {
    hide Put, Follows, PageMerge.Merge, WriteContent, IsOrder, ValidAt;
    var item, lim := ChunkItem(cfg, p, x, data), cfg.cache.limits;
    if cfg.cached && p in Put(cfg.cache, m, p, item, false, c) {
      PutMeaning(cfg.cache, m, p, item, false, c, p);
      ChunkFollows(lim, truth, x, data, n);
      if p in m {
        BroughtFollows(m[p].item.pages, lim, truth, x, data, c.order, n);
      }
    }
  }

  // ---- one read ----

  /** The next bytes of the file, some unless it ends there. */
  predicate NextBytes(truth: seq<byte>, x: nat, size: nat, r: Result<seq<byte>>) {
    && r.Ok? && |r.value| <= size
    && (if x >= |truth| then r.value == []
        else x + |r.value| <= |truth| && r.value == truth[x..x + |r.value|] && (size > 0 ==> r.value != []))
  }

  lemma CachedFollow(cfg: FsConfig, f: Pages, truth: seq<byte>, x: nat, size: nat)
    requires Follows(f, cfg.cache.limits, truth, x) && x < |truth|
    ensures var r := ReadRun(View(f, cfg.cache.limits.pageSize), x, size);
            && |r| <= size
            && (r == [] && size > 0 ==> !ValidAt(f, cfg.cache.limits.pageSize, x))
            && (r != [] ==> x + |r| <= |truth| && r == truth[x..x + |r|]
                            && Follows(f, cfg.cache.limits, truth, x + |r|))
  {
    hide ValidAt, ByteAt, Full, Span;
    var ps := cfg.cache.limits.pageSize;
    var r := ReadRun(View(f, ps), x, size);
    if r != [] {
      var last := x + |r| - 1;
      forall i | x <= i <= last ensures ValidAt(f, ps, i) && i < |truth| && r[i - x] == truth[i] {
        assert i in View(f, ps) && r[i - x] == View(f, ps)[i];
        TrueAt(f, ps, truth, i);
      }
      assert ValidAt(f, ps, last);
      forall j | 0 <= j < |r| ensures r[j] == truth[x + j] {
        assert r[x + j - x] == truth[x + j];
      }
      assert r == truth[x..x + |r|];
      LongerFollows(f, cfg.cache.limits, truth, x, last);
    }
  }

  lemma LongerFollows(f: Pages, lim: Limits, truth: seq<byte>, x: nat, last: nat)
    requires Follows(f, lim, truth, x) && x <= last && ValidAt(f, lim.pageSize, last)
    ensures Follows(f, lim, truth, last + 1)
  {
    hide Full, Span, Truthful;
    if !Full(f, lim) {
      assert f != map[] by {
        ValidHasPage(f, lim.pageSize, last);
      }
      var a: nat, e: nat :| a <= x <= e && Span(f, lim.pageSize, a, e);
      SpanAt(f, lim.pageSize, a, e, last);
      FollowsBy(f, lim, truth, a, last + 1, e);
    }
  }

  lemma WindowNext(w: ReadWindow, ttl: nat, p: Path, truth: seq<byte>, x: nat, size: nat, now: nat)
    requires WindowTrue(w, p, truth)
    ensures var data := WindowRead(w, ttl, p, x, size, now);
            data != [] ==> |data| <= size && x + |data| <= |truth| && data == truth[x..x + |data|]
  {
    var data := WindowRead(w, ttl, p, x, size, now);
    if data != [] {
      var d := x - w.offset;
      forall i | 0 <= i < |data| ensures data[i] == truth[x + i] {
        assert data[i] == w.data[d + i];
      }
    }
  }

  lemma FilledTrue(capacity: nat, p: Path, truth: seq<byte>, x: nat, now: nat)
    requires x < |truth|
    ensures WindowTrue(WindowFill(capacity, p, x, truth[x..Min(x + capacity, |truth|)], now), p, truth)
  {
  }

  lemma MissReadsOn(cfg: FsConfig, s: FsState, p: Path, x: nat, size: nat, c: MissChoice)
    requires ReadsOn(cfg, s, p, x) && x < |s.tree[p].content| && size > 0
    requires cfg.cached && p in s.cache ==> !ValidAt(s.cache[p].item.pages, cfg.cache.limits.pageSize, x)
    requires OrderOk(ChunkItem(cfg, p, x, Brought(cfg, s, p, x, size, c.window)), c.put)
    ensures var (s', r) := ReadMiss(cfg, s, p, x, size, [], c);
            && NextBytes(s.tree[p].content, x, size, r) && s'.tree == s.tree
            && ReadsOn(cfg, s', p, x + |r.value|)
  {
    hide CacheWrite, WindowRead, EntryFollows, ChunkItem, OrderOk, ValidAt, WindowTrue;
    var truth := s.tree[p].content;
    WindowNext(s.window, cfg.windowTtl, p, truth, x, size, c.window);
    var ahead := WindowRead(s.window, cfg.windowTtl, p, x, size, c.window);
    if ahead != [] {
      PutBroughtFollows(cfg, s.cache, p, truth, x, ahead, c.put, |ahead|);
    } else {
      var data := truth[x..Min(x + cfg.capacity, |truth|)];
      FilledTrue(cfg.capacity, p, truth, x, c.fill);
      PutBroughtFollows(cfg, s.cache, p, truth, x, data, c.put, Min(|data|, size));
    }
  }

  /** One read, aligned or not, of a file of which the client knows nothing, or only what earlier
      such reads brought: it answers the server's next bytes and can be gone on behind them. */
  lemma NextReadExact(cfg: FsConfig, s: FsState, p: Path, x: nat, size: nat, c: ReadChoice)
    requires ReadsOn(cfg, s, p, x) && size > 0
    requires OrderOk(ChunkItem(cfg, p, x, Brought(cfg, s, p, x, size, c.miss.window)), c.miss.put)
    ensures var (s', r) := ReadFile(cfg, s, p, x, size, c);
            && NextBytes(s.tree[p].content, x, size, r) && s'.tree == s.tree
            && ReadsOn(cfg, s', p, x + |r.value|)
  {
    hide GetAttributes, CacheGet, ReadMiss, Follows, ReadRun, View, ValidAt, OrderOk, ChunkItem, Brought, WindowTrue;
    AttributesReadOn(cfg, s, p, x, c.attr);
    AttributesKeep(cfg, s, p, c.attr);
    var (s1, attr) := GetAttributes(cfg, s, p, c.attr);
    var truth := s.tree[p].content;
    if x < |truth| {
      var (m, hit) := CacheGet(cfg, s1.cache, p, c.get);
      GetFollows(cfg, s1.cache, p, c.get, truth, x);
      var s2 := s1.(cache := m);
      BroughtSame(cfg, s, s2, p, x, size, c.miss.window);
      var bytes := CachedBytes(cfg, hit, x, size);
      if hit.Some? {
        CachedFollow(cfg, hit.value.pages, truth, x, size);
        KeptItem(cfg, s1.cache, p, c.get);
      } else {
        NotKept(cfg, s1.cache, p, c.get);
      }
      if bytes == [] {
        MissReadsOn(cfg, s2, p, x, size, c.miss);
      } else {
        HitReads(cfg, s2, p, x, size, bytes, c.miss);
      }
    }
  }

  lemma KeptItem(cfg: FsConfig, m: Entries, p: Path, now: nat)
    requires CacheGet(cfg, m, p, now).1.Some?
    ensures var (m', hit) := CacheGet(cfg, m, p, now); p in m' && m'[p].item == hit.value
  {
  }

  lemma NotKept(cfg: FsConfig, m: Entries, p: Path, now: nat)
    requires CacheGet(cfg, m, p, now).1.None?
    ensures cfg.cached ==> p !in CacheGet(cfg, m, p, now).0
  {
  }

  lemma HitReads(cfg: FsConfig, s: FsState, p: Path, x: nat, size: nat, bytes: seq<byte>, c: MissChoice)
    requires bytes != []
    ensures ReadMiss(cfg, s, p, x, size, bytes, c) == (s, Ok(bytes))
  {
  }
}
