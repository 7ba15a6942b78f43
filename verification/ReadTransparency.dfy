/** With page-aligned reads of an unchanging server, everything the caching stack answers is
    exactly what the server holds. */
module ReadTransparency {
  import opened Bytes
  import opened PagedFile
  import opened PageMerge
  import opened Cache
  import opened RwBuffer
  import opened FsModel
  import opened Runs
  import Storage

  // ---- exact pages ----

  /** Page `k` of the content `truth`, with zeros behind its end. */
  function ExactPage(truth: seq<byte>, ps: pos, k: nat): Page {
    var start := Min(k * ps, |truth|);
    var end := Min(start + ps, |truth|);
    Page(truth[start..end] + Zeros(ps - (end - start)), 0, end - start)
  }

  ghost predicate PagesExact(f: Pages, ps: pos, truth: seq<byte>) {
    forall k :: k in f ==> k * ps < |truth| && f[k] == ExactPage(truth, ps, k)
  }

  /** `data` are the bytes of `truth` from a page boundary up to one, or up to its end. */
  ghost predicate Aligned(ps: pos, truth: seq<byte>, offset: nat, data: seq<byte>) {
    && offset % ps == 0
    && offset + |data| <= |truth|
    && data == truth[offset..offset + |data|]
    && (|data| % ps == 0 || offset + |data| == |truth|)
  }

  lemma MultipleMinus(a: nat, b: nat, n: pos)
    requires a % n == 0 && b % n == 0 && a >= b
    ensures (a - b) % n == 0
  {
    DivMod(a, n);
    DivMod(b, n);
    var k := a / n - b / n;
    assert a - b == k * n;
    if k >= 0 {
      DivModUnique(k, 0, n);
    } else {
      MulMono(a / n + 1, b / n, n);
    }
  }

  lemma MultiplePlus(a: nat, b: nat, n: pos)
    requires a % n == 0 && b % n == 0
    ensures (a + b) % n == 0
  {
    DivMod(a, n);
    DivMod(b, n);
    assert a + b == (a / n + b / n) * n;
    DivModUnique(a / n + b / n, 0, n);
  }

  lemma FirstPartAligned(ps: pos, truth: seq<byte>, offset: nat, data: seq<byte>)
    requires Aligned(ps, truth, offset, data) && data != []
    ensures var n := FirstPart(ps, offset, data);
            && offset == offset / ps * ps
            && n == Min(offset + ps, |truth|) - offset
            && data[..n] == truth[offset..offset + n]
            && (n < |data| ==> Aligned(ps, truth, offset + n, data[n..]))
  {
    DivMod(offset, ps);
    var n := FirstPart(ps, offset, data);
    if |data| < ps {
      DivModUnique(0, |data|, ps);
    } else {
      DivModUnique(1, 0, ps);
      MultiplePlus(offset, ps, ps);
      if |data| % ps == 0 {
        MultipleMinus(|data|, ps, ps);
      }
    }
  }

  lemma WriteFirstExact(f: Pages, ps: pos, truth: seq<byte>, offset: nat, data: seq<byte>)
    requires PagesExact(f, ps, truth) && Aligned(ps, truth, offset, data) && data != []
    ensures PagesExact(WriteFirst(f, ps, offset, data), ps, truth)
  {
    hide Aligned;
    FirstPartAligned(ps, truth, offset, data);
    AlignedInside(ps, truth, offset, data);
    var k, n := offset / ps, FirstPart(ps, offset, data);
    var p := PageFor(f, ps, k);
    ExactPageSize(truth, ps, k);
    var q := PageWrite(p, data[..n], 0);
    assert q.content == ExactPage(truth, ps, k).content;
  }

  lemma AlignedInside(ps: pos, truth: seq<byte>, offset: nat, data: seq<byte>)
    requires Aligned(ps, truth, offset, data)
    ensures offset % ps == 0 && offset + |data| <= |truth|
  {
  }

  lemma ExactPageSize(truth: seq<byte>, ps: pos, k: nat)
    ensures |ExactPage(truth, ps, k).content| == ps
  {
  }

  lemma {:induction false} WriteContentExact(f: Pages, lim: Limits, truth: seq<byte>, offset: nat, data: seq<byte>)
    requires PagesExact(f, lim.pageSize, truth) && Aligned(lim.pageSize, truth, offset, data)
    ensures PagesExact(WriteContent(f, lim, offset, data), lim.pageSize, truth)
    decreases |data|
  {
    hide WriteContent, WriteFirst, FirstPart, PagesExact, Aligned, Full;
    if data == [] || Full(f, lim) {
      WriteContentStops(f, lim, offset, data);
    } else {
      var n := FirstPart(lim.pageSize, offset, data);
      FirstPartAligned(lim.pageSize, truth, offset, data);
      WriteFirstExact(f, lim.pageSize, truth, offset, data);
      WriteContentUnfold(f, lim, offset, data);
      var f1 := WriteFirst(f, lim.pageSize, offset, data);
      if n < |data| {
        WriteContentExact(f1, lim, truth, offset + n, data[n..]);
      } else {
        WriteContentStops(f1, lim, offset + n, data[n..]);
      }
    }
  }

  lemma ExactBytesAligned(f: Pages, ps: pos, truth: seq<byte>, k: nat)
    requires PagesExact(f, ps, truth) && k in f
    ensures f[k].validFrom == 0 && Aligned(ps, truth, k * ps, ValidBytes(f[k]))
  {
    DivModUnique(k, 0, ps);
    DivModUnique(1, 0, ps);
  }

  /** Merging exact pages into exact pages, in any order and under any limit. */
  lemma {:induction false} MergeExact(f: Pages, g: Pages, lim: Limits, truth: seq<byte>, order: seq<nat>)
    requires PagesExact(f, lim.pageSize, truth) && PagesExact(g, lim.pageSize, truth)
    ensures PagesExact(PageMerge.Merge(f, g, lim, order), lim.pageSize, truth)
    decreases |order|
  {
    hide PageMerge.Merge, WriteContent, PagesExact, Aligned, Full;
    if order == [] || Full(f, lim) {
      MergeStops(f, g, lim, order);
    } else {
      var k := order[0];
      if k in g {
        ExactBytesAligned(g, lim.pageSize, truth, k);
        WriteContentExact(f, lim, truth, k * lim.pageSize, ValidBytes(g[k]));
      }
      MergeUnfold(f, g, lim, order);
      MergeExact(MergeOne(f, g, lim, k), g, lim, truth, order[1..]);
    }
  }

  lemma ExactPageAt(truth: seq<byte>, ps: pos, i: nat)
    requires i / ps * ps < |truth|
    ensures var p := ExactPage(truth, ps, i / ps);
            && p.validFrom == 0
            && (i % ps < p.validUpTo <==> i < |truth|)
            && (i < |truth| ==> i % ps < |p.content| && p.content[i % ps] == truth[i])
  {
    DivMod(i, ps);
  }

  lemma ExactAt(f: Pages, ps: pos, truth: seq<byte>, i: nat)
    requires PagesExact(f, ps, truth)
    ensures i in View(f, ps) <==> i / ps in f && i < |truth|
    ensures i in View(f, ps) ==> View(f, ps)[i] == truth[i]
  {
    hide ExactPage;
    if i / ps in f {
      ExactPageAt(truth, ps, i);
    }
  }

  /** Where the valid bytes of exact pages end, a page ends or the content does. */
  lemma ExactEnd(f: Pages, ps: pos, truth: seq<byte>, i: nat)
    requires PagesExact(f, ps, truth) && i > 0 && i - 1 in View(f, ps) && i !in View(f, ps)
    ensures i % ps == 0 || i == |truth|
  {
    hide PagesExact, View;
    ExactAt(f, ps, truth, i - 1);
    ExactAt(f, ps, truth, i);
    if (i - 1) % ps + 1 < ps {
      InPage(i - 1, 1, ps);
    } else {
      NextPage(i - 1, 1, ps);
    }
  }

  lemma ReadExact(f: Pages, ps: pos, truth: seq<byte>, offset: nat, size: nat)
    requires PagesExact(f, ps, truth) && offset % ps == 0 && size % ps == 0
    ensures var r := ReadRun(View(f, ps), offset, size); r != [] ==> Aligned(ps, truth, offset, r)
  {
    hide PagesExact, View;
    var v := View(f, ps);
    var r := ReadRun(v, offset, size);
    if r != [] {
      var e := offset + |r|;
      forall i | offset <= i < e ensures i in v && i < |truth| && r[i - offset] == truth[i] {
        ExactAt(f, ps, truth, i);
      }
      assert e - 1 in v;
      assert r == truth[offset..e];
      if |r| < size {
        ExactEnd(f, ps, truth, e);
        if e % ps == 0 {
          MultipleMinus(e, offset, ps);
        }
      }
    }
  }

  // ---- exact items and windows ----

  /** What the cache knows about a path is what the server holds there. */
  ghost predicate ItemExact(ps: pos, t: Tree, q: Path, item: CacheItem) {
    && (item.attributes.Some? ==> q in t && item.attributes.value == Storage.AttrOf(t[q]))
    && (item.FileItem? ==> PagesExact(item.pages, ps, Storage.Content(t, q)))
  }

  ghost predicate EntriesExact(ps: pos, t: Tree, m: Entries) {
    forall q :: q in m ==> ItemExact(ps, t, q, m[q].item)
  }

  ghost predicate WindowExact(ps: pos, t: Tree, w: ReadWindow) {
    w.data != [] ==> w.path.Some? && Aligned(ps, Storage.Content(t, w.path.value), w.offset, w.data)
  }

  ghost predicate Exact(cfg: FsConfig, s: FsState) {
    var ps := cfg.cache.limits.pageSize;
    && cfg.capacity > 0 && cfg.capacity % ps == 0
    && EntriesExact(ps, s.tree, s.cache)
    && WindowExact(ps, s.tree, s.window)
  }

  lemma UpdateExact(lim: Limits, t: Tree, q: Path, was: CacheItem, item: CacheItem, order: seq<nat>)
    requires ItemExact(lim.pageSize, t, q, was) && ItemExact(lim.pageSize, t, q, item)
    ensures ItemExact(lim.pageSize, t, q, UpdateItem(lim, was, item, order))
  {
    hide PageMerge.Merge, PagesExact;
    if was.FileItem? && item.FileItem? {
      MergeExact(was.pages, item.pages, lim, Storage.Content(t, q), order);
    }
  }

  lemma PutExact(cfg: FsConfig, t: Tree, m: Entries, key: Path, item: CacheItem, invalidate: bool, c: Choice)
    requires EntriesExact(cfg.cache.limits.pageSize, t, m) && ItemExact(cfg.cache.limits.pageSize, t, key, item)
    ensures EntriesExact(cfg.cache.limits.pageSize, t, CachePut(cfg, m, key, item, invalidate, c))
  {
    hide Put, UpdateItem, PagesExact;
    var ps := cfg.cache.limits.pageSize;
    if cfg.cached {
      if key in m {
        UpdateExact(cfg.cache.limits, t, key, m[key].item, item, c.order);
      }
      forall q | q in Put(cfg.cache, m, key, item, invalidate, c)
        ensures ItemExact(ps, t, q, Put(cfg.cache, m, key, item, invalidate, c)[q].item)
      {
        PutMeaning(cfg.cache, m, key, item, invalidate, c, q);
      }
    }
  }

  lemma GetExact(cfg: FsConfig, t: Tree, m: Entries, key: Path, now: nat)
    requires EntriesExact(cfg.cache.limits.pageSize, t, m)
    ensures var (m', hit) := CacheGet(cfg, m, key, now);
            && EntriesExact(cfg.cache.limits.pageSize, t, m')
            && (hit.Some? ==> ItemExact(cfg.cache.limits.pageSize, t, key, hit.value))
  {
    hide ItemExact;
  }

  lemma AttrItemExact(ps: pos, t: Tree, q: Path)
    requires q in t
    ensures ItemExact(ps, t, q, AttrItem(LastName(q), Storage.AttrOf(t[q])))
  {
  }

  lemma CacheWriteExact(cfg: FsConfig, t: Tree, m: Entries, path: Path, offset: nat, data: seq<byte>, c: Choice)
    requires EntriesExact(cfg.cache.limits.pageSize, t, m)
    requires Aligned(cfg.cache.limits.pageSize, Storage.Content(t, path), offset, data)
    ensures EntriesExact(cfg.cache.limits.pageSize, t, CacheWrite(cfg, m, path, offset, data, false, c))
  {
    hide EntriesExact, WriteContent, Aligned;
    WriteContentExact(map[], cfg.cache.limits, Storage.Content(t, path), offset, data);
    PutExact(cfg, t, m, path, ChunkItem(cfg, path, offset, data), false, c);
  }

  // ---- the calls ----

  lemma GetAttributesExact(cfg: FsConfig, s: FsState, path: Path, c: AttrChoice)
    requires Exact(cfg, s)
    ensures var (s', r) := GetAttributes(cfg, s, path, c);
            && Exact(cfg, s') && s'.tree == s.tree
            && r == Storage.GetAttributes(s.tree, path)
  {
    hide ItemExact, Put, WindowExact;
    GetExact(cfg, s.tree, s.cache, path, c.get);
    var (m, hit) := CacheGet(cfg, s.cache, path, c.get);
    if hit.Some? {
      HitAttributes(cfg.cache.limits.pageSize, s.tree, path, hit.value);
    }
    if path in s.tree && path != [] {
      AttrItemExact(cfg.cache.limits.pageSize, s.tree, path);
      PutExact(cfg, s.tree, m, path, AttrItem(LastName(path), Storage.AttrOf(s.tree[path])), false, c.put);
    }
  }

  lemma HitAttributes(ps: pos, t: Tree, q: Path, item: CacheItem)
    requires ItemExact(ps, t, q, item)
    ensures item.attributes.Some? ==> q in t && item.attributes.value == Storage.AttrOf(t[q])
  {
  }

  /** What one read of a file of content `truth` must answer. */
  ghost predicate GoodRead(ps: pos, truth: seq<byte>, offset: nat, size: nat, r: Result<seq<byte>>) {
    && r.Ok? && |r.value| <= size
    && (offset >= |truth| ==> r.value == [])
    && (offset < |truth| ==> Aligned(ps, truth, offset, r.value) && (size > 0 ==> r.value != []))
  }

  lemma WindowReadAligned(cfg: FsConfig, s: FsState, path: Path, offset: nat, size: nat, now: nat)
    requires Exact(cfg, s) && offset % cfg.cache.limits.pageSize == 0 && size % cfg.cache.limits.pageSize == 0
    ensures var r := WindowRead(s.window, cfg.windowTtl, path, offset, size, now);
            r != [] ==> |r| <= size && Aligned(cfg.cache.limits.pageSize, Storage.Content(s.tree, path), offset, r)
  {
    hide EntriesExact;
    var ps, w := cfg.cache.limits.pageSize, s.window;
    var r := WindowRead(w, cfg.windowTtl, path, offset, size, now);
    if r != [] {
      var truth := Storage.Content(s.tree, path);
      assert r == truth[offset..offset + |r|];
      if |r| < size && |w.data| % ps == 0 {
        MultipleMinus(offset, w.offset, ps);
        MultipleMinus(|w.data|, offset - w.offset, ps);
      }
    }
  }

  lemma RemoteReadAligned(ps: pos, truth: seq<byte>, offset: nat, capacity: nat, size: nat)
    requires offset % ps == 0 && offset < |truth| && capacity % ps == 0 && capacity > 0 && size % ps == 0
    ensures var data := truth[offset..Min(offset + capacity, |truth|)];
            && data != [] && Aligned(ps, truth, offset, data)
            && Aligned(ps, truth, offset, data[..Min(|data|, size)])
  {
  }

  lemma ReadMissExact(cfg: FsConfig, s: FsState, path: Path, offset: nat, size: nat, cachedBytes: seq<byte>,
                      c: MissChoice)
    requires Exact(cfg, s) && path in s.tree && s.tree[path].File? && offset < |s.tree[path].content|
    requires offset % cfg.cache.limits.pageSize == 0 && size % cfg.cache.limits.pageSize == 0
    requires |cachedBytes| <= size
    requires cachedBytes != [] ==> Aligned(cfg.cache.limits.pageSize, s.tree[path].content, offset, cachedBytes)
    ensures var (s', r) := ReadMiss(cfg, s, path, offset, size, cachedBytes, c);
            && Exact(cfg, s') && s'.tree == s.tree
            && GoodRead(cfg.cache.limits.pageSize, s.tree[path].content, offset, size, r)
  {
    hide EntriesExact, CacheWrite, WindowRead, Aligned;
    var ps, truth := cfg.cache.limits.pageSize, s.tree[path].content;
    assert Storage.Content(s.tree, path) == truth;
    if cachedBytes == [] {
      WindowReadAligned(cfg, s, path, offset, size, c.window);
      var ahead := WindowRead(s.window, cfg.windowTtl, path, offset, size, c.window);
      if ahead != [] {
        CacheWriteExact(cfg, s.tree, s.cache, path, offset, ahead, c.put);
      } else {
        RemoteReadAligned(ps, truth, offset, cfg.capacity, size);
        var data := truth[offset..Min(offset + cfg.capacity, |truth|)];
        CacheWriteExact(cfg, s.tree, s.cache, path, offset, data, c.put);
        assert data[..Min(|data|, cfg.capacity)] == data;
      }
    }
  }

  /** One page-aligned read of a file: the answer is the server's bytes up to a page boundary
      or the end, non-empty unless the offset is at the end, and everything stays exact. */
  lemma ReadFileExact(cfg: FsConfig, s: FsState, path: Path, offset: nat, size: nat, c: ReadChoice)
    requires Exact(cfg, s) && path in s.tree && s.tree[path].File?
    requires offset % cfg.cache.limits.pageSize == 0 && size % cfg.cache.limits.pageSize == 0
    ensures var (s', r) := ReadFile(cfg, s, path, offset, size, c);
            && Exact(cfg, s') && s'.tree == s.tree
            && GoodRead(cfg.cache.limits.pageSize, s.tree[path].content, offset, size, r)
  {
    hide GetAttributes, ReadMiss, EntriesExact, WindowExact, Aligned, View, ReadRun, CacheGet, PagesExact;
    GetAttributesExact(cfg, s, path, c.attr);
    var (s1, attr) := GetAttributes(cfg, s, path, c.attr);
    if offset < attr.value.size {
      GetExact(cfg, s1.tree, s1.cache, path, c.get);
      var (m, hit) := CacheGet(cfg, s1.cache, path, c.get);
      if hit.Some? && hit.value.FileItem? {
        ReadExact(hit.value.pages, cfg.cache.limits.pageSize, s.tree[path].content, offset, size);
      }
      ReadMissExact(cfg, s1.(cache := m), path, offset, size, CachedBytes(cfg, hit, offset, size), c.miss);
    }
  }

  /** Reads of anything else leave what is known exact too. */
  lemma ReadOtherExact(cfg: FsConfig, s: FsState, path: Path, offset: nat, size: nat, c: ReadChoice)
    requires Exact(cfg, s) && !(path in s.tree && s.tree[path].File?)
    ensures var (s', r) := ReadFile(cfg, s, path, offset, size, c);
            Exact(cfg, s') && s'.tree == s.tree
  {
    hide GetAttributes, EntriesExact, View, ReadRun, CacheGet, PagesExact;
    GetAttributesExact(cfg, s, path, c.attr);
    var s1 := GetAttributes(cfg, s, path, c.attr).0;
    GetExact(cfg, s1.tree, s1.cache, path, c.get);
    assert Storage.Content(s.tree, path) == [];
    assert WindowRead(s1.window, cfg.windowTtl, path, offset, size, c.miss.window) == [];
  }

  /** A read at or behind the end gives nothing, aligned or not. */
  lemma ReadAtEnd(cfg: FsConfig, s: FsState, path: Path, offset: nat, size: nat, c: ReadChoice)
    requires Exact(cfg, s) && path in s.tree && s.tree[path].File? && offset >= |s.tree[path].content|
    ensures var (s', r) := ReadFile(cfg, s, path, offset, size, c);
            Exact(cfg, s') && s'.tree == s.tree && r == Ok([])
  {
    hide GetAttributes, Exact;
    GetAttributesExact(cfg, s, path, c.attr);
  }

  // ---- listings in between ----

  lemma {:induction false} LookupExact(cfg: FsConfig, t: Tree, m: Entries, dir: Path, names: seq<Name>, nows: seq<nat>)
    requires |nows| == |names| && EntriesExact(cfg.cache.limits.pageSize, t, m)
    ensures EntriesExact(cfg.cache.limits.pageSize, t, LookupChildren(cfg, m, dir, names, nows).0)
    decreases |names|
  {
    hide EntriesExact, CacheGet;
    if names != [] {
      GetExact(cfg, t, m, dir + [names[0]], nows[0]);
      LookupExact(cfg, t, CacheGet(cfg, m, dir + [names[0]], nows[0]).0, dir, names[1..], nows[1..]);
    }
  }

  lemma {:induction false} PutChildrenExact(cfg: FsConfig, t: Tree, m: Entries, dir: Path, names: seq<Name>,
                                            cs: seq<Choice>)
    requires |cs| == |names| && EntriesExact(cfg.cache.limits.pageSize, t, m)
    requires forall n :: n in names ==> dir + [n] in t
    ensures EntriesExact(cfg.cache.limits.pageSize, t, PutChildren(cfg, m, dir, ServerItems(t, dir, names), cs))
    decreases |names|
  {
    hide EntriesExact, ItemExact, CachePut;
    if names != [] {
      var child := dir + [names[0]];
      var item := AttrItem(names[0], Storage.AttrOf(t[child]));
      AttrItemExact(cfg.cache.limits.pageSize, t, child);
      PutExact(cfg, t, m, child, item, false, cs[0]);
      assert ServerItems(t, dir, names)[1..] == ServerItems(t, dir, names[1..]);
      PutChildrenExact(cfg, t, CachePut(cfg, m, child, item, false, cs[0]), dir, names[1..], cs[1..]);
    }
  }

  lemma WithDotsExact(cfg: FsConfig, s: FsState, path: Path, items: seq<ListItem>, self: AttrChoice, up: AttrChoice)
    requires Exact(cfg, s)
    ensures var s' := WithDots(cfg, s, path, items, self, up).0; Exact(cfg, s') && s'.tree == s.tree
  {
    hide Exact, GetAttributes;
    GetAttributesExact(cfg, s, path, self);
    GetAttributesExact(cfg, GetAttributes(cfg, s, path, self).0, ParentOrRoot(path), up);
  }

  lemma ReaddirMissExact(cfg: FsConfig, s: FsState, path: Path, c: ReaddirChoice)
    requires Exact(cfg, s) && |c.puts| == |c.listing|
    requires path in s.tree && s.tree[path].Dir? ==> Storage.IsListing(s.tree, path, c.listing)
    ensures var s' := ReaddirMiss(cfg, s, path, c).0; Exact(cfg, s') && s'.tree == s.tree
  {
    hide GetAttributes, PutChildren, WithDots, EntriesExact, WindowExact, CachePut, Storage.IsListing;
    if path in s.tree && s.tree[path].Dir? {
      GetAttributesExact(cfg, s, path, c.self);
      var (s1, attr) := GetAttributes(cfg, s, path, c.self);
      var dir := DirectoryItem(LastName(path), Some(attr.value), Some(c.listing));
      PutExact(cfg, s.tree, s1.cache, path, dir, false, c.put);
      var m1 := CachePut(cfg, s1.cache, path, dir, false, c.put);
      forall n | n in c.listing ensures path + [n] in s.tree {
        Storage.ListedArePresent(s.tree, path, c.listing, n);
      }
      PutChildrenExact(cfg, s.tree, m1, path, c.listing, c.puts);
      var items := ServerItems(s.tree, path, c.listing);
      WithDotsExact(cfg, s1.(cache := PutChildren(cfg, m1, path, items, c.puts)), path, items, c.dot, c.dotdot);
    }
  }

  lemma ReaddirKeepsExact(cfg: FsConfig, s: FsState, path: Path, c: ReaddirChoice)
    requires Exact(cfg, s) && |c.puts| == |c.listing|
    requires path in s.tree && s.tree[path].Dir? ==> Storage.IsListing(s.tree, path, c.listing)
    ensures var s' := Readdir(cfg, s, path, c).0; Exact(cfg, s') && s'.tree == s.tree
  {
    hide WithDots, ReaddirMiss, LookupChildren, EntriesExact, WindowExact, Storage.IsListing, CacheGet;
    GetExact(cfg, s.tree, s.cache, path, c.get);
    var (m, hit) := CacheGet(cfg, s.cache, path, c.get);
    if hit.Some? && hit.value.DirectoryItem? && hit.value.children.Some? && |c.children| == |hit.value.children.value| {
      LookupExact(cfg, s.tree, m, path, hit.value.children.value, c.children);
    }
    var (m1, items) := CachedListing(cfg, m, path, hit, c.children);
    if items.Some? {
      WithDotsExact(cfg, s.(cache := m1), path, items.value, c.dot, c.dotdot);
    } else {
      ReaddirMissExact(cfg, s.(cache := m1), path, c);
    }
  }

  // ---- whole runs ----

  /** The call only reads: files from page to page or at their end, and listings are what the
      server lists. */
  ghost predicate OnlyReads(ps: pos, t: Tree, op: Op) {
    match op
    case ReadOp(path, offset, size, _) =>
      path in t && t[path].File? ==> (offset % ps == 0 && size % ps == 0) || offset >= |t[path].content|
    case AttrOp(_, _) => true
    case ReaddirOp(path, c) => ListingChosen(t, path, c)
    case DropOp(_) => true
    case _ => false
  }

  lemma StepExact(cfg: FsConfig, s: FsState, op: Op)
    requires Exact(cfg, s) && OnlyReads(cfg.cache.limits.pageSize, s.tree, op)
    ensures Exact(cfg, Step(cfg, s, op)) && Step(cfg, s, op).tree == s.tree
  {
    hide ReadFile, GetAttributes, Readdir, ItemExact, WindowExact, Storage.IsListing;
    match op
    case ReadOp(path, offset, size, c) =>
      if path in s.tree && s.tree[path].File? && offset >= |s.tree[path].content| {
        ReadAtEnd(cfg, s, path, offset, size, c);
      } else if path in s.tree && s.tree[path].File? {
        ReadFileExact(cfg, s, path, offset, size, c);
      } else {
        ReadOtherExact(cfg, s, path, offset, size, c);
      }
    case AttrOp(path, c) => GetAttributesExact(cfg, s, path, c);
    case ReaddirOp(path, c) =>
      if |c.puts| == |c.listing| {
        ReaddirKeepsExact(cfg, s, path, c);
      }
    case DropOp(keys) =>
  }

  /** A client that knows nothing yet knows nothing wrong. */
  lemma StartExact(cfg: FsConfig, t: Tree)
    requires cfg.capacity > 0 && cfg.capacity % cfg.cache.limits.pageSize == 0
    ensures Exact(cfg, Start(t))
  {
  }

  /** In every run of aligned reads, lookups and listings with any evictions, expiries and
      page limit, every cached page stays an exact server page. */
  lemma {:induction false} RunExact(cfg: FsConfig, s: FsState, ops: seq<Op>)
    requires Exact(cfg, s) && forall op :: op in ops ==> OnlyReads(cfg.cache.limits.pageSize, s.tree, op)
    ensures Exact(cfg, Run(cfg, s, ops)) && Run(cfg, s, ops).tree == s.tree
    decreases |ops|
  {
    hide Step, OnlyReads, Exact;
    if ops != [] {
      assert ops[0] in ops && forall op :: op in ops[1..] ==> op in ops;
      StepExact(cfg, s, ops[0]);
      RunExact(cfg, Step(cfg, s, ops[0]), ops[1..]);
    }
  }
}
