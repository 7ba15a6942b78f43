/** A file that is created and then only appended to: whatever the buffer, the page limit,
    evictions, merge orders, reads of whole pages in between and calls on other paths do, its
    cached bytes are the server's. */
module AppendOnly {
  import opened Bytes
  import opened PagedFile
  import opened PageMerge
  import opened Cache
  import opened RwBuffer
  import opened FsModel
  import opened Runs
  import opened ReadTransparency
  import opened WriteBack
  import Storage

  // ---- pages that hold a tail of the file ----

  /** Every valid byte is the byte of `truth` at its position. */
  ghost predicate Truthful(f: Pages, ps: pos, truth: seq<byte>) {
    && PagesOk(f, ps)
    && forall i: nat :: ValidAt(f, ps, i) ==> i < |truth| && ByteAt(f, ps, i) == truth[i]
  }

  /** Exactly the positions from `start` up to `end` are valid. */
  ghost predicate Span(f: Pages, ps: pos, start: nat, end: nat) {
    forall i: nat :: ValidAt(f, ps, i) <==> start <= i < end
  }

  /** Every page is valid up to its own end, or up to the end of the file. */
  ghost predicate EndsRight(f: Pages, ps: pos, end: nat) {
    forall k :: k in f ==> f[k].validUpTo == ps || k * ps + f[k].validUpTo == end
  }

  /** The pages are true, and unless the page map is full the next bytes go right behind them. */
  ghost predicate TailOf(f: Pages, lim: Limits, truth: seq<byte>) {
    Truthful(f, lim.pageSize, truth) && (Full(f, lim) || EndsRight(f, lim.pageSize, |truth|))
  }

  lemma {:induction false} AcceptedOrFull(f: Pages, lim: Limits, offset: nat, data: seq<byte>)
    ensures Accepted(f, lim, offset, data) == |data| || Full(WriteContent(f, lim, offset, data), lim)
    decreases |data|
  {
    hide WriteContent, Accepted, WriteFirst, FirstPart, Full;
    if data == [] || Full(f, lim) {
      WriteContentStops(f, lim, offset, data);
    } else {
      var n := FirstPart(lim.pageSize, offset, data);
      WriteContentUnfold(f, lim, offset, data);
      AcceptedOrFull(WriteFirst(f, lim.pageSize, offset, data), lim, offset + n, data[n..]);
    }
  }

  /** The pages of one uploaded chunk: a prefix of the chunk and nothing else. */
  lemma ChunkSpan(lim: Limits, offset: nat, data: seq<byte>)
    ensures var g := WriteContent(map[], lim, offset, data);
            var n := Accepted(map[], lim, offset, data);
            && PagesOk(g, lim.pageSize)
            && Span(g, lim.pageSize, offset, offset + n)
            && (forall i: nat :: ValidAt(g, lim.pageSize, i) ==> ByteAt(g, lim.pageSize, i) == data[i - offset])
            && (n == |data| || Full(g, lim))
  {
    hide WriteContent, Accepted, Full, PagesOk;
    var g := WriteContent(map[], lim, offset, data);
    var n := Accepted(map[], lim, offset, data);
    AcceptedOrFull(map[], lim, offset, data);
    EmptyOk(lim.pageSize);
    WriteContentMeaning(map[], lim, offset, data, 0);
    forall i: nat
      ensures ValidAt(g, lim.pageSize, i) <==> offset <= i < offset + n
      ensures ValidAt(g, lim.pageSize, i) ==> ByteAt(g, lim.pageSize, i) == data[i - offset]
    {
      WriteContentMeaning(map[], lim, offset, data, i);
    }
  }

  lemma EmptyOk(ps: pos)
    ensures PagesOk(map[], ps)
  {
  }

  // ---- merging a chunk behind a tail ----

  /** Where both files have a page, the second goes on where the first ends. */
  ghost predicate Meets(f: Pages, g: Pages) {
    forall k :: k in f && k in g ==> f[k].validUpTo == g[k].validFrom
  }

  /** A page of the file and a page of the chunk at the same place meet where the chunk starts. */
  lemma PagesMeet(f: Pages, g: Pages, ps: pos, end: nat, n: nat, k: nat)
    requires PagesOk(f, ps) && PagesOk(g, ps) && k in f && k in g
    requires EndsRight(f, ps, end) && forall i: nat :: ValidAt(f, ps, i) ==> i < end
    requires Span(g, ps, end, end + n)
    ensures f[k].validUpTo == g[k].validFrom
  {
    var a, b := f[k].validUpTo, g[k].validFrom;
    DivModUnique(k, a - 1, ps);
    DivModUnique(k, b, ps);
    assert ValidAt(f, ps, k * ps + (a - 1));
    assert ValidAt(g, ps, k * ps + b);
    var inG := ValidAt(g, ps, k * ps + a);
    if a < b {
      DivModUnique(k, a, ps);
    }
  }

  lemma AllMeet(f: Pages, g: Pages, ps: pos, end: nat, n: nat)
    requires PagesOk(f, ps) && PagesOk(g, ps) && EndsRight(f, ps, end)
    requires forall i: nat :: ValidAt(f, ps, i) ==> i < end
    requires Span(g, ps, end, end + n)
    ensures Meets(f, g)
  {
    hide PagesOk, EndsRight, Span, ValidAt;
    forall k | k in f && k in g ensures f[k].validUpTo == g[k].validFrom {
      PagesMeet(f, g, ps, end, n, k);
    }
  }

  lemma SpanEnds(g: Pages, ps: pos, start: nat, end: nat, k: nat)
    requires PagesOk(g, ps) && Span(g, ps, start, end) && k in g
    ensures g[k].validUpTo == ps || k * ps + g[k].validUpTo == end
  {
    var u := g[k].validUpTo;
    DivModUnique(k, u - 1, ps);
    assert ValidAt(g, ps, k * ps + (u - 1));
    var behind := ValidAt(g, ps, k * ps + u);
    if u < ps {
      DivModUnique(k, u, ps);
    }
  }

  /** A page that ends where the file ended got the bytes behind it. */
  lemma LastPageGrew(f: Pages, g: Pages, ps: pos, end: nat, n: nat, k: nat)
    requires PagesOk(f, ps) && EndsRight(f, ps, end) && Span(g, ps, end, end + n) && k in f && k !in g
    ensures f[k].validUpTo == ps || k * ps + f[k].validUpTo == end + n
  {
    var u := f[k].validUpTo;
    var behind := ValidAt(g, ps, k * ps + u);
    if u < ps {
      DivModUnique(k, u, ps);
    }
  }

  lemma EndsAfter(f: Pages, g: Pages, ps: pos, end: nat, n: nat)
    requires PagesOk(f, ps) && PagesOk(g, ps) && EndsRight(f, ps, end) && Meets(f, g) && Span(g, ps, end, end + n)
    ensures EndsRight(Overlay(f, g, g.Keys), ps, end + n)
  {
    hide Span, EndsRight, PagesOk;
    var r := Overlay(f, g, g.Keys);
    forall k | k in r ensures r[k].validUpTo == ps || k * ps + r[k].validUpTo == end + n {
      if k in g {
        SpanEnds(g, ps, end, end + n, k);
        if k in f {
          OverEnds(f, g, ps, k);
        }
      } else {
        LastPageGrew(f, g, ps, end, n, k);
      }
    }
    EndsBy(r, ps, end + n);
  }

  lemma EndsBy(f: Pages, ps: pos, end: nat)
    requires forall k :: k in f ==> f[k].validUpTo == ps || k * ps + f[k].validUpTo == end
    ensures EndsRight(f, ps, end)
  {
  }

  lemma OverEnds(f: Pages, g: Pages, ps: pos, k: nat)
    requires PagesOk(f, ps) && PagesOk(g, ps) && Meets(f, g) && k in f && k in g
    ensures PageOver(f[k], g[k]).validUpTo == g[k].validUpTo
  {
    ValidBytesFit(g[k], ps);
  }

  lemma OverMeaning(p: Page, q: Page, ps: pos, r: nat)
    requires PageOk(p, ps) && PageOk(q, ps) && p.validUpTo == q.validFrom && r < ps
    ensures var o := PageOver(p, q);
            && PageOk(o, ps)
            && (o.validFrom <= r < o.validUpTo <==> p.validFrom <= r < p.validUpTo || q.validFrom <= r < q.validUpTo)
            && (o.validFrom <= r < o.validUpTo ==>
                  o.content[r] == if q.validFrom <= r < q.validUpTo then q.content[r] else p.content[r])
  {
    ValidBytesFit(q, ps);
    PageWriteMeaning(p, ps, ValidBytes(q), q.validFrom, r);
  }

  /** Laying pages of the chunk over the file adds exactly the bytes of these pages. */
  lemma OverlayAt(f: Pages, g: Pages, ps: pos, keys: set<nat>, i: nat)
    requires PagesOk(f, ps) && PagesOk(g, ps) && Meets(f, g)
    ensures var r := Overlay(f, g, keys);
            var added := ValidAt(g, ps, i) && i / ps in keys;
            && (ValidAt(r, ps, i) <==> ValidAt(f, ps, i) || added)
            && (ValidAt(r, ps, i) ==> ByteAt(r, ps, i) == if added then ByteAt(g, ps, i) else ByteAt(f, ps, i))
  {
    hide PageOver, PageOk;
    var k := i / ps;
    DivMod(i, ps);
    if k in keys && k in f && k in g {
      OverMeaning(f[k], g[k], ps, i % ps);
      PageSizes(f[k], ps);
      PageSizes(g[k], ps);
      PageSizes(PageOver(f[k], g[k]), ps);
    }
  }

  lemma PageSizes(p: Page, ps: pos)
    requires PageOk(p, ps)
    ensures |p.content| == ps
  {
  }

  lemma MergeTruthful(f: Pages, lim: Limits, truth: seq<byte>, data: seq<byte>, order: seq<nat>)
    requires TailOf(f, lim, truth) && !Full(f, lim)
    requires IsOrder(order, WriteContent(map[], lim, |truth|, data).Keys)
    ensures TailOf(PageMerge.Merge(f, WriteContent(map[], lim, |truth|, data), lim, order), lim, truth + data)
  {
    hide WriteContent, Accepted, PageMerge.Merge, MergeCount, Overlay, PagesOk, ValidAt, ByteAt, Span, Full, Elements,
      EndsRight, Meets;
    var ps, offset := lim.pageSize, |truth|;
    var g, n := WriteContent(map[], lim, offset, data), Accepted(map[], lim, offset, data);
    ChunkSpan(lim, offset, data);
    AllMeet(f, g, ps, offset, n);
    MergeIsOverlay(f, g, lim, order);
    var m := MergeCount(f, g, lim, order);
    var keys, r := Elements(order[..m]), PageMerge.Merge(f, g, lim, order);
    forall i: nat | ValidAt(r, ps, i) ensures i < |truth + data| && ByteAt(r, ps, i) == (truth + data)[i] {
      OverlayAt(f, g, ps, keys, i);
      SpanAt(g, ps, offset, offset + n, i);
    }
    if !Full(r, lim) {
      assert order[..m] == order;
      assert keys == g.Keys;
      WholeChunk(g, r, lim);
      EndsAfter(f, g, ps, offset, n);
    }
  }

  lemma SpanAt(f: Pages, ps: pos, start: nat, end: nat, i: nat)
    requires Span(f, ps, start, end)
    ensures ValidAt(f, ps, i) <==> start <= i < end
  {
  }

  /** A page map with room left holds no more pages than one without. */
  lemma WholeChunk(g: Pages, r: Pages, lim: Limits)
    requires g.Keys <= r.Keys && !Full(r, lim)
    ensures !Full(g, lim)
  {
    SubsetSize(g.Keys, r.Keys);
    assert |g| == |g.Keys| && |r| == |r.Keys|;
  }

  lemma FullStays(f: Pages, lim: Limits, truth: seq<byte>, data: seq<byte>)
    requires TailOf(f, lim, truth) && Full(f, lim)
    ensures TailOf(f, lim, truth + data)
  {
  }

  lemma ChunkIsTail(lim: Limits, truth: seq<byte>, data: seq<byte>)
    ensures TailOf(WriteContent(map[], lim, |truth|, data), lim, truth + data)
  {
    hide WriteContent, Accepted, PagesOk, ValidAt, ByteAt, Full, Span, EndsRight;
    ChunkSpan(lim, |truth|, data);
    var g, n := WriteContent(map[], lim, |truth|, data), Accepted(map[], lim, |truth|, data);
    forall i: nat | ValidAt(g, lim.pageSize, i)
      ensures i < |truth + data| && ByteAt(g, lim.pageSize, i) == (truth + data)[i]
    {
      SpanAt(g, lim.pageSize, |truth|, |truth| + n, i);
    }
    if !Full(g, lim) {
      forall k | k in g ensures g[k].validUpTo == lim.pageSize || k * lim.pageSize + g[k].validUpTo == |truth + data| {
        SpanEnds(g, lim.pageSize, |truth|, |truth| + n, k);
      }
      EndsBy(g, lim.pageSize, |truth + data|);
    }
  }

  /** The cached pages of the file after the upload of the next chunk. */
  lemma NextChunk(f: Pages, lim: Limits, truth: seq<byte>, data: seq<byte>, order: seq<nat>)
    requires TailOf(f, lim, truth) && IsOrder(order, WriteContent(map[], lim, |truth|, data).Keys)
    ensures TailOf(PageMerge.Merge(f, WriteContent(map[], lim, |truth|, data), lim, order), lim, truth + data)
  {
    hide TailOf, PageMerge.Merge, WriteContent, Full, IsOrder;
    if Full(f, lim) {
      MergeStops(f, WriteContent(map[], lim, |truth|, data), lim, order);
      FullStays(f, lim, truth, data);
    } else {
      MergeTruthful(f, lim, truth, data, order);
    }
  }

  // ---- pages that a read brings ----

  lemma OverExact(p: Page, ps: pos, truth: seq<byte>, k: nat)
    requires PageOk(p, ps) && k * ps < |truth| && k * ps + p.validUpTo <= |truth|
    ensures PageOk(ExactPage(truth, ps, k), ps) && PageOver(p, ExactPage(truth, ps, k)) == ExactPage(truth, ps, k)
  {
    hide PageOver;
    ExactPageRight(ps, truth, k);
    OverWhole(p, ExactPage(truth, ps, k), ps);
  }

  /** A page whose valid bytes start in front and reach as far replaces the other. */
  lemma OverWhole(p: Page, q: Page, ps: pos)
    requires PageOk(p, ps) && PageOk(q, ps) && q.validFrom == 0 && p.validUpTo <= q.validUpTo
    ensures PageOver(p, q) == q
  {
    ValidBytesFit(q, ps);
    var content := PageOver(p, q).content;
    assert |content| == ps;
    forall i | 0 <= i < ps ensures content[i] == q.content[i] {
    }
    assert content == q.content;
  }

  lemma ExactPageRight(ps: pos, truth: seq<byte>, k: nat)
    requires k * ps < |truth|
    ensures var e := ExactPage(truth, ps, k);
            PageOk(e, ps) && (e.validUpTo == ps || k * ps + e.validUpTo == |truth|)
  {
  }

  lemma TruePageEnds(f: Pages, ps: pos, truth: seq<byte>, k: nat)
    requires Truthful(f, ps, truth) && k in f
    ensures k * ps + f[k].validUpTo <= |truth|
  {
    DivModUnique(k, f[k].validUpTo - 1, ps);
    assert ValidAt(f, ps, k * ps + (f[k].validUpTo - 1));
  }

  /** Every page is an old one or an exact one. */
  lemma OldOrExact(f: Pages, g: Pages, ps: pos, truth: seq<byte>, keys: set<nat>, k: nat)
    requires Truthful(f, ps, truth) && PagesExact(g, ps, truth) && k in Overlay(f, g, keys)
    ensures var p := Overlay(f, g, keys)[k];
            (k in f && p == f[k]) || (k * ps < |truth| && p == ExactPage(truth, ps, k))
  {
    hide ExactPage, PageOver, ValidAt, ByteAt;
    if k in keys && k in g && k in f {
      TruePageEnds(f, ps, truth, k);
      OverExact(f[k], ps, truth, k);
    }
  }

  lemma OverlayTrueAt(f: Pages, g: Pages, ps: pos, truth: seq<byte>, keys: set<nat>, i: nat)
    requires Truthful(f, ps, truth) && PagesExact(g, ps, truth) && ValidAt(Overlay(f, g, keys), ps, i)
    ensures i < |truth| && ByteAt(Overlay(f, g, keys), ps, i) == truth[i]
  {
    hide ExactPage, Overlay, PagesExact, Truthful;
    OldOrExact(f, g, ps, truth, keys, i / ps);
    if i / ps * ps < |truth| {
      ExactPageAt(truth, ps, i);
    }
    TrueAt(f, ps, truth, i);
  }

  lemma TrueAt(f: Pages, ps: pos, truth: seq<byte>, i: nat)
    requires Truthful(f, ps, truth)
    ensures ValidAt(f, ps, i) ==> i < |truth| && ByteAt(f, ps, i) == truth[i]
  {
    hide ValidAt, ByteAt;
  }

  lemma OverlayTailOf(f: Pages, g: Pages, lim: Limits, truth: seq<byte>, keys: set<nat>)
    requires TailOf(f, lim, truth) && !Full(f, lim) && PagesExact(g, lim.pageSize, truth)
    ensures TailOf(Overlay(f, g, keys), lim, truth)
  {
    hide ExactPage, Overlay, PagesExact, ValidAt, ByteAt, Full;
    var r, ps := Overlay(f, g, keys), lim.pageSize;
    forall k | k in r ensures PageOk(r[k], ps) && (r[k].validUpTo == ps || k * ps + r[k].validUpTo == |truth|) {
      OldOrExact(f, g, ps, truth, keys, k);
      if k * ps < |truth| {
        ExactPageRight(ps, truth, k);
      }
    }
    forall i: nat | ValidAt(r, ps, i) ensures i < |truth| && ByteAt(r, ps, i) == truth[i] {
      OverlayTrueAt(f, g, ps, truth, keys, i);
    }
  }

  /** The cached pages of the file after whole pages of it were read. */
  lemma ReadChunk(f: Pages, lim: Limits, truth: seq<byte>, offset: nat, data: seq<byte>, order: seq<nat>)
    requires TailOf(f, lim, truth) && (data != [] ==> Aligned(lim.pageSize, truth, offset, data))
    requires IsOrder(order, WriteContent(map[], lim, offset, data).Keys)
    ensures TailOf(WriteContent(map[], lim, offset, data), lim, truth)
    ensures TailOf(PageMerge.Merge(f, WriteContent(map[], lim, offset, data), lim, order), lim, truth)
  {
    hide TailOf, PageMerge.Merge, WriteContent, Full, IsOrder, PagesExact, Aligned, Overlay, MergeCount;
    var g, ps := WriteContent(map[], lim, offset, data), lim.pageSize;
    NoPagesExact(ps, truth);
    if data == [] {
      WriteContentStops(map[], lim, offset, data);
    } else {
      WriteContentExact(map[], lim, truth, offset, data);
    }
    ExactIsTail(g, lim, truth);
    if Full(f, lim) {
      MergeStops(f, g, lim, order);
    } else {
      TailPagesOk(f, lim, truth);
      TailPagesOk(g, lim, truth);
      OrderedKeys(order, g.Keys);
      MergeIsOverlay(f, g, lim, order);
      OverlayTailOf(f, g, lim, truth, Elements(order[..MergeCount(f, g, lim, order)]));
    }
  }

  lemma OrderedKeys(order: seq<nat>, keys: set<nat>)
    requires IsOrder(order, keys)
    ensures (forall i, j :: 0 <= i < j < |order| ==> order[i] != order[j]) && Elements(order) <= keys
  {
  }

  lemma NoPagesExact(ps: pos, truth: seq<byte>)
    ensures PagesExact(map[], ps, truth)
  {
  }

  lemma TailPagesOk(f: Pages, lim: Limits, truth: seq<byte>)
    requires TailOf(f, lim, truth)
    ensures PagesOk(f, lim.pageSize)
  {
  }

  lemma ExactIsTail(g: Pages, lim: Limits, truth: seq<byte>)
    requires PagesExact(g, lim.pageSize, truth)
    ensures TailOf(g, lim, truth)
  {
    hide ExactPage, ValidAt, ByteAt, Full, PageOk;
    forall k | k in g
      ensures PageOk(g[k], lim.pageSize)
      ensures g[k].validUpTo == lim.pageSize || k * lim.pageSize + g[k].validUpTo == |truth|
    {
      ExactPageRight(lim.pageSize, truth, k);
    }
    forall i: nat | ValidAt(g, lim.pageSize, i) ensures i < |truth| && ByteAt(g, lim.pageSize, i) == truth[i] {
      ExactValid(g, lim.pageSize, truth, i);
    }
  }

  lemma ExactValid(g: Pages, ps: pos, truth: seq<byte>, i: nat)
    requires PagesExact(g, ps, truth) && ValidAt(g, ps, i)
    ensures i < |truth| && ByteAt(g, ps, i) == truth[i]
  {
    hide ExactPage;
    ExactPageAt(truth, ps, i);
  }

  // ---- the state around one appended file ----

  ghost predicate EntryTail(cfg: FsConfig, m: Entries, p: Path, truth: seq<byte>) {
    cfg.cached && p in m && m[p].item.FileItem? ==> TailOf(m[p].item.pages, cfg.cache.limits, truth)
  }

  ghost predicate FileTail(cfg: FsConfig, s: FsState, p: Path) {
    && p != [] && p in s.tree && s.tree[p].File?
    && EntryTail(cfg, s.cache, p, s.tree[p].content)
  }

  /** The buffer's bytes for the file, if there are any, come right behind the server's. */
  predicate PendingNext(b: Pending, p: Path, length: nat) {
    b.path == Some(p) && b.data != [] ==> b.offset == length
  }

  ghost predicate AppendInv(cfg: FsConfig, s: FsState, p: Path) {
    && FileTail(cfg, s, p)
    && PendingOk(cfg.capacity, s.pending)
    && PendingNext(s.pending, p, |s.tree[p].content|)
  }

  /** The length of the file once the buffer is uploaded. */
  function LogicalLength(s: FsState, p: Path): nat {
    |Storage.Content(s.tree, p)| + if s.pending.path == Some(p) then |s.pending.data| else 0
  }

  lemma {:induction false} MergeEmpty(f: Pages, lim: Limits, order: seq<nat>)
    ensures PageMerge.Merge(f, map[], lim, order) == f
    decreases |order|
  {
    hide PageMerge.Merge, Full;
    if order == [] || Full(f, lim) {
      MergeStops(f, map[], lim, order);
    } else {
      MergeUnfold(f, map[], lim, order);
      MergeEmpty(f, lim, order[1..]);
    }
  }

  lemma EmptyIsTail(lim: Limits, truth: seq<byte>)
    ensures TailOf(map[], lim, truth)
  {
  }

  lemma PutElsewhere(cfg: FsConfig, m: Entries, key: Path, item: CacheItem, invalidate: bool, c: Choice, p: Path,
                     truth: seq<byte>)
    requires EntryTail(cfg, m, p, truth) && key != p
    ensures EntryTail(cfg, CachePut(cfg, m, key, item, invalidate, c), p, truth)
  {
    hide Put, TailOf;
    if cfg.cached && p in Put(cfg.cache, m, key, item, invalidate, c) {
      PutMeaning(cfg.cache, m, key, item, invalidate, c, p);
    }
  }

  /** Putting an item without pages changes no cached byte. */
  lemma PutBlank(cfg: FsConfig, m: Entries, item: CacheItem, c: Choice, p: Path, truth: seq<byte>)
    requires EntryTail(cfg, m, p, truth) && (item.FileItem? ==> item.pages == map[])
    ensures EntryTail(cfg, CachePut(cfg, m, p, item, false, c), p, truth)
  {
    hide Put, TailOf, PageMerge.Merge;
    if cfg.cached && p in Put(cfg.cache, m, p, item, false, c) {
      PutMeaning(cfg.cache, m, p, item, false, c, p);
      EmptyIsTail(cfg.cache.limits, truth);
      if p in m && m[p].item.FileItem? {
        MergeEmpty(m[p].item.pages, cfg.cache.limits, c.order);
      }
    }
  }

  lemma PutChunk(cfg: FsConfig, m: Entries, data: seq<byte>, c: Choice, p: Path, truth: seq<byte>)
    requires EntryTail(cfg, m, p, truth) && p != [] && OrderOk(ChunkItem(cfg, p, |truth|, data), c)
    ensures EntryTail(cfg, CacheWrite(cfg, m, p, |truth|, data, true, c), p, truth + data)
  {
    hide Put, TailOf, PageMerge.Merge, WriteContent, IsOrder;
    var item := ChunkItem(cfg, p, |truth|, data);
    if cfg.cached && p in Put(cfg.cache, m, p, item, true, c) {
      PutMeaning(cfg.cache, m, p, item, true, c, p);
      ChunkIsTail(cfg.cache.limits, truth, data);
      if p in m && m[p].item.FileItem? {
        NextChunk(m[p].item.pages, cfg.cache.limits, truth, data, c.order);
      }
    }
  }

  // ---- uploads ----

  /** One upload: behind the end of the file, or of another file. */
  lemma UploadKeepsTail(cfg: FsConfig, s: FsState, u: Upload, c: Choice, p: Path)
    requires FileTail(cfg, s, p) && u.data != []
    requires u.path == p ==> u.offset == |s.tree[p].content| && OrderOk(ChunkItem(cfg, p, u.offset, u.data), c)
    ensures var (s', r) := UploadOne(cfg, s, u, c);
            && FileTail(cfg, s', p) && s'.pending == s.pending
            && (u.path == p ==> r.Ok?)
            && s'.tree[p].content == s.tree[p].content + if u.path == p then u.data else []
  {
    hide CachePut, EntryTail, ChunkItem, OrderOk;
    var truth := s.tree[p].content;
    if u.path == p {
      assert WriteAt(truth, |truth|, u.data) == truth + u.data;
      PutChunk(cfg, s.cache, u.data, c, p, truth);
    } else {
      assert truth + [] == truth;
      if u.path != [] {
        PutElsewhere(cfg, s.cache, u.path, ChunkItem(cfg, u.path, u.offset, u.data), true, c, p, truth);
      }
    }
  }

  /** At most two uploads, none of them of bytes that do not come next. */
  ghost predicate UploadsNext(cfg: FsConfig, uploads: seq<Upload>, cs: seq<Choice>, p: Path, length: nat)
    requires |cs| == |uploads|
    decreases |uploads|
  {
    uploads == [] ||
    (var u := uploads[0];
     && u.data != []
     && (u.path == p ==> u.offset == length && OrderOk(ChunkItem(cfg, p, u.offset, u.data), cs[0]))
     && UploadsNext(cfg, uploads[1..], cs[1..], p, length + if u.path == p then |u.data| else 0))
  }

  function UploadedTo(uploads: seq<Upload>, p: Path): nat
    decreases |uploads|
  {
    if uploads == [] then 0 else (if uploads[0].path == p then |uploads[0].data| else 0) + UploadedTo(uploads[1..], p)
  }

  lemma {:induction false} UploadsKeepTail(cfg: FsConfig, s: FsState, uploads: seq<Upload>, cs: seq<Choice>, p: Path)
    requires |cs| == |uploads| && FileTail(cfg, s, p)
    requires UploadsNext(cfg, uploads, cs, p, |s.tree[p].content|)
    ensures var (s', r) := UploadAll(cfg, s, uploads, cs);
            && FileTail(cfg, s', p) && s'.pending == s.pending
            && (r.Ok? ==> |s'.tree[p].content| == |s.tree[p].content| + UploadedTo(uploads, p))
            && (UploadedTo(uploads, p) == 0 ==> s'.tree[p].content == s.tree[p].content)
    decreases |uploads|
  {
    hide UploadOne, EntryTail, OrderOk;
    if uploads != [] {
      UploadKeepsTail(cfg, s, uploads[0], cs[0], p);
      var (s1, r) := UploadOne(cfg, s, uploads[0], cs[0]);
      if r.Ok? {
        UploadsKeepTail(cfg, s1, uploads[1..], cs[1..], p);
      }
    }
  }

  // ---- the calls ----

  /** Bytes for the file itself are appended; bytes for other files go anywhere. */
  ghost predicate WriteOk(cfg: FsConfig, s: FsState, path: Path, offset: nat, data: seq<byte>, c: WriteChoice, p: Path)
    requires |s.pending.data| <= cfg.capacity
  {
    var uploads := WriteSection(cfg.capacity, s.pending, path, offset, data).1;
    && (path == p ==> offset == LogicalLength(s, p))
    && UploadOrdersOk(cfg, uploads, ChoicesFor(|uploads|, c))
  }

  /** In one locked section the file's bytes leave the buffer in order, and what stays in it
      comes right behind them, even if an upload of another file fails. */
  lemma SectionInOrder(cfg: FsConfig, b: Pending, path: Path, offset: nat, data: seq<byte>, cs: seq<Choice>, p: Path,
                       length: nat)
    requires PendingOk(cfg.capacity, b) && PendingNext(b, p, length)
    requires path == p ==> offset == length + if b.path == Some(p) then |b.data| else 0
    requires |cs| == |WriteSection(cfg.capacity, b, path, offset, data).1|
    requires UploadOrdersOk(cfg, WriteSection(cfg.capacity, b, path, offset, data).1, cs)
    ensures var (b', uploads, _) := WriteSection(cfg.capacity, b, path, offset, data);
            && UploadsNext(cfg, uploads, cs, p, length)
            && (UploadedTo(uploads, p) > 0 ==> !(b'.path == Some(p) && b'.data != []))
            && PendingNext(b', p, length)
  {
    hide ChunkItem, OrderOk, UploadsNext, UploadedTo, UploadOrdersOk;
    NoUploads(cfg, p, length);
    var (b', uploads, written) := WriteSection(cfg.capacity, b, path, offset, data);
    if |uploads| == 0 {
      assert uploads == [] && cs == [];
    } else if |uploads| == 1 {
      assert uploads == [uploads[0]] && cs == [cs[0]];
      OneUpload(cfg, uploads[0], cs[0], p, length);
    } else {
      assert uploads == [uploads[0], uploads[1]] && cs == [cs[0], cs[1]];
      TwoUploads(cfg, uploads[0], uploads[1], cs[0], cs[1], p, length);
    }
  }

  lemma NoUploads(cfg: FsConfig, p: Path, length: nat)
    ensures UploadsNext(cfg, [], [], p, length) && UploadedTo([], p) == 0
  {
  }

  lemma OneUpload(cfg: FsConfig, u: Upload, c: Choice, p: Path, length: nat)
    requires u.data != [] && UploadOrdersOk(cfg, [u], [c]) && (u.path == p ==> u.offset == length)
    ensures UploadsNext(cfg, [u], [c], p, length)
    ensures UploadedTo([u], p) == if u.path == p then |u.data| else 0
  {
    hide ChunkItem, OrderOk;
    assert [u][0] == u && [u][1..] == [] && [c][1..] == [];
  }

  lemma TwoUploads(cfg: FsConfig, u: Upload, v: Upload, c: Choice, d: Choice, p: Path, length: nat)
    requires u.data != [] && v.data != [] && UploadOrdersOk(cfg, [u, v], [c, d])
    requires u.path == p ==> u.offset == length && v.path != p
    requires v.path == p ==> v.offset == length && u.path != p
    ensures UploadsNext(cfg, [u, v], [c, d], p, length)
    ensures UploadedTo([u, v], p) == (if u.path == p then |u.data| else 0) + (if v.path == p then |v.data| else 0)
  {
    hide ChunkItem, OrderOk;
    assert [u, v][1..] == [v] && [c, d][1..] == [d];
    assert [u, v][0] == u && [u, v][1] == v && [c, d][0] == c && [c, d][1] == d;
    OneUpload(cfg, v, d, p, length + if u.path == p then |u.data| else 0);
  }

  lemma WriteKeepsInv(cfg: FsConfig, s: FsState, path: Path, offset: nat, data: seq<byte>, c: WriteChoice, p: Path)
    requires AppendInv(cfg, s, p) && WriteOk(cfg, s, path, offset, data, c, p)
    ensures AppendInv(cfg, WriteFile(cfg, s, path, offset, data, c).0, p)
  {
    hide WriteSection, UploadAll, EntryTail, OrderOk, UploadOrdersOk, UploadsNext, UploadedTo;
    var length := |s.tree[p].content|;
    SectionShape(cfg.capacity, s.pending, path, offset, data);
    var (b, uploads, _) := WriteSection(cfg.capacity, s.pending, path, offset, data);
    var cs := ChoicesFor(|uploads|, c);
    SectionInOrder(cfg, s.pending, path, offset, data, cs, p, length);
    UploadsKeepTail(cfg, s.(pending := b), uploads, cs, p);
  }

  lemma FlushKeepsInv(cfg: FsConfig, s: FsState, c: Choice, p: Path)
    requires AppendInv(cfg, s, p)
    requires s.pending.data != [] ==>
               var u := UploadOf(s.pending); OrderOk(ChunkItem(cfg, u.path, u.offset, u.data), c)
    ensures AppendInv(cfg, Flush(cfg, s, c).0, p)
  {
    hide UploadOne, EntryTail, OrderOk, ChunkItem;
    if s.pending.data != [] {
      UploadKeepsTail(cfg, s.(pending := CLEAN), UploadOf(s.pending), c, p);
    }
  }

  lemma GetAttributesKeepsInv(cfg: FsConfig, s: FsState, path: Path, c: AttrChoice, p: Path)
    requires AppendInv(cfg, s, p)
    ensures AppendInv(cfg, GetAttributes(cfg, s, path, c).0, p)
  {
    hide CachePut, TailOf;
    var truth := s.tree[p].content;
    var (m, hit) := CacheGet(cfg, s.cache, path, c.get);
    assert EntryTail(cfg, m, p, truth);
    if path in s.tree && path != [] {
      var item := AttrItem(LastName(path), Storage.AttrOf(s.tree[path]));
      if path == p {
        PutBlank(cfg, m, item, c.put, p, truth);
      } else {
        PutElsewhere(cfg, m, path, item, false, c.put, p, truth);
      }
    }
  }

  /** Reads bring whole pages of the file, or pages up to its end, into the cache. */
  lemma ReadKeepsInv(cfg: FsConfig, s: FsState, path: Path, offset: nat, size: nat, c: ReadChoice, p: Path)
    requires AppendInv(cfg, s, p) && (path == p ==> WholePages(cfg, s, p, offset, size, c))
    ensures AppendInv(cfg, ReadFile(cfg, s, path, offset, size, c).0, p)
  {
    hide GetAttributes, EntryTail, OrderOk, ChunkItem, CacheWrite, CachedBytes, Brought, Aligned, WindowRead;
    GetAttributesKeepsInv(cfg, s, path, c.attr, p);
    AttributesKeep(cfg, s, path, c.attr);
    var (s1, attr) := GetAttributes(cfg, s, path, c.attr);
    if !(attr.Ok? && offset >= attr.value.size) {
      var (m, hit) := CacheGet(cfg, s1.cache, path, c.get);
      GetKeepsTail(cfg, s1.cache, path, c.get, p, s.tree[p].content);
      BroughtSame(cfg, s, s1.(cache := m), path, offset, size, c.miss.window);
      MissKeepsInv(cfg, s1.(cache := m), path, offset, size, CachedBytes(cfg, hit, offset, size), c.miss, p);
    }
  }

  lemma BroughtSame(cfg: FsConfig, s: FsState, s': FsState, path: Path, offset: nat, size: nat, now: nat)
    requires s.tree == s'.tree && s.window == s'.window
    ensures Brought(cfg, s, path, offset, size, now) == Brought(cfg, s', path, offset, size, now)
  {
  }

  lemma GetKeepsTail(cfg: FsConfig, m: Entries, key: Path, now: nat, p: Path, truth: seq<byte>)
    requires EntryTail(cfg, m, p, truth)
    ensures EntryTail(cfg, CacheGet(cfg, m, key, now).0, p, truth)
  {
    hide TailOf;
  }

  lemma MissKeepsInv(cfg: FsConfig, s: FsState, path: Path, offset: nat, size: nat, cachedBytes: seq<byte>,
                     c: MissChoice, p: Path)
    requires AppendInv(cfg, s, p)
    requires var data := Brought(cfg, s, path, offset, size, c.window);
             path == p ==> BringsPages(cfg, p, s.tree[p].content, offset, data, c)
    ensures AppendInv(cfg, ReadMiss(cfg, s, path, offset, size, cachedBytes, c).0, p)
  {
    hide EntryTail, BringsPages, WindowRead, Put, ChunkItem;
    var truth, data := s.tree[p].content, Brought(cfg, s, path, offset, size, c.window);
    if cachedBytes == [] && path != [] {
      if path == p {
        PutRead(cfg, s.cache, offset, data, c, p, truth);
      } else {
        PutElsewhere(cfg, s.cache, path, ChunkItem(cfg, path, offset, data), false, c.put, p, truth);
      }
    }
  }

  lemma PutRead(cfg: FsConfig, m: Entries, offset: nat, data: seq<byte>, c: MissChoice, p: Path, truth: seq<byte>)
    requires EntryTail(cfg, m, p, truth) && BringsPages(cfg, p, truth, offset, data, c)
    ensures EntryTail(cfg, CacheWrite(cfg, m, p, offset, data, false, c.put), p, truth)
  {
    hide Put, TailOf, PageMerge.Merge, WriteContent, IsOrder, Aligned;
    var item, lim := ChunkItem(cfg, p, offset, data), cfg.cache.limits;
    if cfg.cached && p != [] && p in Put(cfg.cache, m, p, item, false, c.put) {
      PutMeaning(cfg.cache, m, p, item, false, c.put, p);
      EmptyIsTail(lim, truth);
      ReadChunk(map[], lim, truth, offset, data, c.put.order);
      if p in m && m[p].item.FileItem? {
        ReadChunk(m[p].item.pages, lim, truth, offset, data, c.put.order);
      }
    }
  }

  lemma LookupKeepsTail(cfg: FsConfig, m: Entries, dir: Path, names: seq<Name>, nows: seq<nat>, p: Path,
                        truth: seq<byte>)
    requires |nows| == |names| && EntryTail(cfg, m, p, truth)
    ensures EntryTail(cfg, LookupChildren(cfg, m, dir, names, nows).0, p, truth)
    decreases |names|
  {
    hide EntryTail, CacheGet;
    if names != [] {
      GetKeepsTail(cfg, m, dir + [names[0]], nows[0], p, truth);
      LookupKeepsTail(cfg, CacheGet(cfg, m, dir + [names[0]], nows[0]).0, dir, names[1..], nows[1..], p, truth);
    }
  }

  lemma PutNoPages(cfg: FsConfig, m: Entries, key: Path, item: CacheItem, c: Choice, p: Path, truth: seq<byte>)
    requires EntryTail(cfg, m, p, truth) && (item.FileItem? ==> item.pages == map[])
    ensures EntryTail(cfg, CachePut(cfg, m, key, item, false, c), p, truth)
  {
    hide EntryTail, CachePut;
    if key == p {
      PutBlank(cfg, m, item, c, p, truth);
    } else {
      PutElsewhere(cfg, m, key, item, false, c, p, truth);
    }
  }

  lemma {:induction false} PutChildrenKeepTail(cfg: FsConfig, m: Entries, dir: Path, items: seq<ListItem>,
                                               cs: seq<Choice>, p: Path, truth: seq<byte>)
    requires |cs| == |items| && EntryTail(cfg, m, p, truth)
    ensures EntryTail(cfg, PutChildren(cfg, m, dir, items, cs), p, truth)
    decreases |items|
  {
    hide EntryTail, CachePut;
    if items != [] {
      var key, item := dir + [items[0].name], AttrItem(items[0].name, items[0].attributes);
      PutNoPages(cfg, m, key, item, cs[0], p, truth);
      PutChildrenKeepTail(cfg, CachePut(cfg, m, key, item, false, cs[0]), dir, items[1..], cs[1..], p, truth);
    }
  }

  lemma DotsKeepInv(cfg: FsConfig, s: FsState, path: Path, items: seq<ListItem>, self: AttrChoice, up: AttrChoice,
                    p: Path)
    requires AppendInv(cfg, s, p)
    ensures AppendInv(cfg, WithDots(cfg, s, path, items, self, up).0, p)
  {
    hide GetAttributes, AppendInv;
    GetAttributesKeepsInv(cfg, s, path, self, p);
    GetAttributesKeepsInv(cfg, GetAttributes(cfg, s, path, self).0, ParentOrRoot(path), up, p);
  }

  lemma ReaddirKeepsInv(cfg: FsConfig, s: FsState, path: Path, c: ReaddirChoice, p: Path)
    requires AppendInv(cfg, s, p) && |c.puts| == |c.listing|
    ensures AppendInv(cfg, Readdir(cfg, s, path, c).0, p)
  {
    hide GetAttributes, WithDots, CacheGet, LookupChildren, CachePut, PutChildren, EntryTail;
    var truth := s.tree[p].content;
    var (m, hit) := CacheGet(cfg, s.cache, path, c.get);
    GetKeepsTail(cfg, s.cache, path, c.get, p, truth);
    var (m1, items) := CachedListing(cfg, m, path, hit, c.children);
    if hit.Some? && hit.value.DirectoryItem? && hit.value.children.Some? && |c.children| == |hit.value.children.value| {
      LookupKeepsTail(cfg, m, path, hit.value.children.value, c.children, p, truth);
    }
    var s1 := s.(cache := m1);
    if items.Some? {
      DotsKeepInv(cfg, s1, path, items.value, c.dot, c.dotdot, p);
    } else if path in s.tree && s.tree[path].Dir? {
      GetAttributesKeepsInv(cfg, s1, path, c.self, p);
      AttributesKeep(cfg, s1, path, c.self);
      var (s2, attr) := GetAttributes(cfg, s1, path, c.self);
      if attr.Ok? {
        var dir := DirectoryItem(LastName(path), Some(attr.value), Some(c.listing));
        var all := ServerItems(s.tree, path, c.listing);
        var m2 := CachePut(cfg, s2.cache, path, dir, false, c.put);
        PutNoPages(cfg, s2.cache, path, dir, c.put, p, truth);
        PutChildrenKeepTail(cfg, m2, path, all, c.puts, p, truth);
        DotsKeepInv(cfg, s2.(cache := PutChildren(cfg, m2, path, all, c.puts)), path, all, c.dot, c.dotdot, p);
      }
    }
  }

  lemma PutNewElsewhere(cfg: FsConfig, m: Entries, key: Path, item: CacheItem, c: Choice, p: Path, truth: seq<byte>)
    requires EntryTail(cfg, m, p, truth) && key != p
    ensures EntryTail(cfg, CachePutNew(cfg, m, key, item, c), p, truth)
  {
    hide TailOf, Ancestors;
  }

  /** Creating, resizing and removing other files, and what other clients do to them. */
  lemma OthersKeepInv(cfg: FsConfig, s: FsState, op: Op, p: Path)
    requires AppendInv(cfg, s, p) && AppendOp(cfg, s, op, p)
    requires op.CreateOp? || op.MkdirOp? || op.SymlinkOp? || op.SetSizeOp? || op.RemoveOp? || op.ServerOp?
    ensures AppendInv(cfg, Step(cfg, s, op), p)
  {
    hide EntryTail, CachePutNew, Put, Ancestors, WriteAt;
    var truth := s.tree[p].content;
    match op
    case CreateOp(path, offset, data, c) =>
      var s' := CreateFile(cfg, s, path, offset, data, c).0;
      if s' != s {
        var a := Storage.AttrOf(s'.tree[path]);
        PutNewElsewhere(cfg, s.cache, path, FileItem(LastName(path), Some(a), map[]), c, p, truth);
      }
    case MkdirOp(path, c) =>
      if path != p {
        var a := Storage.AttrOf(Storage.Dir);
        PutNewElsewhere(cfg, s.cache, path, DirectoryItem(LastName(path), Some(a), Some([])), c, p, truth);
      }
    case SymlinkOp(path, target, c) =>
      if path != p {
        var a := Storage.AttrOf(Storage.Link(target));
        PutNewElsewhere(cfg, s.cache, path, SymlinkItem(LastName(path), Some(a), Some(target)), c, p, truth);
      }
    case SetSizeOp(path, size, c) =>
      var r := Storage.SetSize(s.tree, path, size);
      if r.Ok? {
        PutNoPages(cfg, s.cache, path, AttrItem(LastName(path), Storage.AttrOf(r.value[path])), c, p, truth);
      }
    case RemoveOp(path) =>
      DropKeepsTail(cfg, s.cache, {path}, p, truth);
      DropKeepsTail(cfg, s.cache - {path}, Ancestors(path), p, truth);
    case ServerOp(_) =>
  }

  lemma DropKeepsTail(cfg: FsConfig, m: Entries, keys: set<Path>, p: Path, truth: seq<byte>)
    requires EntryTail(cfg, m, p, truth)
    ensures EntryTail(cfg, m - keys, p, truth)
  {
    hide TailOf;
  }

  // ---- whole runs ----

  /** The bytes that a miss puts into the cache are whole pages, or pages up to the end of the file. */
  ghost predicate BringsPages(cfg: FsConfig, p: Path, truth: seq<byte>, offset: nat, data: seq<byte>, c: MissChoice) {
    && (data != [] ==> Aligned(cfg.cache.limits.pageSize, truth, offset, data))
    && OrderOk(ChunkItem(cfg, p, offset, data), c.put)
  }

  ghost predicate WholePages(cfg: FsConfig, s: FsState, p: Path, offset: nat, size: nat, c: ReadChoice) {
    BringsPages(cfg, p, Storage.Content(s.tree, p), offset, Brought(cfg, s, p, offset, size, c.miss.window), c.miss)
  }

  /** What the server answers at a page boundary are such pages, when the read buffer holds
      whole pages. */
  lemma ServerBringsPages(cfg: FsConfig, s: FsState, p: Path, offset: nat, size: nat, now: nat)
    requires p in s.tree && s.tree[p].File? && WindowRead(s.window, cfg.windowTtl, p, offset, size, now) == []
    requires var ps := cfg.cache.limits.pageSize; offset % ps == 0 && cfg.capacity > 0 && cfg.capacity % ps == 0
    ensures var data := Brought(cfg, s, p, offset, size, now);
            data != [] ==> Aligned(cfg.cache.limits.pageSize, s.tree[p].content, offset, data)
  {
    hide Aligned, WindowRead;
    var ps, truth := cfg.cache.limits.pageSize, s.tree[p].content;
    if offset < |truth| {
      RemoteReadAligned(ps, truth, offset, cfg.capacity, ps);
      assert Brought(cfg, s, p, offset, size, now) == truth[offset..Min(offset + cfg.capacity, |truth|)];
    }
  }

  /** Writes at the end of the file, reads of whole pages of it, every other call on any other
      path, and changes by other clients that leave the file alone. */
  ghost predicate AppendOp(cfg: FsConfig, s: FsState, op: Op, p: Path) {
    match op
    case WriteOp(path, offset, data, c) =>
      |s.pending.data| <= cfg.capacity ==> WriteOk(cfg, s, path, offset, data, c, p)
    case FlushOp(c) =>
      s.pending.data != [] ==> var u := UploadOf(s.pending); OrderOk(ChunkItem(cfg, u.path, u.offset, u.data), c)
    case ReadOp(path, offset, size, c) => path == p ==> WholePages(cfg, s, p, offset, size, c)
    case CreateOp(path, _, _, _) => path != p
    case SetSizeOp(path, _, _) => path != p
    case RemoveOp(path) => path != p
    case ServerOp(t) => p in t && p in s.tree && t[p] == s.tree[p]
    case _ => true
  }

  ghost predicate AppendRun(cfg: FsConfig, s: FsState, ops: seq<Op>, p: Path)
    decreases |ops|
  {
    ops == [] || (AppendOp(cfg, s, ops[0], p) && AppendRun(cfg, Step(cfg, s, ops[0]), ops[1..], p))
  }

  lemma StepKeepsInv(cfg: FsConfig, s: FsState, op: Op, p: Path)
    requires AppendInv(cfg, s, p) && AppendOp(cfg, s, op, p)
    ensures AppendInv(cfg, Step(cfg, s, op), p)
  {
    hide WriteFile, Flush, GetAttributes, ReadFile, Readdir, TailOf, WriteOk, OrderOk, ChunkItem, WholePages;
    match op
    case WriteOp(path, offset, data, c) => WriteKeepsInv(cfg, s, path, offset, data, c, p);
    case FlushOp(c) => FlushKeepsInv(cfg, s, c, p);
    case AttrOp(path, c) => GetAttributesKeepsInv(cfg, s, path, c, p);
    case ReadOp(path, offset, size, c) => ReadKeepsInv(cfg, s, path, offset, size, c, p);
    case ReaddirOp(path, c) =>
      if |c.puts| == |c.listing| {
        ReaddirKeepsInv(cfg, s, path, c, p);
      }
    case DropOp(_) =>
    case _ => OthersKeepInv(cfg, s, op, p);
  }

  lemma {:induction false} RunKeepsInv(cfg: FsConfig, s: FsState, ops: seq<Op>, p: Path)
    requires AppendInv(cfg, s, p) && AppendRun(cfg, s, ops, p)
    ensures AppendInv(cfg, Run(cfg, s, ops), p)
    decreases |ops|
  {
    hide Step, AppendOp, AppendInv;
    if ops != [] {
      StepKeepsInv(cfg, s, ops[0], p);
      RunKeepsInv(cfg, Step(cfg, s, ops[0]), ops[1..], p);
    }
  }

  lemma CreateStartsInv(cfg: FsConfig, s: FsState, p: Path, offset: nat, data: seq<byte>, c: Choice)
    requires PendingOk(cfg.capacity, s.pending) && s.pending.path != Some(p) && p !in s.tree && p != []
    ensures var (s', r) := CreateFile(cfg, s, p, offset, data, c); r.Ok? ==> AppendInv(cfg, s', p)
  {
    hide TailOf, Ancestors;
    if Storage.InDir(s.tree, p) {
      EmptyIsTail(cfg.cache.limits, WriteAt([], offset, data));
    }
  }

  /** A fresh file, created and then written only at its end, in any chunking and mixed with
      reads of whole pages of it, any calls on other paths, listings, flushes, lookups, evictions
      and expiries: every valid byte of its cached pages is the server's byte at that position. */
  lemma AppendOnlySound(cfg: FsConfig, s: FsState, p: Path, offset: nat, data: seq<byte>, c: Choice, ops: seq<Op>,
                        i: nat)
    requires PendingOk(cfg.capacity, s.pending) && s.pending.path != Some(p) && p !in s.tree && p != [] && cfg.cached
    requires var (s0, r) := CreateFile(cfg, s, p, offset, data, c); r.Ok? && AppendRun(cfg, s0, ops, p)
    ensures var s' := Run(cfg, CreateFile(cfg, s, p, offset, data, c).0, ops);
            var truth, ps := Storage.Content(s'.tree, p), cfg.cache.limits.pageSize;
            p in s'.cache && s'.cache[p].item.FileItem? && ValidAt(s'.cache[p].item.pages, ps, i) ==>
              i < |truth| && ByteAt(s'.cache[p].item.pages, ps, i) == truth[i]
  {
    hide CreateFile, Run, AppendRun, ValidAt, ByteAt, PagesOk;
    CreateStartsInv(cfg, s, p, offset, data, c);
    RunKeepsInv(cfg, CreateFile(cfg, s, p, offset, data, c).0, ops, p);
  }
}
