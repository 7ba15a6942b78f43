/** When a cached file is still true after bytes were uploaded and merged into it: two ways in
    which it can become false, each with its exact condition. */
module StaleBytes {
  import opened Bytes
  import opened PagedFile
  import opened PageMerge
  import opened AppendOnly

  /** Position `i` lies in a page of both files, between their two valid intervals. */
  predicate Apart(f: Pages, g: Pages, ps: pos, i: nat) {
    var k, r := i / ps, i % ps;
    k in f && k in g && (f[k].validUpTo <= r < g[k].validFrom || g[k].validUpTo <= r < f[k].validFrom)
  }

  lemma OverAnywhere(p: Page, q: Page, ps: pos, r: nat)
    requires PageOk(p, ps) && PageOk(q, ps) && r < ps
    ensures var o := PageOver(p, q);
            var inP, inQ := p.validFrom <= r < p.validUpTo, q.validFrom <= r < q.validUpTo;
            && |o.content| == ps
            && (o.validFrom <= r < o.validUpTo <==>
                inP || inQ || p.validUpTo <= r < q.validFrom || q.validUpTo <= r < p.validFrom)
            && (o.validFrom <= r < o.validUpTo ==>
                  o.content[r] == if inQ then q.content[r] else if inP then p.content[r] else 0)
  {
    ValidBytesFit(q, ps);
    PageWriteMeaning(p, ps, ValidBytes(q), q.validFrom, r);
  }

  lemma OverlayAnywhere(f: Pages, g: Pages, ps: pos, i: nat)
    requires PagesOk(f, ps) && PagesOk(g, ps)
    ensures var r := Overlay(f, g, g.Keys);
            && (ValidAt(r, ps, i) <==> ValidAt(f, ps, i) || ValidAt(g, ps, i) || Apart(f, g, ps, i))
            && (ValidAt(r, ps, i) ==>
                  ByteAt(r, ps, i) == if ValidAt(g, ps, i) then ByteAt(g, ps, i)
                                      else if ValidAt(f, ps, i) then ByteAt(f, ps, i) else 0)
  {
    hide PageOver, PageOk;
    var k := i / ps;
    DivMod(i, ps);
    if k in f && k in g {
      OverAnywhere(f[k], g[k], ps, i % ps);
      PageSizes(f[k], ps);
      PageSizes(g[k], ps);
    }
  }

  /** A chunk that is uploaded and merged with room for all its pages: the cached file stays
      true exactly if the server holds zeros wherever the chunk and the cached bytes of a page
      lie apart. */
  lemma MergedChunkIff(f: Pages, lim: Limits, truth: seq<byte>, offset: nat, data: seq<byte>, order: seq<nat>)
    requires Truthful(f, lim.pageSize, truth)
    requires var g := WriteContent(map[], lim, offset, data);
             IsOrder(order, g.Keys) && |f.Keys + g.Keys| < lim.maxPages
    ensures var g, after := WriteContent(map[], lim, offset, data), WriteAt(truth, offset, data);
            Truthful(PageMerge.Merge(f, g, lim, order), lim.pageSize, after) <==>
            forall i: nat :: Apart(f, g, lim.pageSize, i) ==> i < |after| && after[i] == 0
  {
    hide WriteContent, Accepted, PageMerge.Merge, Overlay, PagesOk, ValidAt, ByteAt, Full, IsOrder, Apart, Span;
    var g, after := WriteContent(map[], lim, offset, data), WriteAt(truth, offset, data);
    var ps := lim.pageSize;
    ChunkWhole(f, lim, offset, data);
    MergeAll(f, g, lim, order);
    var r := PageMerge.Merge(f, g, lim, order);
    forall i: nat
      ensures ValidAt(r, ps, i) && !Apart(f, g, ps, i) ==> i < |after| && ByteAt(r, ps, i) == after[i]
      ensures Apart(f, g, ps, i) ==> ValidAt(r, ps, i) && ByteAt(r, ps, i) == 0
    {
      OverlayAnywhere(f, g, ps, i);
      SpanAt(g, ps, offset, offset + |data|, i);
      ApartIsNeither(f, g, ps, i);
    }
  }

  /** What the client can check before the upload: merging the chunk keeps the cached file true,
      whatever the server holds that agrees with it, exactly if the chunk and the cached bytes
      lie apart in no page. */
  lemma MergedChunkSafeIff(f: Pages, lim: Limits, known: seq<byte>, offset: nat, data: seq<byte>, order: seq<nat>)
    requires Truthful(f, lim.pageSize, known)
    requires var g := WriteContent(map[], lim, offset, data);
             IsOrder(order, g.Keys) && |f.Keys + g.Keys| < lim.maxPages
    ensures var g := WriteContent(map[], lim, offset, data);
            (forall truth :: Truthful(f, lim.pageSize, truth) ==>
                               Truthful(PageMerge.Merge(f, g, lim, order), lim.pageSize,
                                        WriteAt(truth, offset, data))) <==>
            (forall i: nat :: !Apart(f, g, lim.pageSize, i))
  {
    hide WriteContent, PageMerge.Merge, PagesOk, ValidAt, ByteAt, IsOrder, Apart, WriteAt, Truthful, Span;
    var g, ps := WriteContent(map[], lim, offset, data), lim.pageSize;
    if i: nat :| Apart(f, g, ps, i) {
      var truth := WriteAt(known, i, [1]);
      OneByteMore(f, g, lim, known, offset, data, i);
      MergedChunkIff(f, lim, truth, offset, data, order);
    } else {
      forall truth | Truthful(f, ps, truth)
        ensures Truthful(PageMerge.Merge(f, g, lim, order), ps, WriteAt(truth, offset, data))
      {
        MergedChunkIff(f, lim, truth, offset, data, order);
      }
    }
  }

  /** A server that holds a one where the chunk and the cached bytes lie apart. */
  lemma OneByteMore(f: Pages, g: Pages, lim: Limits, known: seq<byte>, offset: nat, data: seq<byte>, i: nat)
    requires Truthful(f, lim.pageSize, known) && g == WriteContent(map[], lim, offset, data)
    requires |f.Keys + g.Keys| < lim.maxPages && Apart(f, g, lim.pageSize, i)
    ensures var truth := WriteAt(known, i, [1]);
            && Truthful(f, lim.pageSize, truth)
            && i < |WriteAt(truth, offset, data)| && WriteAt(truth, offset, data)[i] == 1
  {
    hide WriteContent, PagesOk, ValidAt, ByteAt, Apart, Span, Truthful, WriteAt;
    ChunkWhole(f, lim, offset, data);
    TruthfulOk(f, lim.pageSize, known);
    ApartIsNeither(f, g, lim.pageSize, i);
    SpanAt(g, lim.pageSize, offset, offset + |data|, i);
    OneUnseen(f, lim.pageSize, known, i);
  }

  lemma TruthfulOk(f: Pages, ps: pos, truth: seq<byte>)
    requires Truthful(f, ps, truth)
    ensures PagesOk(f, ps)
  {
  }

  /** Changing a byte that the cached file does not know. */
  lemma OneUnseen(f: Pages, ps: pos, truth: seq<byte>, i: nat)
    requires Truthful(f, ps, truth) && !ValidAt(f, ps, i)
    ensures Truthful(f, ps, WriteAt(truth, i, [1]))
  {
    hide PagesOk, ValidAt, ByteAt, WriteAt;
  }

  lemma ApartIsNeither(f: Pages, g: Pages, ps: pos, i: nat)
    requires PagesOk(f, ps) && PagesOk(g, ps)
    ensures Apart(f, g, ps, i) ==> !ValidAt(f, ps, i) && !ValidAt(g, ps, i)
  {
  }

  lemma ChunkWhole(f: Pages, lim: Limits, offset: nat, data: seq<byte>)
    requires |f.Keys + WriteContent(map[], lim, offset, data).Keys| < lim.maxPages
    ensures var g := WriteContent(map[], lim, offset, data);
            && PagesOk(g, lim.pageSize)
            && Span(g, lim.pageSize, offset, offset + |data|)
            && forall i: nat :: ValidAt(g, lim.pageSize, i) ==> ByteAt(g, lim.pageSize, i) == data[i - offset]
  {
    hide WriteContent, Accepted, PagesOk, ValidAt, ByteAt;
    var g := WriteContent(map[], lim, offset, data);
    ChunkSpan(lim, offset, data);
    SubsetSize(g.Keys, f.Keys + g.Keys);
    assert |g| == |g.Keys|;
  }

  /** A full page map takes nothing of the chunk: the cached file stays true exactly if the
      chunk changes none of its bytes. */
  lemma FullMapIff(f: Pages, lim: Limits, truth: seq<byte>, offset: nat, data: seq<byte>, order: seq<nat>)
    requires Truthful(f, lim.pageSize, truth) && Full(f, lim)
    ensures var g, after := WriteContent(map[], lim, offset, data), WriteAt(truth, offset, data);
            Truthful(PageMerge.Merge(f, g, lim, order), lim.pageSize, after) <==>
            forall i: nat :: ValidAt(f, lim.pageSize, i) && offset <= i < offset + |data| ==>
              truth[i] == data[i - offset]
  {
    hide WriteContent, PageMerge.Merge, PagesOk, ValidAt, ByteAt, Full;
    MergeStops(f, WriteContent(map[], lim, offset, data), lim, order);
  }
}
