/** The paged sparse file: what a page write, a content write and a read do to the pages,
    and what they mean for the single bytes. */
module PagedFile {
  import opened Bytes

  /** The global page size and page limit. */
  datatype Limits = Limits(pageSize: pos, maxPages: nat)

  datatype Page = Page(content: seq<byte>, validFrom: nat, validUpTo: nat)
  type Pages = map<nat, Page>

  function NewPage(ps: pos): Page {
    Page(Zeros(ps), ps, 0)
  }

  /** A page as every stored page must be: one non-empty valid interval, zeros around it. */
  ghost predicate PageOk(p: Page, ps: pos) {
    && |p.content| == ps
    && p.validFrom < p.validUpTo <= ps
    && forall i :: 0 <= i < ps && !(p.validFrom <= i < p.validUpTo) ==> p.content[i] == 0
  }

  ghost predicate PagesOk(f: Pages, ps: pos) {
    forall k :: k in f ==> PageOk(f[k], ps)
  }

  /** The whole invariant of a file's page map. */
  ghost predicate FileOk(f: Pages, lim: Limits) {
    PagesOk(f, lim.pageSize) && |f| <= lim.maxPages
  }

  /** Laying bytes over a page: the interval grows to the hull of old and new. */
  function PageWrite(p: Page, data: seq<byte>, offset: nat): Page {
    Page(WriteAt(p.content, offset, data), Min(p.validFrom, offset), Max(p.validUpTo, offset + |data|))
  }

  function PageRead(p: Page, offset: nat, size: nat): Option<seq<byte>>
    requires p.validUpTo <= |p.content|
  {
    var realEnd := Min(Min(offset + size, |p.content|), p.validUpTo);
    if offset < p.validFrom || offset > realEnd then None else Some(p.content[offset..realEnd])
  }

  // ---- the file as a sparse map from positions to bytes ----

  predicate ValidAt(f: Pages, ps: pos, i: nat) {
    i / ps in f && f[i / ps].validFrom <= i % ps < f[i / ps].validUpTo
  }

  function ByteAt(f: Pages, ps: pos, i: nat): byte {
    if i / ps in f && i % ps < |f[i / ps].content| then f[i / ps].content[i % ps] else 0
  }

  /** The abstraction: the sparse map from file positions to bytes that the pages stand for. */
  ghost function View(f: Pages, ps: pos): imap<nat, byte> {
    imap i: nat | ValidAt(f, ps, i) :: ByteAt(f, ps, i)
  }

  /** `r` is what the sparse map holds from `offset` on. */
  ghost predicate IsRun(v: imap<nat, byte>, offset: nat, r: seq<byte>) {
    forall i :: offset <= i < offset + |r| ==> i in v && r[i - offset] == v[i]
  }

  /** Reading byte by byte from the sparse map until `size` bytes or the first hole. */
  ghost function ReadRun(v: imap<nat, byte>, offset: nat, size: nat): (r: seq<byte>)
    ensures |r| <= size && IsRun(v, offset, r)
    ensures |r| < size ==> offset + |r| !in v
    decreases size
  {
    if size == 0 || offset !in v then [] else [v[offset]] + ReadRun(v, offset + 1, size - 1)
  }

  lemma ReadRunUnique(v: imap<nat, byte>, offset: nat, size: nat, r: seq<byte>)
    requires |r| <= size && (|r| < size ==> offset + |r| !in v) && IsRun(v, offset, r)
    ensures r == ReadRun(v, offset, size)
  {
    var q := ReadRun(v, offset, size);
    assert |r| < |q| ==> offset + |r| in v;
    assert |q| < |r| ==> offset + |q| in v;
    forall i | 0 <= i < |r| ensures r[i] == q[i] {
      assert r[i] == r[offset + i - offset] == v[offset + i];
    }
  }

  lemma RunJoin(v: imap<nat, byte>, offset: nat, a: seq<byte>, b: seq<byte>)
    requires IsRun(v, offset, a) && IsRun(v, offset + |a|, b)
    ensures IsRun(v, offset, a + b)
  {
    forall i | offset <= i < offset + |a + b| ensures i in v && (a + b)[i - offset] == v[i] {
      assert i >= offset + |a| ==> (a + b)[i - offset] == b[i - (offset + |a|)];
    }
  }

  // ---- writing ----

  function PageFor(f: Pages, ps: pos, k: nat): Page {
    if k in f then f[k] else NewPage(ps)
  }

  /** How many bytes of `data` fall into the page that holds `offset`. */
  function FirstPart(ps: pos, offset: nat, data: seq<byte>): (n: nat)
    ensures n <= |data| && offset % ps + n <= ps
    ensures data != [] ==> n > 0
    ensures n < |data| ==> offset % ps + n == ps
  {
    DivMod(offset, ps);
    Min(|data|, ps - offset % ps)
  }

  function WriteFirst(f: Pages, ps: pos, offset: nat, data: seq<byte>): Pages {
    f[offset / ps := PageWrite(PageFor(f, ps, offset / ps), data[..FirstPart(ps, offset, data)], offset % ps)]
  }

  /** A full page map refuses every further write, also into pages it already holds. */
  predicate Full(f: Pages, lim: Limits) {
    |f| >= lim.maxPages
  }

  lemma FullMeaning(f: Pages, lim: Limits)
    ensures Full(f, lim) <==> |f| >= lim.maxPages
  {
  }

  /** The page loop of a content write; a full page map stops it before every page. */
  function WriteContent(f: Pages, lim: Limits, offset: nat, data: seq<byte>): Pages
    decreases |data|
  {
    if data == [] || Full(f, lim) then f
    else
      var n := FirstPart(lim.pageSize, offset, data);
      WriteContent(WriteFirst(f, lim.pageSize, offset, data), lim, offset + n, data[n..])
  }

  /** How many bytes of `data` the page limit lets through. */
  function Accepted(f: Pages, lim: Limits, offset: nat, data: seq<byte>): (n: nat)
    ensures n <= |data|
    decreases |data|
  {
    if data == [] || Full(f, lim) then 0
    else
      var n := FirstPart(lim.pageSize, offset, data);
      n + Accepted(WriteFirst(f, lim.pageSize, offset, data), lim, offset + n, data[n..])
  }

  lemma WriteContentUnfold(f: Pages, lim: Limits, offset: nat, data: seq<byte>)
    requires data != [] && !Full(f, lim)
    ensures var n := FirstPart(lim.pageSize, offset, data);
            var f1 := WriteFirst(f, lim.pageSize, offset, data);
            && WriteContent(f, lim, offset, data) == WriteContent(f1, lim, offset + n, data[n..])
            && Accepted(f, lim, offset, data) == n + Accepted(f1, lim, offset + n, data[n..])
  {
    hide WriteFirst, FirstPart, Full;
  }

  lemma WriteContentStops(f: Pages, lim: Limits, offset: nat, data: seq<byte>)
    requires data == [] || Full(f, lim)
    ensures Accepted(f, lim, offset, data) == 0 && WriteContent(f, lim, offset, data) == f
  {
  }

  /** Position `i` lies in a page that was already there, between its old interval and
      the part of [offset, offset + n) that falls into this page. */
  predicate InGap(f: Pages, ps: pos, offset: nat, n: nat, i: nat) {
    var k, r := i / ps, i % ps;
    0 < n && k in f &&
    (|| (i < offset && k == offset / ps && f[k].validUpTo <= r)
     || (offset + n <= i && k == (offset + n - 1) / ps && r < f[k].validFrom))
  }

  /** At position `i`, the pages `r` are `f` with `data` laid over it at `offset`: the new
      bytes are valid, gaps inside touched pages have become zero, all else is as before. */
  predicate LaidOver(f: Pages, r: Pages, ps: pos, offset: nat, data: seq<byte>, i: nat) {
    && (ValidAt(r, ps, i) <==>
        ValidAt(f, ps, i) || offset <= i < offset + |data| || InGap(f, ps, offset, |data|, i))
    && (ValidAt(r, ps, i) ==>
          ByteAt(r, ps, i) == if offset <= i < offset + |data| then data[i - offset]
                              else if ValidAt(f, ps, i) then ByteAt(f, ps, i) else 0)
  }

  /** Where position `i` lies relative to a write that stays inside one page. */
  lemma InOnePage(ps: pos, offset: nat, n: nat, i: nat)
    requires 0 < n && offset % ps + n <= ps
    ensures offset <= i < offset + n <==>
            i / ps == offset / ps && offset % ps <= i % ps < offset % ps + n
    ensures (offset + n - 1) / ps == offset / ps
  {
    InPage(offset, n - 1, ps);
    if i / ps == offset / ps {
      SamePage(i, offset, ps);
    } else if offset <= i < offset + n {
      DivMono(offset, i, ps);
      DivMono(i, offset + n - 1, ps);
    }
  }

  lemma GapInOnePage(f: Pages, ps: pos, offset: nat, n: nat, i: nat)
    requires 0 < n && offset % ps + n <= ps
    ensures InGap(f, ps, offset, n, i) <==>
            var k, r := i / ps, i % ps;
            k == offset / ps && k in f &&
            (f[k].validUpTo <= r < offset % ps || offset % ps + n <= r < f[k].validFrom)
  {
    InOnePage(ps, offset, n, i);
    if i / ps == offset / ps {
      SamePage(i, offset, ps);
    }
  }

  lemma PageWriteMeaning(p: Page, ps: pos, data: seq<byte>, offset: nat, r: nat)
    requires PageOk(p, ps) || p == NewPage(ps)
    requires data != [] && offset + |data| <= ps && r < ps
    ensures var q := PageWrite(p, data, offset);
            && PageOk(q, ps)
            && (q.validFrom <= r < q.validUpTo <==>
                p.validFrom <= r < p.validUpTo || offset <= r < offset + |data| ||
                (p != NewPage(ps) && (p.validUpTo <= r < offset || offset + |data| <= r < p.validFrom)))
            && q.content[r] == if offset <= r < offset + |data| then data[r - offset] else p.content[r]
  {
  }

  lemma WriteFirstOk(f: Pages, ps: pos, offset: nat, data: seq<byte>)
    requires PagesOk(f, ps) && data != []
    ensures PagesOk(WriteFirst(f, ps, offset, data), ps)
  {
    DivMod(offset, ps);
    PageWriteMeaning(PageFor(f, ps, offset / ps), ps, data[..FirstPart(ps, offset, data)], offset % ps, 0);
    hide PageOk, PageWrite;
  }

  lemma WriteFirstElsewhere(f: Pages, ps: pos, offset: nat, data: seq<byte>)
    ensures var r := WriteFirst(f, ps, offset, data);
            && r.Keys == f.Keys + {offset / ps}
            && forall k :: k != offset / ps ==> (k in r <==> k in f) && (k in f ==> r[k] == f[k])
  {
  }

  lemma WriteFirstMeaning(f: Pages, ps: pos, offset: nat, data: seq<byte>, i: nat)
    requires PagesOk(f, ps) && data != []
    ensures LaidOver(f, WriteFirst(f, ps, offset, data), ps, offset, data[..FirstPart(ps, offset, data)], i)
  {
    var n := FirstPart(ps, offset, data);
    InOnePage(ps, offset, n, i);
    GapInOnePage(f, ps, offset, n, i);
    if i / ps == offset / ps {
      DivMod(i, ps);
      DivMod(offset, ps);
      SamePage(i, offset, ps);
      PageWriteMeaning(PageFor(f, ps, offset / ps), ps, data[..n], offset % ps, i % ps);
    }
  }

  lemma GapSplit(f: Pages, f1: Pages, ps: pos, offset: nat, n: nat, m: nat, i: nat)
    requires 0 < n && 0 < m && offset % ps + n == ps
    requires forall k :: k != offset / ps ==> (k in f <==> k in f1) && (k in f ==> f[k] == f1[k])
    ensures InGap(f, ps, offset, n + m, i) <==> InGap(f, ps, offset, n, i) || InGap(f1, ps, offset + n, m, i)
  {
    NextPage(offset, n, ps);
    InPage(offset, n - 1, ps);
    DivMono(offset + n, offset + n + m - 1, ps);
    if i / ps == offset / ps {
      SamePage(i, offset, ps);
    } else if i / ps == (offset + n) / ps {
      SamePage(i, offset + n, ps);
    }
  }

  lemma LaidOverJoin(f: Pages, f1: Pages, r: Pages, ps: pos, offset: nat, d1: seq<byte>, d2: seq<byte>, i: nat)
    requires d1 != [] && offset % ps + |d1| <= ps && (d2 == [] || offset % ps + |d1| == ps)
    requires forall k :: k != offset / ps ==> (k in f <==> k in f1) && (k in f ==> f[k] == f1[k])
    requires LaidOver(f, f1, ps, offset, d1, i) && LaidOver(f1, r, ps, offset + |d1|, d2, i)
    ensures LaidOver(f, r, ps, offset, d1 + d2, i)
  {
    if d2 == [] {
      assert d1 + d2 == d1;
      assert !InGap(f1, ps, offset + |d1|, 0, i);
    } else {
      GapSplit(f, f1, ps, offset, |d1|, |d2|, i);
    }
  }

  lemma LaidOverNothing(f: Pages, ps: pos, offset: nat, i: nat)
    ensures LaidOver(f, f, ps, offset, [], i)
  {
  }

  /** What a content write means, byte by byte: the prefix that the page limit lets through
      is laid over the old bytes. */
  lemma {:induction false} WriteContentMeaning(f: Pages, lim: Limits, offset: nat, data: seq<byte>, i: nat)
    requires PagesOk(f, lim.pageSize)
    ensures PagesOk(WriteContent(f, lim, offset, data), lim.pageSize)
    ensures LaidOver(f, WriteContent(f, lim, offset, data), lim.pageSize, offset,
                     data[..Accepted(f, lim, offset, data)], i)
    decreases |data|
  {
    hide WriteContent, Accepted, WriteFirst, FirstPart, LaidOver, PagesOk, Full;
    if data == [] || Full(f, lim) {
      WriteContentStops(f, lim, offset, data);
      assert data[..0] == [];
      LaidOverNothing(f, lim.pageSize, offset, i);
      return;
    }
    var ps := lim.pageSize;
    var n := FirstPart(ps, offset, data);
    var f1 := WriteFirst(f, ps, offset, data);
    WriteFirstOk(f, ps, offset, data);
    WriteFirstElsewhere(f, ps, offset, data);
    WriteFirstMeaning(f, ps, offset, data, i);
    WriteContentMeaning(f1, lim, offset + n, data[n..], i);
    WriteContentUnfold(f, lim, offset, data);
    var m := Accepted(f1, lim, offset + n, data[n..]);
    assert data[..n] + data[n..][..m] == data[..n + m];
    LaidOverJoin(f, f1, WriteContent(f1, lim, offset + n, data[n..]), ps, offset, data[..n], data[n..][..m], i);
  }

  // ---- the page-map invariant ----

  lemma WriteFirstKeepsOk(f: Pages, lim: Limits, offset: nat, data: seq<byte>)
    requires FileOk(f, lim) && data != [] && !Full(f, lim)
    ensures FileOk(WriteFirst(f, lim.pageSize, offset, data), lim)
  {
    hide PageOk, WriteFirst, FirstPart;
    WriteFirstOk(f, lim.pageSize, offset, data);
    WriteFirstElsewhere(f, lim.pageSize, offset, data);
    var f1 := WriteFirst(f, lim.pageSize, offset, data);
    assert |f1| == |f1.Keys| && |f| == |f.Keys|;
  }

  /** The page-map invariant survives every content write. */
  lemma {:induction false} WriteContentKeepsOk(f: Pages, lim: Limits, offset: nat, data: seq<byte>)
    requires FileOk(f, lim)
    ensures FileOk(WriteContent(f, lim, offset, data), lim)
    decreases |data|
  {
    hide WriteContent, WriteFirst, FirstPart, FileOk, Full;
    if data == [] || Full(f, lim) {
      WriteContentStops(f, lim, offset, data);
    } else {
      var n := FirstPart(lim.pageSize, offset, data);
      WriteContentUnfold(f, lim, offset, data);
      WriteFirstKeepsOk(f, lim, offset, data);
      WriteContentKeepsOk(WriteFirst(f, lim.pageSize, offset, data), lim, offset + n, data[n..]);
    }
  }

  // ---- when a write fits ----

  function Range(a: nat, b: nat): (r: set<nat>)
    ensures forall k :: k in r <==> a <= k < b
    decreases b - a
  {
    if a >= b then {} else {a} + Range(a + 1, b)
  }

  /** The pages that a write of `n` bytes gets to before its last page. */
  function PagesBeforeLast(ps: pos, offset: nat, n: nat): set<nat> {
    if n == 0 then {} else Range(offset / ps, (offset + n - 1) / ps)
  }

  lemma PagesBeforeLastStep(ps: pos, offset: nat, n: nat, total: nat)
    requires 0 < n <= total && offset % ps + n <= ps
    requires n < total ==> offset % ps + n == ps
    ensures PagesBeforeLast(ps, offset, total) ==
            if n == total then {} else {offset / ps} + PagesBeforeLast(ps, offset + n, total - n)
  {
    InPage(offset, n - 1, ps);
    if n < total {
      NextPage(offset, n, ps);
      DivMono(offset + n, offset + total - 1, ps);
    }
  }

  /** Before its last page, the old pages and the pages written so far are fewer than the limit. */
  predicate Fits(f: Pages, lim: Limits, offset: nat, n: nat) {
    n == 0 || RoomLeft(f.Keys + PagesBeforeLast(lim.pageSize, offset, n), lim)
  }

  predicate RoomLeft(keys: set<nat>, lim: Limits) {
    |keys| < lim.maxPages
  }

  lemma FullIffNoRoom(f: Pages, lim: Limits)
    ensures Full(f, lim) <==> !RoomLeft(f.Keys, lim)
  {
    assert |f| == |f.Keys|;
  }

  lemma SubsetSize<T>(a: set<T>, b: set<T>)
    requires a <= b
    ensures |a| <= |b|
  {
    assert b == a + (b - a);
  }

  lemma FitsStops(f: Pages, lim: Limits, offset: nat, n: nat)
    requires n == 0 || Full(f, lim)
    ensures Fits(f, lim, offset, n) <==> n == 0
  {
    hide PagesBeforeLast;
    SubsetSize(f.Keys, f.Keys + PagesBeforeLast(lim.pageSize, offset, n));
    assert |f| == |f.Keys|;
  }

  lemma FitsStep(f: Pages, lim: Limits, offset: nat, data: seq<byte>)
    requires data != [] && !Full(f, lim)
    ensures var n := FirstPart(lim.pageSize, offset, data);
            Fits(f, lim, offset, |data|) <==>
            Fits(WriteFirst(f, lim.pageSize, offset, data), lim, offset + n, |data| - n)
  {
    hide WriteFirst, PagesBeforeLast, FirstPart, Full, RoomLeft;
    var n := FirstPart(lim.pageSize, offset, data);
    FullIffNoRoom(f, lim);
    PagesBeforeLastStep(lim.pageSize, offset, n, |data|);
    WriteFirstElsewhere(f, lim.pageSize, offset, data);
    KeysJoin(f.Keys, offset / lim.pageSize, PagesBeforeLast(lim.pageSize, offset + n, |data| - n));
    assert f.Keys + {} == f.Keys;
  }

  lemma KeysJoin(keys: set<nat>, k: nat, more: set<nat>)
    ensures keys + ({k} + more) == (keys + {k}) + more
  {
  }

  /** The page limit lets a whole write through exactly if the write fits. */
  lemma {:induction false} WriteFitsIff(f: Pages, lim: Limits, offset: nat, data: seq<byte>)
    ensures Accepted(f, lim, offset, data) == |data| <==> Fits(f, lim, offset, |data|)
    decreases |data|
  {
    hide Fits, WriteFirst, Accepted, WriteContent, FirstPart, Full;
    if data == [] || Full(f, lim) {
      WriteContentStops(f, lim, offset, data);
      FitsStops(f, lim, offset, |data|);
    } else {
      var n := FirstPart(lim.pageSize, offset, data);
      WriteContentUnfold(f, lim, offset, data);
      FitsStep(f, lim, offset, data);
      WriteFitsIff(WriteFirst(f, lim.pageSize, offset, data), lim, offset + n, data[n..]);
    }
  }

  // ---- when a page write may be trusted ----

  /** Every byte the page calls valid is the byte of `truth`. */
  ghost predicate PageAgrees(p: Page, truth: seq<byte>) {
    p.validUpTo <= |p.content| == |truth| && forall r :: p.validFrom <= r < p.validUpTo ==> p.content[r] == truth[r]
  }

  /** Laying true bytes over a true page gives a true page, whatever the bytes of the truth
      are, exactly if the write overlaps or touches the page's old interval: otherwise the
      gap in between is taken for valid although nobody has seen its bytes. */
  lemma PageWriteTrueIff(p: Page, ps: pos, data: seq<byte>, offset: nat)
    requires PageOk(p, ps) && data != [] && offset + |data| <= ps
    ensures (forall truth :: PageAgrees(p, truth) && truth[offset..offset + |data|] == data
                             ==> PageAgrees(PageWrite(p, data, offset), truth))
       <==> offset <= p.validUpTo && p.validFrom <= offset + |data|
  {
    var q := PageWrite(p, data, offset);
    if offset <= p.validUpTo && p.validFrom <= offset + |data| {
      forall truth | PageAgrees(p, truth) && truth[offset..offset + |data|] == data
        ensures PageAgrees(q, truth)
      {
        assert forall r :: offset <= r < offset + |data| ==> truth[r] == truth[offset..offset + |data|][r - offset];
      }
    } else {
      var gap := if offset > p.validUpTo then p.validUpTo else offset + |data|;
      var truth := q.content[gap := 1];
      assert truth[offset..offset + |data|] == data;
      assert PageAgrees(p, truth);
      assert q.content[gap] == 0;
      assert !PageAgrees(q, truth);
    }
  }
}
