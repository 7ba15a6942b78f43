/** The cached file as the client keeps it: pages in arrays that are overwritten in place. */
module CachedFile {
  import opened Bytes
  import opened PagedFile
  import opened PageMerge

  /** The keys of a hash map in the order of its iterator, which nothing promises. */
  method HashOrder(keys: set<nat>) returns (order: seq<nat>)
    ensures IsOrder(order, keys) && forall i :: 0 <= i < |order| ==> order[i] in keys
  {
    hide IsOrder;
    order := [];
    var left := keys;
    ghost var done: set<nat> := {};
    NothingOrdered();
    while left != {}
      invariant done !! left && done + left == keys && IsOrder(order, done)
      decreases |left|
    {
      var k :| k in left;
      assert done + {k} - {k} == done;
      OrderWithLast(order, done + {k}, k);
      order, left, done := order + [k], left - {k}, done + {k};
    }
    OrderInside(order, keys);
  }

  lemma NothingOrdered()
    ensures IsOrder([], {})
  {
  }

  lemma OrderInside(order: seq<nat>, keys: set<nat>)
    requires IsOrder(order, keys)
    ensures forall i :: 0 <= i < |order| ==> order[i] in keys
  {
    assert forall i :: 0 <= i < |order| ==> order[i] in Elements(order);
  }

  class FilePage {
    const content: array<byte>
    var validUpTo: nat
    var validFrom: nat

    ghost function Value(): Page
      reads this, content
    {
      Page(content[..], validFrom, validUpTo)
    }

    constructor (pageSize: pos)
      ensures fresh(content) && content.Length == pageSize
      ensures Value() == NewPage(pageSize)
    {
      content := new byte[pageSize](_ => 0);
      validUpTo := 0;
      validFrom := pageSize;
    }

    constructor Copy(page: Page)
      ensures fresh(content) && content.Length == |page.content| && Value() == page
    {
      content := new byte[|page.content|](i requires 0 <= i < |page.content| => page.content[i]);
      validUpTo := page.validUpTo;
      validFrom := page.validFrom;
    }

    /** A write that starts in the page must end in it; one that starts behind it is dropped. */
    method Write(data: seq<byte>, offset: nat)
      requires offset + |data| <= content.Length || offset > content.Length
      modifies this, content
      ensures Value() == if offset > content.Length then old(Value()) else PageWrite(old(Value()), data, offset)
    {
      var realEnd := Min(offset + |data|, content.Length);
      if offset > realEnd {
        return;
      }
      forall i | 0 <= i < |data| {
        content[offset + i] := data[i];
      }
      validUpTo := Max(validUpTo, realEnd);
      validFrom := Min(validFrom, offset);
      assert content[..] == WriteAt(old(content[..]), offset, data);
    }

    method Read(offset: nat, size: nat) returns (r: Option<seq<byte>>)
      requires validUpTo <= content.Length
      ensures r == PageRead(Value(), offset, size)
    {
      var realEnd := Min(Min(offset + size, content.Length), validUpTo);
      if offset < validFrom {
        return None;
      }
      if offset > realEnd {
        return None;
      }
      r := Some(content[offset..realEnd]);
    }
  }

  class File {
    const lim: Limits
    var attributes: Option<Attributes>
    var content: map<nat, FilePage>
    ghost var Repr: set<object>

    /** Every page is the file's own and no two pages share their bytes. */
    ghost predicate Separate()
      reads this, Repr
    {
      && this in Repr
      && (forall k :: k in content ==> content[k] in Repr && content[k].content in Repr)
      && (forall k :: k in content ==> content[k].content.Length == lim.pageSize)
      && (forall j, k :: j in content && k in content && j != k ==>
                           content[j] != content[k] && content[j].content != content[k].content)
    }

    ghost function Pages(): Pages
      reads this, Repr
      requires Separate()
    {
      map k | k in content :: content[k].Value()
    }

    ghost predicate Valid()
      reads this, Repr
    {
      Separate() && FileOk(Pages(), lim)
    }

    constructor (lim: Limits, attributes: Option<Attributes>)
      ensures Valid() && fresh(Repr)
      ensures this.lim == lim && this.attributes == attributes && Pages() == map[]
    {
      this.lim := lim;
      this.attributes := attributes;
      content := map[];
      Repr := {this};
    }

    /** A copy of stored pages, as a cache hit hands it out. */
    constructor Copy(lim: Limits, attributes: Option<Attributes>, pages: Pages)
      requires FileOk(pages, lim)
      ensures Valid() && fresh(Repr)
      ensures this.lim == lim && this.attributes == attributes && Pages() == pages
    {
      this.lim := lim;
      this.attributes := attributes;
      content := map[];
      Repr := {this};
      new;
      AddPages(pages);
    }

    method AddPages(pages: Pages)
      requires Separate() && content == map[] && FileOk(pages, lim)
      modifies this
      ensures Separate() && fresh(Repr - old(Repr)) && Pages() == pages
      ensures attributes == old(attributes)
    {
      hide FileOk, Without;
      var left := pages.Keys;
      WithoutAll(pages);
      while left != {}
        invariant left <= pages.Keys
        invariant Separate() && fresh(Repr - old(Repr)) && attributes == old(attributes)
        invariant Pages() == Without(pages, left)
        decreases |left|
      {
        var k :| k in left;
        PageSize(pages, lim, k);
        WithoutOne(pages, left, k);
        AddPage(k, pages[k]);
        left := left - {k};
      }
    }

    static lemma PageSize(pages: Pages, lim: Limits, k: nat)
      requires FileOk(pages, lim) && k in pages
      ensures |pages[k].content| == lim.pageSize
    {
      assert PageOk(pages[k], lim.pageSize);
    }

    method AddPage(k: nat, page: Page)
      requires Separate() && k !in Pages() && |page.content| == lim.pageSize
      modifies this
      ensures Separate() && fresh(Repr - old(Repr)) && attributes == old(attributes)
      ensures Pages() == old(Pages())[k := page]
    {
      var p := new FilePage.Copy(page);
      InsertPage(k, p);
    }

    method InsertPage(k: nat, page: FilePage)
      requires Separate() && k !in Pages() && page.content.Length == lim.pageSize
      requires page !in Repr && page.content !in Repr
      modifies this
      ensures Separate() && Repr == old(Repr) + {page, page.content} && attributes == old(attributes)
      ensures content == old(content)[k := page] && Pages() == old(Pages())[k := page.Value()]
    {
      content := content[k := page];
      Repr := Repr + {page, page.content};
    }

    /** The pages as a value, as they are moved into the cache. */
    method Value() returns (pages: Pages)
      requires Separate()
      ensures pages == Pages()
    {
      pages := map k | k in content :: Page(content[k].content[..], content[k].validFrom, content[k].validUpTo);
    }

    /** The map entry of page `k`, a new page if there was none. */
    method EntryOrDefault(k: nat)
      requires Separate()
      modifies this
      ensures Separate() && fresh(Repr - old(Repr)) && old(Repr) <= Repr
      ensures k in content && Pages() == old(Pages())[k := PageFor(old(Pages()), lim.pageSize, k)]
      ensures attributes == old(attributes)
    {
      if k !in content {
        var page := new FilePage(lim.pageSize);
        InsertPage(k, page);
      }
    }

    method WriteEntry(k: nat, data: seq<byte>, offset: nat)
      requires Separate() && offset + |data| <= lim.pageSize && k in content
      modifies content[k], content[k].content
      ensures Separate()
      ensures Pages() == old(Pages())[k := PageWrite(old(Pages())[k], data, offset)]
    {
      hide PageWrite;
      content[k].Write(data, offset);
    }

    /** Bytes written in place into the page `k`, which is new if it was not there. */
    method WriteToPage(k: nat, data: seq<byte>, offset: nat)
      requires Separate() && offset + |data| <= lim.pageSize
      modifies Repr
      ensures Separate() && fresh(Repr - old(Repr))
      ensures Pages() == old(Pages())[k := PageWrite(PageFor(old(Pages()), lim.pageSize, k), data, offset)]
      ensures attributes == old(attributes)
    {
      hide PageWrite, PageFor;
      EntryOrDefault(k);
      WriteEntry(k, data, offset);
    }

    /** The part of the bytes that falls into the page of the offset, written into this page. */
    method WriteFirstPart(offset: nat, data: seq<byte>) returns (n: nat)
      requires Separate() && data != []
      modifies Repr
      ensures Separate() && fresh(Repr - old(Repr)) && attributes == old(attributes)
      ensures n == FirstPart(lim.pageSize, offset, data) && 0 < n <= |data|
      ensures Pages() == WriteFirst(old(Pages()), lim.pageSize, offset, data)
    {
      hide PageWrite, PageFor, FirstPart;
      var pageIndex, pageOffset: nat := offset / lim.pageSize, offset % lim.pageSize;
      n := FirstPart(lim.pageSize, offset, data);
      WriteToPage(pageIndex, data[..n], pageOffset);
    }

    /** The page loop of a content write. */
    method WriteContent(offset: nat, data: seq<byte>)
      requires Valid()
      modifies Repr
      ensures Valid() && fresh(Repr - old(Repr))
      ensures Pages() == PagedFile.WriteContent(old(Pages()), lim, offset, data)
      ensures attributes == old(attributes)
    {
      hide PagedFile.WriteContent, WriteFirst, FileOk, FirstPart;
      var remaining, current: nat := data, offset;
      WriteContentKeepsOk(Pages(), lim, offset, data);
      while remaining != []
        invariant Separate() && fresh(Repr - old(Repr)) && attributes == old(attributes)
        invariant PagedFile.WriteContent(Pages(), lim, current, remaining)
               == PagedFile.WriteContent(old(Pages()), lim, offset, data)
        decreases |remaining|
      {
        PageCount();
        if lim.maxPages == 0 || |content| >= lim.maxPages {
          break;
        }
        WriteContentUnfold(Pages(), lim, current, remaining);
        var toWrite := WriteFirstPart(current, remaining);
        remaining := remaining[toWrite..];
        current := current + toWrite;
      }
      WriteContentStops(Pages(), lim, current, remaining);
    }

    lemma PageCount()
      requires Separate()
      ensures |Pages()| == |content| && Pages().Keys == content.Keys
    {
      assert Pages().Keys == content.Keys;
      assert |Pages()| == |Pages().Keys| && |content| == |content.Keys|;
    }

    lemma PageInvariant()
      requires Valid()
      ensures PagesOk(Pages(), lim.pageSize) && Pages().Keys == content.Keys
    {
    }

    /** The page loop of a read; it stops at the first byte that is not valid. */
    method Read(offset: nat, size: nat) returns (buffer: seq<byte>)
      requires Valid()
      ensures buffer == ReadRun(View(Pages(), lim.pageSize), offset, size)
    {
      hide View, PageRead, IsRun, ReadRun, FileOk, PagesOk;
      buffer := [];
      var remaining, current: nat := size, offset;
      ghost var v := View(Pages(), lim.pageSize);
      ReadStart(v, offset);
      while remaining > 0
        invariant current == offset + |buffer| && remaining == size - |buffer| >= 0
        invariant IsRun(v, offset, buffer)
      {
        var pageIndex, pageOffset: nat := current / lim.pageSize, current % lim.pageSize;
        InsidePage(current, lim.pageSize);
        var maxRead: nat := Min(remaining, lim.pageSize - pageOffset);
        PageInvariant();
        PageReadMeaning(Pages(), lim.pageSize, current, maxRead);
        if pageIndex !in content {
          break;
        }
        PageInside(pageIndex);
        var slice := content[pageIndex].Read(pageOffset, maxRead);
        if slice == None {
          break;
        }
        RunJoin(v, offset, buffer, slice.value);
        buffer := buffer + slice.value;
        remaining := remaining - |slice.value|;
        if |slice.value| < maxRead {
          break;
        }
        current := current + maxRead;
      }
      ReadRunUnique(v, offset, size, buffer);
    }

    /** Writing the valid bytes of page `k` of the other file over this file. */
    method MergePage(other: File, k: nat)
      requires Valid() && other.Valid() && lim == other.lim && Repr !! other.Repr && k in other.content
      modifies Repr
      ensures Valid() && fresh(Repr - old(Repr))
      ensures Pages() == MergeOne(old(Pages()), old(other.Pages()), lim, k)
      ensures attributes == old(attributes)
      ensures other.Valid() && other.Pages() == old(other.Pages()) && Repr !! other.Repr
    {
      hide PagedFile.WriteContent, FileOk;
      other.PageInside(k);
      var page := other.content[k];
      WriteContent(k * lim.pageSize + page.validFrom, page.content[page.validFrom..page.validUpTo]);
    }

    /** The page loop of a merge, in the order in which the hash map hands out its keys. */
    method MergeContent(other: File) returns (ghost order: seq<nat>)
      requires Valid() && other.Valid() && lim == other.lim && Repr !! other.Repr
      modifies Repr
      ensures Valid() && fresh(Repr - old(Repr))
      ensures IsOrder(order, old(other.Pages()).Keys)
      ensures Pages() == PageMerge.Merge(old(Pages()), old(other.Pages()), lim, order)
      ensures attributes == old(attributes)
    {
      hide PageMerge.Merge, MergeOne, FileOk, Full, IsOrder;
      ghost var g := other.Pages();
      other.PageCount();
      var keys := HashOrder(other.content.Keys);
      order := keys;
      var i := 0;
      assert keys[0..] == keys;
      while i < |keys|
        invariant 0 <= i <= |keys|
        invariant Valid() && fresh(Repr - old(Repr)) && Repr !! other.Repr
        invariant other.Valid() && other.Pages() == g
        invariant PageMerge.Merge(Pages(), g, lim, keys[i..]) == PageMerge.Merge(old(Pages()), g, lim, keys)
        invariant attributes == old(attributes)
      {
        PageCount();
        FullMeaning(Pages(), lim);
        if lim.maxPages == 0 || |content| >= lim.maxPages {
          break;
        }
        MergeStep(Pages(), g, lim, keys, i);
        MergePage(other, keys[i]);
        i := i + 1;
      }
      MergeStops(Pages(), g, lim, keys[i..]);
    }

    /** Known attributes of the other file win, its valid bytes are written over the pages. */
    method Merge(other: File) returns (ghost order: seq<nat>)
      requires Valid() && other.Valid() && lim == other.lim && Repr !! other.Repr
      modifies Repr
      ensures Valid() && fresh(Repr - old(Repr))
      ensures IsOrder(order, old(other.Pages()).Keys)
      ensures Pages() == PageMerge.Merge(old(Pages()), old(other.Pages()), lim, order)
      ensures attributes == if old(other.attributes).Some? then old(other.attributes) else old(attributes)
    {
      hide PageMerge.Merge, FileOk, IsOrder;
      if other.attributes.Some? {
        attributes := other.attributes;
      }
      assert Pages() == old(Pages());
      order := MergeContent(other);
    }

    lemma PageInside(k: nat)
      requires Valid() && k in content
      ensures k in Pages() && Pages()[k] == content[k].Value()
      ensures content[k].validFrom < content[k].validUpTo <= content[k].content.Length == lim.pageSize
      ensures content[k].content[content[k].validFrom..content[k].validUpTo] == ValidBytes(Pages()[k])
    {
      assert PageOk(Pages()[k], lim.pageSize);
    }
  }

  lemma MergeStep(f: Pages, g: Pages, lim: Limits, keys: seq<nat>, i: nat)
    requires i < |keys| && !Full(f, lim)
    ensures PageMerge.Merge(f, g, lim, keys[i..]) ==
            PageMerge.Merge(MergeOne(f, g, lim, keys[i]), g, lim, keys[i + 1..])
  {
    hide MergeOne, Full, PageMerge.Merge;
    MergeUnfold(f, g, lim, keys[i..]);
    assert keys[i..][1..] == keys[i + 1..];
  }

  function Without(pages: Pages, left: set<nat>): Pages {
    pages - left
  }

  lemma WithoutAll(pages: Pages)
    ensures Without(pages, pages.Keys) == map[] && Without(pages, {}) == pages
  {
  }

  lemma WithoutOne(pages: Pages, left: set<nat>, k: nat)
    requires k in left && left <= pages.Keys
    ensures k !in Without(pages, left) && Without(pages, left - {k}) == Without(pages, left)[k := pages[k]]
  {
  }

  lemma ReadStart(v: imap<nat, byte>, offset: nat)
    ensures IsRun(v, offset, [])
  {
  }

  lemma PageRun(f: Pages, ps: pos, i: nat, s: seq<byte>)
    requires i % ps + |s| <= ps && i / ps in f && f[i / ps].validUpTo <= |f[i / ps].content|
    requires f[i / ps].validFrom <= i % ps && i % ps + |s| <= f[i / ps].validUpTo
    requires s == f[i / ps].content[i % ps..i % ps + |s|]
    ensures IsRun(View(f, ps), i, s)
  {
    forall j | i <= j < i + |s| ensures j in View(f, ps) && s[j - i] == View(f, ps)[j] {
      InPage(i, j - i, ps);
    }
  }

  /** Reading inside one page reads the sparse map up to the first hole. */
  lemma PageReadMeaning(f: Pages, ps: pos, i: nat, n: nat)
    requires PagesOk(f, ps) && 0 < n && i % ps + n <= ps
    ensures i / ps !in f ==> i !in View(f, ps)
    ensures i / ps in f ==>
              match PageRead(f[i / ps], i % ps, n)
              case None => i !in View(f, ps)
              case Some(s) =>
                && |s| <= n
                && IsRun(View(f, ps), i, s)
                && (|s| < n ==> i + |s| !in View(f, ps))
  {
    hide IsRun;
    if i / ps in f {
      var r := PageRead(f[i / ps], i % ps, n);
      if r.Some? {
        PageRun(f, ps, i, r.value);
        if |r.value| < n {
          InPage(i, |r.value|, ps);
        }
      }
    }
  }
}
