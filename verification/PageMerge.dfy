/** Merging the pages of one file into another, in the arbitrary order of a hash map. */
module PageMerge {
  import opened Bytes
  import opened PagedFile

  function ValidBytes(p: Page): seq<byte> {
    if p.validFrom <= p.validUpTo <= |p.content| then p.content[p.validFrom..p.validUpTo] else []
  }

  /** The valid bytes of page `q` written over page `p`. */
  function PageOver(p: Page, q: Page): Page {
    PageWrite(p, ValidBytes(q), q.validFrom)
  }

  /** `order` lists every key exactly once. */
  ghost predicate IsOrder(order: seq<nat>, keys: set<nat>) {
    && (forall i, j :: 0 <= i < j < |order| ==> order[i] != order[j])
    && Elements(order) == keys
  }

  function Elements(s: seq<nat>): set<nat> {
    set k | k in s
  }

  lemma EmptyOrder(order: seq<nat>)
    requires IsOrder(order, {})
    ensures order == []
  {
    assert order != [] ==> order[0] in Elements(order);
  }

  function MergeOne(f: Pages, g: Pages, lim: Limits, k: nat): Pages {
    if k in g then WriteContent(f, lim, k * lim.pageSize + g[k].validFrom, ValidBytes(g[k])) else f
  }

  /** The loop of a merge, visiting the other file's pages in the given order. */
  function Merge(f: Pages, g: Pages, lim: Limits, order: seq<nat>): Pages
    decreases |order|
  {
    if order == [] || Full(f, lim) then f else Merge(MergeOne(f, g, lim, order[0]), g, lim, order[1..])
  }

  /** How many pages of `order` are written before the page limit stops the merge. */
  function MergeCount(f: Pages, g: Pages, lim: Limits, order: seq<nat>): (n: nat)
    ensures n <= |order|
    decreases |order|
  {
    if order == [] || Full(f, lim) then 0 else 1 + MergeCount(MergeOne(f, g, lim, order[0]), g, lim, order[1..])
  }

  /** `f` with the pages `keys` of `g` laid over it, without any loop or order. */
  function Overlay(f: Pages, g: Pages, keys: set<nat>): (r: Pages)
    ensures r.Keys == f.Keys + keys * g.Keys
  {
    map k | k in f.Keys + keys * g.Keys ::
      if k !in keys || k !in g then f[k] else if k in f then PageOver(f[k], g[k]) else g[k]
  }

  lemma ValidBytesFit(p: Page, ps: pos)
    requires PageOk(p, ps)
    ensures ValidBytes(p) != [] && p.validFrom + |ValidBytes(p)| == p.validUpTo <= ps
    ensures PageWrite(NewPage(ps), ValidBytes(p), p.validFrom) == p
    ensures PageOver(p, p) == p
  {
    assert PageWrite(NewPage(ps), ValidBytes(p), p.validFrom).content == p.content;
    assert PageOver(p, p).content == p.content;
  }

  lemma MergeOneIsOverlay(f: Pages, g: Pages, lim: Limits, k: nat)
    requires PagesOk(f, lim.pageSize) && PagesOk(g, lim.pageSize) && k in g && !Full(f, lim)
    ensures PagesOk(MergeOne(f, g, lim, k), lim.pageSize)
    ensures MergeOne(f, g, lim, k) == Overlay(f, g, {k})
  {
    hide WriteContent, Accepted, Full, PageOk, PageWrite, ValidBytes;
    var p, ps := g[k], lim.pageSize;
    var offset, data := k * ps + p.validFrom, ValidBytes(p);
    ValidBytesFit(p, ps);
    DivModUnique(k, p.validFrom, ps);
    assert FirstPart(ps, offset, data) == |data| && data[..|data|] == data && data[|data|..] == [];
    WriteFirstOk(f, ps, offset, data);
    WriteContentUnfold(f, lim, offset, data);
    WriteContentStops(WriteFirst(f, ps, offset, data), lim, offset + |data|, []);
    assert MergeOne(f, g, lim, k) == f[k := PageWrite(PageFor(f, ps, k), data, p.validFrom)];
  }

  lemma ElementsCons(s: seq<nat>)
    requires s != []
    ensures Elements(s) == {s[0]} + Elements(s[1..])
  {
    assert s == [s[0]] + s[1..];
  }

  lemma OverlayMore(f: Pages, g: Pages, k: nat, keys: set<nat>)
    requires k !in keys
    ensures Overlay(Overlay(f, g, {k}), g, keys) == Overlay(f, g, {k} + keys)
  {
    hide PageOver;
  }

  lemma MergeStops(f: Pages, g: Pages, lim: Limits, order: seq<nat>)
    requires order == [] || Full(f, lim)
    ensures Merge(f, g, lim, order) == f && MergeCount(f, g, lim, order) == 0
  {
  }

  lemma MergeUnfold(f: Pages, g: Pages, lim: Limits, order: seq<nat>)
    requires order != [] && !Full(f, lim)
    ensures var f1 := MergeOne(f, g, lim, order[0]);
            && Merge(f, g, lim, order) == Merge(f1, g, lim, order[1..])
            && MergeCount(f, g, lim, order) == 1 + MergeCount(f1, g, lim, order[1..])
  {
    hide MergeOne, Full;
  }

  /** A merge lays exactly the pages it gets to over the file, and it gets to all of them
      unless the page map fills up. */
  lemma {:induction false} MergeIsOverlay(f: Pages, g: Pages, lim: Limits, order: seq<nat>)
    requires PagesOk(f, lim.pageSize) && PagesOk(g, lim.pageSize)
    requires forall i, j :: 0 <= i < j < |order| ==> order[i] != order[j]
    requires Elements(order) <= g.Keys
    ensures var n := MergeCount(f, g, lim, order);
            var r := Merge(f, g, lim, order);
            && PagesOk(r, lim.pageSize)
            && r == Overlay(f, g, Elements(order[..n]))
            && (n == |order| || Full(r, lim))
    decreases |order|
  {
    hide Merge, MergeCount, MergeOne, Overlay, PagesOk, Full, Elements;
    if order == [] || Full(f, lim) {
      MergeStops(f, g, lim, order);
      OverlayNothing(f, g, order);
    } else {
      var k := order[0];
      ElementsCons(order);
      MergeOneIsOverlay(f, g, lim, k);
      MergeUnfold(f, g, lim, order);
      var f1 := MergeOne(f, g, lim, k);
      MergeIsOverlay(f1, g, lim, order[1..]);
      var m := MergeCount(f1, g, lim, order[1..]);
      ElementsCons(order[..m + 1]);
      assert order[..m + 1][1..] == order[1..][..m];
      NotLater(order, m);
      OverlayMore(f, g, k, Elements(order[1..][..m]));
    }
  }

  lemma NotLater(order: seq<nat>, m: nat)
    requires m < |order| && forall i, j :: 0 <= i < j < |order| ==> order[i] != order[j]
    ensures order[0] !in Elements(order[1..][..m])
  {
  }

  lemma OverlayNothing(f: Pages, g: Pages, order: seq<nat>)
    ensures Overlay(f, g, Elements(order[..0])) == f
  {
  }

  lemma OverTwice(p: Page, q: Page, ps: pos)
    requires PageOk(p, ps) && PageOk(q, ps)
    ensures PageOver(PageOver(p, q), q) == PageOver(p, q)
  {
    assert PageOver(PageOver(p, q), q).content == PageOver(p, q).content;
  }

  lemma OverlayTwice(f: Pages, g: Pages, ps: pos)
    requires PagesOk(f, ps) && PagesOk(g, ps)
    ensures Overlay(Overlay(f, g, g.Keys), g, g.Keys) == Overlay(f, g, g.Keys)
  {
    hide PageOver, PageOk;
    forall k | k in g
      ensures k in f ==> PageOver(PageOver(f[k], g[k]), g[k]) == PageOver(f[k], g[k])
      ensures PageOver(g[k], g[k]) == g[k]
    {
      ValidBytesFit(g[k], ps);
      if k in f {
        OverTwice(f[k], g[k], ps);
      }
    }
  }

  lemma MergeAll(f: Pages, g: Pages, lim: Limits, order: seq<nat>)
    requires PagesOk(f, lim.pageSize) && PagesOk(g, lim.pageSize)
    requires IsOrder(order, g.Keys) && |f.Keys + g.Keys| < lim.maxPages
    ensures Merge(f, g, lim, order) == Overlay(f, g, g.Keys)
    ensures PagesOk(Merge(f, g, lim, order), lim.pageSize)
  {
    hide Merge, MergeCount, PagesOk, Overlay, Elements;
    MergeIsOverlay(f, g, lim, order);
    var r := Merge(f, g, lim, order);
    ElementsPrefix(order, MergeCount(f, g, lim, order));
    SubsetSize(r.Keys, f.Keys + g.Keys);
    assert |r| == |r.Keys|;
    assert order[..|order|] == order;
  }

  lemma ElementsPrefix(s: seq<nat>, n: nat)
    requires n <= |s|
    ensures Elements(s[..n]) <= Elements(s)
  {
  }

  /** With room for both files' pages strictly below the limit, every visiting order gives
      the same overlay of `g` on `f`, and merging `g` again in any order changes nothing. */
  lemma MergeAnyOrder(f: Pages, g: Pages, lim: Limits, order: seq<nat>, again: seq<nat>)
    requires PagesOk(f, lim.pageSize) && PagesOk(g, lim.pageSize)
    requires IsOrder(order, g.Keys) && IsOrder(again, g.Keys)
    requires |f.Keys + g.Keys| < lim.maxPages
    ensures Merge(f, g, lim, order) == Overlay(f, g, g.Keys)
    ensures Merge(Merge(f, g, lim, order), g, lim, again) == Merge(f, g, lim, order)
  {
    hide Merge, PagesOk, Overlay, IsOrder;
    MergeAll(f, g, lim, order);
    var r := Overlay(f, g, g.Keys);
    OverlayTwice(f, g, lim.pageSize);
    assert r.Keys + g.Keys == f.Keys + g.Keys;
    MergeAll(r, g, lim, again);
  }

  /** The page-map invariant survives every merge. */
  lemma {:induction false} MergeKeepsOk(f: Pages, g: Pages, lim: Limits, order: seq<nat>)
    requires FileOk(f, lim)
    ensures FileOk(Merge(f, g, lim, order), lim)
    decreases |order|
  {
    hide Merge, FileOk, Full, WriteContent;
    if order == [] || Full(f, lim) {
      MergeStops(f, g, lim, order);
    } else {
      var k := order[0];
      if k in g {
        WriteContentKeepsOk(f, lim, k * lim.pageSize + g[k].validFrom, ValidBytes(g[k]));
      }
      MergeUnfold(f, g, lim, order);
      MergeKeepsOk(MergeOne(f, g, lim, k), g, lim, order[1..]);
    }
  }

  // ---- when the limit makes the order matter ----

  lemma ElementsAppend(s: seq<nat>, k: nat)
    ensures Elements(s + [k]) == Elements(s) + {k}
  {
    assert (s + [k])[|s|] == k;
    forall x | x in s ensures x in s + [k] {
    }
  }

  /** Some order of the keys of a set. */
  ghost function SomeOrder(keys: set<nat>): (r: seq<nat>)
    ensures IsOrder(r, keys)
    decreases |keys|
  {
    if keys == {} then []
    else
      var k :| k in keys;
      var rest := SomeOrder(keys - {k});
      assert k !in Elements(rest);
      ElementsAppend(rest, k);
      rest + [k]
  }

  lemma {:induction false} CompletePrefix(f: Pages, g: Pages, lim: Limits, a: seq<nat>, last: nat)
    requires MergeCount(f, g, lim, a + [last]) == |a| + 1
    ensures !Full(Merge(f, g, lim, a), lim) && MergeCount(f, g, lim, a) == |a|
    decreases |a|
  {
    hide MergeOne, Full;
    if Full(f, lim) {
      MergeStops(f, g, lim, a + [last]);
    } else if a == [] {
      MergeStops(f, g, lim, a);
    } else {
      MergeUnfold(f, g, lim, a + [last]);
      MergeUnfold(f, g, lim, a);
      assert (a + [last])[1..] == a[1..] + [last];
      CompletePrefix(MergeOne(f, g, lim, a[0]), g, lim, a[1..], last);
    }
  }

  /** A merge that got through all of `a` and then still wrote `last` had room after `a`. */
  lemma RoomBeforeLast(f: Pages, g: Pages, lim: Limits, a: seq<nat>, last: nat)
    requires PagesOk(f, lim.pageSize) && PagesOk(g, lim.pageSize) && IsOrder(a, g.Keys - {last})
    ensures MergeCount(f, g, lim, a + [last]) == |a| + 1 ==> RoomLeft(f.Keys + (g.Keys - {last}), lim)
  {
    hide PagesOk, Full, RoomLeft, Merge, MergeCount, Overlay, Elements;
    if MergeCount(f, g, lim, a + [last]) == |a| + 1 {
      CompletePrefix(f, g, lim, a, last);
      MergeIsOverlay(f, g, lim, a);
      FullIffNoRoom(Merge(f, g, lim, a), lim);
      assert a[..|a|] == a;
      assert (g.Keys - {last}) * g.Keys == g.Keys - {last};
    }
  }

  predicate MergeHasRoom(fk: set<nat>, gk: set<nat>, lim: Limits) {
    || gk == {}
    || |fk + gk| < lim.maxPages
    || (|fk + gk| == lim.maxPages && fk !! gk)
  }

  lemma RoomAfterSome(fk: set<nat>, gk: set<nat>, lim: Limits, some: set<nat>, k: nat)
    requires MergeHasRoom(fk, gk, lim) && some <= gk && k in gk && k !in some
    ensures RoomLeft(fk + some, lim)
  {
    SubsetSize(fk + some, fk + gk);
    if fk !! gk {
      SubsetSize(fk + some + {k}, fk + gk);
    }
  }

  lemma NoRoomAfterRest(fk: set<nat>, gk: set<nat>, lim: Limits, last: nat)
    requires !MergeHasRoom(fk, gk, lim) && last in gk && (last in fk || fk !! gk)
    ensures !RoomLeft(fk + (gk - {last}), lim)
  {
    if last in fk {
      assert fk + (gk - {last}) == fk + gk;
    } else {
      assert fk + gk == fk + (gk - {last}) + {last};
    }
  }

  lemma RoomMeansComplete(f: Pages, g: Pages, lim: Limits, order: seq<nat>)
    requires PagesOk(f, lim.pageSize) && PagesOk(g, lim.pageSize)
    requires MergeHasRoom(f.Keys, g.Keys, lim) && IsOrder(order, g.Keys)
    ensures MergeCount(f, g, lim, order) == |order|
  {
    hide PagesOk, Merge, MergeCount, Overlay, Full, RoomLeft, MergeHasRoom;
    MergeIsOverlay(f, g, lim, order);
    var n := MergeCount(f, g, lim, order);
    FullIffNoRoom(Merge(f, g, lim, order), lim);
    if n < |order| {
      var done := Elements(order[..n]);
      ElementsPrefix(order, n);
      assert order[n] in Elements(order) && done * g.Keys == done;
      RoomAfterSome(f.Keys, g.Keys, lim, done, order[n]);
    }
  }

  /** Every visiting order gets through all pages exactly if the union of the pages is below
      the limit, or reaches it with no page in common, or there is nothing to merge. */
  lemma MergeCompleteIff(f: Pages, g: Pages, lim: Limits)
    requires PagesOk(f, lim.pageSize) && PagesOk(g, lim.pageSize)
    ensures (forall order :: IsOrder(order, g.Keys) ==> MergeCount(f, g, lim, order) == |order|)
       <==> MergeHasRoom(f.Keys, g.Keys, lim)
  {
    hide PagesOk, Merge, MergeCount, Overlay, IsOrder;
    if MergeHasRoom(f.Keys, g.Keys, lim) {
      forall order | IsOrder(order, g.Keys) ensures MergeCount(f, g, lim, order) == |order| {
        RoomMeansComplete(f, g, lim, order);
      }
    } else {
      var last :| last in g && (last in f || f.Keys !! g.Keys);
      var a := SomeOrder(g.Keys - {last});
      NoRoomAfterRest(f.Keys, g.Keys, lim, last);
      RoomBeforeLast(f, g, lim, a, last);
      OrderWithLast(a, g.Keys, last);
    }
  }

  lemma OrderWithLast(a: seq<nat>, keys: set<nat>, last: nat)
    requires last in keys && IsOrder(a, keys - {last})
    ensures IsOrder(a + [last], keys)
  {
    ElementsAppend(a, last);
    assert last !in Elements(a);
  }
}
