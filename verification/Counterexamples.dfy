/** Short runs in which the client answers or keeps something the server does not hold. */
module Counterexamples {
  import opened Bytes
  import opened PagedFile
  import opened PageMerge
  import opened Cache
  import opened RwBuffer
  import opened FsModel
  import opened Runs
  import AppendOnly
  import CallLoops
  import FreshAnswers
  import Listing
  import StaleBytes
  import Storage

  function Stamp(now: nat): Choice {
    Choice(now, [], [])
  }

  // ---- attributes that outlive their time to live ----

  const FILE := Attributes(0, KindFile)

  /** First a file, then, by another client, a directory. */
  function FileTree(p: Path): Tree {
    map[[] := Storage.Dir, p := Storage.File([])]
  }

  function DirTree(p: Path): Tree {
    map[[] := Storage.Dir, p := Storage.Dir]
  }

  /** The listing looks the attributes up in the last moment in which their entry is valid, and
      stores them again in the next one. */
  function LateListing(ttl: nat): ReaddirChoice {
    var late := AttrChoice(ttl + 1, Stamp(ttl + 1));
    ReaddirChoice(ttl, [], AttrChoice(ttl, Stamp(ttl)), late, late, [], Stamp(ttl + 1), [])
  }

  lemma FirstLookup(cfg: FsConfig, p: Path)
    requires cfg.cached && |p| == 1
    ensures var (s, r) := GetAttributes(cfg, Start(FileTree(p)), p, AttrChoice(0, Stamp(0)));
            && r == Ok(FILE)
            && s == Start(FileTree(p)).(cache := map[p := CacheEntry(AttrItem(LastName(p), FILE), 0, 0, 0)])
  {
    var s := GetAttributes(cfg, Start(FileTree(p)), p, AttrChoice(0, Stamp(0))).0;
    assert Get(cfg.cache, map[], p, 0).0 == map[];
    assert MakeRoom(cfg.cache, map[], []) == map[];
    assert s.cache == map[][p := CacheEntry(AttrItem(LastName(p), FILE), 0, 0, 0)];
  }

  lemma NoChildren(p: Path)
    requires |p| == 1
    ensures Storage.WellFormed(FileTree(p)) && Storage.WellFormed(DirTree(p)) && Storage.IsListing(DirTree(p), p, [])
  {
    forall q | q in DirTree(p) && q != [] ensures Storage.Up(q) == [] {
    }
    forall q | q in FileTree(p) && q != [] ensures Storage.Up(q) == [] {
    }
    assert Storage.Names(DirTree(p), p) == {};
  }

  /** An entry that holds the old attributes. */
  predicate HoldsOld(m: Entries, p: Path, createdAt: nat) {
    p in m && m[p].createdAt == createdAt && m[p].item.attributes == Some(FILE)
  }

  lemma KeptByLookups(cfg: FsConfig, s: FsState, p: Path, q: Path, c: AttrChoice, createdAt: nat)
    requires cfg.cached && HoldsOld(s.cache, p, createdAt) && c.get <= createdAt + cfg.cache.ttl && (q == p || q == [])
    ensures var (s', r) := GetAttributes(cfg, s, q, c);
            && HoldsOld(s'.cache, p, createdAt) && s'.tree == s.tree
            && (q == p ==> r == Ok(FILE))
  {
  }

  lemma ListingRenews(cfg: FsConfig, s: FsState, p: Path)
    requires cfg.cached && cfg.cache.useTtl && |p| == 1 && s.tree == DirTree(p)
    requires HoldsOld(s.cache, p, 0) && s.cache[p].item.FileItem?
    ensures var s' := Readdir(cfg, s, p, LateListing(cfg.cache.ttl)).0;
            HoldsOld(s'.cache, p, cfg.cache.ttl + 1) && s'.tree == s.tree
  {
    hide GetAttributes;
    var ttl, c := cfg.cache.ttl, LateListing(cfg.cache.ttl);
    var (m, hit) := CacheGet(cfg, s.cache, p, ttl);
    assert HoldsOld(m, p, 0) && hit.value.FileItem?;
    var s1 := s.(cache := m);
    KeptByLookups(cfg, s1, p, p, c.self, 0);
    var s2 := GetAttributes(cfg, s1, p, c.self).0;
    var dir := DirectoryItem(LastName(p), Some(FILE), Some([]));
    var m3 := CachePut(cfg, s2.cache, p, dir, false, c.put);
    assert Expired(cfg.cache, s2.cache[p], ttl + 1);
    assert HoldsOld(m3, p, ttl + 1);
    var s3 := s2.(cache := m3);
    KeptByLookups(cfg, s3, p, p, c.dot, ttl + 1);
    KeptByLookups(cfg, GetAttributes(cfg, s3, p, c.dot).0, p, [], c.dotdot, ttl + 1);
    assert ParentOrRoot(p) == [];
    assert ServerItems(s.tree, p, []) == [];
    assert PutChildren(cfg, m3, p, [], []) == m3;
  }

  function OldRun(p: Path, ttl: nat): seq<Op> {
    [AttrOp(p, AttrChoice(0, Stamp(0))), ServerOp(DirTree(p)), ReaddirOp(p, LateListing(ttl))]
  }

  lemma ThreeSteps(cfg: FsConfig, delay: nat, s: FsState, a: Op, b: Op, d: Op)
    ensures var s1 := Step(cfg, s, a);
            var s2 := Step(cfg, s1, b);
            var e1 := End(cfg, -1, s, a);
            var e2 := End(cfg, e1, s1, b);
            && Run(cfg, s, [a, b, d]) == Step(cfg, s2, d)
            && RunSeen(cfg, s, [a, b, d]) == Seen(cfg, s, a) + Seen(cfg, s1, b) + Seen(cfg, s2, d)
            && RunEnd(cfg, -1, s, [a, b, d]) == End(cfg, e2, s2, d)
            && (RunOk(cfg, delay, -1, s, [a, b, d]) <==>
                OpOk(cfg, delay, -1, s, a) && OpOk(cfg, delay, e1, s1, b) && OpOk(cfg, delay, e2, s2, d))
  {
    hide Step, Seen, End, OpOk;
    assert [a, b, d][1..] == [b, d] && [b, d][1..] == [d] && [d][1..] == [];
    var s1 := Step(cfg, s, a);
    var s2 := Step(cfg, s1, b);
    var s3 := Step(cfg, s2, d);
    assert Run(cfg, s2, [d]) == s3;
    assert Run(cfg, s1, [b, d]) == s3;
    assert RunSeen(cfg, s2, [d]) == Seen(cfg, s2, d) + RunSeen(cfg, s3, []);
    assert RunSeen(cfg, s1, [b, d]) == Seen(cfg, s1, b) + Seen(cfg, s2, d);
    var e1 := End(cfg, -1, s, a);
    var e2 := End(cfg, e1, s1, b);
    assert RunOk(cfg, delay, e2, s2, [d]) <==> OpOk(cfg, delay, e2, s2, d);
    assert RunEnd(cfg, e2, s2, [d]) == End(cfg, e2, s2, d);
  }

  lemma OldRunResult(cfg: FsConfig, delay: nat, p: Path)
    requires cfg.cached && cfg.cache.useTtl && |p| == 1
    ensures var ttl := cfg.cache.ttl;
            var s := Run(cfg, Start(FileTree(p)), OldRun(p, ttl));
            && RunOk(cfg, delay, -1, Start(FileTree(p)), OldRun(p, ttl))
            && RunEnd(cfg, -1, Start(FileTree(p)), OldRun(p, ttl)) == ttl + 1
            && RunSeen(cfg, Start(FileTree(p)), OldRun(p, ttl)) ==
               [Snapshot(0, FileTree(p)), Snapshot(ttl + 1, DirTree(p))]
            && HoldsOld(s.cache, p, ttl + 1) && s.tree == DirTree(p)
  {
    hide Readdir, GetAttributes, Storage.WellFormed, Storage.IsListing;
    var ttl := cfg.cache.ttl;
    var a, b, d := AttrOp(p, AttrChoice(0, Stamp(0))), ServerOp(DirTree(p)), ReaddirOp(p, LateListing(ttl));
    ThreeSteps(cfg, delay, Start(FileTree(p)), a, b, d);
    FirstLookup(cfg, p);
    NoChildren(p);
    ListingRenews(cfg, Step(cfg, Step(cfg, Start(FileTree(p)), a), b), p);
  }

  /** A run of three calls after which the attributes of a file are answered although, for more
      than the time to live and the duration of a call, the server has had a directory there. */
  lemma OldAttributesAnswered(cfg: FsConfig, delay: nat, p: Path)
    requires cfg.cached && cfg.cache.useTtl && |p| == 1 && delay <= cfg.cache.ttl
    ensures var ttl := cfg.cache.ttl;
            var c := AttrChoice(2 * ttl + 1, Stamp(2 * ttl + 1));
            var s := Run(cfg, Start(FileTree(p)), OldRun(p, ttl));
            var h := RunSeen(cfg, Start(FileTree(p)), OldRun(p, ttl)) + [Snapshot(c.put.now, s.tree)];
            && RunOk(cfg, delay, -1, Start(FileTree(p)), OldRun(p, ttl))
            && AttrOk(RunEnd(cfg, -1, Start(FileTree(p)), OldRun(p, ttl)), c)
            && GetAttributes(cfg, s, p, c).1 == Ok(FILE)
            && !FreshAnswers.HadAttributes(h, p, c.get - ttl - delay, FILE)
  {
    hide Run, RunSeen, RunOk, RunEnd, GetAttributes;
    var ttl := cfg.cache.ttl;
    var c := AttrChoice(2 * ttl + 1, Stamp(2 * ttl + 1));
    OldRunResult(cfg, delay, p);
    var s := Run(cfg, Start(FileTree(p)), OldRun(p, ttl));
    KeptByLookups(cfg, s, p, p, c, ttl + 1);
    var h := [Snapshot(0, FileTree(p)), Snapshot(ttl + 1, DirTree(p))] + [Snapshot(2 * ttl + 1, DirTree(p))];
    assert h == [Snapshot(0, FileTree(p)), Snapshot(ttl + 1, DirTree(p)), Snapshot(2 * ttl + 1, DirTree(p))];
    forall j | 0 <= j < |h| ensures !FreshAnswers.AttributesHeld(h[j], p, c.get - ttl - delay, FILE) {
    }
  }

  // ---- a listing that misses a file ----

  /** A write that stays in the buffer, the removal of its file, a listing, and a flush. */
  function LostRun(p: Path, wc: WriteChoice, dc: ReaddirChoice, fc: Choice): seq<Op> {
    [WriteOp(p, 0, [1], wc), RemoveOp(p), ReaddirOp([], dc), FlushOp(fc)]
  }

  lemma FourSteps(cfg: FsConfig, s: FsState, a: Op, b: Op, d: Op, e: Op)
    ensures Run(cfg, s, [a, b, d, e]) == Step(cfg, Step(cfg, Step(cfg, Step(cfg, s, a), b), d), e)
  {
    hide Step;
    assert [a, b, d, e][1..] == [b, d, e] && [b, d, e][1..] == [d, e] && [d, e][1..] == [e] && [e][1..] == [];
    var s1 := Step(cfg, s, a);
    var s2 := Step(cfg, s1, b);
    var s3 := Step(cfg, s2, d);
    assert Run(cfg, s3, [e]) == Step(cfg, s3, e);
    assert Run(cfg, s2, [d, e]) == Run(cfg, s3, [e]);
  }

  lemma BufferedWrite(cfg: FsConfig, s: FsState, p: Path, wc: WriteChoice)
    requires cfg.capacity > 1 && s.pending == CLEAN
    ensures WriteFile(cfg, s, p, 0, [1], wc).0 == s.(pending := Pending(Some(p), 0, [1]))
  {
    assert [1][..1] == [1];
  }

  lemma OnlyRoot(cfg: FsConfig, p: Path)
    requires cfg.cached && |p| == 1
    ensures var s := Start(FileTree(p)).(pending := Pending(Some(p), 0, [1]));
            RemovePath(cfg, s, p).0 == s.(tree := map[[] := Storage.Dir], cache := map[])
  {
    hide Ancestors;
    var t := FileTree(p);
    assert t - {p} == map[[] := Storage.Dir];
    assert Remove(map[], p) == map[];
  }

  lemma NothingListed(names: seq<Name>)
    requires Storage.ListsExactly(names, {})
    ensures names == []
  {
    assert |names| > 0 ==> names[0] in names;
    var all: set<Name> := set n | n in names;
    assert all == {};
    assert forall n :: n in names ==> n in all;
  }

  lemma RootListed(cfg: FsConfig, s: FsState, dc: ReaddirChoice)
    requires cfg.cached && !cfg.cache.useTtl && s.tree == map[[] := Storage.Dir] && s.cache == map[]
    requires |dc.puts| == |dc.listing| && ListingChosen(s.tree, [], dc)
    ensures var s' := Readdir(cfg, s, [], dc).0;
            && s'.tree == s.tree && s'.pending == s.pending
            && s'.cache.Keys == {[]} && Listing.ListingKnown(s'.cache, [])
  {
    assert Storage.Names(s.tree, []) == {};
    NothingListed(dc.listing);
    assert dc.puts == [];
    assert ServerItems(s.tree, [], []) == [];
    var dir := DirectoryItem("", Some(Storage.AttrOf(Storage.Dir)), Some([]));
    var m := CachePut(cfg, map[], [], dir, false, dc.put);
    assert m.Keys == {[]} && Listing.ListingKnown(m, []);
    assert PutChildren(cfg, m, [], [], []) == m;
  }

  /** The flush creates the file again, and the cached listing of its directory goes on without
      it: the client is coherent before the flush and not after it. */
  lemma ListingLosesFile(cfg: FsConfig, p: Path, wc: WriteChoice, dc: ReaddirChoice, fc: Choice)
    requires cfg.cached && !cfg.cache.useTtl && cfg.capacity > 1 && cfg.cache.capacity > 1 && |p| == 1
    requires |dc.puts| == |dc.listing| && ListingChosen(map[[] := Storage.Dir], [], dc)
    ensures Listing.Coherent(cfg, Run(cfg, Start(FileTree(p)), LostRun(p, wc, dc, fc)[..3]))
    ensures !Listing.Coherent(cfg, Run(cfg, Start(FileTree(p)), LostRun(p, wc, dc, fc)))
  {
    hide Run, Step, Listing.Coherent, ListingChosen, Listing.ListingKnown;
    var s0 := Start(FileTree(p));
    LostSteps(cfg, p, wc, dc, fc);
    var s3 := Run(cfg, s0, LostRun(p, wc, dc, fc)[..3]);
    ListedBeforeFlush(cfg, p, wc, dc, fc);
    FlushLoses(cfg, s3, p, fc);
  }

  lemma LostSteps(cfg: FsConfig, p: Path, wc: WriteChoice, dc: ReaddirChoice, fc: Choice)
    ensures var s := Start(FileTree(p));
            var s3 := Step(cfg, Step(cfg, Step(cfg, s, WriteOp(p, 0, [1], wc)), RemoveOp(p)), ReaddirOp([], dc));
            && Run(cfg, s, LostRun(p, wc, dc, fc)[..3]) == s3
            && Run(cfg, s, LostRun(p, wc, dc, fc)) == Step(cfg, s3, FlushOp(fc))
  {
    hide Step;
    var s := Start(FileTree(p));
    var a, b, d, e := WriteOp(p, 0, [1], wc), RemoveOp(p), ReaddirOp([], dc), FlushOp(fc);
    FourSteps(cfg, s, a, b, d, e);
    assert LostRun(p, wc, dc, fc)[..3] == [a, b, d];
    assert [a, b, d][1..] == [b, d] && [b, d][1..] == [d] && [d][1..] == [];
    var s1 := Step(cfg, s, a);
    var s2 := Step(cfg, s1, b);
    assert Run(cfg, s2, [d]) == Step(cfg, s2, d);
  }

  lemma ListedBeforeFlush(cfg: FsConfig, p: Path, wc: WriteChoice, dc: ReaddirChoice, fc: Choice)
    requires cfg.cached && !cfg.cache.useTtl && cfg.capacity > 1 && |p| == 1
    requires |dc.puts| == |dc.listing| && ListingChosen(map[[] := Storage.Dir], [], dc)
    ensures var s3 := Run(cfg, Start(FileTree(p)), LostRun(p, wc, dc, fc)[..3]);
            && Listing.Coherent(cfg, s3)
            && s3.tree == map[[] := Storage.Dir] && s3.pending == Pending(Some(p), 0, [1])
            && s3.cache.Keys == {[]} && Listing.ListingKnown(s3.cache, [])
  {
    hide Run, WriteFile, RemovePath, Readdir, Listing.EntriesCoherent, Storage.WellFormed, Storage.IsListing;
    var s0 := Start(FileTree(p));
    LostSteps(cfg, p, wc, dc, fc);
    BufferedWrite(cfg, s0, p, wc);
    OnlyRoot(cfg, p);
    var s2 := s0.(tree := map[[] := Storage.Dir], cache := map[], pending := Pending(Some(p), 0, [1]));
    RootListed(cfg, s2, dc);
    Listing.StartCoherent(cfg, map[[] := Storage.Dir]);
    assert Listing.Coherent(cfg, s2);
    Listing.ReaddirExact(cfg, s2, [], dc);
  }

  lemma FlushLoses(cfg: FsConfig, s: FsState, p: Path, fc: Choice)
    requires cfg.cached && !cfg.cache.useTtl && cfg.cache.capacity > 1 && |p| == 1
    requires Listing.Coherent(cfg, s) && s.tree == map[[] := Storage.Dir] && s.pending == Pending(Some(p), 0, [1])
    requires s.cache.Keys == {[]} && Listing.ListingKnown(s.cache, [])
    ensures !Listing.Coherent(cfg, Step(cfg, s, FlushOp(fc)))
  {
    hide Listing.EntriesCoherent, Storage.WellFormed, ChunkItem;
    var s1, u := s.(pending := CLEAN), Upload(p, 0, [1]);
    assert Storage.Up(p) == [];
    assert |s.cache| == |s.cache.Keys| == 1;
    assert s.cache - {p} == s.cache;
    Listing.UploadCoherentIff(cfg, s1, u, fc);
  }

  // ---- bytes that the server does not hold ----

  function Fives(p: Path): Tree {
    map[[] := Storage.Dir, p := Storage.File([5, 5, 5])]
  }

  /** The same file with one byte overwritten. */
  function NineAt(offset: nat): seq<byte> {
    WriteAt([5, 5, 5], offset, [9])
  }

  /** A client without expiry, with a window and a write buffer of one byte. */
  predicate SmallWindow(cfg: FsConfig) {
    && cfg.cached && !cfg.cache.useTtl && cfg.capacity == 1 && cfg.cache.capacity > 0
    && cfg.cache.limits.maxPages > 0
  }

  function OneByte(lim: Limits, offset: nat, b: byte): Pages {
    WriteContent(map[], lim, offset, [b])
  }

  lemma OneBytePage(lim: Limits, offset: nat, b: byte)
    requires offset < lim.pageSize && lim.maxPages > 0
    ensures var g := OneByte(lim, offset, b);
            && g.Keys == {0} && g[0].validFrom == offset && g[0].validUpTo == offset + 1 && PagesOk(g, lim.pageSize)
            && ValidAt(g, lim.pageSize, offset) && ByteAt(g, lim.pageSize, offset) == b
  {
    var ps := lim.pageSize;
    DivModUnique(0, offset, ps);
    assert [b][..1] == [b] && [b][1..] == [];
    assert !Full(map[], lim);
    WriteContentUnfold(map[], lim, offset, [b]);
    var f := WriteFirst(map[], ps, offset, [b]);
    assert f == map[0 := PageWrite(NewPage(ps), [b], offset)];
    WriteContentStops(f, lim, offset + 1, []);
    AppendOnly.EmptyOk(ps);
    WriteContentMeaning(map[], lim, offset, [b], offset);
  }

  lemma ZeroOrder()
    ensures IsOrder([0], {0}) && Elements([0]) == {0}
  {
    assert [0][0] == 0;
    assert Elements([0]) == {0};
  }

  /** Nothing stops the merge of the first page. */
  lemma FirstPageMerged(lim: Limits, b: byte)
    requires lim.maxPages > 0
    ensures PageMerge.Merge(map[], OneByte(lim, 0, b), lim, [0]) == OneByte(lim, 0, b)
  {
    hide PageMerge.Merge, OneByte, MergeOne, PagesOk, ValidAt, ByteAt;
    var g := OneByte(lim, 0, b);
    OneBytePage(lim, 0, b);
    AppendOnly.EmptyOk(lim.pageSize);
    assert !Full(map[], lim);
    MergeOneIsOverlay(map[], g, lim, 0);
    assert [0][1..] == [] && g.Keys == {0};
    OverNothing(g);
    MergeUnfold(map[], g, lim, [0]);
    MergeStops(g, g, lim, []);
  }

  lemma PageZero(f: Pages, g: Pages, lim: Limits)
    requires f.Keys <= {0} && g.Keys == {0} && lim.maxPages > 1 && PagesOk(f, lim.pageSize) && PagesOk(g, lim.pageSize)
    ensures PageMerge.Merge(f, g, lim, [0]) == Overlay(f, g, g.Keys)
  {
    hide PageMerge.Merge, Overlay, PagesOk, IsOrder;
    ZeroOrder();
    assert f.Keys + g.Keys == {0};
    MergeAll(f, g, lim, [0]);
  }

  /** The second byte lies between the first and the new one and becomes a valid zero. */
  lemma GapIsZero(lim: Limits, offset: nat, b: byte)
    requires 2 <= offset < lim.pageSize && lim.maxPages > 1
    ensures var r := PageMerge.Merge(OneByte(lim, 0, 5), OneByte(lim, offset, b), lim, [0]);
            ValidAt(r, lim.pageSize, 1) && ByteAt(r, lim.pageSize, 1) == 0
  {
    hide PageMerge.Merge, Overlay, OneByte, PagesOk, ValidAt, ByteAt;
    var g1, g2, ps := OneByte(lim, 0, 5), OneByte(lim, offset, b), lim.pageSize;
    OneBytePage(lim, 0, 5);
    OneBytePage(lim, offset, b);
    PageZero(g1, g2, lim);
    DivModUnique(0, 1, ps);
    assert StaleBytes.Apart(g1, g2, ps, 1);
    StaleBytes.ApartIsNeither(g1, g2, ps, 1);
    StaleBytes.OverlayAnywhere(g1, g2, ps, 1);
  }

  lemma OverNothing(g: Pages)
    ensures Overlay(map[], g, g.Keys) == g
  {
  }

  /** With room for one page only, the page that is there keeps its byte. */
  lemma FullKeepsFive(lim: Limits)
    requires lim.maxPages == 1
    ensures var r := PageMerge.Merge(OneByte(lim, 0, 5), OneByte(lim, 0, 9), lim, [0]);
            ValidAt(r, lim.pageSize, 0) && ByteAt(r, lim.pageSize, 0) == 5
  {
    hide PageMerge.Merge, OneByte, PagesOk, ValidAt, ByteAt;
    var g := OneByte(lim, 0, 5);
    OneBytePage(lim, 0, 5);
    assert |g| == |g.Keys| == 1;
    MergeStops(g, OneByte(lim, 0, 9), lim, [0]);
  }

  /** The cache holds nothing but the file, with these pages. */
  predicate HoldsPages(m: Entries, p: Path, f: Pages) {
    m.Keys == {p} && m[p].item.FileItem? && m[p].item.pages == f
  }

  lemma AttributesKeepPages(cfg: FsConfig, s: FsState, p: Path, c: AttrChoice, f: Pages)
    requires SmallWindow(cfg) && p != [] && p in s.tree && s.tree[p].File? && HoldsPages(s.cache, p, f)
    ensures var (s', r) := GetAttributes(cfg, s, p, c);
            && HoldsPages(s'.cache, p, f) && s'.tree == s.tree
            && (s.cache[p].item.attributes.None? ==> r == Ok(Storage.AttrOf(s.tree[p])))
  {
    hide PageMerge.Merge;
    AppendOnly.MergeEmpty(f, cfg.cache.limits, c.put.order);
    var m := CacheGet(cfg, s.cache, p, c.get).0;
    assert HoldsPages(m, p, f);
    var m' := CacheAttr(cfg, m, p, Storage.AttrOf(s.tree[p]), c.put);
    assert HoldsPages(m', p, f);
  }

  lemma FirstAttributes(cfg: FsConfig, p: Path, c: AttrChoice)
    requires SmallWindow(cfg) && p != []
    ensures var (s, r) := GetAttributes(cfg, Start(Fives(p)), p, c);
            && r == Ok(Attributes(3, KindFile)) && HoldsPages(s.cache, p, map[])
            && s.cache[p].item.attributes == Some(Attributes(3, KindFile))
            && s.tree == Fives(p) && s.window == Start(Fives(p)).window && s.pending == CLEAN
  {
    hide PageMerge.Merge;
    var s := GetAttributes(cfg, Start(Fives(p)), p, c).0;
    assert s.cache == map[p := CacheEntry(AttrItem(LastName(p), Attributes(3, KindFile)), c.put.now, c.put.now, 0)];
  }

  lemma ChunkMerged(cfg: FsConfig, m: Entries, p: Path, f: Pages, offset: nat, b: byte, invalidate: bool, c: Choice)
    requires SmallWindow(cfg) && p != [] && HoldsPages(m, p, f) && c.order == [0]
    ensures var m' := CacheWrite(cfg, m, p, offset, [b], invalidate, c);
            && HoldsPages(m', p, PageMerge.Merge(f, OneByte(cfg.cache.limits, offset, b), cfg.cache.limits, [0]))
            && (invalidate ==> m'[p].item.attributes.None?)
  {
    hide PageMerge.Merge, WriteContent;
  }

  lemma NothingCached(cfg: FsConfig, m: Entries, p: Path, now: nat)
    requires SmallWindow(cfg) && HoldsPages(m, p, map[])
    ensures var (m', hit) := CacheGet(cfg, m, p, now);
            CachedBytes(cfg, hit, 0, 1) == [] && HoldsPages(m', p, map[]) && m'[p].item == m[p].item
  {
    hide ReadRun;
    assert 0 !in View(map[], cfg.cache.limits.pageSize);
    ReadRunUnique(View(map[], cfg.cache.limits.pageSize), 0, 1, []);
  }

  lemma ReadOnce(cfg: FsConfig, p: Path, c: ReadChoice)
    requires SmallWindow(cfg) && p != [] && c.miss.put.order == [0]
    ensures var (s, r) := ReadFile(cfg, Start(Fives(p)), p, 0, 1, c);
            && r == Ok([5]) && s.tree == Fives(p) && s.pending == CLEAN
            && HoldsPages(s.cache, p, OneByte(cfg.cache.limits, 0, 5))
            && s.cache[p].item.attributes == Some(Attributes(3, KindFile))
            && s.window == ReadWindow(Some(p), 0, [5], c.miss.fill)
  {
    hide GetAttributes, CacheGet, CachedBytes, CacheWrite, PageMerge.Merge, OneByte;
    FirstAttributes(cfg, p, c.attr);
    var s1 := GetAttributes(cfg, Start(Fives(p)), p, c.attr).0;
    NothingCached(cfg, s1.cache, p, c.get);
    var m := CacheGet(cfg, s1.cache, p, c.get).0;
    assert [5, 5, 5][0..1] == [5] && [5][..1] == [5];
    ChunkMerged(cfg, m, p, map[], 0, 5, false, c.miss.put);
    AttributesStay(cfg, m, p, 0, c.miss.put);
    FirstPageMerged(cfg.cache.limits, 5);
  }

  lemma WriteOnce(cfg: FsConfig, s: FsState, p: Path, f: Pages, offset: nat, c: WriteChoice)
    requires SmallWindow(cfg) && p != [] && s.tree == Fives(p) && s.pending == CLEAN && HoldsPages(s.cache, p, f)
    requires c.first.order == [0]
    ensures var (s', r) := WriteFile(cfg, s, p, offset, [9], c);
            && r == Ok(1) && s'.tree == Fives(p)[p := Storage.File(NineAt(offset))]
            && HoldsPages(s'.cache, p, PageMerge.Merge(f, OneByte(cfg.cache.limits, offset, 9), cfg.cache.limits, [0]))
            && s'.cache[p].item.attributes.None?
  {
    hide UploadOne, PageMerge.Merge, NineAt;
    assert [9][..1] == [9];
    var u := Upload(p, offset, [9]);
    assert [] + [u] == [u];
    assert WriteSection(1, CLEAN, p, offset, [9]) == (CLEAN, [u], 1);
    assert ChoicesFor(1, c) == [c.first];
    CallLoops.OnlyUpload(cfg, s, u, c.first);
    UploadNine(cfg, s, p, f, offset, c.first);
  }

  lemma UploadNine(cfg: FsConfig, s: FsState, p: Path, f: Pages, offset: nat, c: Choice)
    requires SmallWindow(cfg) && p != [] && s.tree == Fives(p) && HoldsPages(s.cache, p, f) && c.order == [0]
    ensures var (s', r) := UploadOne(cfg, s, Upload(p, offset, [9]), c);
            && r == Ok(()) && s'.tree == Fives(p)[p := Storage.File(NineAt(offset))]
            && HoldsPages(s'.cache, p, PageMerge.Merge(f, OneByte(cfg.cache.limits, offset, 9), cfg.cache.limits, [0]))
            && s'.cache[p].item.attributes.None?
  {
    hide CacheWrite, PageMerge.Merge, WriteAt;
    ChunkMerged(cfg, s.cache, p, f, offset, 9, true, c);
  }

  predicate SizeBeyond(a: Option<Attributes>, i: nat) {
    a.Some? ==> i < a.value.size
  }

  lemma AttributesBeyond(cfg: FsConfig, s: FsState, p: Path, c: AttrChoice, i: nat)
    requires cfg.cached && p in s.cache && SizeBeyond(s.cache[p].item.attributes, i)
    requires p in s.tree && s.tree[p].File? && i < |s.tree[p].content|
    ensures var r := GetAttributes(cfg, s, p, c).1; r.Ok? && i < r.value.size
  {
  }

  /** A valid byte of the cached pages is what a read of it answers. */
  lemma ReadCached(cfg: FsConfig, s: FsState, p: Path, f: Pages, i: nat, b: byte, c: ReadChoice)
    requires SmallWindow(cfg) && p != [] && p in s.tree && s.tree[p].File? && i < |s.tree[p].content|
    requires HoldsPages(s.cache, p, f) && SizeBeyond(s.cache[p].item.attributes, i)
    requires ValidAt(f, cfg.cache.limits.pageSize, i) && ByteAt(f, cfg.cache.limits.pageSize, i) == b
    ensures ReadFile(cfg, s, p, i, 1, c).1 == Ok([b])
  {
    hide GetAttributes, ReadRun;
    AttributesKeepPages(cfg, s, p, c.attr, f);
    AttributesBeyond(cfg, s, p, c.attr, i);
    var s1 := GetAttributes(cfg, s, p, c.attr).0;
    var hit := CacheGet(cfg, s1.cache, p, c.get).1;
    ReadRunUnique(View(f, cfg.cache.limits.pageSize), i, 1, [b]);
    assert CachedBytes(cfg, hit, i, 1) == [b];
  }

  /** The first byte of an existing file is read, and one of its bytes is written. */
  function ReadThenWrite(p: Path, offset: nat, rc: ReadChoice, wc: WriteChoice): seq<Op> {
    [ReadOp(p, 0, 1, rc), WriteOp(p, offset, [9], wc)]
  }

  lemma AfterReadAndWrite(cfg: FsConfig, p: Path, offset: nat, rc: ReadChoice, wc: WriteChoice)
    requires SmallWindow(cfg) && p != [] && rc.miss.put.order == [0] && wc.first.order == [0]
    ensures var s, lim := Run(cfg, Start(Fives(p)), ReadThenWrite(p, offset, rc, wc)), cfg.cache.limits;
            && s.tree == Fives(p)[p := Storage.File(NineAt(offset))]
            && HoldsPages(s.cache, p, PageMerge.Merge(OneByte(lim, 0, 5), OneByte(lim, offset, 9), lim, [0]))
            && s.cache[p].item.attributes.None?
  {
    hide ReadFile, WriteFile, OneByte, PageMerge.Merge, NineAt;
    var s0 := Start(Fives(p));
    var a, b := ReadOp(p, 0, 1, rc), WriteOp(p, offset, [9], wc);
    ReadOnce(cfg, p, rc);
    var s1 := Step(cfg, s0, a);
    WriteOnce(cfg, s1, p, OneByte(cfg.cache.limits, 0, 5), offset, wc);
    assert [a, b][1..] == [b] && [b][1..] == [];
    assert Run(cfg, s1, [b]) == Step(cfg, s1, b);
  }

  /** The first byte is read and a byte behind the second written, inside the file or
      behind it: the next read of the second answers zero, and the server holds a five. */
  lemma GapReadsZero(cfg: FsConfig, p: Path, offset: nat, rc: ReadChoice, wc: WriteChoice, c: ReadChoice)
    requires SmallWindow(cfg) && p != [] && rc.miss.put.order == [0] && wc.first.order == [0]
    requires 2 <= offset < cfg.cache.limits.pageSize && cfg.cache.limits.maxPages > 1
    ensures var s := Run(cfg, Start(Fives(p)), ReadThenWrite(p, offset, rc, wc));
            && Storage.ReadFile(s.tree, p, 1, 1) == Ok([5])
            && ReadFile(cfg, s, p, 1, 1, c).1 == Ok([0])
  {
    hide Run, ReadFile, OneByte, PageMerge.Merge, ValidAt, ByteAt, NineAt;
    var lim := cfg.cache.limits;
    AfterReadAndWrite(cfg, p, offset, rc, wc);
    GapIsZero(lim, offset, 9);
    SecondStays(offset);
    var s := Run(cfg, Start(Fives(p)), ReadThenWrite(p, offset, rc, wc));
    ReadCached(cfg, s, p, PageMerge.Merge(OneByte(lim, 0, 5), OneByte(lim, offset, 9), lim, [0]), 1, 0, c);
  }

  lemma SecondStays(offset: nat)
    requires offset >= 2
    ensures |NineAt(offset)| >= 3 && NineAt(offset)[1..2] == [5]
  {
  }

  /** The first byte is read and overwritten, with room for one page: the next read of it answers
      the old byte, and the server holds the new one. */
  lemma FullMapReadsOld(cfg: FsConfig, p: Path, rc: ReadChoice, wc: WriteChoice, c: ReadChoice)
    requires SmallWindow(cfg) && p != [] && rc.miss.put.order == [0] && wc.first.order == [0]
    requires cfg.cache.limits.maxPages == 1
    ensures var s := Run(cfg, Start(Fives(p)), ReadThenWrite(p, 0, rc, wc));
            && Storage.ReadFile(s.tree, p, 0, 1) == Ok([9])
            && ReadFile(cfg, s, p, 0, 1, c).1 == Ok([5])
  {
    hide Run, ReadFile, OneByte, PageMerge.Merge, ValidAt, ByteAt;
    var lim := cfg.cache.limits;
    AfterReadAndWrite(cfg, p, 0, rc, wc);
    FullKeepsFive(lim);
    assert NineAt(0) == [9, 5, 5] && [9, 5, 5][0..1] == [9];
    var s := Run(cfg, Start(Fives(p)), ReadThenWrite(p, 0, rc, wc));
    ReadCached(cfg, s, p, PageMerge.Merge(OneByte(lim, 0, 5), OneByte(lim, 0, 9), lim, [0]), 0, 5, c);
  }

  /** A read whose bytes neither the cache nor the window has: one byte comes from the server. */
  lemma ReadAnother(cfg: FsConfig, s: FsState, p: Path, f: Pages, x: nat, c: ReadChoice)
    requires SmallWindow(cfg) && p != [] && p in s.tree && s.tree[p] == Storage.File([5, 5, 5]) && x < 3
    requires HoldsPages(s.cache, p, f) && s.cache[p].item.attributes == Some(Attributes(3, KindFile))
    requires !ValidAt(f, cfg.cache.limits.pageSize, x) && c.miss.put.order == [0]
    requires WindowRead(s.window, cfg.windowTtl, p, x, 1, c.miss.window) == []
    ensures var s' := ReadFile(cfg, s, p, x, 1, c).0;
            && s'.tree == s.tree && s'.cache.Keys == {p}
            && HoldsPages(s'.cache, p, PageMerge.Merge(f, OneByte(cfg.cache.limits, x, 5), cfg.cache.limits, [0]))
            && s'.cache[p].item.attributes == Some(Attributes(3, KindFile))
  {
    hide CacheWrite, PageMerge.Merge, OneByte, ReadRun, WindowRead;
    var s1 := GetAttributes(cfg, s, p, c.attr).0;
    assert HoldsPages(s1.cache, p, f);
    var (m, hit) := CacheGet(cfg, s1.cache, p, c.get);
    assert HoldsPages(m, p, f) && m[p].item == s.cache[p].item;
    ReadRunUnique(View(f, cfg.cache.limits.pageSize), x, 1, []);
    assert CachedBytes(cfg, hit, x, 1) == [];
    assert ReadAt([5, 5, 5], x, 1) == [5];
    ChunkMerged(cfg, m, p, f, x, 5, false, c.miss.put);
    AttributesStay(cfg, m, p, x, c.miss.put);
  }

  lemma AttributesStay(cfg: FsConfig, m: Entries, p: Path, x: nat, c: Choice)
    requires SmallWindow(cfg) && p != [] && p in m && m[p].item.FileItem?
    ensures p in CacheWrite(cfg, m, p, x, [5], false, c)
    ensures CacheWrite(cfg, m, p, x, [5], false, c)[p].item.attributes == m[p].item.attributes
  {
    hide PageMerge.Merge, WriteContent;
  }

  lemma NotInOneByte(lim: Limits)
    requires lim.pageSize > 2 && lim.maxPages > 0
    ensures !ValidAt(OneByte(lim, 0, 5), lim.pageSize, 2)
  {
    OneBytePage(lim, 0, 5);
    DivModUnique(0, 2, lim.pageSize);
  }

  /** Reads alone can do it: the first byte and the third are read, each alone, and the next read of
      the second answers a zero that the server never held. */
  lemma ReadsMakeAGap(cfg: FsConfig, p: Path, a: ReadChoice, b: ReadChoice, c: ReadChoice)
    requires SmallWindow(cfg) && p != [] && a.miss.put.order == [0] && b.miss.put.order == [0]
    requires cfg.cache.limits.pageSize > 2 && cfg.cache.limits.maxPages > 1
    ensures var s := Run(cfg, Start(Fives(p)), [ReadOp(p, 0, 1, a), ReadOp(p, 2, 1, b)]);
            && Storage.ReadFile(s.tree, p, 1, 1) == Ok([5])
            && ReadFile(cfg, s, p, 1, 1, c).1 == Ok([0])
  {
    hide ReadFile, OneByte, PageMerge.Merge, ValidAt, ByteAt;
    var lim, s0 := cfg.cache.limits, Start(Fives(p));
    var x, y := ReadOp(p, 0, 1, a), ReadOp(p, 2, 1, b);
    ReadOnce(cfg, p, a);
    var s1 := Step(cfg, s0, x);
    NotInOneByte(lim);
    ReadAnother(cfg, s1, p, OneByte(lim, 0, 5), 2, b);
    var s2 := Step(cfg, s1, y);
    assert [x, y][1..] == [y] && [y][1..] == [];
    assert Run(cfg, s1, [y]) == s2;
    assert Run(cfg, s0, [x, y]) == s2;
    GapIsZero(lim, 2, 5);
    assert [5, 5, 5][1..2] == [5];
    ReadCached(cfg, s2, p, PageMerge.Merge(OneByte(lim, 0, 5), OneByte(lim, 2, 5), lim, [0]), 1, 0, c);
  }
}
