/** Listings of a client that has only read: names, kinds and attributes are the server's. */
module ExactListings {
  import opened Bytes
  import opened PagedFile
  import opened Cache
  import opened RwBuffer
  import opened FsModel
  import opened Runs
  import opened ReadTransparency
  import opened Listing
  import Storage

  /** Every entry has the attributes of the server's node at its path. */
  ghost predicate AttributesRight(t: Tree, dir: Path, items: seq<ListItem>) {
    forall i :: 0 <= i < |items| ==>
                  dir + [items[i].name] in t && items[i].attributes == Storage.AttrOf(t[dir + [items[i].name]])
  }

  ghost predicate DotAttributesRight(t: Tree, dir: Path, items: seq<ListItem>) {
    && |items| >= 2
    && dir in t && items[0].attributes == Storage.AttrOf(t[dir])
    && ParentOrRoot(dir) in t && items[1].attributes == Storage.AttrOf(t[ParentOrRoot(dir)])
  }

  lemma {:induction false} LookupRight(cfg: FsConfig, t: Tree, m: Entries, dir: Path, names: seq<Name>, nows: seq<nat>)
    requires |nows| == |names| && EntriesExact(cfg.cache.limits.pageSize, t, m) && EntriesCoherent(t, m)
    ensures var items := LookupChildren(cfg, m, dir, names, nows).1;
            items.Some? ==> AttributesRight(t, dir, items.value)
    decreases |names|
  {
    hide EntriesExact, EntriesCoherent, CacheGet;
    if names != [] {
      var key := dir + [names[0]];
      GetExact(cfg, t, m, key, nows[0]);
      GetCoherent(cfg, t, m, key, nows[0]);
      var (m1, hit) := CacheGet(cfg, m, key, nows[0]);
      if ItemAttributes(hit).Some? {
        assert hit.value.name == names[0];
        HitAttributes(cfg.cache.limits.pageSize, t, key, hit.value);
        LookupRight(cfg, t, m1, dir, names[1..], nows[1..]);
      }
    }
  }

  lemma DotsRightToo(cfg: FsConfig, s: FsState, path: Path, items: seq<ListItem>, self: AttrChoice, up: AttrChoice)
    requires Exact(cfg, s)
    ensures var r := WithDots(cfg, s, path, items, self, up).1;
            r.Ok? ==> DotAttributesRight(s.tree, path, r.value) && r.value[2..] == items
  {
    hide Exact, GetAttributes;
    GetAttributesExact(cfg, s, path, self);
    GetAttributesExact(cfg, GetAttributes(cfg, s, path, self).0, ParentOrRoot(path), up);
  }

  lemma MissRight(cfg: FsConfig, s: FsState, path: Path, c: ReaddirChoice)
    requires Exact(cfg, s) && |c.puts| == |c.listing| && ListingChosen(s.tree, path, c)
    ensures var r := ReaddirMiss(cfg, s, path, c).1;
            r.Ok? ==> DotAttributesRight(s.tree, path, r.value) && AttributesRight(s.tree, path, r.value[2..])
  {
    hide GetAttributes, PutChildren, WithDots, EntriesExact, WindowExact, CachePut, Storage.IsListing;
    if path in s.tree && s.tree[path].Dir? {
      GetAttributesExact(cfg, s, path, c.self);
      var (s1, attr) := GetAttributes(cfg, s, path, c.self);
      var dir := DirectoryItem(LastName(path), Some(attr.value), Some(c.listing));
      PutExact(cfg, s.tree, s1.cache, path, dir, false, c.put);
      var m1 := CachePut(cfg, s1.cache, path, dir, false, c.put);
      forall n | n in c.listing ensures path + [n] in s.tree {
        Storage.ListedArePresent(s.tree, path, c.listing, n);
      }
      PutChildrenExact(cfg, s.tree, m1, path, c.listing, c.puts);
      var items := ServerItems(s.tree, path, c.listing);
      DotsRightToo(cfg, s1.(cache := PutChildren(cfg, m1, path, items, c.puts)), path, items, c.dot, c.dotdot);
    }
  }

  /** From a cache that is exact, hit or miss, the two dot entries and all others have the names,
      kinds and attributes that the server has now. */
  lemma ReaddirRight(cfg: FsConfig, s: FsState, path: Path, c: ReaddirChoice)
    requires Exact(cfg, s) && Coherent(cfg, s) && |c.puts| == |c.listing| && ListingChosen(s.tree, path, c)
    ensures var r := Readdir(cfg, s, path, c).1;
            && (r.Ok? <==> path in s.tree && s.tree[path].Dir?)
            && (r.Ok? ==>
                  && DotsRight(s.tree, path, r.value) && ExactListing(s.tree, path, r.value[2..])
                  && DotAttributesRight(s.tree, path, r.value) && AttributesRight(s.tree, path, r.value[2..]))
  {
    hide WithDots, ReaddirMiss, LookupChildren, EntriesExact, EntriesCoherent, WindowExact, Storage.IsListing, CacheGet,
      Storage.WellFormed, DotsRight, ExactListing, DotAttributesRight, AttributesRight;
    ReaddirExact(cfg, s, path, c);
    GetExact(cfg, s.tree, s.cache, path, c.get);
    GetCoherent(cfg, s.tree, s.cache, path, c.get);
    var (m, hit) := CacheGet(cfg, s.cache, path, c.get);
    if hit.Some? && hit.value.DirectoryItem? && hit.value.children.Some? && |c.children| == |hit.value.children.value| {
      LookupExact(cfg, s.tree, m, path, hit.value.children.value, c.children);
      LookupRight(cfg, s.tree, m, path, hit.value.children.value, c.children);
    }
    var (m1, items) := CachedListing(cfg, m, path, hit, c.children);
    if items.Some? {
      DotsRightToo(cfg, s.(cache := m1), path, items.value, c.dot, c.dotdot);
    } else {
      MissRight(cfg, s.(cache := m1), path, c);
    }
  }

  // ---- whole runs ----

  lemma BytesAreOfAFile(cfg: FsConfig, s: FsState, path: Path, offset: nat, size: nat, now: nat)
    requires Exact(cfg, s) && Brought(cfg, s, path, offset, size, now) != []
    ensures path in s.tree && s.tree[path].File?
  {
    hide EntriesExact;
  }

  lemma ChunkCoherent(cfg: FsConfig, t: Tree, path: Path, offset: nat, data: seq<byte>)
    requires path in t && t[path].File?
    ensures ItemCoherent(t, path, ChunkItem(cfg, path, offset, data))
  {
  }

  lemma ReadKeepsCoherent(cfg: FsConfig, s: FsState, path: Path, offset: nat, size: nat, c: ReadChoice)
    requires Exact(cfg, s) && Coherent(cfg, s)
    ensures Coherent(cfg, ReadFile(cfg, s, path, offset, size, c).0)
  {
    hide GetAttributes, CachedBytes, EntriesExact, EntriesCoherent, Storage.WellFormed, CacheGet, Exact, WindowRead,
      ChunkItem, CachePut;
    GetAttributesExact(cfg, s, path, c.attr);
    GetAttributesCoherent(cfg, s, path, c.attr);
    var (s1, attr) := GetAttributes(cfg, s, path, c.attr);
    if !(attr.Ok? && offset >= attr.value.size) {
      var (m, hit) := CacheGet(cfg, s1.cache, path, c.get);
      GetCoherent(cfg, s.tree, s1.cache, path, c.get);
      GetUncached(cfg, s1.cache, path, c.get);
      KeptExact(cfg, s1, path, c.get);
      MissKeepsCoherent(cfg, s1.(cache := m), path, offset, size, CachedBytes(cfg, hit, offset, size), c.miss);
    }
  }

  lemma KeptExact(cfg: FsConfig, s: FsState, path: Path, now: nat)
    requires Exact(cfg, s)
    ensures Exact(cfg, s.(cache := CacheGet(cfg, s.cache, path, now).0))
  {
    hide EntriesExact, CacheGet;
    GetExact(cfg, s.tree, s.cache, path, now);
  }

  lemma MissKeepsCoherent(cfg: FsConfig, s: FsState, path: Path, offset: nat, size: nat, cachedBytes: seq<byte>,
                          c: MissChoice)
    requires Exact(cfg, s) && Coherent(cfg, s)
    ensures Coherent(cfg, ReadMiss(cfg, s, path, offset, size, cachedBytes, c).0)
  {
    hide Exact, EntriesCoherent, Storage.WellFormed, WindowRead, ChunkItem, Put, ItemCoherent;
    var data := Brought(cfg, s, path, offset, size, c.window);
    if data != [] {
      BytesAreOfAFile(cfg, s, path, offset, size, c.window);
    }
    if path in s.tree && s.tree[path].File? {
      ChunkCoherent(cfg, s.tree, path, offset, data);
      PutCoherent(cfg, s.tree, s.cache, path, ChunkItem(cfg, path, offset, data), false, c.put);
    }
  }

  lemma StepKeepsBoth(cfg: FsConfig, s: FsState, op: Op)
    requires Exact(cfg, s) && Coherent(cfg, s) && OnlyReads(cfg.cache.limits.pageSize, s.tree, op)
    ensures Exact(cfg, Step(cfg, s, op)) && Coherent(cfg, Step(cfg, s, op)) && Step(cfg, s, op).tree == s.tree
  {
    hide Exact, Coherent, ReadFile, GetAttributes, Readdir, Storage.IsListing;
    StepExact(cfg, s, op);
    if op.ReadOp? {
      ReadKeepsCoherent(cfg, s, op.path, op.offset, op.size, op.rc);
    } else {
      StepCoherent(cfg, s, op);
    }
  }

  lemma {:induction false} RunKeepsBoth(cfg: FsConfig, s: FsState, ops: seq<Op>)
    requires Exact(cfg, s) && Coherent(cfg, s)
    requires forall op :: op in ops ==> OnlyReads(cfg.cache.limits.pageSize, s.tree, op)
    ensures Exact(cfg, Run(cfg, s, ops)) && Coherent(cfg, Run(cfg, s, ops)) && Run(cfg, s, ops).tree == s.tree
    decreases |ops|
  {
    hide Step, OnlyReads, Exact, Coherent;
    if ops != [] {
      assert ops[0] in ops && forall op :: op in ops[1..] ==> op in ops;
      StepKeepsBoth(cfg, s, ops[0]);
      RunKeepsBoth(cfg, Step(cfg, s, ops[0]), ops[1..]);
    }
  }

  /** From a client that knows nothing, after any reads, lookups and listings with any evictions
      and expiries: a listing, from the cache or not, is the server's in names, kinds and
      attributes, the two dot entries included. */
  lemma ListingsRightFromStart(cfg: FsConfig, t: Tree, ops: seq<Op>, path: Path, c: ReaddirChoice)
    requires cfg.capacity > 0 && cfg.capacity % cfg.cache.limits.pageSize == 0 && Storage.WellFormed(t)
    requires forall op :: op in ops ==> OnlyReads(cfg.cache.limits.pageSize, t, op)
    requires |c.puts| == |c.listing| && ListingChosen(t, path, c)
    ensures var r := Readdir(cfg, Run(cfg, Start(t), ops), path, c).1;
            && (r.Ok? <==> path in t && t[path].Dir?)
            && (r.Ok? ==>
                  && DotsRight(t, path, r.value) && ExactListing(t, path, r.value[2..])
                  && DotAttributesRight(t, path, r.value) && AttributesRight(t, path, r.value[2..]))
  {
    hide Run, OnlyReads, Exact, Coherent, Readdir, ListingChosen;
    StartExact(cfg, t);
    StartCoherent(cfg, t);
    RunKeepsBoth(cfg, Start(t), ops);
    ReaddirRight(cfg, Run(cfg, Start(t), ops), path, c);
  }
}
